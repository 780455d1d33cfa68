/** The string primitives the scraper relies on: `String.prototype.trim` and the UTF-16 `length`. */
module Text {

  /**
   * The characters `String.prototype.trim` strips: the WhiteSpace and
   * LineTerminator productions of ECMA-262 (TAB, VT, FF, ZWNBSP, the Unicode
   * space separators, LF, CR, LINE SEPARATOR and PARAGRAPH SEPARATOR).
   */
  predicate IsWhitespace(c: char) {
    || c == '\t' || c == '\U{000B}' || c == '\U{000C}' || c == '\U{FEFF}'
    || c == ' ' || c == '\U{00A0}' || c == '\U{1680}'
    || ('\U{2000}' <= c <= '\U{200A}')
    || c == '\U{202F}' || c == '\U{205F}' || c == '\U{3000}'
    || c == '\n' || c == '\r' || c == '\U{2028}' || c == '\U{2029}'
  }

  predicate AllWhitespace(s: string) {
    forall i :: 0 <= i < |s| ==> IsWhitespace(s[i])
  }

  /** Neither end of `s` is whitespace. */
  predicate IsTrimmed(s: string) {
    s == [] || (!IsWhitespace(s[0]) && !IsWhitespace(s[|s| - 1]))
  }

  /** Length of the longest all-whitespace prefix. */
  function LeadingSpaces(s: string): (n: nat)
    ensures n <= |s|
    ensures AllWhitespace(s[..n])
    ensures n < |s| ==> !IsWhitespace(s[n])
  {
    if |s| > 0 && IsWhitespace(s[0]) then 1 + LeadingSpaces(s[1..]) else 0
  }

  /** Length of the longest all-whitespace suffix. */
  function TrailingSpaces(s: string): (n: nat)
    ensures n <= |s|
    ensures AllWhitespace(s[|s| - n..])
    ensures n < |s| ==> !IsWhitespace(s[|s| - 1 - n])
  {
    if |s| > 0 && IsWhitespace(s[|s| - 1]) then 1 + TrailingSpaces(s[..|s| - 1]) else 0
  }

  /** `s.trim()`: drop leading and trailing whitespace. */
  function Trim(s: string): (r: string)
  {
    var core := s[LeadingSpaces(s)..];
    core[..|core| - TrailingSpaces(core)]
  }

  /**
   * `Trim` removes only whitespace, and only at the ends: `s` is some
   * whitespace, then `Trim(s)`, then some whitespace, and `Trim(s)` is trimmed.
   */
  lemma TrimSplits(s: string)
    ensures IsTrimmed(Trim(s))
    ensures exists i, j :: 0 <= i <= j <= |s| && Trim(s) == s[i..j] && AllWhitespace(s[..i]) && AllWhitespace(s[j..])
  {
    var a := LeadingSpaces(s);
    var core := s[a..];
    var b := TrailingSpaces(core);
    var r := core[..|core| - b];
    assert r == s[a..|s| - b];
    assert s[|s| - b..] == core[|core| - b..];
    if r != [] {
      assert r[0] == s[a];
      assert r[|r| - 1] == core[|core| - 1 - b];
    }
  }

  lemma LeadingSpacesAppend(a: string, t: string)
    requires AllWhitespace(a)
    ensures LeadingSpaces(a + t) == |a| + LeadingSpaces(t)
    decreases |a|
  {
    if a != [] {
      assert (a + t)[0] == a[0];
      assert (a + t)[1..] == a[1..] + t;
      LeadingSpacesAppend(a[1..], t);
    } else {
      assert a + t == t;
    }
  }

  lemma TrailingSpacesAppend(t: string, b: string)
    requires AllWhitespace(b)
    ensures TrailingSpaces(t + b) == TrailingSpaces(t) + |b|
    decreases |b|
  {
    if b != [] {
      assert (t + b)[|t + b| - 1] == b[|b| - 1];
      assert (t + b)[..|t + b| - 1] == t + b[..|b| - 1];
      TrailingSpacesAppend(t, b[..|b| - 1]);
    } else {
      assert t + b == t;
    }
  }

  /**
   * Trimming is determined by the decomposition: whitespace, a trimmed core,
   * whitespace always trims to the core. With `TrimSplits` this pins `Trim` down.
   */
  lemma {:induction false} TrimOfPadded(a: string, r: string, b: string)
    requires AllWhitespace(a) && AllWhitespace(b) && IsTrimmed(r)
    ensures Trim(a + r + b) == r
  {
    var s := a + r + b;
    if r == [] {
      assert s == a + b;
      assert AllWhitespace(s);
      LeadingSpacesAppend(s, []);
      assert s + [] == s;
      assert LeadingSpaces(s) == |s|;
    } else {
      assert s == a + (r + b);
      LeadingSpacesAppend(a, r + b);
      assert LeadingSpaces(s) == |a|;
      var core := s[|a|..];
      assert core == r + b;
      TrailingSpacesAppend(r, b);
      assert TrailingSpaces(r) == 0;
      assert core[..|core| - |b|] == r;
    }
  }

  /** Trimming twice is trimming once. */
  lemma TrimIdempotent(s: string)
    ensures Trim(Trim(s)) == Trim(s)
  {
    TrimSplits(s);
    TrimOfPadded([], Trim(s), []);
    assert [] + Trim(s) + [] == Trim(s);
  }

  /** A string trims to empty exactly when it is all whitespace. */
  lemma TrimEmptyIffBlank(s: string)
    ensures Trim(s) == [] <==> AllWhitespace(s)
  {
    TrimSplits(s);
    if AllWhitespace(s) {
      TrimOfPadded(s, [], []);
      assert s + [] + [] == s;
    }
    if Trim(s) == [] {
      var i, j :| 0 <= i <= j <= |s| && Trim(s) == s[i..j] && AllWhitespace(s[..i]) && AllWhitespace(s[j..]);
      forall k | 0 <= k < |s|
        ensures IsWhitespace(s[k])
      {
        if k < i { assert s[..i][k] == s[k]; } else { assert s[j..][k - j] == s[k]; }
      }
    }
  }

  /** Number of UTF-16 code units, which is what JavaScript's `length` counts. */
  function Utf16Length(s: string): (n: nat)
    ensures |s| <= n <= 2 * |s|
    ensures n == |s| <==> forall i :: 0 <= i < |s| ==> (s[i] as int) < 0x10000
  {
    if s == [] then 0
    else
      var init := s[..|s| - 1];
      assert forall i :: 0 <= i < |init| ==> init[i] == s[i];
      Utf16Length(init) + (if s[|s| - 1] as int >= 0x10000 then 2 else 1)
  }

  /** `length` adds up over concatenation. */
  lemma {:induction false} Utf16LengthAppend(a: string, b: string)
    ensures Utf16Length(a + b) == Utf16Length(a) + Utf16Length(b)
    decreases |b|
  {
    if b == [] {
      assert a + b == a;
    } else {
      var ab := a + b;
      var b' := b[..|b| - 1];
      assert ab[..|ab| - 1] == a + b';
      assert ab[|ab| - 1] == b[|b| - 1];
      Utf16LengthAppend(a, b');
    }
  }

  /** The UTF-16 code units of one character: itself, or a surrogate pair above U+FFFF. */
  function CodeUnits(c: char): seq<int>
  {
    var v := c as int;
    if v < 0x10000 then [v]
    else [0xD800 + (v - 0x10000) / 0x400, 0xDC00 + (v - 0x10000) % 0x400]
  }

  /** A string as JavaScript stores it: the code units of each character, in order. */
  function Utf16(s: string): seq<int>
  {
    if s == [] then [] else CodeUnits(s[0]) + Utf16(s[1..])
  }

  /** One or two units for a character, each a 16-bit value, and as many as `Utf16Length` counts. */
  lemma CodeUnitsRange(c: char)
    ensures |CodeUnits(c)| == Utf16Length([c])
    ensures forall i :: 0 <= i < |CodeUnits(c)| ==> 0 <= CodeUnits(c)[i] < 0x10000
  {
    assert [c][..0] == [];
  }

  /**
   * `Utf16Length` is the number of code units JavaScript stores, each of
   * which is a 16-bit value, with a surrogate pair for every character above
   * U+FFFF.
   */
  lemma {:induction false} Utf16Units(s: string)
    ensures |Utf16(s)| == Utf16Length(s)
    ensures forall i :: 0 <= i < |Utf16(s)| ==> 0 <= Utf16(s)[i] < 0x10000
    decreases |s|
  {
    if s != [] {
      var u := CodeUnits(s[0]);
      var rest := Utf16(s[1..]);
      assert Utf16(s) == u + rest;
      Utf16Units(s[1..]);
      CodeUnitsRange(s[0]);
      assert [s[0]] + s[1..] == s;
      Utf16LengthAppend([s[0]], s[1..]);
      forall i | 0 <= i < |u + rest| ensures 0 <= (u + rest)[i] < 0x10000 {
        if i >= |u| { assert (u + rest)[i] == rest[i - |u|]; }
      }
    }
  }
}
