/** Small scanning steps used to read generated text back. */
module Scan {
  import opened Wrappers

  predicate StartsWith(s: string, k: string) {
    |k| <= |s| && s[..|k|] == k
  }

  /** Consumes the literal `k` at the front of `s`. */
  function Lit(k: string, s: string): (r: Option<string>)
    ensures r.Some? <==> StartsWith(s, k)
    ensures r.Some? ==> s == k + r.value
  {
    if StartsWith(s, k) then Some(s[|k|..]) else None
  }

  /** Splits `s` before the first `stop`: the longest prefix without `stop`, and the rest. */
  function Until(stop: char, s: string): (r: (string, string))
    ensures r.0 + r.1 == s
    ensures stop !in r.0
    ensures r.1 == [] || r.1[0] == stop
  {
    if s == [] || s[0] == stop then ([], s)
    else
      var (field, rest) := Until(stop, s[1..]);
      assert [s[0]] + field + rest == s;
      ([s[0]] + field, rest)
  }

  /** Removes the literal `k` from the end of `s`. */
  function StripSuffix(s: string, k: string): (r: Option<string>)
    ensures r.Some? <==> |k| <= |s| && s[|s| - |k|..] == k
    ensures r.Some? ==> s == r.value + k
  {
    if |k| <= |s| && s[|s| - |k|..] == k then Some(s[..|s| - |k|]) else None
  }

  lemma LitMatches(k: string, rest: string)
    ensures Lit(k, k + rest) == Some(rest)
  {
    assert (k + rest)[..|k|] == k;
  }

  lemma StripSuffixMatches(a: string, k: string)
    ensures StripSuffix(a + k, k) == Some(a)
  {
    assert (a + k)[|a + k| - |k|..] == k;
  }

  /** `s` and `k` differ at position `i`, so `s` does not start with `k`. */
  lemma DiffersAt(s: string, k: string, i: nat)
    requires i < |s| && i < |k| && s[i] != k[i]
    ensures !StartsWith(s, k)
  {
    if |k| <= |s| {
      assert s[..|k|][i] == s[i];
    }
  }

  /** A field free of `stop`, followed by text that starts with `stop`, is split off exactly. */
  lemma {:induction false} UntilSplits(stop: char, field: string, rest: string)
    requires stop !in field
    requires rest == [] || rest[0] == stop
    ensures Until(stop, field + rest) == (field, rest)
    decreases |field|
  {
    if field == [] {
      assert field + rest == rest;
    } else {
      var s := field + rest;
      assert s[0] == field[0];
      assert s[1..] == field[1..] + rest;
      UntilSplits(stop, field[1..], rest);
      assert [field[0]] + field[1..] == field;
    }
  }
}
