/**
 * The search-results snippet list: trimmed element texts gathered selector by
 * selector, kept when longer than 20 UTF-16 units and not seen before, and
 * capped at five.
 */
module Snippets {
  import opened Text
  import opened Page
  import opened Sequences

  /** The selectors tried, most specific first. */
  const SnippetSelectors: seq<Selector> :=
    [".VwiC3b", ".hgKElc", ".IsZvec", ".aCOpRe", ".s", "div[data-content-feature=\"1\"] .VwiC3b"]

  const MaxSnippets: nat := 5

  /** A snippet must be strictly longer than this many UTF-16 code units. */
  const MinSnippetLength: nat := 20

  predicate Qualifies(t: string) {
    Utf16Length(t) > MinSnippetLength
  }

  predicate Distinct(s: seq<string>) {
    forall i, j :: 0 <= i < j < |s| ==> s[i] != s[j]
  }

  /** Index of the first occurrence of `x` in `s`. */
  function FirstIndex(s: seq<string>, x: string): (k: nat)
    requires x in s
    ensures k < |s| && s[k] == x && x !in s[..k]
  {
    if s[0] == x then 0 else 1 + FirstIndex(s[1..], x)
  }

  /** The first `n` entries of `s` (`s.slice(0, n)`). */
  function Take(s: seq<string>, n: nat): (r: seq<string>)
    ensures r <= s
    ensures |r| == if |s| <= n then |s| else n
  {
    if |s| <= n then s else s[..n]
  }

  /** The trimmed text of each element. */
  function Trims(texts: seq<string>): seq<string>
  {
    seq(|texts|, e requires 0 <= e < |texts| => Trim(texts[e]))
  }

  /** Every trimmed text the selectors see: selectors in order, then elements in document order. */
  function Candidates(dom: Dom, sels: seq<Selector>): seq<string>
  {
    if sels == [] then []
    else Candidates(dom, sels[..|sels| - 1]) + Trims(QueryAll(dom, sels[|sels| - 1]))
  }

  /** `t` is the trimmed text of some element matched by some selector of `sels`. */
  ghost predicate FromPage(dom: Dom, sels: seq<Selector>, t: string)
  {
    exists k, e :: 0 <= k < |sels| && 0 <= e < |QueryAll(dom, sels[k])| && t == Trim(QueryAll(dom, sels[k])[e])
  }

  /** The body of the `forEach` callback: push a long, unseen text. */
  function Keep(acc: seq<string>, t: string): seq<string>
  {
    if Qualifies(t) && t !in acc then acc + [t] else acc
  }

  /** Feed `ts` to `Keep` in order, starting from `acc`. */
  function Fold(acc: seq<string>, ts: seq<string>): (r: seq<string>)
    ensures acc <= r
    ensures Distinct(acc) ==> Distinct(r)
    ensures forall i :: |acc| <= i < |r| ==> Qualifies(r[i]) && r[i] in ts
    ensures forall t :: t in ts && Qualifies(t) ==> t in r
    decreases |ts|
  {
    if ts == [] then acc
    else
      var prefix := ts[..|ts| - 1];
      var r := Keep(Fold(acc, prefix), ts[|ts| - 1]);
      assert ts == prefix + [ts[|ts| - 1]];
      r
  }

  /** Everything the unbounded loop would collect over `sels`. */
  function Collected(dom: Dom, sels: seq<Selector>): seq<string>
  {
    Fold([], Candidates(dom, sels))
  }

  /** Reference definition: the first five entries of the whole filtered, deduplicated collection. */
  function FirstSnippets(dom: Dom, sels: seq<Selector>): seq<string>
  {
    Take(Collected(dom, sels), MaxSnippets)
  }

  lemma {:induction false} FoldAppend(acc: seq<string>, a: seq<string>, b: seq<string>)
    ensures Fold(acc, a + b) == Fold(Fold(acc, a), b)
    decreases |b|
  {
    if b == [] {
      assert a + b == a;
    } else {
      var b' := b[..|b| - 1];
      assert (a + b)[..|a + b| - 1] == a + b';
      assert (a + b)[|a + b| - 1] == b[|b| - 1];
      FoldAppend(acc, a, b');
    }
  }

  lemma {:induction false} CandidatesAppend(dom: Dom, a: seq<Selector>, b: seq<Selector>)
    ensures Candidates(dom, a + b) == Candidates(dom, a) + Candidates(dom, b)
    decreases |b|
  {
    if b == [] {
      assert a + b == a;
    } else {
      var b' := b[..|b| - 1];
      var last := Trims(QueryAll(dom, b[|b| - 1]));
      assert (a + b)[..|a + b| - 1] == a + b';
      assert (a + b)[|a + b| - 1] == b[|b| - 1];
      assert Candidates(dom, a + b) == Candidates(dom, a + b') + last;
      assert Candidates(dom, b) == Candidates(dom, b') + last;
      CandidatesAppend(dom, a, b');
      AppendAssoc(Candidates(dom, a), Candidates(dom, b'), last);
    }
  }

  lemma {:induction false} CandidateFromPage(dom: Dom, sels: seq<Selector>, t: string)
    requires t in Candidates(dom, sels)
    ensures FromPage(dom, sels, t)
    decreases |sels|
  {
    var init := sels[..|sels| - 1];
    var last := Trims(QueryAll(dom, sels[|sels| - 1]));
    assert Candidates(dom, sels) == Candidates(dom, init) + last;
    if t in Candidates(dom, init) {
      CandidateFromPage(dom, init, t);
      var k, e :| 0 <= k < |init| && 0 <= e < |QueryAll(dom, init[k])| && t == Trim(QueryAll(dom, init[k])[e]);
      assert sels[k] == init[k];
    } else {
      var e :| 0 <= e < |last| && last[e] == t;
      assert t == Trim(QueryAll(dom, sels[|sels| - 1])[e]);
    }
  }

  lemma {:induction false} PageTextIsCandidate(dom: Dom, sels: seq<Selector>, k: nat, e: nat)
    requires k < |sels| && e < |QueryAll(dom, sels[k])|
    ensures Trim(QueryAll(dom, sels[k])[e]) in Candidates(dom, sels)
    decreases |sels|
  {
    var init := sels[..|sels| - 1];
    var last := Trims(QueryAll(dom, sels[|sels| - 1]));
    assert Candidates(dom, sels) == Candidates(dom, init) + last;
    if k < |init| {
      assert init[k] == sels[k];
      PageTextIsCandidate(dom, init, k, e);
    } else {
      assert last[e] == Trim(QueryAll(dom, sels[k])[e]);
    }
  }

  /** The candidates are exactly the trimmed texts of the matched elements. */
  lemma CandidatesFromPage(dom: Dom, sels: seq<Selector>, t: string)
    ensures t in Candidates(dom, sels) <==> FromPage(dom, sels, t)
  {
    if t in Candidates(dom, sels) {
      CandidateFromPage(dom, sels, t);
    }
    if FromPage(dom, sels, t) {
      var k, e :| 0 <= k < |sels| && 0 <= e < |QueryAll(dom, sels[k])| && t == Trim(QueryAll(dom, sels[k])[e]);
      PageTextIsCandidate(dom, sels, k, e);
    }
  }

  lemma {:induction false} FirstIndexExtend(p: seq<string>, q: seq<string>, x: string)
    requires x in p
    ensures FirstIndex(p + q, x) == FirstIndex(p, x)
    decreases |p|
  {
    if p[0] != x {
      assert (p + q)[1..] == p[1..] + q;
      FirstIndexExtend(p[1..], q, x);
    }
  }

  lemma {:induction false} FirstIndexLast(p: seq<string>, x: string)
    requires x !in p
    ensures FirstIndex(p + [x], x) == |p|
    decreases |p|
  {
    if p != [] {
      assert (p + [x])[1..] == p[1..] + [x];
      FirstIndexLast(p[1..], x);
    }
  }

  /** Every entry of `d` occurs in `ts`, and entries appear in the order `ts` first mentions them. */
  predicate InEncounterOrder(d: seq<string>, ts: seq<string>)
  {
    forall i, j :: 0 <= i < j < |d| ==> d[i] in ts && d[j] in ts && FirstIndex(ts, d[i]) < FirstIndex(ts, d[j])
  }

  lemma OrderKeep(p: seq<string>, t: string, d0: seq<string>)
    requires forall i :: 0 <= i < |d0| ==> d0[i] in p
    requires Qualifies(t) && t !in d0 ==> t !in p
    requires InEncounterOrder(d0, p)
    ensures InEncounterOrder(Keep(d0, t), p + [t])
  {
    var d := Keep(d0, t);
    forall i, j | 0 <= i < j < |d|
      ensures d[i] in p + [t] && d[j] in p + [t] && FirstIndex(p + [t], d[i]) < FirstIndex(p + [t], d[j])
    {
      assert d[i] == d0[i];
      FirstIndexExtend(p, [t], d[i]);
      if j < |d0| {
        assert d[j] == d0[j];
        FirstIndexExtend(p, [t], d[j]);
      } else {
        assert d[j] == t;
        FirstIndexLast(p, t);
      }
    }
  }

  /** The collection holds its entries in first-encountered order. */
  lemma {:induction false} FoldOrder(ts: seq<string>)
    ensures InEncounterOrder(Fold([], ts), ts)
    decreases |ts|
  {
    if ts != [] {
      var p := ts[..|ts| - 1];
      var t := ts[|ts| - 1];
      assert ts == p + [t];
      FoldOrder(p);
      OrderKeep(p, t, Fold([], p));
    }
  }

  /**
   * Each snippet is long enough, trimmed, and the trimmed text of an element
   * some selector matched; there are at most five and no two are equal.
   */
  lemma SnippetsSound(dom: Dom, sels: seq<Selector>)
    ensures var r := FirstSnippets(dom, sels);
      && |r| <= MaxSnippets
      && Distinct(r)
      && forall i :: 0 <= i < |r| ==> Qualifies(r[i]) && IsTrimmed(r[i]) && FromPage(dom, sels, r[i])
  {
    var d := Collected(dom, sels);
    var r := FirstSnippets(dom, sels);
    forall i | 0 <= i < |r|
      ensures Qualifies(r[i]) && IsTrimmed(r[i]) && FromPage(dom, sels, r[i])
    {
      assert r[i] == d[i];
      CandidatesFromPage(dom, sels, r[i]);
      var k, e :| 0 <= k < |sels| && 0 <= e < |QueryAll(dom, sels[k])| && r[i] == Trim(QueryAll(dom, sels[k])[e]);
      TrimSplits(QueryAll(dom, sels[k])[e]);
    }
  }

  /**
   * The snippets are the first qualifying texts met: they keep encounter order,
   * and a qualifying candidate is left out only when five were met before it.
   */
  lemma SnippetsFirstEncountered(dom: Dom, sels: seq<Selector>)
    ensures var c := Candidates(dom, sels); var r := FirstSnippets(dom, sels);
      && InEncounterOrder(r, c)
      && (forall t :: t in c && Qualifies(t) && t !in r ==>
            |r| == MaxSnippets && forall i :: 0 <= i < |r| ==> FirstIndex(c, r[i]) < FirstIndex(c, t))
  {
    var c := Candidates(dom, sels);
    var d := Collected(dom, sels);
    var r := FirstSnippets(dom, sels);
    FoldOrder(c);
    forall i, j | 0 <= i < j < |r|
      ensures r[i] in c && r[j] in c && FirstIndex(c, r[i]) < FirstIndex(c, r[j])
    {
      assert r[i] == d[i] && r[j] == d[j];
    }
    forall t | t in c && Qualifies(t) && t !in r
      ensures |r| == MaxSnippets && forall i :: 0 <= i < |r| ==> FirstIndex(c, r[i]) < FirstIndex(c, t)
    {
      assert t in d;
      var j :| 0 <= j < |d| && d[j] == t;
      assert j >= |r|;
      forall i | 0 <= i < |r|
        ensures FirstIndex(c, r[i]) < FirstIndex(c, t)
      {
        assert r[i] == d[i];
      }
    }
  }

  /** Once five are held after some selector, the later selectors cannot change the first five. */
  lemma EarlyStop(dom: Dom, sels: seq<Selector>, k: nat)
    requires k <= |sels|
    requires |Collected(dom, sels[..k])| >= MaxSnippets
    ensures FirstSnippets(dom, sels) == Take(Collected(dom, sels[..k]), MaxSnippets)
  {
    assert sels == sels[..k] + sels[k..];
    CandidatesAppend(dom, sels[..k], sels[k..]);
    FoldAppend([], Candidates(dom, sels[..k]), Candidates(dom, sels[k..]));
  }

  lemma {:induction false} FoldAbsorbed(acc: seq<string>, ts: seq<string>)
    requires forall t :: t in ts && Qualifies(t) ==> t in acc
    ensures Fold(acc, ts) == acc
    decreases |ts|
  {
    if ts != [] {
      var p := ts[..|ts| - 1];
      assert forall t :: t in p ==> t in ts;
      FoldAbsorbed(acc, p);
    }
  }

  /**
   * The last selector is a descendant form of the first, so it matches only
   * elements the first already matched; on such a page it never adds a snippet.
   */
  lemma RedundantLastSelector(dom: Dom)
    requires forall x :: x in QueryAll(dom, SnippetSelectors[5]) ==> x in QueryAll(dom, SnippetSelectors[0])
    ensures Collected(dom, SnippetSelectors) == Collected(dom, SnippetSelectors[..5])
  {
    var sels := SnippetSelectors;
    var init := sels[..5];
    assert sels[..|sels| - 1] == init;
    var last := Trims(QueryAll(dom, sels[5]));
    FoldAppend([], Candidates(dom, init), last);
    forall t | t in last && Qualifies(t)
      ensures t in Collected(dom, init)
    {
      var e :| 0 <= e < |last| && last[e] == t;
      var x := QueryAll(dom, sels[5])[e];
      assert x in QueryAll(dom, sels[0]);
      var e0 :| 0 <= e0 < |QueryAll(dom, sels[0])| && QueryAll(dom, sels[0])[e0] == x;
      assert init[0] == sels[0];
      assert FromPage(dom, init, t);
      CandidatesFromPage(dom, init, t);
    }
    FoldAbsorbed(Collected(dom, init), last);
  }

  lemma FoldStep(acc: seq<string>, elements: seq<string>, j: nat)
    requires j < |elements|
    ensures Fold(acc, Trims(elements[..j + 1])) == Keep(Fold(acc, Trims(elements[..j])), Trim(elements[j]))
  {
    var ts := Trims(elements[..j + 1]);
    assert ts[..|ts| - 1] == Trims(elements[..j]);
  }

  lemma CollectedStep(dom: Dom, sels: seq<Selector>, i: nat)
    requires i < |sels|
    ensures Collected(dom, sels[..i + 1]) == Fold(Collected(dom, sels[..i]), Trims(QueryAll(dom, sels[i])))
  {
    assert sels[..i + 1][..i] == sels[..i];
    FoldAppend([], Candidates(dom, sels[..i]), Trims(QueryAll(dom, sels[i])));
  }

  /** The `forEach` over one selector's elements: push each long, unseen trimmed text. */
  method PushTexts(found: seq<string>, elements: seq<string>) returns (result: seq<string>)
    ensures result == Fold(found, Trims(elements))
  {
    result := found;
    var j := 0;
    while j < |elements|
      invariant 0 <= j <= |elements|
      invariant result == Fold(found, Trims(elements[..j]))
    {
      var text := Trim(elements[j]);
      if Qualifies(text) && text !in result {
        result := result + [text];
      }
      FoldStep(found, elements, j);
      j := j + 1;
    }
    assert elements[..j] == elements;
  }

  /**
   * The scraping loop as written, for any selector list: each selector's
   * elements in turn, leaving the selector loop once five are held, then
   * keeping the first five.
   */
  method CollectSnippets(dom: Dom, selectors: seq<Selector>) returns (snippets: seq<string>)
    ensures snippets == FirstSnippets(dom, selectors)
  {
    var found: seq<string> := [];
    var i := 0;
    while i < |selectors|
      invariant 0 <= i <= |selectors|
      invariant found == Collected(dom, selectors[..i])
    {
      found := PushTexts(found, QueryAll(dom, selectors[i]));
      CollectedStep(dom, selectors, i);
      i := i + 1;
      if |found| >= MaxSnippets {
        break;
      }
    }
    if |found| >= MaxSnippets {
      EarlyStop(dom, selectors, i);
    } else {
      assert selectors[..i] == selectors;
    }
    snippets := Take(found, MaxSnippets);
  }

  /** The snippet extraction of the search-results page, over the six selectors. */
  method ExtractSnippets(dom: Dom) returns (snippets: seq<string>)
    ensures snippets == FirstSnippets(dom, SnippetSelectors)
    ensures |snippets| <= MaxSnippets && Distinct(snippets)
  {
    snippets := CollectSnippets(dom, SnippetSelectors);
    SnippetsSound(dom, SnippetSelectors);
  }
}
