/**
 * The knowledge-panel fields: each resolved by an ordered fallback over
 * selectors, looking only at the first element each selector matches.
 */
module KnowledgePanel {
  import opened Wrappers
  import opened Text
  import opened Page

  const TitleSelectors: seq<Selector> := [".SPZz6b", ".qrShPb", "h2[data-attrid=\"title\"]", "h2.qrShPb"]
  const SubtitleSelectors: seq<Selector> := [".wwUB2c", ".kno-ecr-pt", "span[data-attrid=\"subtitle\"]"]
  const DescriptionSelectors: seq<Selector> := [".kno-rdesc span", ".PZPZlf", "div[data-attrid=\"description\"] span"]
  const BornSelectors: seq<Selector> :=
    ["div[data-attrid=\"kc:/people/person:born\"] span", ".Z1hOCe", "div[data-attrid=\"Born\"] .Z1hOCe"]

  /** The panel as scraped; `""` marks a field no selector resolved. */
  datatype Panel = Panel(title: string, subtitle: string, description: string, born: string)

  /** What one selector offers: the trimmed text of its first match, or `""` when it matches nothing. */
  function Offer(dom: Dom, sel: Selector): string
  {
    match Query(dom, sel)
    case None => ""
    case Some(text) => Trim(text)
  }

  /** Every selector in `sels` offers nothing. */
  predicate NoOffer(dom: Dom, sels: seq<Selector>)
  {
    forall k :: 0 <= k < |sels| ==> Offer(dom, sels[k]) == ""
  }

  /** `r` is what selector `k` offers, and every selector before it offers nothing. */
  predicate FirstOfferAt(dom: Dom, sels: seq<Selector>, k: int, r: string)
  {
    0 <= k < |sels| && r == Offer(dom, sels[k]) && NoOffer(dom, sels[..k])
  }

  /** A selector list offers nothing exactly when its head and its tail offer nothing. */
  lemma NoOfferStep(dom: Dom, sels: seq<Selector>)
    requires sels != []
    ensures NoOffer(dom, sels) <==> Offer(dom, sels[0]) == "" && NoOffer(dom, sels[1..])
  {
    assert forall k :: 1 <= k < |sels| ==> sels[k] == sels[1..][k - 1];
  }

  /** Behind a head that offers nothing, the first offer of the tail is the first offer of the list. */
  lemma FirstOfferStep(dom: Dom, sels: seq<Selector>, k: int, r: string)
    requires sels != [] && Offer(dom, sels[0]) == "" && FirstOfferAt(dom, sels[1..], k, r)
    ensures FirstOfferAt(dom, sels, k + 1, r)
  {
    var tail := sels[1..];
    forall m | 0 <= m < k + 1 ensures Offer(dom, sels[m]) == "" {
      if m > 0 { assert sels[m] == tail[..k][m - 1]; }
    }
  }

  /**
   * The `get` helper: the first non-empty offer, trying selectors in order;
   * `""` when every offer is empty.
   */
  function Get(dom: Dom, sels: seq<Selector>): (r: string)
    ensures r == "" <==> NoOffer(dom, sels)
    ensures r != "" ==> exists k :: FirstOfferAt(dom, sels, k, r)
  {
    if sels == [] then ""
    else
      var text := Offer(dom, sels[0]);
      NoOfferStep(dom, sels);
      if text != "" then
        assert FirstOfferAt(dom, sels, 0, text);
        text
      else
        var r := Get(dom, sels[1..]);
        assert r != "" ==> exists k :: FirstOfferAt(dom, sels, k, r) by {
          if r != "" {
            var k :| FirstOfferAt(dom, sels[1..], k, r);
            FirstOfferStep(dom, sels, k, r);
          }
        }
        r
  }

  /** A resolved field is never blank: it is `""` or trimmed text with a non-whitespace character. */
  lemma GetNeverBlank(dom: Dom, sels: seq<Selector>)
    ensures IsTrimmed(Get(dom, sels))
    ensures Get(dom, sels) == "" || !AllWhitespace(Get(dom, sels))
  {
    var r := Get(dom, sels);
    if r != "" {
      var k :| 0 <= k < |sels| && r == Offer(dom, sels[k]);
      var text := Query(dom, sels[k]).value;
      TrimSplits(text);
      TrimEmptyIffBlank(r);
    }
  }

  /**
   * Fallback chains compose: on `a + b`, a value resolved by `a` wins and
   * `b` is never consulted; otherwise `b` decides.
   */
  lemma {:induction false} GetAppend(dom: Dom, a: seq<Selector>, b: seq<Selector>)
    ensures Get(dom, a + b) == if Get(dom, a) != "" then Get(dom, a) else Get(dom, b)
    decreases |a|
  {
    if a == [] {
      assert a + b == b;
    } else {
      assert (a + b)[0] == a[0];
      assert (a + b)[1..] == a[1..] + b;
      GetAppend(dom, a[1..], b);
    }
  }

  /** A field depends only on what its own selectors match. */
  lemma {:induction false} GetLocal(d1: Dom, d2: Dom, sels: seq<Selector>)
    requires AgreeOn(d1, d2, sels)
    ensures Get(d1, sels) == Get(d2, sels)
    decreases |sels|
  {
    if sels != [] {
      assert QueryAll(d1, sels[0]) == QueryAll(d2, sels[0]);
      assert AgreeOn(d1, d2, sels[1..]) by {
        forall k | 0 <= k < |sels[1..]| ensures QueryAll(d1, sels[1..][k]) == QueryAll(d2, sels[1..][k]) {
          assert sels[1..][k] == sels[k + 1];
        }
      }
      GetLocal(d1, d2, sels[1..]);
    }
  }

  /** The panel scraped from the search-results page. */
  function ExtractPanel(dom: Dom): (p: Panel)
    ensures p.title == "" || !AllWhitespace(p.title)
    ensures p.subtitle == "" || !AllWhitespace(p.subtitle)
    ensures p.description == "" || !AllWhitespace(p.description)
    ensures p.born == "" || !AllWhitespace(p.born)
  {
    GetNeverBlank(dom, TitleSelectors);
    GetNeverBlank(dom, SubtitleSelectors);
    GetNeverBlank(dom, DescriptionSelectors);
    GetNeverBlank(dom, BornSelectors);
    Panel(Get(dom, TitleSelectors), Get(dom, SubtitleSelectors), Get(dom, DescriptionSelectors), Get(dom, BornSelectors))
  }

  /** The four fields are resolved independently: each reads only its own selectors. */
  lemma PanelFieldsIndependent(d1: Dom, d2: Dom)
    ensures AgreeOn(d1, d2, TitleSelectors) ==> ExtractPanel(d1).title == ExtractPanel(d2).title
    ensures AgreeOn(d1, d2, SubtitleSelectors) ==> ExtractPanel(d1).subtitle == ExtractPanel(d2).subtitle
    ensures AgreeOn(d1, d2, DescriptionSelectors) ==> ExtractPanel(d1).description == ExtractPanel(d2).description
    ensures AgreeOn(d1, d2, BornSelectors) ==> ExtractPanel(d1).born == ExtractPanel(d2).born
  {
    if AgreeOn(d1, d2, TitleSelectors) { GetLocal(d1, d2, TitleSelectors); }
    if AgreeOn(d1, d2, SubtitleSelectors) { GetLocal(d1, d2, SubtitleSelectors); }
    if AgreeOn(d1, d2, DescriptionSelectors) { GetLocal(d1, d2, DescriptionSelectors); }
    if AgreeOn(d1, d2, BornSelectors) { GetLocal(d1, d2, BornSelectors); }
  }

  /** A page on which no panel selector matches anything yields an all-empty panel. */
  lemma EmptyPageEmptyPanel(dom: Dom)
    requires forall sel :: sel in TitleSelectors + SubtitleSelectors + DescriptionSelectors + BornSelectors ==> QueryAll(dom, sel) == []
    ensures ExtractPanel(dom) == Panel("", "", "", "")
  {
    var all := TitleSelectors + SubtitleSelectors + DescriptionSelectors + BornSelectors;
    forall sels | sels in {TitleSelectors, SubtitleSelectors, DescriptionSelectors, BornSelectors}
      ensures Get(dom, sels) == ""
    {
      forall k | 0 <= k < |sels| ensures Offer(dom, sels[k]) == "" {
        assert sels[k] in all;
      }
    }
  }
}
