/** The rendered search-results page, seen only through selector queries. */
module Page {
  import opened Wrappers

  /** A CSS selector, treated as an opaque key. */
  type Selector = string

  /**
   * The rendered DOM: each selector maps to the `textContent` of every element
   * it matches, in document order. A selector that is absent matches nothing.
   */
  type Dom = map<Selector, seq<string>>

  /** `document.querySelectorAll(sel)`, read as texts. */
  function QueryAll(dom: Dom, sel: Selector): seq<string>
  {
    if sel in dom then dom[sel] else []
  }

  /** `document.querySelector(sel)`: the first element `QueryAll` reports, if any. */
  function Query(dom: Dom, sel: Selector): Option<string>
  {
    var all := QueryAll(dom, sel);
    if all == [] then None else Some(all[0])
  }

  /** Two pages that answer every selector in `sels` alike. */
  predicate AgreeOn(d1: Dom, d2: Dom, sels: seq<Selector>)
  {
    forall k :: 0 <= k < |sels| ==> QueryAll(d1, sels[k]) == QueryAll(d2, sels[k])
  }
}
