/** `scrapePerson`: the request URLs and the assembly of the person record. */
module Scraper {
  import opened Wrappers
  import opened Text
  import opened Page
  import opened UriEncoding
  import opened Snippets
  import opened KnowledgePanel
  import opened Wikipedia

  const GoogleSearchPrefix := "https://www.google.com/search?q="
  /** Appended to the search query after the name has been encoded. */
  const QuerySuffix := " biography"
  const WikiSummaryPrefix := "https://en.wikipedia.org/api/rest_v1/page/summary/"

  /** The record `scrapePerson` returns. */
  datatype Person = Person(name: string, googleSnippets: seq<string>, googleKnowledge: Panel, wikipedia: Summary)

  /** The search-results URL for a name. */
  function GoogleUrl(name: string): string
  {
    GoogleSearchPrefix + EncodeURIComponent(name) + QuerySuffix
  }

  /** The summary-endpoint URL for a name. */
  function WikiUrl(name: string): string
  {
    WikiSummaryPrefix + EncodeURIComponent(name)
  }

  /**
   * The search URL's `q` value is the escaped name followed by the literal
   * suffix; the escaped part contains no separator a query could split on,
   * and decoding the value gives back the name and the suffix.
   */
  lemma GoogleQuery(name: string)
    ensures var url := GoogleUrl(name);
      && url[..|GoogleSearchPrefix|] == GoogleSearchPrefix
      && var q := url[|GoogleSearchPrefix|..];
      && q[|q| - |QuerySuffix|..] == QuerySuffix
      && (forall i :: 0 <= i < |q| - |QuerySuffix| ==> IsUnreserved(q[i]) || q[i] == '%')
      && DecodeURIComponent(q) == Some(name + QuerySuffix)
  {
    var url := GoogleUrl(name);
    var e := EncodeURIComponent(name);
    assert url == GoogleSearchPrefix + (e + QuerySuffix);
    var q := url[|GoogleSearchPrefix|..];
    assert q == e + QuerySuffix;
    EncodeDecodeAppend(name, QuerySuffix);
    SuffixDecodes();
  }

  lemma SuffixDecodes()
    ensures DecodeURIComponent(QuerySuffix) == Some(QuerySuffix)
  {
    PlainDecodes(QuerySuffix);
  }

  /**
   * The summary URL ends in a single path segment, free of `/`, `?` and `#`,
   * that decodes back to the name.
   */
  lemma WikiPathSegment(name: string)
    ensures var url := WikiUrl(name);
      && url[..|WikiSummaryPrefix|] == WikiSummaryPrefix
      && var segment := url[|WikiSummaryPrefix|..];
      && '/' !in segment && '?' !in segment && '#' !in segment
      && DecodeURIComponent(segment) == Some(name)
  {
    var segment := WikiUrl(name)[|WikiSummaryPrefix|..];
    assert segment == EncodeURIComponent(name);
    EncodeDecode(name);
  }

  /** The guarantees every scraped record carries. */
  ghost predicate ValidPerson(p: Person)
  {
    && |p.googleSnippets| <= MaxSnippets
    && Distinct(p.googleSnippets)
    && (forall i :: 0 <= i < |p.googleSnippets| ==> Qualifies(p.googleSnippets[i]) && IsTrimmed(p.googleSnippets[i]))
    && (p.googleKnowledge.title == "" || !AllWhitespace(p.googleKnowledge.title))
    && (p.googleKnowledge.subtitle == "" || !AllWhitespace(p.googleKnowledge.subtitle))
    && (p.googleKnowledge.description == "" || !AllWhitespace(p.googleKnowledge.description))
    && (p.googleKnowledge.born == "" || !AllWhitespace(p.googleKnowledge.born))
    && p.wikipedia.thumbnail != Some("")
  }

  /**
   * `scrapePerson`: one search page is loaded from the search URL and both the
   * snippets and the panel are read from it; the summary comes from the body
   * fetched from the summary URL; the name is kept verbatim.
   * `load` and `fetch` stand for the browser navigation and the HTTP request.
   */
  method ScrapePerson(name: string, load: string -> Dom, fetch: string -> Body) returns (person: Person)
    ensures person.name == name
    ensures person.googleSnippets == FirstSnippets(load(GoogleUrl(name)), SnippetSelectors)
    ensures person.googleKnowledge == ExtractPanel(load(GoogleUrl(name)))
    ensures person.wikipedia == SummaryFromBody(fetch(WikiUrl(name)))
    ensures ValidPerson(person)
  {
    var page := load(GoogleUrl(name));
    var snippets := ExtractSnippets(page);
    var panel := ExtractPanel(page);
    var wiki := ParseBody(fetch(WikiUrl(name)));
    person := Person(name, snippets, panel, Normalise(wiki));
    SnippetsSound(page, SnippetSelectors);
  }
}
