/** The encyclopedia summary: the parsed JSON body and its normalisation into the record's `wikipedia` part. */
module Wikipedia {
  import opened Wrappers

  datatype Thumbnail = Thumbnail(source: Option<string>)

  /**
   * The fields of the summary endpoint's JSON that the scraper reads; a key
   * that is missing or `null` is `None`.
   */
  datatype SummaryJson = SummaryJson(extract: Option<string>, title: Option<string>, thumbnail: Option<Thumbnail>)

  /** The response body: JSON, or something `json()` rejects. */
  datatype Body = Json(value: SummaryJson) | Malformed

  /** The `{}` that replaces a body that does not parse. */
  const EmptyObject := SummaryJson(None, None, None)

  /** The normalised summary stored in the record; `thumbnail` is `None` for `null`. */
  datatype Summary = Summary(extract: string, title: string, thumbnail: Option<string>)

  /** `wikiRes.json().catch(() => ({}))`. */
  function ParseBody(body: Body): SummaryJson
  {
    match body
    case Json(j) => j
    case Malformed => EmptyObject
  }

  /** `v || ""` on a string field: the value when it is a non-empty string, otherwise `""`. */
  function OrEmpty(v: Option<string>): (r: string)
    ensures r == "" <==> v.None? || v.value == ""
    ensures r != "" ==> v == Some(r)
  {
    match v
    case Some(s) => s
    case None => ""
  }

  /** `wiki.thumbnail?.source || null`: the source URL when it is a non-empty string, otherwise `null`. */
  function ThumbnailSource(t: Option<Thumbnail>): (r: Option<string>)
    ensures r != Some("")
    ensures r.Some? <==> t.Some? && t.value.source.Some? && t.value.source.value != ""
    ensures r.Some? ==> t == Some(Thumbnail(r))
  {
    match t
    case Some(Thumbnail(Some(s))) => if s != "" then Some(s) else None
    case _ => None
  }

  function Normalise(j: SummaryJson): Summary
  {
    Summary(OrEmpty(j.extract), OrEmpty(j.title), ThumbnailSource(j.thumbnail))
  }

  /** The summary the scraper records for a response body. */
  function SummaryFromBody(body: Body): (s: Summary)
    ensures s.thumbnail != Some("")
    ensures body.Malformed? ==> s == Summary("", "", None)
  {
    Normalise(ParseBody(body))
  }
}
