/**
 * The PDF download route: look up the stored record by name, compose the
 * report HTML from it, and answer with an attachment named after the query.
 * The database lookup and the HTML-to-PDF renderer are outside the model; the
 * lookup's outcome is a parameter and the response carries the HTML that is
 * handed to the renderer.
 */
module PdfRoute {
  import opened Wrappers
  import opened Sequences
  import opened Scan
  import opened Scraper
  import opened Report

  /** A row of the `people` table: the queried name and the scraped record. */
  datatype StoredRow = StoredRow(name: string, data: Person)

  datatype Response = Response(contentType: string, disposition: string, html: string)

  datatype RouteError =
    /** Reading `.data` of the lookup result when no row matched. */
    | NullDereference
    /** Building the response headers with a value `Headers` rejects. */
    | InvalidHeader

  const PdfType := "application/pdf"
  const AttachmentPrefix := "attachment; filename=\""
  const PdfExtension := ".pdf"
  const Quote := "\""

  /** The `Content-Disposition` value: the name is put between the quotes as it is, unescaped. */
  function Disposition(name: string): string
  {
    AttachmentPrefix + (name + (PdfExtension + Quote))
  }

  /**
   * A header value that `Headers` accepts: a byte string (every UTF-16 code
   * unit at most 0xFF) without NUL, CR or LF. A character above U+FFFF is two
   * code units, both above 0xFF, so the test on the character suffices.
   */
  predicate HeaderSafe(s: string) {
    forall i :: 0 <= i < |s| ==> s[i] as int <= 0xFF && s[i] != '\0' && s[i] != '\r' && s[i] != '\n'
  }

  /** The fixed parts of the header are safe, so the header is safe exactly when the name is. */
  lemma DispositionSafe(name: string)
    ensures HeaderSafe(Disposition(name)) <==> HeaderSafe(name)
  {
    var d := Disposition(name);
    var tail := PdfExtension + Quote;
    assert |d| == |AttachmentPrefix| + |name| + |tail|;
    assert forall i :: 0 <= i < |name| ==> d[|AttachmentPrefix| + i] == name[i];
    if HeaderSafe(name) {
      assert HeaderSafe(AttachmentPrefix);
      assert HeaderSafe(tail);
      forall i | 0 <= i < |d|
        ensures d[i] as int <= 0xFF && d[i] != '\0' && d[i] != '\r' && d[i] != '\n'
      {
        if i < |AttachmentPrefix| {
          assert d[i] == AttachmentPrefix[i];
        } else if i < |AttachmentPrefix| + |name| {
          assert d[i] == name[i - |AttachmentPrefix|];
        } else {
          assert d[i] == tail[i - |AttachmentPrefix| - |name|];
        }
      }
    }
  }

  /**
   * The rest of a quoted string, after its opening quote: the value, with each
   * backslash escape (quoted-pair, section 2.2 of RFC 2616) taken as the
   * character it escapes, and the text after the closing quote. `None` when
   * the closing quote is missing.
   */
  function Unquote(s: string): Option<(string, string)>
    decreases |s|
  {
    if s == [] then None
    else if s[0] == '"' then Some(([], s[1..]))
    else if s[0] == '\\' then
      if |s| < 2 then None
      else
        var p :- Unquote(s[2..]);
        Some(([s[1]] + p.0, p.1))
    else
      var p :- Unquote(s[1..]);
      Some(([s[0]] + p.0, p.1))
  }

  /** Prefixes the value of a successful `Unquote`. */
  function PrependFirst(prefix: string, r: Option<(string, string)>): Option<(string, string)>
  {
    match r
    case None => None
    case Some(p) => Some((prefix + p.0, p.1))
  }

  /** The filename a client reads from an attachment header (section 4.1 of RFC 6266). */
  function Filename(header: string): Option<string>
  {
    var s :- Lit(AttachmentPrefix, header);
    var p :- Unquote(s);
    Some(p.0)
  }

  /** The quoting the header would need: a backslash before every `"` and `\`. */
  function Escape(s: string): (e: string)
    ensures |s| <= |e| <= 2 * |s|
    ensures '"' !in s && '\\' !in s ==> e == s
  {
    if s == [] then []
    else
      var head := if s[0] == '"' || s[0] == '\\' then ['\\', s[0]] else [s[0]];
      assert s == [s[0]] + s[1..];
      head + Escape(s[1..])
  }

  /** Reading back an escaped value gives the value, whatever it holds. */
  lemma {:induction false} UnquoteEscape(v: string, rest: string)
    requires rest != [] && rest[0] == '"'
    ensures Unquote(Escape(v) + rest) == Some((v, rest[1..]))
    decreases |v|
  {
    if v == [] {
      assert Escape(v) + rest == rest;
    } else {
      var t := Escape(v[1..]) + rest;
      UnquoteEscape(v[1..], rest);
      if v[0] == '"' || v[0] == '\\' {
        assert Escape(v) == ['\\', v[0]] + Escape(v[1..]);
        AppendAssoc(['\\', v[0]], Escape(v[1..]), rest);
        UnquotePair(v[0], t);
      } else {
        assert Escape(v) == [v[0]] + Escape(v[1..]);
        AppendAssoc([v[0]], Escape(v[1..]), rest);
        UnquoteChar(v[0], t);
      }
      assert [v[0]] + v[1..] == v;
    }
  }

  /** A properly escaped name would always download as the name followed by `.pdf`. */
  lemma EscapedFilename(name: string)
    ensures Filename(AttachmentPrefix + (Escape(name + PdfExtension) + Quote)) == Some(name + PdfExtension)
  {
    LitMatches(AttachmentPrefix, Escape(name + PdfExtension) + Quote);
    UnquoteEscape(name + PdfExtension, Quote);
  }

  /** A name without quotes or backslashes downloads as the name followed by `.pdf`. */
  lemma DispositionFilename(name: string)
    requires '"' !in name && '\\' !in name
    ensures Filename(Disposition(name)) == Some(name + PdfExtension)
  {
    AppendAssoc(name, PdfExtension, Quote);
    assert '"' !in name + PdfExtension && '\\' !in name + PdfExtension;
    EscapedFilename(name);
  }

  /** Since the name is not escaped, its first quote ends the filename early when no backslash comes before it. */
  lemma QuoteCutsFilename(name: string, i: nat)
    requires i < |name| && name[i] == '"' && '"' !in name[..i] && '\\' !in name[..i]
    ensures Filename(Disposition(name)) == Some(name[..i])
  {
    var rest := name[i..] + (PdfExtension + Quote);
    assert name + (PdfExtension + Quote) == name[..i] + rest;
    LitMatches(AttachmentPrefix, name[..i] + rest);
    UnquoteEscape(name[..i], rest);
  }

  lemma UnquoteChar(c: char, t: string)
    requires c != '"' && c != '\\'
    ensures Unquote([c] + t) == PrependFirst([c], Unquote(t))
  {
    assert ([c] + t)[1..] == t;
  }

  lemma UnquotePair(c: char, t: string)
    ensures Unquote(['\\', c] + t) == PrependFirst([c], Unquote(t))
  {
    assert (['\\', c] + t)[2..] == t;
  }

  /**
   * What a reader makes of text with backslash escapes but no closing quote:
   * each `\x` taken as `x`; a lone backslash at the very end stays as it is.
   */
  function Unescape(s: string): (u: string)
    ensures |u| <= |s|
    ensures '\\' !in s ==> u == s
    decreases |s|
  {
    if s == [] then []
    else if s[0] == '\\' && |s| >= 2 then [s[1]] + Unescape(s[2..])
    else
      assert s == [s[0]] + s[1..];
      [s[0]] + Unescape(s[1..])
  }

  /** Text without quotes, not ending in a backslash, is read up to the quote that follows it. */
  lemma {:induction false} UnquoteUnescape(v: string, rest: string)
    requires '"' !in v && (v == [] || v[|v| - 1] != '\\')
    requires rest != [] && rest[0] == '"'
    ensures Unquote(v + rest) == Some((Unescape(v), rest[1..]))
    decreases |v|
  {
    if v == [] {
      assert v + rest == rest;
    } else if v[0] == '\\' {
      var t := v[2..];
      assert forall k :: 0 <= k < |t| ==> t[k] == v[k + 2];
      assert v + rest == ['\\', v[1]] + (t + rest);
      UnquotePair(v[1], t + rest);
      UnquoteUnescape(t, rest);
    } else {
      var t := v[1..];
      assert forall k :: 0 <= k < |t| ==> t[k] == v[k + 1];
      assert v + rest == [v[0]] + (t + rest);
      UnquoteChar(v[0], t + rest);
      UnquoteUnescape(t, rest);
    }
  }

  /**
   * A name without quotes downloads as the name and `.pdf` with each
   * backslash taken as an escape: `a\b` gives `ab.pdf`, and a trailing
   * backslash escapes the dot after it, so `a\` gives `a.pdf`.
   */
  lemma NameUnescaped(name: string)
    requires '"' !in name
    ensures Filename(Disposition(name)) == Some(Unescape(name + PdfExtension))
  {
    var v := name + PdfExtension;
    AppendAssoc(name, PdfExtension, Quote);
    LitMatches(AttachmentPrefix, v + Quote);
    UnquoteUnescape(v, Quote);
  }

  /**
   * The route for a queried `name`, the row the lookup found (if any), the
   * formatted date and the style sheet. Without a row the handler fails on
   * `person.data`; with one whose name `Headers` rejects it fails building the
   * response; otherwise it answers with a PDF attachment whose report shows
   * exactly what `Compose` chooses from the stored record.
   */
  function HandlePdf(name: string, person: Option<StoredRow>, date: string, css: string): (r: Result<Response, RouteError>)
    ensures r == Failure(NullDereference) <==> person.None?
    ensures r == Failure(InvalidHeader) <==> person.Some? && !HeaderSafe(name)
    ensures r.Success? ==> r.value.contentType == PdfType && HeaderSafe(r.value.disposition)
    ensures r.Success? && '"' !in name ==> Filename(r.value.disposition) == Some(Unescape(name + PdfExtension))
    ensures r.Success? && '"' !in name && '\\' !in name ==> Filename(r.value.disposition) == Some(name + PdfExtension)
    ensures r.Success? && Displayable(person.value.data) && Plain(date) && Plain(css) ==>
      ParseReport(r.value.html) == Some((css, Compose(person.value.data, date)))
  {
    match person
    case None => Failure(NullDereference)
    case Some(row) =>
      DispositionSafe(name);
      if !HeaderSafe(Disposition(name)) then Failure(InvalidHeader)
      else
        assert '"' !in name ==> Filename(Disposition(name)) == Some(Unescape(name + PdfExtension)) by {
          if '"' !in name { NameUnescaped(name); }
        }
        assert '"' !in name && '\\' !in name ==> Filename(Disposition(name)) == Some(name + PdfExtension) by {
          if '"' !in name && '\\' !in name { DispositionFilename(name); }
        }
        assert Displayable(row.data) && Plain(date) && Plain(css) ==>
          ParseReport(ReportHtml(row.data, date, css)) == Some((css, Compose(row.data, date))) by {
          if Displayable(row.data) && Plain(date) && Plain(css) { ReportShows(row.data, date, css); }
        }
        Success(Response(PdfType, Disposition(name), ReportHtml(row.data, date, css)))
  }
}
