# Profile Finder scraper and PDF report, in Dafny

This project models the data path of Profile Finder, a service that looks up a
person by name and builds a report about them. There are two parts:

- **`scrapePerson`** (`lib/sraper.ts`).
  - It builds the search URL for the name and the encyclopedia-summary URL.
  - From the rendered search-results page it collects up to five snippets:
    trimmed element texts, selector by selector. A text is kept when it is
    longer than 20 UTF-16 units and not already held. The selector loop stops
    once five are held.
  - It resolves the four knowledge-panel fields. Each field takes the first
    non-empty trimmed text its selectors offer, or `""`.
  - It normalises the summary JSON into `extract`, `title` and `thumbnail`.
- **The PDF route** (`app/api/pdf/route.ts`).
  - It takes the stored record for a name and composes the HTML report. The
    heading, subtitle, born line, date, thumbnail, overview, profile summary and
    key-information list appear according to the truthiness of the record's
    fields.
  - It answers with a `Content-Disposition` attachment named after the query.

Modules, one per concept:

| module | file | what it holds |
|---|---|---|
| `Wrappers` | `wrappers.dfy` | the `Option` and `Result` types |
| `Sequences` | `sequences.dfy` | a shared sequence fact |
| `Text` | `text.dfy` | JavaScript `trim` and the UTF-16 length |
| `Page` | `page.dfy` | the page as a map from selector to element texts |
| `Snippets` | `snippets.dfy` | the snippet list |
| `KnowledgePanel` | `panel.dfy` | the panel fields |
| `UriEncoding` | `uri.dfy` | `encodeURIComponent`, with a decoder as its partner |
| `Wikipedia` | `wikipedia.dfy` | summary normalisation |
| `Scraper` | `scraper.dfy` | the URLs and the record |
| `Scan` | `scan.dfy` | small string readers |
| `Report` | `report.dfy` | the HTML template, with a reader as its partner |
| `PdfRoute` | `pdf_route.dfy` | the route handler |

How the model stands in for the browser and the network:

- A page is a map from selector to the `textContent` of each matched element,
  in document order.
- The browser navigation and the HTTP fetch are function parameters of
  `Scraper.ScrapePerson`.
- The database lookup, the current date and the style sheet are parameters of
  `PdfRoute.HandlePdf`.
- Building the response checks the `Content-Disposition` value the way a
  fetch `Headers` object does. The value must be a byte string without NUL, CR
  or LF, so a name with a character above U+00FF makes the route fail.

Choices that follow the code literally:

- An unresolved panel field is the empty string, not a separate marker.
- A failed navigation or fetch is not caught and turned into empty data. Only
  a body that does not parse as JSON degrades, to `{}`.
- The thumbnail is `null` rather than `""` when absent, as the code writes it.

## Model

| member | source | states |
|---|---|---|
| `Text.TrimSplits` | lib/sraper.ts:41 | the trimmed text is a slice of the input with only whitespace cut from either end, and it starts and ends with a non-whitespace character |
| `Text.TrimOfPadded` | lib/sraper.ts:41 | trimming whitespace padding around an already-trimmed text gives back exactly that text |
| `Text.TrimEmptyIffBlank` | lib/sraper.ts:57 | a trimmed text is falsy (empty) exactly when the original was all whitespace |
| `Text.TrimIdempotent` | lib/sraper.ts:57 | trimming twice is trimming once: trimming the trimmed text changes nothing further |
| `Text.Utf16Length` | lib/sraper.ts:42 | `length` counts between one and two units per character, and equals the character count exactly when no character lies outside the Basic Multilingual Plane |
| `Text.Utf16LengthAppend` | lib/sraper.ts:42 | `length` of a concatenation is the sum of the lengths; with `Text.Utf16Length` on one character (one unit, two above U+FFFF) this fixes the count of every string |
| `Text.Utf16Units` | lib/sraper.ts:42 | `Text.Utf16Length` equals the number of 16-bit code units of the string encoded as UTF-16, one per character up to U+FFFF and a surrogate pair above |
| `Snippets.Fold` | lib/sraper.ts:40-45 | pushing texts only extends the list; it stays duplicate-free; every added entry is long enough and came from the input; every long-enough input text ends up held |
| `Snippets.PushTexts` | lib/sraper.ts:40-45 | the `forEach` loop over one selector's elements pushes what the reference fold over their trimmed texts pushes |
| `Snippets.CollectSnippets` | lib/sraper.ts:38-49 | the selector loop with its early exit and the final slice equals the first five entries of the unbounded, deduplicated collection |
| `Snippets.ExtractSnippets` | lib/sraper.ts:25-50 | the snippets of a page, over the six selectors: at most five, no duplicates, equal to the reference definition |
| `Snippets.CandidatesFromPage` | lib/sraper.ts:38-41 | a text is a candidate exactly when it is the trimmed text of an element some selector matched |
| `Snippets.SnippetsSound` | lib/sraper.ts:29-49 | each snippet is longer than 20 units, trimmed and taken from a matched element; at most five, pairwise distinct |
| `Snippets.FoldOrder` | lib/sraper.ts:38-45 | the collected texts appear in the order they were first met |
| `Snippets.SnippetsFirstEncountered` | lib/sraper.ts:38-49 | snippets keep encounter order, and a qualifying text is left out only when five texts met before it were already taken |
| `Snippets.EarlyStop` | lib/sraper.ts:46 | once five are held after some selector, the remaining selectors cannot change the result, so leaving the loop is safe |
| `Snippets.RedundantLastSelector` | lib/sraper.ts:30-35 | when the last selector's matches are among the first selector's, the last selector contributes nothing |
| `KnowledgePanel.Get` | lib/sraper.ts:54-60 | the result is `""` exactly when every selector offers an empty trimmed text; otherwise it is the offer of the first selector whose offer is non-empty |
| `KnowledgePanel.GetNeverBlank` | lib/sraper.ts:57 | a resolved field is trimmed and is either `""` or has a non-whitespace character |
| `KnowledgePanel.GetAppend` | lib/sraper.ts:55-59 | fallback over `a + b` is: `a`'s value when it resolves, else `b`'s |
| `KnowledgePanel.GetLocal` | lib/sraper.ts:54-60 | a field depends only on what its own selectors match |
| `KnowledgePanel.ExtractPanel` | lib/sraper.ts:62-67 | none of the four fields is whitespace-only |
| `KnowledgePanel.PanelFieldsIndependent` | lib/sraper.ts:62-67 | each field of the panel is determined by its own selector list alone |
| `KnowledgePanel.EmptyPageEmptyPanel` | lib/sraper.ts:59 | a page where no panel selector matches gives four empty fields |
| `UriEncoding.PercentEncode` | lib/sraper.ts:21 | the escaped form consists only of unreserved characters and `%` |
| `UriEncoding.EncodeDecode` | lib/sraper.ts:21 | decoding `encodeURIComponent(s)` gives back `s`, for every string of Unicode scalar values |
| `UriEncoding.EncodeDecodeAppend` | lib/sraper.ts:21 | decoding an encoded string followed by a suffix gives the string followed by the decoded suffix |
| `UriEncoding.UnreservedUnchanged` | lib/sraper.ts:71 | a name made of unreserved characters is its own encoding |
| `Scraper.GoogleQuery` | lib/sraper.ts:21 | the search URL is the fixed prefix, then a `q` value made of the escaped name, which holds only unreserved characters and `%`, then the literal suffix; `q` decodes to the name followed by " biography" |
| `Scraper.WikiPathSegment` | lib/sraper.ts:71 | the summary URL is the fixed prefix and one path segment with no `/`, `?` or `#`, which decodes to the name |
| `Scraper.ScrapePerson` | lib/sraper.ts:21-91 | the record keeps the name verbatim; its snippets and panel come from the page loaded from the search URL; its summary comes from the body fetched from the summary URL; the snippet, panel and thumbnail guarantees all hold |
| `Wikipedia.OrEmpty` | lib/sraper.ts:87-88 | the empty-string default is empty exactly when the field is missing or empty, and otherwise is the field's value |
| `Wikipedia.ThumbnailSource` | lib/sraper.ts:89 | the thumbnail is present exactly when `thumbnail.source` is a non-empty string, and then it is that string; it is never `""` |
| `Wikipedia.SummaryFromBody` | lib/sraper.ts:78-90 | the stored thumbnail is never `""`, and a body that does not parse gives an empty extract, an empty title and no thumbnail |
| `Report.ItemsRoundTrip` | app/api/pdf/route.ts:156 | the list items are one `<li>` per snippet, in order, and can be read back as exactly the snippet list |
| `Report.SubtitleRoundTrip` | app/api/pdf/route.ts:127 | the subtitle div, when written, is read back as exactly the subtitle |
| `Report.BornRoundTrip` | app/api/pdf/route.ts:129 | the born line, when written, is read back as exactly the born text |
| `Report.DateRoundTrip` | app/api/pdf/route.ts:130 | the generation date is read back verbatim |
| `Report.ImageRoundTrip` | app/api/pdf/route.ts:134-136 | the image tag, when written, is read back with its source and alt text |
| `Report.TextRoundTrip` | app/api/pdf/route.ts:138-150 | an overview or profile section, when written, is read back with its text |
| `Report.ListRoundTrip` | app/api/pdf/route.ts:152-159 | the key-information section, when written, is read back with its items |
| `Report.BodyRoundTrip` | app/api/pdf/route.ts:134-166 | the part after the header is read back as the image and the three sections |
| `Report.MetaRoundTrip` | app/api/pdf/route.ts:127-166 | everything after the heading is read back as the layout |
| `Report.RenderRoundTrip` | app/api/pdf/route.ts:16-167 | reading a rendered report gives back the style sheet and the whole layout |
| `Report.ReportShows` | app/api/pdf/route.ts:16-167 | a reader of the report finds exactly the choices `Compose` makes from the record: which parts appear, their values, and the snippets in order |
| `Report.ReportSections` | app/api/pdf/route.ts:126-158 | for a record whose texts hold no `<` and whose name and thumbnail hold no `"` (`Report.Displayable`), with a date and style sheet free of `<`, read back from the HTML: the heading is the title when non-empty, else the name; the subtitle, born line, overview, profile and key-information parts are each present exactly when their field is non-empty and then hold it verbatim; the image is present exactly when the thumbnail is a non-empty string, with the thumbnail as source and the name as alt text; the date is shown verbatim |
| `PdfRoute.DispositionSafe` | app/api/pdf/route.ts:172-176 | the attachment header is a value `Headers` accepts exactly when the name is: no character above U+00FF and no NUL, CR or LF |
| `PdfRoute.UnquoteEscape` | app/api/pdf/route.ts:175 | a reader that follows quoted-string rules recovers any value that is escaped with backslashes, which the route does not do |
| `PdfRoute.EscapedFilename` | app/api/pdf/route.ts:175 | had the name been escaped, it would always download as the name followed by `.pdf` |
| `PdfRoute.DispositionFilename` | app/api/pdf/route.ts:175 | for a name without quotes or backslashes, the attachment downloads as the name followed by `.pdf` |
| `PdfRoute.QuoteCutsFilename` | app/api/pdf/route.ts:175 | a quote in the name with no backslash before it ends the filename early, since the name is not escaped |
| `PdfRoute.UnquoteUnescape` | app/api/pdf/route.ts:175 | text without quotes that does not end in a backslash, followed by a quote, is read as the text with each backslash escape `\x` taken as `x` |
| `PdfRoute.NameUnescaped` | app/api/pdf/route.ts:175 | for every name without `"`, the attachment downloads as the name followed by `.pdf`, with each `\x` read as `x`; so `a\b` gives `ab.pdf`, and a trailing backslash escapes the dot after it, so `a\` gives `a.pdf` |
| `PdfRoute.HandlePdf` | app/api/pdf/route.ts:5-177 | the route fails on `person.data` exactly when no row was found, and fails building the headers exactly when a row was found but the name holds a character `Headers` rejects; otherwise it answers `application/pdf` with a safe header; a name without `"` downloads as the name and `.pdf` with backslash escapes read, which is exactly the name and `.pdf` when it has no `\`; and for a record `Report.Displayable` accepts, the report reads back as what `Compose` chooses from the stored record |

## Left out

- The browser: launch, context, user agent, `goto` with `networkidle`, and the
  two-second wait are I/O and timing. Only the page they produce is modelled,
  as the `load` parameter.
- The network: the summary request is the `fetch` parameter, which returns a
  JSON body or an unparseable one. A rejected `goto` or `fetch` is not caught by
  the code and is not modelled as a result.
- `browser.close()` is not in a `finally` block in the code. Cleanup on failure
  is neither modelled nor claimed.
- CSS selector matching: selectors are opaque keys. `RedundantLastSelector`
  takes the descendant relation between the first and last snippet selectors
  as a hypothesis.
- The snippets and the panel are read by two separate `page.evaluate` calls
  on a live page (lib/sraper.ts:25 and :53), and page scripts could change the
  document between them. Both reads are modelled as reads of one snapshot,
  the same `Dom` value.
- `textContent` of an element is a string, never `null`, so the optional
  chaining on it is not modelled.
- JavaScript truthiness of non-string JSON values, such as a numeric
  `extract`: JSON fields are modelled as optional strings.
- The person route and its database cache, and the Supabase query in the PDF
  route, are foreign calls. The lookup's outcome is a parameter.
- A `name` query parameter that is absent: the handler receives a string.
- `generatePDF` and `Buffer`: the response carries the HTML handed to the PDF
  renderer rather than the PDF bytes.
- The style-sheet literal of the template is a parameter. It holds no `<`,
  which is what the round trip needs.
- `toLocaleDateString`: the formatted date is a parameter.
- UriEncoding.EncodeDecode: model strings are sequences of Unicode scalar
  values. A JavaScript string with a lone surrogate makes `encodeURIComponent`
  throw a `URIError` at lib/sraper.ts:21, after the browser has been launched,
  and the browser is then left open. Such a name is not modelled.
- Wikipedia.SummaryFromBody: a body that parses as JSON `null` is not modelled.
  The code reads `wiki.extract` from it at lib/sraper.ts:87 and throws a
  `TypeError`; `Wikipedia.Body` has no case for it.
- UriEncoding.DecodeURIComponent: the decoder accepts only ASCII characters
  other than `%` unescaped. It is a partner for stating what the encoder keeps,
  not a model of the full `decodeURIComponent`.
- Report.ReportShows: holds only when no text field contains `<` and no
  attribute value contains `"`. The template does not escape anything, so other
  text changes the markup of the report.
- Report.ReportSections: holds only for records that `Report.Displayable`
  accepts, with a date and style sheet free of `<`, for the same reason as
  `Report.ReportShows`.
- PdfRoute.HandlePdf: the filename is stated only for names without `"`, and
  is the name followed by `.pdf` only for names without `"` or `\`.
  `PdfRoute.NameUnescaped` states what a backslash does, and
  `PdfRoute.QuoteCutsFilename` states what a quote does.
- PdfRoute.HandlePdf: the report clause holds only for records that
  `Report.Displayable` accepts, with a date and style sheet free of `<`. Other
  text changes the markup of the report, as for `Report.ReportShows`.
- PdfRoute.HandlePdf: a rejection by `generatePDF` (line 169) is another way
  the route fails with a row present. The renderer is a foreign call, so that
  failure is not modelled, and success is promised only relative to it.
- PdfRoute.Filename: the reader handles quoted strings with backslash escapes.
  It does not model the `filename*` parameter or how each browser cleans up a
  filename, for example replacing path separators.
