/**
 * The HTML report of the PDF route: which parts of a stored record it shows,
 * the exact text it produces, and a reader that recovers what it shows.
 */
module Report {
  import opened Wrappers
  import opened Scan
  import opened KnowledgePanel
  import opened Wikipedia
  import opened Scraper

  // The fixed text of the template, in order. The style sheet between
  // `<style>` and `</style>` is a parameter of the rendering.

  const Prologue := "\n"
    + "    <!DOCTYPE html>\n"
    + "    <html>\n"
    + "      <head>\n"
    + "        <meta charset=\"utf-8\">\n"
    + "        <style>"
  const HeadEnd := "</style>\n"
    + "      </head>\n"
    + "      <body>\n"
    + "        <div class=\"header\">\n"
    + "          <h1>"
  const HeadingEnd := "</h1>\n          "
  const SubtitleOpen := "<div class=\"subtitle\">"
  const DivClose := "</div>"
  const MetaOpen := "\n" + "          <div class=\"meta\">\n" + "            "
  const BornLabel := "\U{1F4C5} Born: "
  const MetaIndent := "\n            "
  const GeneratedLabel := "<br>Generated: "
  const HeaderIndent := "\n          "
  const HeaderEnd := "</div>\n" + "        </div>\n" + "\n" + "        "
  const ImageOpen := "\n          <img src=\""
  const ImageAlt := "\" alt=\""
  const ImageEnd := "\" class=\"thumbnail\"" + " width=\"200\">\n" + "        "
  const Gap := "\n\n        "
  const SectionOpen := "\n" + "          <div class=\"section\">\n" + "            <h2>"
  const OverviewHeading := "\U{1F4D6} Overview"
  const ProfileHeading := "\U{1F50D} Profile Summary"
  const KeyInfoHeading := "\U{1F4A1} Key Information"
  const ParagraphOpen := "</h2>\n" + "            <p>"
  const ParagraphClose := "</p>\n" + "          </div>\n" + "        "
  const ListOpen := "</h2>\n" + "            <ul class=\"snippet-list\">\n" + "              "
  const ListClose := "\n" + "            </ul>\n" + "          </div>\n" + "        "
  const ItemOpen := "<li>"
  const ItemClose := "</li>"
  const Epilogue := "\n\n"
    + "        <div class=\"footer\">\n"
    + "          <p>This report was automatically generated using Profile Finder</p>\n"
    + "          <p>Data sources: Wikipedia, Google Knowledge Graph, and Google Search</p>\n"
    + "        </div>\n"
    + "      </body>\n"
    + "    </html>\n"
    + "  "

  datatype Image = Image(src: string, alt: string)

  /** What the report shows: the heading, the optional header lines, the date and the optional sections. */
  datatype Layout = Layout(
    heading: string,
    subtitle: Option<string>,
    born: Option<string>,
    date: string,
    image: Option<Image>,
    overview: Option<string>,
    profile: Option<string>,
    keyInfo: Option<seq<string>>)

  /** A JavaScript string used as a condition: shown when non-empty. */
  function Truthy(s: string): Option<string>
  {
    if s != "" then Some(s) else None
  }

  /** The choices the template makes about a stored record. */
  function Compose(data: Person, date: string): Layout
  {
    var thumbnail := match data.wikipedia.thumbnail case Some(t) => t case None => "";
    Layout(
      if data.wikipedia.title != "" then data.wikipedia.title else data.name,
      Truthy(data.googleKnowledge.subtitle),
      Truthy(data.googleKnowledge.born),
      date,
      if thumbnail != "" then Some(Image(thumbnail, data.name)) else None,
      Truthy(data.wikipedia.extract),
      Truthy(data.googleKnowledge.description),
      if |data.googleSnippets| > 0 then Some(data.googleSnippets) else None)
  }

  // Rendering. Each part is written followed by the text that comes after
  // it, so that every reader step meets the next literal at the front.

  /** Each snippet as one list item, with nothing between items, then `rest`. */
  function ItemsThen(items: seq<string>, rest: string): string
  {
    if items == [] then rest else ItemOpen + (items[0] + (ItemClose + ItemsThen(items[1..], rest)))
  }

  function SubtitleThen(o: Option<string>, rest: string): string
  {
    match o
    case None => rest
    case Some(s) => SubtitleOpen + (s + (DivClose + rest))
  }

  function BornThen(o: Option<string>, rest: string): string
  {
    match o
    case None => rest
    case Some(b) => BornLabel + (b + rest)
  }

  function ImageThen(o: Option<Image>, rest: string): string
  {
    match o
    case None => rest
    case Some(img) => ImageOpen + (img.src + (ImageAlt + (img.alt + (ImageEnd + rest))))
  }

  function TextSectionThen(heading: string, o: Option<string>, rest: string): string
  {
    match o
    case None => rest
    case Some(text) => SectionOpen + (heading + (ParagraphOpen + (text + (ParagraphClose + rest))))
  }

  function ListSectionThen(o: Option<seq<string>>, rest: string): string
  {
    match o
    case None => rest
    case Some(items) => SectionOpen + (KeyInfoHeading + (ListOpen + ItemsThen(items, ListClose + rest)))
  }

  /** Everything after the header. */
  function RenderBody(l: Layout): string
  {
    ImageThen(l.image, Gap +
      TextSectionThen(OverviewHeading, l.overview, Gap +
        TextSectionThen(ProfileHeading, l.profile, Gap +
          ListSectionThen(l.keyInfo, Epilogue))))
  }

  /** From the subtitle to the end of the header, then the body. */
  function RenderMeta(l: Layout): string
  {
    SubtitleThen(l.subtitle, MetaOpen +
      BornThen(l.born, MetaIndent + (GeneratedLabel + (l.date + (HeaderIndent + (HeaderEnd + RenderBody(l)))))))
  }

  function Render(l: Layout, css: string): string
  {
    Prologue + (css + (HeadEnd + (l.heading + (HeadingEnd + RenderMeta(l)))))
  }

  /** The HTML handed to the PDF renderer for a stored record and a date string. */
  function ReportHtml(data: Person, date: string, css: string): string
  {
    Render(Compose(data, date), css)
  }

  // Reading a report back.

  /** Text that cannot open a tag. */
  predicate Plain(s: string) {
    '<' !in s
  }

  predicate PlainOption(o: Option<string>) {
    o.Some? ==> Plain(o.value)
  }

  /** Every piece of text is free of `<`, and attribute values are free of `"`. */
  predicate Printable(l: Layout) {
    && Plain(l.heading) && PlainOption(l.subtitle) && PlainOption(l.born) && Plain(l.date)
    && (l.image.Some? ==> '"' !in l.image.value.src && '"' !in l.image.value.alt)
    && PlainOption(l.overview) && PlainOption(l.profile)
    && (l.keyInfo.Some? ==> forall i :: 0 <= i < |l.keyInfo.value| ==> Plain(l.keyInfo.value[i]))
  }

  function ParseItems(s: string): Option<(seq<string>, string)>
    decreases |s|
  {
    if StartsWith(s, ItemOpen) then
      var (item, after) := Until('<', s[|ItemOpen|..]);
      var rest :- Lit(ItemClose, after);
      var more :- ParseItems(rest);
      Some(([item] + more.0, more.1))
    else Some(([], s))
  }

  function ParseSubtitle(s: string): Option<(Option<string>, string)>
  {
    if StartsWith(s, SubtitleOpen) then
      var (text, after) := Until('<', s[|SubtitleOpen|..]);
      var rest :- Lit(DivClose, after);
      Some((Some(text), rest))
    else Some((None, s))
  }

  /** The born line, with the indentation that follows it. */
  function ParseBorn(s: string): Option<(Option<string>, string)>
  {
    if StartsWith(s, BornLabel) then
      var (padded, rest) := Until('<', s[|BornLabel|..]);
      var born :- StripSuffix(padded, MetaIndent);
      Some((Some(born), rest))
    else
      var rest :- Lit(MetaIndent, s);
      Some((None, rest))
  }

  function ParseImage(s: string): Option<(Option<Image>, string)>
  {
    if StartsWith(s, ImageOpen) then
      var (src, after) := Until('"', s[|ImageOpen|..]);
      var s1 :- Lit(ImageAlt, after);
      var (alt, after2) := Until('"', s1);
      var rest :- Lit(ImageEnd, after2);
      Some((Some(Image(src, alt)), rest))
    else Some((None, s))
  }

  function ParseText(heading: string, s: string): Option<(Option<string>, string)>
  {
    if StartsWith(s, SectionOpen) && StartsWith(s[|SectionOpen|..], heading) then
      var s1 :- Lit(ParagraphOpen, s[|SectionOpen| + |heading|..]);
      var (text, after) := Until('<', s1);
      var rest :- Lit(ParagraphClose, after);
      Some((Some(text), rest))
    else Some((None, s))
  }

  function ParseList(s: string): Option<(Option<seq<string>>, string)>
  {
    if StartsWith(s, SectionOpen) && StartsWith(s[|SectionOpen|..], KeyInfoHeading) then
      var s1 :- Lit(ListOpen, s[|SectionOpen| + |KeyInfoHeading|..]);
      var items :- ParseItems(s1);
      var rest :- Lit(ListClose, items.1);
      Some((Some(items.0), rest))
    else Some((None, s))
  }

  /** Reads the part `RenderBody` writes; yields the image and the three sections. */
  function ParseBody(s: string): Option<(Option<Image>, Option<string>, Option<string>, Option<seq<string>>)>
  {
    var image :- ParseImage(s);
    var s1 :- Lit(Gap, image.1);
    var overview :- ParseText(OverviewHeading, s1);
    var s2 :- Lit(Gap, overview.1);
    var profile :- ParseText(ProfileHeading, s2);
    var s3 :- Lit(Gap, profile.1);
    var keyInfo :- ParseList(s3);
    if keyInfo.1 == Epilogue then Some((image.0, overview.0, profile.0, keyInfo.0)) else None
  }

  /** Reads the part `RenderMeta` writes, given the heading read before it. */
  function ParseMeta(heading: string, s: string): Option<Layout>
  {
    var subtitle :- ParseSubtitle(s);
    var s1 :- Lit(MetaOpen, subtitle.1);
    var born :- ParseBorn(s1);
    var s2 :- Lit(GeneratedLabel, born.1);
    var (dated, s3) := Until('<', s2);
    var date :- StripSuffix(dated, HeaderIndent);
    var s4 :- Lit(HeaderEnd, s3);
    var body :- ParseBody(s4);
    Some(Layout(heading, subtitle.0, born.0, date, body.0, body.1, body.2, body.3))
  }

  /** Reads a whole report: the style sheet and what the report shows. */
  function ParseReport(html: string): Option<(string, Layout)>
  {
    var s1 :- Lit(Prologue, html);
    var (css, s2) := Until('<', s1);
    var s3 :- Lit(HeadEnd, s2);
    var (heading, s4) := Until('<', s3);
    var s5 :- Lit(HeadingEnd, s4);
    var layout :- ParseMeta(heading, s5);
    Some((css, layout))
  }

  // Round trips, part by part.

  lemma {:induction false} ItemsRoundTrip(items: seq<string>, rest: string)
    requires forall i :: 0 <= i < |items| ==> Plain(items[i])
    requires !StartsWith(rest, ItemOpen)
    ensures ParseItems(ItemsThen(items, rest)) == Some((items, rest))
    decreases |items|
  {
    if items != [] {
      var tail := ItemsThen(items[1..], rest);
      LitMatches(ItemOpen, items[0] + (ItemClose + tail));
      UntilSplits('<', items[0], ItemClose + tail);
      LitMatches(ItemClose, tail);
      ItemsRoundTrip(items[1..], rest);
      assert [items[0]] + items[1..] == items;
    }
  }

  lemma SubtitleRoundTrip(o: Option<string>, rest: string)
    requires PlainOption(o)
    requires rest != [] && rest[0] == '\n'
    ensures ParseSubtitle(SubtitleThen(o, rest)) == Some((o, rest))
  {
    match o
    case None =>
      DiffersAt(rest, SubtitleOpen, 0);
    case Some(text) =>
      LitMatches(SubtitleOpen, text + (DivClose + rest));
      UntilSplits('<', text, DivClose + rest);
      LitMatches(DivClose, rest);
  }

  lemma BornRoundTrip(o: Option<string>, rest: string)
    requires PlainOption(o)
    requires rest != [] && rest[0] == '<'
    ensures ParseBorn(BornThen(o, MetaIndent + rest)) == Some((o, rest))
  {
    match o
    case None =>
      DiffersAt(MetaIndent + rest, BornLabel, 0);
      LitMatches(MetaIndent, rest);
    case Some(born) =>
      LitMatches(BornLabel, born + (MetaIndent + rest));
      assert born + (MetaIndent + rest) == (born + MetaIndent) + rest;
      assert '<' !in born + MetaIndent;
      UntilSplits('<', born + MetaIndent, rest);
      StripSuffixMatches(born, MetaIndent);
  }

  lemma ImageRoundTrip(o: Option<Image>, rest: string)
    requires o.Some? ==> '"' !in o.value.src && '"' !in o.value.alt
    ensures ParseImage(ImageThen(o, Gap + rest)) == Some((o, Gap + rest))
  {
    match o
    case None =>
      DiffersAt(Gap + rest, ImageOpen, 1);
    case Some(img) =>
      var tail := Gap + rest;
      LitMatches(ImageOpen, img.src + (ImageAlt + (img.alt + (ImageEnd + tail))));
      UntilSplits('"', img.src, ImageAlt + (img.alt + (ImageEnd + tail)));
      LitMatches(ImageAlt, img.alt + (ImageEnd + tail));
      UntilSplits('"', img.alt, ImageEnd + tail);
      LitMatches(ImageEnd, tail);
  }

  lemma TextRoundTrip(heading: string, o: Option<string>, rest: string)
    requires PlainOption(o)
    ensures ParseText(heading, TextSectionThen(heading, o, Gap + rest)) == Some((o, Gap + rest))
  {
    match o
    case None =>
      DiffersAt(Gap + rest, SectionOpen, 1);
    case Some(text) =>
      var tail := Gap + rest;
      var afterOpen := heading + (ParagraphOpen + (text + (ParagraphClose + tail)));
      LitMatches(SectionOpen, afterOpen);
      LitMatches(heading, ParagraphOpen + (text + (ParagraphClose + tail)));
      assert (SectionOpen + afterOpen)[|SectionOpen| + |heading|..] == ParagraphOpen + (text + (ParagraphClose + tail));
      LitMatches(ParagraphOpen, text + (ParagraphClose + tail));
      UntilSplits('<', text, ParagraphClose + tail);
      LitMatches(ParagraphClose, tail);
  }

  lemma ListRoundTrip(o: Option<seq<string>>)
    requires o.Some? ==> forall i :: 0 <= i < |o.value| ==> Plain(o.value[i])
    ensures ParseList(ListSectionThen(o, Epilogue)) == Some((o, Epilogue))
  {
    match o
    case None =>
      DiffersAt(Epilogue, SectionOpen, 1);
    case Some(items) =>
      var tail := ListClose + Epilogue;
      var afterOpen := KeyInfoHeading + (ListOpen + ItemsThen(items, tail));
      LitMatches(SectionOpen, afterOpen);
      LitMatches(KeyInfoHeading, ListOpen + ItemsThen(items, tail));
      assert (SectionOpen + afterOpen)[|SectionOpen| + |KeyInfoHeading|..] == ListOpen + ItemsThen(items, tail);
      LitMatches(ListOpen, ItemsThen(items, tail));
      DiffersAt(tail, ItemOpen, 0);
      ItemsRoundTrip(items, tail);
      LitMatches(ListClose, Epilogue);
  }

  lemma BodyRoundTrip(l: Layout)
    requires Printable(l)
    ensures ParseBody(RenderBody(l)) == Some((l.image, l.overview, l.profile, l.keyInfo))
  {
    var tail3 := ListSectionThen(l.keyInfo, Epilogue);
    var tail2 := TextSectionThen(ProfileHeading, l.profile, Gap + tail3);
    var tail1 := TextSectionThen(OverviewHeading, l.overview, Gap + tail2);
    ImageRoundTrip(l.image, tail1);
    LitMatches(Gap, tail1);
    TextRoundTrip(OverviewHeading, l.overview, tail2);
    LitMatches(Gap, tail2);
    TextRoundTrip(ProfileHeading, l.profile, tail3);
    LitMatches(Gap, tail3);
    ListRoundTrip(l.keyInfo);
  }

  lemma DateRoundTrip(date: string, rest: string)
    requires Plain(date) && rest != [] && rest[0] == '<'
    ensures var (dated, after) := Until('<', date + (HeaderIndent + rest));
      StripSuffix(dated, HeaderIndent) == Some(date) && after == rest
  {
    assert date + (HeaderIndent + rest) == (date + HeaderIndent) + rest;
    assert '<' !in date + HeaderIndent;
    UntilSplits('<', date + HeaderIndent, rest);
    StripSuffixMatches(date, HeaderIndent);
  }

  lemma MetaRoundTrip(l: Layout)
    requires Printable(l)
    ensures ParseMeta(l.heading, RenderMeta(l)) == Some(l)
  {
    var body := RenderBody(l);
    var afterDate := HeaderIndent + (HeaderEnd + body);
    var afterBorn := GeneratedLabel + (l.date + afterDate);
    var afterSubtitle := MetaOpen + BornThen(l.born, MetaIndent + afterBorn);
    SubtitleRoundTrip(l.subtitle, afterSubtitle);
    LitMatches(MetaOpen, BornThen(l.born, MetaIndent + afterBorn));
    BornRoundTrip(l.born, afterBorn);
    LitMatches(GeneratedLabel, l.date + afterDate);
    DateRoundTrip(l.date, HeaderEnd + body);
    LitMatches(HeaderEnd, body);
    BodyRoundTrip(l);
  }

  /**
   * Reading a rendered report gives back the style sheet and the layout, as
   * long as no text can open a tag and no attribute value holds a quote.
   */
  lemma RenderRoundTrip(l: Layout, css: string)
    requires Printable(l) && Plain(css)
    ensures ParseReport(Render(l, css)) == Some((css, l))
  {
    var meta := RenderMeta(l);
    LitMatches(Prologue, css + (HeadEnd + (l.heading + (HeadingEnd + meta))));
    UntilSplits('<', css, HeadEnd + (l.heading + (HeadingEnd + meta)));
    LitMatches(HeadEnd, l.heading + (HeadingEnd + meta));
    UntilSplits('<', l.heading, HeadingEnd + meta);
    LitMatches(HeadingEnd, meta);
    MetaRoundTrip(l);
  }

  /** Text fields of a record that cannot open a tag, and attribute values without quotes. */
  predicate Displayable(data: Person) {
    && Plain(data.name) && '"' !in data.name
    && Plain(data.wikipedia.title) && Plain(data.wikipedia.extract)
    && (data.wikipedia.thumbnail.Some? ==> '"' !in data.wikipedia.thumbnail.value)
    && Plain(data.googleKnowledge.subtitle) && Plain(data.googleKnowledge.born)
    && Plain(data.googleKnowledge.description)
    && forall i :: 0 <= i < |data.googleSnippets| ==> Plain(data.googleSnippets[i])
  }

  /**
   * What a reader of the report finds is exactly what `Compose` decides: the
   * heading, each optional line or section present iff its field is non-empty,
   * every value verbatim and the snippets one list item each, in order.
   */
  lemma ReportShows(data: Person, date: string, css: string)
    requires Displayable(data) && Plain(date) && Plain(css)
    ensures ParseReport(ReportHtml(data, date, css)) == Some((css, Compose(data, date)))
  {
    RenderRoundTrip(Compose(data, date), css);
  }

  /** What `Compose` keeps of each field, stated apart from any rendering. */
  lemma ComposeFields(data: Person, date: string)
    ensures var l := Compose(data, date);
      && l.heading == (if data.wikipedia.title != "" then data.wikipedia.title else data.name)
      && (l.subtitle.Some? <==> data.googleKnowledge.subtitle != "")
      && (l.subtitle.Some? ==> l.subtitle.value == data.googleKnowledge.subtitle)
      && (l.born.Some? <==> data.googleKnowledge.born != "")
      && (l.born.Some? ==> l.born.value == data.googleKnowledge.born)
      && l.date == date
      && (l.image.Some? <==> data.wikipedia.thumbnail.Some? && data.wikipedia.thumbnail.value != "")
      && (l.image.Some? ==> l.image.value == Image(data.wikipedia.thumbnail.value, data.name))
      && (l.overview.Some? <==> data.wikipedia.extract != "")
      && (l.overview.Some? ==> l.overview.value == data.wikipedia.extract)
      && (l.profile.Some? <==> data.googleKnowledge.description != "")
      && (l.profile.Some? ==> l.profile.value == data.googleKnowledge.description)
      && (l.keyInfo.Some? <==> data.googleSnippets != [])
      && (l.keyInfo.Some? ==> l.keyInfo.value == data.googleSnippets)
  {
  }

  /**
   * Field by field, what a reader finds in the report of a record: the
   * heading is the title when there is one, else the name; each optional line
   * or section is there exactly when its field is non-empty and then holds the
   * field verbatim; the image shows the thumbnail with the name as alt text.
   */
  lemma ReportSections(data: Person, date: string, css: string)
    requires Displayable(data) && Plain(date) && Plain(css)
    ensures var p := ParseReport(ReportHtml(data, date, css));
      && p.Some? && p.value.0 == css
      && var l := p.value.1;
      && l.heading == (if data.wikipedia.title != "" then data.wikipedia.title else data.name)
      && (l.subtitle.Some? <==> data.googleKnowledge.subtitle != "")
      && (l.subtitle.Some? ==> l.subtitle.value == data.googleKnowledge.subtitle)
      && (l.born.Some? <==> data.googleKnowledge.born != "")
      && (l.born.Some? ==> l.born.value == data.googleKnowledge.born)
      && l.date == date
      && (l.image.Some? <==> data.wikipedia.thumbnail.Some? && data.wikipedia.thumbnail.value != "")
      && (l.image.Some? ==> l.image.value == Image(data.wikipedia.thumbnail.value, data.name))
      && (l.overview.Some? <==> data.wikipedia.extract != "")
      && (l.overview.Some? ==> l.overview.value == data.wikipedia.extract)
      && (l.profile.Some? <==> data.googleKnowledge.description != "")
      && (l.profile.Some? ==> l.profile.value == data.googleKnowledge.description)
      && (l.keyInfo.Some? <==> data.googleSnippets != [])
      && (l.keyInfo.Some? ==> l.keyInfo.value == data.googleSnippets)
  {
    ReportShows(data, date, css);
    ComposeFields(data, date);
    assert ParseReport(ReportHtml(data, date, css)) == Some((css, Compose(data, date)));
  }
}
