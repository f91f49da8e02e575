/** The helpers of common.go: date handling, the abstract draw operations the sections emit, and
    how each of them becomes canvas calls. */
module Common {
  import opened Canvas
  import opened Strings

  /** `getYearOfDate`: the part of a date before its first '-' (all of it when there is none). */
  function YearOfDate(date: string): (year: string)
    ensures year <= date
    ensures '-' !in year
    ensures |year| < |date| ==> date[|year|] == '-'
  {
    SplitPieces(date, '-');
    Split(date, '-')[0]
  }

  /** The "start-end" label of an education or work row, from the years of both dates. */
  function DateRange(startDate: string, endDate: string): (caption: string)
    ensures YearOfDate(startDate) + "-" <= caption
  {
    YearOfDate(startDate) + "-" + YearOfDate(endDate)
  }

  lemma YearOfDateExamples()
    ensures YearOfDate("2011-01-11") == "2011"
    ensures YearOfDate("2020") == "2020"
    ensures YearOfDate("") == ""
  {
    YearOfDateOf("2011", "01-11");
    assert "2011" + "-" + "01-11" == "2011-01-11";
    YearOfDateOf("2020", "");
  }

  /** A date without '-' is its own year; a year followed by '-' is recovered from the date. */
  lemma {:induction false} YearOfDateOf(year: string, rest: string)
    requires '-' !in year
    ensures YearOfDate(year) == year
    ensures YearOfDate(year + "-" + rest) == year
  {
    SplitWithoutSeparator(year, '-');
    SplitAfterPrefix(year, rest, '-');
  }

  /** A date-range label always splits at '-' into exactly the two years it was made from. */
  lemma {:induction false} DateRangeSplits(startDate: string, endDate: string)
    ensures Split(DateRange(startDate, endDate), '-') == [YearOfDate(startDate), YearOfDate(endDate)]
  {
    var parts := [YearOfDate(startDate), YearOfDate(endDate)];
    assert Join(parts, '-') == DateRange(startDate, endDate) by {
      assert parts[1..] == [YearOfDate(endDate)];
    }
    SplitJoin(parts, '-');
  }

  /** The abstract draw operations of a document, each drawn by one helper.
      Title:   `writeTitle`, the large document title.
      Heading: `writeSectionName`, a section heading with a rule under it.
      Row:     `writeLabelWithText`, a label column (`caption`) and a content column; `ratio` is
               the label column's share of the content width.
      Right:   a right-aligned contact line of the header, optionally a link.
      Line:    a plain full-width left-aligned line (the interest sentence).
      Text:    flowing text; `lines` is its line height in line-height units.
      Html:    simple markup written as flowing text.
      Rule:    the thin rule above the credit line.
      Photo:   `drawImage`, the photo at height `y`. */
  datatype Block =
    | Title(text: string)
    | Heading(name: string)
    | Row(caption: string, captionStyle: string, content: string, contentStyle: string, ratio: real)
    | Right(text: string, link: string)
    | Line(text: string)
    | Text(lines: real, text: string)
    | Html(lines: real, html: string)
    | Rule
    | Photo(path: string, y: real)

  /** `writeTitle`: one left-aligned 20pt cell spanning the content width, then a line break. */
  function WriteTitle(page: Page, title: string): (ops: seq<Op>)
    ensures |ops| == 1 && ops[0].Cell?
    ensures ops[0].text == title && ops[0].width == ContentWidth(page)
    ensures ops[0].align == "L" && ops[0].newLine && ops[0].font == Font("", 20)
  {
    [Cell(Font("", 20), ContentWidth(page), title, "", true, "L", "")]
  }

  /** `writeSectionName`: a full-width 15pt cell with a bottom border, then half a line of space. */
  function WriteSectionName(page: Page, name: string): (ops: seq<Op>)
    ensures |ops| == 2 && ops[0].Cell?
    ensures ops[0].text == name && ops[0].border == "B" && ops[0].width == ContentWidth(page)
    ensures ops[0].newLine && ops[0].font.size == 15
    ensures ops[1] == Write(0.5, "\n")
  {
    [Cell(Font("", 15), ContentWidth(page), name, "B", true, "L", ""), Write(0.5, "\n")]
  }

  /** `writeLabelWithText`: two 11pt cells side by side, the label (`caption`) first. Their widths split the
      content width by `ratio` and add up to it; only the content cell ends the line. */
  function WriteLabelWithText(page: Page, caption: string, captionStyle: string,
                              content: string, contentStyle: string, ratio: real): (ops: seq<Op>)
    ensures |ops| == 2 && ops[0].Cell? && ops[1].Cell?
    ensures ops[0].text == caption && ops[0].font == Font(captionStyle, 11)
    ensures ops[1].text == content && ops[1].font == Font(contentStyle, 11)
    ensures ops[0].width == ratio * ContentWidth(page)
    ensures ops[0].width + ops[1].width == ContentWidth(page)
    ensures !ops[0].newLine && ops[1].newLine
  {
    var w := ContentWidth(page);
    [Cell(Font(captionStyle, 11), w * ratio, caption, "", false, "L", ""),
     Cell(Font(contentStyle, 11), w * (1.0 - ratio), content, "", true, "L", "")]
  }

  /** `writeRight` inside `writeHeader`: a full-width right-aligned cell, underlined when it links. */
  function WriteRight(page: Page, text: string, link: string): (ops: seq<Op>)
    ensures |ops| == 1 && ops[0].Cell?
    ensures ops[0].text == text && ops[0].link == link && ops[0].align == "R"
    ensures ops[0].width == ContentWidth(page) && ops[0].newLine
    ensures ops[0].font.style == "U" <==> link != ""
  {
    [Cell(Font(if link != "" then "U" else "", 11), ContentWidth(page), text, "", true, "R", link)]
  }

  /** `drawImage`: nothing at all when the résumé names no photo. */
  function DrawImage(picture: string, y: real): (blocks: seq<Block>)
    ensures blocks == [] <==> picture == ""
    ensures picture != "" ==> blocks == [Photo(picture, y)]
  {
    if picture == "" then [] else [Photo(picture, y)]
  }

  /** The kinds of block a section body is made of: no title, contact line, rule or photo. */
  predicate InSection(b: Block)
  {
    b.Heading? || b.Row? || b.Line? || b.Text? || b.Html?
  }

  predicate AllInSection(blocks: seq<Block>)
  {
    forall i :: 0 <= i < |blocks| ==> InSection(blocks[i])
  }

  lemma AllInSectionAppend(a: seq<Block>, b: seq<Block>)
    ensures AllInSection(a + b) <==> AllInSection(a) && AllInSection(b)
  {
    if AllInSection(a) && AllInSection(b) {
      forall i | 0 <= i < |a + b| ensures InSection((a + b)[i]) {
        if i < |a| { assert (a + b)[i] == a[i]; } else { assert (a + b)[i] == b[i - |a|]; }
      }
    }
    if AllInSection(a + b) {
      forall i | 0 <= i < |a| ensures InSection(a[i]) { assert (a + b)[i] == a[i]; }
      forall i | 0 <= i < |b| ensures InSection(b[i]) { assert (a + b)[i + |a|] == b[i]; }
    }
  }

  /** The canvas calls that draw one block. */
  function Lower(page: Page, b: Block): seq<Op>
  {
    match b
    case Title(t) => WriteTitle(page, t)
    case Heading(n) => WriteSectionName(page, n)
    case Row(l, ls, c, cs, r) => WriteLabelWithText(page, l, ls, c, cs, r)
    case Right(t, link) => WriteRight(page, t, link)
    case Line(t) => [Cell(Font("", 11), ContentWidth(page), t, "", true, "L", "")]
    case Text(k, t) => [Write(k, t)]
    case Html(k, h) => [Markup(k, h)]
    case Rule => [TopRule(ContentWidth(page))]
    case Photo(p, y) => [Image(p, y)]
  }

  /** The canvas calls that draw a sequence of blocks, in order. */
  function LowerAll(page: Page, blocks: seq<Block>): (ops: seq<Op>)
    ensures |ops| >= |blocks|
  {
    if |blocks| == 0 then [] else Lower(page, blocks[0]) + LowerAll(page, blocks[1..])
  }

  /** The names of the section headings, in document order. */
  function Headings(blocks: seq<Block>): seq<string>
  {
    if |blocks| == 0 then []
    else (if blocks[0].Heading? then [blocks[0].name] else []) + Headings(blocks[1..])
  }

  /** The markup written as flowing text, in document order. */
  function HtmlTexts(blocks: seq<Block>): seq<string>
  {
    if |blocks| == 0 then []
    else (if blocks[0].Html? then [blocks[0].html] else []) + HtmlTexts(blocks[1..])
  }

  lemma {:induction false} HeadingsAppend(a: seq<Block>, b: seq<Block>)
    ensures Headings(a + b) == Headings(a) + Headings(b)
    decreases |a|
  {
    if |a| > 0 {
      assert (a + b)[1..] == a[1..] + b;
      HeadingsAppend(a[1..], b);
    } else {
      assert a + b == b;
    }
  }

  lemma {:induction false} HtmlTextsAppend(a: seq<Block>, b: seq<Block>)
    ensures HtmlTexts(a + b) == HtmlTexts(a) + HtmlTexts(b)
    decreases |a|
  {
    if |a| > 0 {
      assert (a + b)[1..] == a[1..] + b;
      HtmlTextsAppend(a[1..], b);
    } else {
      assert a + b == b;
    }
  }

  /** Blocks without a heading contribute no heading names. */
  lemma {:induction false} NoHeadings(blocks: seq<Block>)
    requires forall i :: 0 <= i < |blocks| ==> !blocks[i].Heading?
    ensures Headings(blocks) == []
    decreases |blocks|
  {
    if |blocks| > 0 {
      NoHeadings(blocks[1..]);
    }
  }

  /** Blocks without markup contribute no markup. */
  lemma {:induction false} NoHtml(blocks: seq<Block>)
    requires forall i :: 0 <= i < |blocks| ==> !blocks[i].Html?
    ensures HtmlTexts(blocks) == []
    decreases |blocks|
  {
    if |blocks| > 0 {
      NoHtml(blocks[1..]);
    }
  }
}
