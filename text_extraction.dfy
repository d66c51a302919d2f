/** The richer `.pptx` reader of modules/text_extraction.py: titles, nested
    bullet prefixes, tables, chart titles and notes, one entry for every slide. */
module TextExtraction {
  import opened Strings
  import opened Document
  import PptTextExtraction

  /** The concatenation, without separator, of the runs whose text is not
      whitespace only. */
  function KeptRunText(runs: seq<string>): (r: string)
    ensures r == "" <==> forall i :: 0 <= i < |runs| ==> IsBlank(runs[i])
  {
    if |runs| == 0 then ""
    else
      var last := runs[|runs| - 1];
      var r0 := KeptRunText(runs[..|runs| - 1]);
      assert forall i :: 0 <= i < |runs| - 1 ==> runs[..|runs| - 1][i] == runs[i];
      r0 + (if IsBlank(last) then "" else last)
  }

  /** `"  " * level + ("▪ " if level > 0 else "")` */
  function Indent(level: nat): (r: string)
    ensures |r| == 2 * level + (if level > 0 then 2 else 0)
    ensures level > 0 <==> EndsWith(r, "▪ ")
  {
    Spaces(level) + (if level > 0 then "▪ " else "")
  }

  function Spaces(level: nat): (r: string)
    ensures |r| == 2 * level
    ensures forall i :: 0 <= i < |r| ==> r[i] == ' '
  {
    if level == 0 then "" else Spaces(level - 1) + "  "
  }

  /** The line of a paragraph, if its kept runs have any text. */
  function ParagraphLine(p: Paragraph): (r: Option<string>)
    ensures r.None? <==> forall i :: 0 <= i < |p.runs| ==> IsBlank(p.runs[i])
    ensures r.Some? ==> r.value == Indent(p.level) + KeptRunText(p.runs)
  {
    var text := KeptRunText(p.runs);
    if text == "" then None else Some(Indent(p.level) + text)
  }

  /** The lines of a text frame's paragraphs, in order. */
  function ParagraphLines(ps: seq<Paragraph>): seq<string> {
    if |ps| == 0 then []
    else
      var line := ParagraphLine(ps[|ps| - 1]);
      ParagraphLines(ps[..|ps| - 1]) + (if line.Some? then [line.value] else [])
  }

  /** The stripped non-blank cells of a row. */
  function RowCells(row: seq<string>): (r: seq<string>)
    ensures forall i :: 0 <= i < |r| ==> r[i] != "" && IsStripped(r[i])
  {
    if |row| == 0 then []
    else
      var c := Strip(row[|row| - 1]);
      RowCells(row[..|row| - 1]) + (if c != "" then [c] else [])
  }

  /** One line per row that has a non-blank cell: its cells joined by " | ". */
  function TableRows(rows: seq<seq<string>>): seq<string> {
    if |rows| == 0 then []
    else
      var cells := RowCells(rows[|rows| - 1]);
      TableRows(rows[..|rows| - 1]) + (if |cells| > 0 then [Join(" | ", cells)] else [])
  }

  /** What one shape contributes: the first matching case among text frame,
      table and chart. */
  function ShapeLines(sh: Shape): seq<string> {
    if sh.textFrame.Some? then ParagraphLines(sh.textFrame.value)
    else if sh.table.Some? then
      var rows := TableRows(sh.table.value);
      if |rows| > 0 then ["Table:\n" + Join("\n", rows)] else []
    else if sh.chart.Some? then
      if sh.chart.value.titleFrame.Some? then ["Chart Title: " + Strip(sh.chart.value.titleFrame.value)] else []
    else []
  }

  function ShapesLines(shapes: seq<Shape>): seq<string> {
    if |shapes| == 0 then [] else ShapesLines(shapes[..|shapes| - 1]) + ShapeLines(shapes[|shapes| - 1])
  }

  function TitleLines(slide: Slide): seq<string> {
    if slide.title.Some? then ["Title: " + Strip(slide.title.value)] else []
  }

  function NotesLines(slide: Slide): seq<string> {
    if slide.notes.Some? && Strip(slide.notes.value) != "" then ["Notes:\n" + Strip(slide.notes.value)] else []
  }

  /** `slide_text` once a slide has been walked. */
  function SlideLines(slide: Slide): seq<string> {
    TitleLines(slide) + ShapesLines(slide.shapes) + NotesLines(slide)
  }

  /** The lines that are not whitespace only. */
  function NonBlank(lines: seq<string>): (r: seq<string>)
    ensures |r| <= |lines|
  {
    if |lines| == 0 then []
    else NonBlank(lines[..|lines| - 1]) + (if IsBlank(lines[|lines| - 1]) then [] else [lines[|lines| - 1]])
  }

  /** The entry of slide n. */
  function RichEntry(n: nat, lines: seq<string>): string {
    PptTextExtraction.Marker(n) + "\n" +
      (if |lines| > 0 then Join("\n", NonBlank(lines)) else "[No text content]")
  }

  /** One entry per slide, in deck order, numbered from 1. */
  function RichEntries(slides: seq<Slide>): (r: seq<string>)
    ensures |r| == |slides|
  {
    seq(|slides|, i requires 0 <= i < |slides| => RichEntry(i + 1, SlideLines(slides[i])))
  }

  /** What `extract_text_from_ppt` returns for a path whose package cannot be read. */
  function ErrorOutput(path: string): seq<string> {
    ["Error: Unable to process " + path]
  }

  lemma EmptySlidePlaceholder(n: nat, slide: Slide)
    requires SlideLines(slide) == []
    ensures RichEntry(n, SlideLines(slide)) == PptTextExtraction.Marker(n) + "\n[No text content]"
  {
  }

  /** A slide with a title placeholder starts with "Title: " and the stripped
      title, whatever the rest of the slide holds. */
  lemma TitleFirst(slide: Slide)
    requires slide.title.Some?
    ensures |SlideLines(slide)| > 0 && SlideLines(slide)[0] == "Title: " + Strip(slide.title.value)
  {
  }

  predicate AllNonBlank(lines: seq<string>) {
    forall i :: 0 <= i < |lines| ==> !IsBlank(lines[i])
  }

  lemma PrefixedNonBlank(prefix: string, s: string)
    requires |prefix| > 0 && !IsSpace(prefix[0])
    ensures !IsBlank(prefix + s)
  {
    assert (prefix + s)[0] == prefix[0];
  }

  lemma {:induction false} ParagraphLinesNonBlank(ps: seq<Paragraph>)
    ensures AllNonBlank(ParagraphLines(ps))
  {
    if |ps| > 0 {
      var init := ps[..|ps| - 1];
      ParagraphLinesNonBlank(init);
      var p := ps[|ps| - 1];
      var line := ParagraphLine(p);
      var tail := if line.Some? then [line.value] else [];
      if line.Some? {
        KeptRunTextNonBlank(p.runs);
        SuffixedNonBlank(Indent(p.level), KeptRunText(p.runs));
      }
      assert AllNonBlank(tail);
      AllNonBlankConcat(ParagraphLines(init), tail);
    }
  }

  lemma SuffixedNonBlank(prefix: string, s: string)
    requires !IsBlank(s)
    ensures !IsBlank(prefix + s)
  {
    var j :| 0 <= j < |s| && !IsSpace(s[j]);
    assert (prefix + s)[|prefix| + j] == s[j];
  }

  /** The kept text of a paragraph is never whitespace only. */
  lemma {:induction false} KeptRunTextNonBlank(runs: seq<string>)
    ensures KeptRunText(runs) == "" || !IsBlank(KeptRunText(runs))
  {
    if |runs| > 0 {
      var r0 := KeptRunText(runs[..|runs| - 1]);
      KeptRunTextNonBlank(runs[..|runs| - 1]);
      var last := runs[|runs| - 1];
      if !IsBlank(last) {
        var j :| 0 <= j < |last| && !IsSpace(last[j]);
        assert (r0 + last)[|r0| + j] == last[j];
      } else if r0 != "" {
        var j :| 0 <= j < |r0| && !IsSpace(r0[j]);
        assert (r0 + "")[j] == r0[j];
      }
    }
  }

  lemma {:induction false} ShapesLinesNonBlank(shapes: seq<Shape>)
    ensures AllNonBlank(ShapesLines(shapes))
  {
    if |shapes| > 0 {
      ShapesLinesNonBlank(shapes[..|shapes| - 1]);
      var sh := shapes[|shapes| - 1];
      if sh.textFrame.Some? {
        ParagraphLinesNonBlank(sh.textFrame.value);
      } else if sh.table.Some? {
        var rows := TableRows(sh.table.value);
        if |rows| > 0 {
          PrefixedNonBlank("Table:\n", Join("\n", rows));
        }
      } else if sh.chart.Some? && sh.chart.value.titleFrame.Some? {
        PrefixedNonBlank("Chart Title: ", Strip(sh.chart.value.titleFrame.value));
      }
    }
  }

  lemma AllNonBlankConcat(a: seq<string>, b: seq<string>)
    requires AllNonBlank(a) && AllNonBlank(b)
    ensures AllNonBlank(a + b)
  {
    forall i | 0 <= i < |a + b| ensures !IsBlank((a + b)[i]) {
      if i < |a| { assert (a + b)[i] == a[i]; } else { assert (a + b)[i] == b[i - |a|]; }
    }
  }

  /** Every line a slide collects has a non-blank character, so the filter
      applied when the lines are joined never drops one. */
  lemma SlideLinesNonBlank(slide: Slide)
    ensures AllNonBlank(SlideLines(slide))
    ensures NonBlank(SlideLines(slide)) == SlideLines(slide)
  {
    ShapesLinesNonBlank(slide.shapes);
    if slide.title.Some? {
      PrefixedNonBlank("Title: ", Strip(slide.title.value));
    }
    if slide.notes.Some? && Strip(slide.notes.value) != "" {
      PrefixedNonBlank("Notes:\n", Strip(slide.notes.value));
    }
    AllNonBlankConcat(TitleLines(slide), ShapesLines(slide.shapes));
    AllNonBlankConcat(TitleLines(slide) + ShapesLines(slide.shapes), NotesLines(slide));
    NonBlankKeepsAll(SlideLines(slide));
  }

  lemma {:induction false} NonBlankKeepsAll(lines: seq<string>)
    requires AllNonBlank(lines)
    ensures NonBlank(lines) == lines
  {
    if |lines| > 0 {
      NonBlankKeepsAll(lines[..|lines| - 1]);
    }
  }

  /** A table contributes one block when at least one row keeps a cell, and
      nothing otherwise; each row line has no blank cell between its bars. */
  lemma {:induction false} TableRowsCount(rows: seq<seq<string>>)
    ensures |TableRows(rows)| <= |rows|
    ensures |TableRows(rows)| == 0 <==> forall i :: 0 <= i < |rows| ==> RowCells(rows[i]) == []
  {
    if |rows| > 0 {
      var init := rows[..|rows| - 1];
      TableRowsCount(init);
      assert forall i :: 0 <= i < |init| ==> init[i] == rows[i];
    }
  }

  /** `extract_text_from_ppt` of modules/text_extraction.py. */
  method ExtractTextFromPpt(path: string, pkg: Outcome<Deck>) returns (textOutput: seq<string>)
    ensures pkg.Raised? ==> textOutput == ErrorOutput(path)
    ensures pkg.Opened? ==> textOutput == RichEntries(pkg.value.slides)
  {
    if pkg.Raised? {
      textOutput := ErrorOutput(path);
    } else {
      textOutput := ExtractSlides(pkg.value.slides);
    }
  }

  /** The loop over the slides of an opened package. */
  method ExtractSlides(slides: seq<Slide>) returns (textOutput: seq<string>)
    ensures textOutput == RichEntries(slides)
  {
    ghost var expected := RichEntries(slides);
    textOutput := [];
    var n := 0;
    while n < |slides|
      invariant 0 <= n <= |slides|
      invariant textOutput == expected[..n]
    {
      var slideText := CollectSlideLines(slides[n]);
      var entry := FormatSlide(n + 1, slideText);
      SliceSnoc(expected, n);
      assert expected[n] == entry;
      textOutput := textOutput + [entry];
      n := n + 1;
    }
    assert expected[..n] == expected;
  }

  lemma SliceSnoc(s: seq<string>, n: nat)
    requires n < |s|
    ensures s[..n + 1] == s[..n] + [s[n]]
  {
  }

  /** The entry of the n-th slide from the lines collected on it. */
  method FormatSlide(n: nat, slideText: seq<string>) returns (entry: string)
    ensures entry == RichEntry(n, slideText)
  {
    if |slideText| > 0 {
      var cleaned := Join("\n", NonBlank(slideText));
      entry := PptTextExtraction.Marker(n) + "\n" + cleaned;
    } else {
      entry := PptTextExtraction.Marker(n) + "\n[No text content]";
    }
  }

  /** The walk over one slide: title, shapes, then notes. */
  method CollectSlideLines(slide: Slide) returns (slideText: seq<string>)
    ensures slideText == SlideLines(slide)
  {
    slideText := [];
    if slide.title.Some? {
      slideText := slideText + ["Title: " + Strip(slide.title.value)];
    }
    assert slideText == TitleLines(slide);
    var shapeText := CollectShapesLines(slide.shapes);
    slideText := slideText + shapeText;
    var notesLines: seq<string> := [];
    if slide.notes.Some? {
      var notesText := Strip(slide.notes.value);
      if notesText != "" {
        notesLines := ["Notes:\n" + notesText];
      }
    }
    assert notesLines == NotesLines(slide);
    slideText := slideText + notesLines;
  }

  method CollectShapesLines(shapes: seq<Shape>) returns (lines: seq<string>)
    ensures lines == ShapesLines(shapes)
  {
    lines := [];
    var j := 0;
    while j < |shapes|
      invariant 0 <= j <= |shapes|
      invariant lines == ShapesLines(shapes[..j])
    {
      var shapeLines := CollectShapeLines(shapes[j]);
      lines := lines + shapeLines;
      assert shapes[..j + 1][..j] == shapes[..j];
      j := j + 1;
    }
    assert shapes[..j] == shapes;
  }

  /** The lines of one shape: the first of text frame, table or chart that applies. */
  method CollectShapeLines(shape: Shape) returns (lines: seq<string>)
    ensures lines == ShapeLines(shape)
  {
    lines := [];
    if shape.textFrame.Some? {
      var paragraphs := shape.textFrame.value;
      var p := 0;
      while p < |paragraphs|
        invariant 0 <= p <= |paragraphs|
        invariant lines == ParagraphLines(paragraphs[..p])
      {
        var paragraphText := KeptRunText(paragraphs[p].runs);
        if paragraphText != "" {
          lines := lines + [Indent(paragraphs[p].level) + paragraphText];
        }
        assert paragraphs[..p + 1][..p] == paragraphs[..p];
        p := p + 1;
      }
      assert paragraphs[..p] == paragraphs;
    } else if shape.table.Some? {
      var tableText := CollectTableRows(shape.table.value);
      if |tableText| > 0 {
        lines := ["Table:\n" + Join("\n", tableText)];
      }
    } else if shape.chart.Some? {
      if shape.chart.value.titleFrame.Some? {
        lines := ["Chart Title: " + Strip(shape.chart.value.titleFrame.value)];
      }
    }
  }

  method CollectTableRows(rows: seq<seq<string>>) returns (tableText: seq<string>)
    ensures tableText == TableRows(rows)
  {
    tableText := [];
    var k := 0;
    while k < |rows|
      invariant 0 <= k <= |rows|
      invariant tableText == TableRows(rows[..k])
    {
      var rowText := RowCells(rows[k]);
      if |rowText| > 0 {
        tableText := tableText + [Join(" | ", rowText)];
      }
      assert rows[..k + 1][..k] == rows[..k];
      k := k + 1;
    }
    assert rows[..k] == rows;
  }

  /** `extract_metadata` of modules/text_extraction.py: the same 13 keys, the
      revision rendered with `str`, and a fixed error message naming the path. */
  function ExtractMetadata(path: string, pkg: Outcome<Deck>): (md: Metadata)
    ensures pkg.Raised? ==> md == PptTextExtraction.ErrorMetadata("Unable to process " + path)
    ensures pkg.Opened? ==> Keys(md) == PptTextExtraction.MetadataKeys
    ensures pkg.Opened? ==> forall i :: 0 <= i < |md| ==> md[i].1.Text? && md[i].1.s != ""
  {
    if pkg.Raised? then PptTextExtraction.ErrorMetadata("Unable to process " + path)
    else
      var c := pkg.value.core;
      PptTextExtraction.WithKeys(PptTextExtraction.CoreTexts(c), Text(RevisionText(c.revision)))
  }

  /** `str(props.revision) if props.revision else "N/A"` */
  function RevisionText(revision: int): (r: string)
    ensures r != ""
    ensures revision != 0 ==> r == IntToString(revision)
    ensures revision == 0 ==> r == PptTextExtraction.NA
  {
    if revision != 0 then IntToString(revision) else PptTextExtraction.NA
  }

  /** Under each key a successful read holds that core property: a non-empty
      string as it is, a falsy one as "N/A", a present date in the
      '%Y-%m-%d %H:%M:%S' layout, and a non-zero revision through `str`. */
  lemma MetadataValues(path: string, d: Deck)
    ensures var md := ExtractMetadata(path, Opened(d)); var c := d.core;
      var NA := PptTextExtraction.NA;
      && Keys(md) == PptTextExtraction.MetadataKeys
      && md[0].1 == Text(if c.title != "" then c.title else NA)
      && md[1].1 == Text(if c.author != "" then c.author else NA)
      && md[2].1 == Text(if c.subject != "" then c.subject else NA)
      && md[3].1 == Text(if c.keywords != "" then c.keywords else NA)
      && md[4].1 == Text(if c.comments != "" then c.comments else NA)
      && md[5].1 == Text(if c.lastModifiedBy != "" then c.lastModifiedBy else NA)
      && md[6].1 == Text(if c.created.Some? then PptTextExtraction.FormatDate(c.created.value) else NA)
      && md[7].1 == Text(if c.modified.Some? then PptTextExtraction.FormatDate(c.modified.value) else NA)
      && md[8].1 == Text(if c.category != "" then c.category else NA)
      && md[9].1 == Text(if c.contentStatus != "" then c.contentStatus else NA)
      && md[10].1 == Text(if c.identifier != "" then c.identifier else NA)
      && md[11].1 == Text(if c.language != "" then c.language else NA)
      && md[12].1 == Text(if c.revision != 0 then IntToString(c.revision) else NA)
  {
    var ts := PptTextExtraction.CoreTexts(d.core);
    assert forall i :: 0 <= i < 12 ==> ExtractMetadata(path, Opened(d))[i].1 == Text(ts[i]);
  }

  /** Both `.pptx` metadata readers print every value the same way: storing
      the revision as an integer or as its string makes no difference once
      the dictionary is printed. */
  lemma MetadataReadersRenderAlike(path: string, d: Deck)
    ensures var a := PptTextExtraction.ExtractMetadata(Opened(d));
      var b := ExtractMetadata(path, Opened(d));
      |a| == |b| && forall i :: 0 <= i < |a| ==>
        a[i].0 == b[i].0 && PptTextExtraction.Render(a[i].1) == PptTextExtraction.Render(b[i].1)
  {
    var a := PptTextExtraction.ExtractMetadata(Opened(d));
    var b := ExtractMetadata(path, Opened(d));
    assert Keys(a) == Keys(b);
    forall i | 0 <= i < |a|
      ensures a[i].0 == b[i].0 && PptTextExtraction.Render(a[i].1) == PptTextExtraction.Render(b[i].1)
    {
      assert a[i].0 == Keys(a)[i];
    }
  }
}
