/** The slide-text readers and metadata readers of modules/ppt_text_extraction.py:
    the `.pptx` reader over the python-pptx object model, the legacy reader over
    PowerPoint automation, and the two 13-key metadata dictionaries. */
module PptTextExtraction {
  import opened Strings
  import opened Document
  import FileTypes

  /** The slide marker `@@@Slide_{n}@@@`. */
  function Marker(n: nat): string {
    "@@@Slide_" + NatToString(n) + "@@@"
  }

  /** One entry of both readers: "\n\n@@@Slide_{n}@@@\n" and the texts joined by "\n". */
  function SlideEntry(n: nat, texts: seq<string>): string {
    "\n\n" + Marker(n) + "\n" + Join("\n", texts)
  }

  // ---------------------------------------------------------------------------
  // The .pptx reader

  /** The texts of all runs of the paragraphs, in order. */
  function ParagraphRuns(ps: seq<Paragraph>): seq<string> {
    if |ps| == 0 then [] else ParagraphRuns(ps[..|ps| - 1]) + ps[|ps| - 1].runs
  }

  function ShapeRuns(sh: Shape): seq<string> {
    if sh.textFrame.Some? then ParagraphRuns(sh.textFrame.value) else []
  }

  /** The texts of every run of every text-frame shape of a slide, in order. */
  function SlideRuns(shapes: seq<Shape>): seq<string> {
    if |shapes| == 0 then [] else SlideRuns(shapes[..|shapes| - 1]) + ShapeRuns(shapes[|shapes| - 1])
  }

  /** The entries both readers build from the texts collected on each slide:
      slide n (1-based) contributes an entry when it has at least one text. */
  function Entries(texts: seq<seq<string>>): seq<string> {
    if |texts| == 0 then []
    else
      var last := texts[|texts| - 1];
      Entries(texts[..|texts| - 1]) + (if |last| > 0 then [SlideEntry(|texts|, last)] else [])
  }

  lemma EntriesSnoc(texts: seq<seq<string>>, n: nat)
    requires n < |texts|
    ensures Entries(texts[..n + 1]) ==
      Entries(texts[..n]) + (if |texts[n]| > 0 then [SlideEntry(n + 1, texts[n])] else [])
  {
    assert texts[..n + 1][..n] == texts[..n];
  }

  /** The runs of each slide of a `.pptx` deck. */
  function PptxTexts(slides: seq<Slide>): (r: seq<seq<string>>)
    ensures |r| == |slides|
  {
    seq(|slides|, i requires 0 <= i < |slides| => SlideRuns(slides[i].shapes))
  }

  /** What the `.pptx` reader returns for an opened deck. */
  function PptxEntries(slides: seq<Slide>): seq<string> {
    Entries(PptxTexts(slides))
  }

  /** Some paragraph of a text frame holds a run (whatever its text). */
  predicate HasRun(shapes: seq<Shape>) {
    exists j, p :: 0 <= j < |shapes| && shapes[j].textFrame.Some? &&
      0 <= p < |shapes[j].textFrame.value| && |shapes[j].textFrame.value[p].runs| > 0
  }

  lemma {:induction false} ParagraphRunsNonEmpty(ps: seq<Paragraph>)
    ensures |ParagraphRuns(ps)| > 0 <==> exists p :: 0 <= p < |ps| && |ps[p].runs| > 0
  {
    if |ps| > 0 {
      var init := ps[..|ps| - 1];
      ParagraphRunsNonEmpty(init);
      if exists p :: 0 <= p < |init| && |init[p].runs| > 0 {
        var p :| 0 <= p < |init| && |init[p].runs| > 0;
        assert ps[p] == init[p];
      }
      if exists p :: 0 <= p < |ps| && |ps[p].runs| > 0 {
        var p :| 0 <= p < |ps| && |ps[p].runs| > 0;
        if p < |init| {
          assert ps[p] == init[p];
        }
      }
    }
  }

  /** A slide yields runs exactly when one of its text frames has a run; an
      empty-text run counts. */
  lemma {:induction false} SlideRunsNonEmpty(shapes: seq<Shape>)
    ensures |SlideRuns(shapes)| > 0 <==> HasRun(shapes)
  {
    if |shapes| > 0 {
      var init := shapes[..|shapes| - 1];
      var last := shapes[|shapes| - 1];
      SlideRunsNonEmpty(init);
      if last.textFrame.Some? {
        ParagraphRunsNonEmpty(last.textFrame.value);
      }
      if HasRun(init) {
        var j, p :| 0 <= j < |init| && init[j].textFrame.Some? &&
          0 <= p < |init[j].textFrame.value| && |init[j].textFrame.value[p].runs| > 0;
        assert shapes[j] == init[j];
      }
      if HasRun(shapes) {
        var j, p :| 0 <= j < |shapes| && shapes[j].textFrame.Some? &&
          0 <= p < |shapes[j].textFrame.value| && |shapes[j].textFrame.value[p].runs| > 0;
        if j < |shapes| - 1 {
          assert init[j] == shapes[j];
        }
      }
    }
  }

  /** The 1-based numbers of the slides that contribute an entry. */
  function KeptSlides(texts: seq<seq<string>>): seq<nat> {
    if |texts| == 0 then []
    else KeptSlides(texts[..|texts| - 1]) + (if |texts[|texts| - 1]| > 0 then [|texts|] else [])
  }

  predicate StrictlyIncreasing(ns: seq<nat>) {
    forall i, j :: 0 <= i < j < |ns| ==> ns[i] < ns[j]
  }

  /** The kept positions are increasing, lie in the deck, and are exactly
      the slides that have a text; so there are at most as many entries as slides. */
  lemma {:induction false} KeptSlidesSpec(texts: seq<seq<string>>)
    ensures var ks := KeptSlides(texts);
      && |ks| <= |texts|
      && StrictlyIncreasing(ks)
      && (forall i :: 0 <= i < |ks| ==> 1 <= ks[i] <= |texts|)
      && (forall m :: 0 <= m < |texts| ==> (m + 1 in ks <==> |texts[m]| > 0))
  {
    if |texts| > 0 {
      var init := texts[..|texts| - 1];
      KeptSlidesSpec(init);
      var ks0 := KeptSlides(init);
      var ks := KeptSlides(texts);
      var keep := |texts[|texts| - 1]| > 0;
      assert ks == ks0 + (if keep then [|texts|] else []);
      forall i | 0 <= i < |ks| ensures 1 <= ks[i] <= |texts| {
        if i < |ks0| {
          assert ks[i] == ks0[i];
        }
      }
      forall i, j | 0 <= i < j < |ks| ensures ks[i] < ks[j] {
        assert ks[i] == ks0[i];
        if j < |ks0| {
          assert ks[j] == ks0[j];
        }
      }
      forall m | 0 <= m < |texts| ensures m + 1 in ks <==> |texts[m]| > 0 {
        assert m + 1 in ks <==> m + 1 in ks0 || (keep && m + 1 == |texts|);
        if m < |init| {
          assert init[m] == texts[m];
        }
      }
    }
  }

  /** Entry i of either reader's output is the entry of the slide at position
      KeptSlides[i], numbered by that position, holding that slide's texts. */
  lemma {:induction false} EntriesNumbered(texts: seq<seq<string>>)
    ensures var ks := KeptSlides(texts);
      && |Entries(texts)| == |ks|
      && (forall i :: 0 <= i < |ks| ==>
            1 <= ks[i] <= |texts| && Entries(texts)[i] == SlideEntry(ks[i], texts[ks[i] - 1]))
  {
    if |texts| > 0 {
      var init := texts[..|texts| - 1];
      EntriesNumbered(init);
      var ks0 := KeptSlides(init);
      var e0 := Entries(init);
      var last := texts[|texts| - 1];
      var ks := KeptSlides(texts);
      var es := Entries(texts);
      assert ks == ks0 + (if |last| > 0 then [|texts|] else []);
      assert es == e0 + (if |last| > 0 then [SlideEntry(|texts|, last)] else []);
      forall i | 0 <= i < |ks|
        ensures 1 <= ks[i] <= |texts| && es[i] == SlideEntry(ks[i], texts[ks[i] - 1])
      {
        if i < |ks0| {
          var k := ks0[i];
          assert ks[i] == k && es[i] == e0[i];
          assert e0[i] == SlideEntry(k, init[k - 1]);
          assert texts[k - 1] == init[k - 1];
        } else {
          assert |last| > 0 && i == |e0|;
          assert ks[i] == |texts|;
        }
      }
    }
  }

  lemma SlideRunsSnoc(shapes: seq<Shape>, j: nat)
    requires j < |shapes|
    ensures SlideRuns(shapes[..j + 1]) == SlideRuns(shapes[..j]) + ShapeRuns(shapes[j])
  {
    assert shapes[..j + 1][..j] == shapes[..j];
  }

  lemma ParagraphRunsSnoc(ps: seq<Paragraph>, p: nat)
    requires p < |ps|
    ensures ParagraphRuns(ps[..p + 1]) == ParagraphRuns(ps[..p]) + ps[p].runs
  {
    assert ps[..p + 1][..p] == ps[..p];
  }

  /** The slide loop's inner loops: append the text of every run of every
      text-frame shape, in order. */
  method CollectRuns(shapes: seq<Shape>) returns (slideText: seq<string>)
    ensures slideText == SlideRuns(shapes)
  {
    slideText := [];
    var j := 0;
    while j < |shapes|
      invariant 0 <= j <= |shapes|
      invariant slideText == SlideRuns(shapes[..j])
    {
      if shapes[j].textFrame.Some? {
        var frameText := CollectParagraphRuns(shapes[j].textFrame.value);
        slideText := slideText + frameText;
      }
      SlideRunsSnoc(shapes, j);
      j := j + 1;
    }
    assert shapes[..j] == shapes;
  }

  /** The loops over the paragraphs of one text frame and over their runs. */
  method CollectParagraphRuns(paragraphs: seq<Paragraph>) returns (frameText: seq<string>)
    ensures frameText == ParagraphRuns(paragraphs)
  {
    frameText := [];
    var p := 0;
    while p < |paragraphs|
      invariant 0 <= p <= |paragraphs|
      invariant frameText == ParagraphRuns(paragraphs[..p])
    {
      var runs := paragraphs[p].runs;
      ghost var before := frameText;
      var k := 0;
      while k < |runs|
        invariant 0 <= k <= |runs|
        invariant frameText == before + runs[..k]
      {
        frameText := frameText + [runs[k]];
        assert runs[..k + 1] == runs[..k] + [runs[k]];
        k := k + 1;
      }
      assert runs[..k] == runs;
      ParagraphRunsSnoc(paragraphs, p);
      p := p + 1;
    }
    assert paragraphs[..p] == paragraphs;
  }

  /** `extract_text_from_ppt`: files whose lowercased extension is not exactly
      ".pptx" go to the legacy reader; a `.pptx` package that cannot be opened
      raises out of the function (it has no handler). */
  method ExtractTextFromPpt(path: string, pptx: Outcome<Deck>, legacy: Outcome<LegacyDeck>)
    returns (r: Outcome<seq<string>>)
    ensures !FileTypes.IsPptx(path) ==> r == Opened(LegacyText(legacy))
    ensures FileTypes.IsPptx(path) && pptx.Raised? ==> r == Raised(pptx.message)
    ensures FileTypes.IsPptx(path) && pptx.Opened? ==> r == Opened(PptxEntries(pptx.value.slides))
  {
    if !FileTypes.IsPptx(path) {
      var legacyOutput := ExtractTextFromPptLegacy(legacy);
      return Opened(legacyOutput);
    }
    if pptx.Raised? {
      return Raised(pptx.message);
    }
    var textOutput := ExtractPptxSlides(pptx.value.slides);
    return Opened(textOutput);
  }

  /** The `.pptx` reader's loop over the slides. */
  method ExtractPptxSlides(slides: seq<Slide>) returns (textOutput: seq<string>)
    ensures textOutput == PptxEntries(slides)
  {
    ghost var texts := PptxTexts(slides);
    textOutput := [];
    var n := 0;
    while n < |slides|
      invariant 0 <= n <= |slides|
      invariant textOutput == Entries(texts[..n])
    {
      var slideText := CollectRuns(slides[n].shapes);
      if |slideText| > 0 {
        textOutput := textOutput + [SlideEntry(n + 1, slideText)];
      }
      EntriesSnoc(texts, n);
      n := n + 1;
    }
    assert texts[..n] == texts;
  }

  // ---------------------------------------------------------------------------
  // The legacy reader

  /** The stripped, non-empty texts of the shapes that have a text frame with text. */
  function LegacyTexts(shapes: seq<LegacyShape>): (r: seq<string>)
  {
    if |shapes| == 0 then []
    else
      var sh := shapes[|shapes| - 1];
      var t := Strip(sh.text);
      LegacyTexts(shapes[..|shapes| - 1]) + (if sh.hasTextFrame && sh.hasText && t != "" then [t] else [])
  }

  /** The kept texts of each slide of a legacy deck. */
  function LegacySlideTexts(slides: seq<LegacySlide>): (r: seq<seq<string>>)
    ensures |r| == |slides|
  {
    seq(|slides|, i requires 0 <= i < |slides| => LegacyTexts(slides[i].shapes))
  }

  function LegacyEntries(slides: seq<LegacySlide>): seq<string> {
    Entries(LegacySlideTexts(slides))
  }

  /** What the legacy reader returns: [] whenever automation fails. */
  function LegacyText(doc: Outcome<LegacyDeck>): seq<string> {
    if doc.Raised? then [] else LegacyEntries(doc.value.slides)
  }

  /** Every text the legacy reader keeps is stripped and non-empty, and each
      one comes from a shape with a text frame that has text. */
  lemma {:induction false} LegacyTextsClean(shapes: seq<LegacyShape>)
    ensures forall i :: 0 <= i < |LegacyTexts(shapes)| ==>
      LegacyTexts(shapes)[i] != "" && IsStripped(LegacyTexts(shapes)[i])
    ensures |LegacyTexts(shapes)| <= |shapes|
  {
    if |shapes| > 0 {
      var init := shapes[..|shapes| - 1];
      LegacyTextsClean(init);
      var r0 := LegacyTexts(init);
      var t := Strip(shapes[|shapes| - 1].text);
      assert LegacyTexts(shapes) == r0 + (if shapes[|shapes| - 1].hasTextFrame && shapes[|shapes| - 1].hasText && t != "" then [t] else []);
    }
  }

  /** `extract_text_from_ppt_legacy` */
  method ExtractTextFromPptLegacy(doc: Outcome<LegacyDeck>) returns (textOutput: seq<string>)
    ensures textOutput == LegacyText(doc)
  {
    if doc.Raised? {
      return [];
    }
    textOutput := ExtractLegacySlides(doc.value.slides);
  }

  /** The legacy reader's loop over the slides. */
  method ExtractLegacySlides(slides: seq<LegacySlide>) returns (textOutput: seq<string>)
    ensures textOutput == LegacyEntries(slides)
  {
    ghost var texts := LegacySlideTexts(slides);
    textOutput := [];
    var n := 0;
    while n < |slides|
      invariant 0 <= n <= |slides|
      invariant textOutput == Entries(texts[..n])
    {
      var slideText := CollectLegacyTexts(slides[n].shapes);
      if |slideText| > 0 {
        textOutput := textOutput + [SlideEntry(n + 1, slideText)];
      }
      EntriesSnoc(texts, n);
      n := n + 1;
    }
    assert texts[..n] == texts;
  }

  /** The walk over one legacy slide's shapes. */
  method CollectLegacyTexts(shapes: seq<LegacyShape>) returns (slideText: seq<string>)
    ensures slideText == LegacyTexts(shapes)
  {
    slideText := [];
    var j := 0;
    while j < |shapes|
      invariant 0 <= j <= |shapes|
      invariant slideText == LegacyTexts(shapes[..j])
    {
      var shape := shapes[j];
      if shape.hasTextFrame && shape.hasText {
        var text := Strip(shape.text);
        if text != "" {
          slideText := slideText + [text];
        }
      }
      assert shapes[..j + 1][..j] == shapes[..j];
      j := j + 1;
    }
    assert shapes[..j] == shapes;
  }

  /** Backend transparency: two decks with the same number of slides and the
      same per-slide texts give the same entries through either reader. */
  lemma ReadersAgree(pptx: seq<Slide>, legacy: seq<LegacySlide>)
    requires |pptx| == |legacy|
    requires forall i :: 0 <= i < |pptx| ==> SlideRuns(pptx[i].shapes) == LegacyTexts(legacy[i].shapes)
    ensures PptxEntries(pptx) == LegacyEntries(legacy)
  {
    assert PptxTexts(pptx) == LegacySlideTexts(legacy);
  }

  // ---------------------------------------------------------------------------
  // Metadata

  /** The 13 keys of both metadata dictionaries, in order. */
  const MetadataKeys: seq<string> := ["Title", "Author", "Subject", "Keywords", "Comments",
    "Last Modified By", "Created", "Modified", "Category", "Content Status", "Identifier",
    "Language", "Revision"]

  const NA: string := "N/A"

  /** `d.strftime('%Y-%m-%d %H:%M:%S')` */
  function FormatDate(d: DateTime): (r: string)
    ensures |r| > 0 && '0' <= r[0] <= '9'
  {
    DatePart(d) + " " + TimePart(d)
  }

  /** The '%Y-%m-%d' half. */
  function DatePart(d: DateTime): string {
    PadNat(d.year, 4) + "-" + PadNat(d.month, 2) + "-" + PadNat(d.day, 2)
  }

  /** The '%H:%M:%S' half. */
  function TimePart(d: DateTime): string {
    PadNat(d.hour, 2) + ":" + PadNat(d.minute, 2) + ":" + PadNat(d.second, 2)
  }

  /** Where the pieces of `a + [s] + b` lie. */
  lemma Fields2(a: string, s: char, b: string)
    ensures var r := a + [s] + b;
      |r| == |a| + 1 + |b| && r[|a|] == s && r[..|a|] == a && r[|a| + 1..] == b
  {
    var r := a + [s] + b;
    assert r[..|a|] == a;
    assert r[|a| + 1..] == b;
  }

  lemma DatePartLayout(d: DateTime)
    requires IsDateTime(d)
    ensures var r := DatePart(d);
      && |r| == 10 && r[4] == '-' && r[7] == '-'
      && AllDigits(r[0..4]) && AllDigits(r[5..7]) && AllDigits(r[8..10])
      && DigitsValue(r[0..4]) == d.year && DigitsValue(r[5..7]) == d.month
      && DigitsValue(r[8..10]) == d.day
  {
    assert Pow10(2) == 100 && Pow10(4) == 10000;
    var y, mo, dd := PadNat(d.year, 4), PadNat(d.month, 2), PadNat(d.day, 2);
    PadNatSpec(d.year, 4);
    PadNatSpec(d.month, 2);
    PadNatSpec(d.day, 2);
    Fields2(y, '-', mo);
    Fields2(y + "-" + mo, '-', dd);
    var r := DatePart(d);
    var ym := y + "-" + mo;
    assert r == ym + ['-'] + dd;
    assert r[..7] == ym && r[8..] == dd;
    assert r[0..4] == ym[..4] == y;
    assert r[5..7] == ym[5..] == mo;
  }

  lemma TimePartLayout(d: DateTime)
    requires IsDateTime(d)
    ensures var r := TimePart(d);
      && |r| == 8 && r[2] == ':' && r[5] == ':'
      && AllDigits(r[0..2]) && AllDigits(r[3..5]) && AllDigits(r[6..8])
      && DigitsValue(r[0..2]) == d.hour && DigitsValue(r[3..5]) == d.minute
      && DigitsValue(r[6..8]) == d.second
  {
    assert Pow10(2) == 100;
    var h, mi, se := PadNat(d.hour, 2), PadNat(d.minute, 2), PadNat(d.second, 2);
    PadNatSpec(d.hour, 2);
    PadNatSpec(d.minute, 2);
    PadNatSpec(d.second, 2);
    Fields2(h, ':', mi);
    Fields2(h + ":" + mi, ':', se);
    var r := TimePart(d);
    var hm := h + ":" + mi;
    assert r == hm + [':'] + se;
    assert r[..5] == hm && r[6..] == se;
    assert r[0..2] == hm[..2] == h;
    assert r[3..5] == hm[3..] == mi;
  }

  /** The '%Y-%m-%d %H:%M:%S' layout: 19 characters, the separators at their
      fixed places, and each digit field reading back as its date field. */
  lemma FormatDateLayout(d: DateTime)
    requires IsDateTime(d)
    ensures var r := FormatDate(d);
      && |r| == 19
      && r[4] == '-' && r[7] == '-' && r[10] == ' ' && r[13] == ':' && r[16] == ':'
      && AllDigits(r[0..4]) && AllDigits(r[5..7]) && AllDigits(r[8..10])
      && AllDigits(r[11..13]) && AllDigits(r[14..16]) && AllDigits(r[17..19])
      && DigitsValue(r[0..4]) == d.year && DigitsValue(r[5..7]) == d.month
      && DigitsValue(r[8..10]) == d.day && DigitsValue(r[11..13]) == d.hour
      && DigitsValue(r[14..16]) == d.minute && DigitsValue(r[17..19]) == d.second
  {
    var dp, tp := DatePart(d), TimePart(d);
    DatePartLayout(d);
    TimePartLayout(d);
    Fields2(dp, ' ', tp);
    var r := FormatDate(d);
    assert r == dp + [' '] + tp;
    assert r[..10] == dp && r[11..] == tp;
    assert r[4] == dp[4] && r[7] == dp[7] && r[13] == tp[2] && r[16] == tp[5];
    assert r[0..4] == dp[0..4] && r[5..7] == dp[5..7] && r[8..10] == dp[8..10];
    assert r[11..13] == tp[0..2] && r[14..16] == tp[3..5] && r[17..19] == tp[6..8];
  }

  /** `s or "N/A"` for a string property. */
  function OrNA(s: string): (r: string)
    ensures r != ""
    ensures r == s || (s == "" && r == NA)
  {
    if s == "" then NA else s
  }

  /** A date property formatted, or "N/A" when absent. */
  function DateOrNA(d: Option<DateTime>): (r: string)
    ensures r != ""
    ensures r == NA <==> d.None?
    ensures d.Some? ==> r == FormatDate(d.value)
  {
    if d.Some? then
      var f := FormatDate(d.value);
      assert f[0] != NA[0];
      f
    else NA
  }

  /** `str(v)` / `f"{v}"` for a metadata value. */
  function Render(v: Value): string {
    match v
    case Text(s) => s
    case Number(n) => IntToString(n)
  }

  /** A dictionary with the 13 keys in order: the first twelve hold the given
      strings, the last the revision. */
  function WithKeys(texts: seq<string>, revision: Value): (md: Metadata)
    requires |texts| == 12
    ensures Keys(md) == MetadataKeys
    ensures forall i :: 0 <= i < 12 ==> md[i].1 == Text(texts[i])
    ensures md[12].1 == revision
  {
    var md := seq(13, i requires 0 <= i < 13 => (MetadataKeys[i], if i < 12 then Text(texts[i]) else revision));
    assert Keys(md) == MetadataKeys;
    md
  }

  /** The twelve string-valued core properties in key order, each defaulted to "N/A". */
  function CoreTexts(c: CoreProps): (ts: seq<string>)
    ensures |ts| == 12
    ensures forall i :: 0 <= i < 12 ==> ts[i] != ""
  {
    [OrNA(c.title), OrNA(c.author), OrNA(c.subject), OrNA(c.keywords),
     OrNA(c.comments), OrNA(c.lastModifiedBy), DateOrNA(c.created), DateOrNA(c.modified),
     OrNA(c.category), OrNA(c.contentStatus), OrNA(c.identifier), OrNA(c.language)]
  }

  /** `props.revision or "N/A"`: the integer itself when it is non-zero. */
  function RevisionOrNA(revision: int): (v: Value)
    ensures Render(v) != ""
    ensures revision != 0 ==> v == Number(revision)
    ensures revision == 0 ==> v == Text(NA)
  {
    if revision != 0 then Number(revision) else Text(NA)
  }

  /** The error dictionary `{"Error": message}`. */
  function ErrorMetadata(message: string): Metadata {
    [("Error", Text(message))]
  }

  /** `extract_metadata`: the 13-key dictionary from the core properties, or
      `{"Error": str(e)}` when the package cannot be read. No value prints as
      an empty string, since every falsy property is replaced by "N/A". */
  function ExtractMetadata(pkg: Outcome<Deck>): (md: Metadata)
    ensures pkg.Raised? ==> md == ErrorMetadata(pkg.message)
    ensures pkg.Opened? ==> Keys(md) == MetadataKeys
    ensures pkg.Opened? ==> forall i :: 0 <= i < |md| ==> Render(md[i].1) != ""
    ensures pkg.Opened? ==> (md[12].1.Number? <==> pkg.value.core.revision != 0)
  {
    if pkg.Raised? then ErrorMetadata(pkg.message)
    else
      var c := pkg.value.core;
      WithKeys(CoreTexts(c), RevisionOrNA(c.revision))
  }

  /** Under each key a successful `extract_metadata` holds that core property:
      a non-empty string as it is, a falsy one as "N/A", a present date in the
      '%Y-%m-%d %H:%M:%S' layout, and a non-zero revision as the integer. */
  lemma MetadataValues(d: Deck)
    ensures var md := ExtractMetadata(Opened(d)); var c := d.core;
      && Keys(md) == MetadataKeys
      && md[0].1 == Text(if c.title != "" then c.title else NA)
      && md[1].1 == Text(if c.author != "" then c.author else NA)
      && md[2].1 == Text(if c.subject != "" then c.subject else NA)
      && md[3].1 == Text(if c.keywords != "" then c.keywords else NA)
      && md[4].1 == Text(if c.comments != "" then c.comments else NA)
      && md[5].1 == Text(if c.lastModifiedBy != "" then c.lastModifiedBy else NA)
      && md[6].1 == Text(if c.created.Some? then FormatDate(c.created.value) else NA)
      && md[7].1 == Text(if c.modified.Some? then FormatDate(c.modified.value) else NA)
      && md[8].1 == Text(if c.category != "" then c.category else NA)
      && md[9].1 == Text(if c.contentStatus != "" then c.contentStatus else NA)
      && md[10].1 == Text(if c.identifier != "" then c.identifier else NA)
      && md[11].1 == Text(if c.language != "" then c.language else NA)
      && md[12].1 == (if c.revision != 0 then Number(c.revision) else Text(NA))
  {
    var ts := CoreTexts(d.core);
    assert forall i :: 0 <= i < 12 ==> ExtractMetadata(Opened(d))[i].1 == Text(ts[i]);
  }

  /** A legacy property `props(name).Value if props(name) else "N/A"`. */
  function LegacyOrNA(p: Option<string>): string {
    if p.Some? then p.value else NA
  }

  /** The twelve string-valued legacy properties in key order; Content
      Status, Identifier and Language are always "N/A". */
  function LegacyTexts12(p: LegacyProps): (ts: seq<string>)
    ensures |ts| == 12 && ts[9] == NA && ts[10] == NA && ts[11] == NA
  {
    [LegacyOrNA(p.title), LegacyOrNA(p.author), LegacyOrNA(p.subject), LegacyOrNA(p.keywords),
     LegacyOrNA(p.comments), LegacyOrNA(p.lastSavedBy), DateOrNA(p.creationDate), DateOrNA(p.lastSaveTime),
     LegacyOrNA(p.category), NA, NA, NA]
  }

  /** `str(props("Revision Number").Value) if props("Revision Number") else "N/A"` */
  function LegacyRevision(p: Option<Value>): string {
    if p.Some? then Render(p.value) else NA
  }

  /** `extract_metadata_from_ppt_legacy`: the same 13 keys in the same order,
      every value a string, the revision number rendered with `str`. */
  function ExtractMetadataLegacy(doc: Outcome<LegacyDeck>): (md: Metadata)
    ensures doc.Raised? ==> md == ErrorMetadata(doc.message)
    ensures doc.Opened? ==> Keys(md) == MetadataKeys
    ensures doc.Opened? ==> md[9].1 == md[10].1 == md[11].1 == Text(NA)
    ensures doc.Opened? ==> forall i :: 0 <= i < |md| ==> md[i].1.Text?
  {
    if doc.Raised? then ErrorMetadata(doc.message)
    else
      var p := doc.value.props;
      WithKeys(LegacyTexts12(p), Text(LegacyRevision(p.revisionNumber)))
  }

  /** Under each key a successful legacy read holds that built-in property's
      value, "N/A" when the property is absent, the dates in the
      '%Y-%m-%d %H:%M:%S' layout and the revision number through `str`. */
  lemma LegacyMetadataValues(ld: LegacyDeck)
    ensures var md := ExtractMetadataLegacy(Opened(ld)); var p := ld.props;
      && Keys(md) == MetadataKeys
      && md[0].1 == Text(if p.title.Some? then p.title.value else NA)
      && md[1].1 == Text(if p.author.Some? then p.author.value else NA)
      && md[2].1 == Text(if p.subject.Some? then p.subject.value else NA)
      && md[3].1 == Text(if p.keywords.Some? then p.keywords.value else NA)
      && md[4].1 == Text(if p.comments.Some? then p.comments.value else NA)
      && md[5].1 == Text(if p.lastSavedBy.Some? then p.lastSavedBy.value else NA)
      && md[6].1 == Text(if p.creationDate.Some? then FormatDate(p.creationDate.value) else NA)
      && md[7].1 == Text(if p.lastSaveTime.Some? then FormatDate(p.lastSaveTime.value) else NA)
      && md[8].1 == Text(if p.category.Some? then p.category.value else NA)
      && md[9].1 == Text(NA) && md[10].1 == Text(NA) && md[11].1 == Text(NA)
      && md[12].1 == Text(if p.revisionNumber.Some? then Render(p.revisionNumber.value) else NA)
  {
    var p := ld.props;
    var ts := LegacyTexts12(p);
    var md := ExtractMetadataLegacy(Opened(ld));
    assert md == WithKeys(ts, Text(LegacyRevision(p.revisionNumber)));
    assert md[0].1 == Text(ts[0]) && md[1].1 == Text(ts[1]) && md[2].1 == Text(ts[2]);
    assert md[3].1 == Text(ts[3]) && md[4].1 == Text(ts[4]) && md[5].1 == Text(ts[5]);
    assert md[6].1 == Text(ts[6]) && md[7].1 == Text(ts[7]) && md[8].1 == Text(ts[8]);
  }

  /** No metadata key is "Error". */
  lemma ErrorNotAKey()
    ensures "Error" !in MetadataKeys
  {
    forall i | 0 <= i < |MetadataKeys| ensures MetadataKeys[i] != "Error" {
      assert MetadataKeys[i][0] != 'E';
    }
  }

  /** Neither metadata reader puts an "Error" key into a successful
      dictionary, and both put exactly that key into a failed one. */
  lemma ErrorKeyExactlyOnFailure(pkg: Outcome<Deck>, doc: Outcome<LegacyDeck>)
    ensures HasKey(ExtractMetadata(pkg), "Error") <==> pkg.Raised?
    ensures HasKey(ExtractMetadataLegacy(doc), "Error") <==> doc.Raised?
  {
    ErrorNotAKey();
    if pkg.Opened? {
      var md := ExtractMetadata(pkg);
      forall i | 0 <= i < |md| ensures md[i].0 != "Error" {
        assert md[i].0 == Keys(md)[i] == MetadataKeys[i];
      }
    } else {
      assert ExtractMetadata(pkg)[0].0 == "Error";
    }
    if doc.Opened? {
      var md := ExtractMetadataLegacy(doc);
      forall i | 0 <= i < |md| ensures md[i].0 != "Error" {
        assert md[i].0 == Keys(md)[i] == MetadataKeys[i];
      }
    } else {
      assert ExtractMetadataLegacy(doc)[0].0 == "Error";
    }
  }
}
