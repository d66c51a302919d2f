/** The picture reader of modules/image_extraction_p.py: every picture of every
    slide is handed to the OCR engine, and the pictures with readable text
    yield an entry, as a record or as a formatted string. */
module ImageExtraction {
  import opened Strings
  import opened Document

  /** The filter both OCR helpers apply to a recognised line: at least two
      characters and a confidence above 0.5. */
  predicate Passes(line: OcrLine) {
    |line.0| >= 2 && line.1 > 0.5
  }

  /** The texts of the lines that pass the filter, in recognition order. */
  function PassingTexts(lines: seq<OcrLine>): (r: seq<string>)
    ensures |r| <= |lines|
  {
    if |lines| == 0 then []
    else
      var last := lines[|lines| - 1];
      PassingTexts(lines[..|lines| - 1]) + (if Passes(last) then [last.0] else [])
  }

  /** What `process_image_for_ocr` returns: the passing lines joined by "\n"
      and stripped; "" when the engine yields nothing. */
  function OcrText(res: OcrResult): (r: string)
    ensures IsStripped(r)
  {
    if res.NoResult? then "" else Strip(Join("\n", PassingTexts(res.lines)))
  }

  /** `contains_text`: some recognised line passes the filter, which is to say
      the gate of `process_image_for_ocr` keeps at least one line. */
  function ContainsText(res: OcrResult): (b: bool)
    ensures b <==> res.FirstPage? && PassingTexts(res.lines) != []
  {
    if res.FirstPage? then
      PassingTextsEmpty(res.lines);
      exists i :: 0 <= i < |res.lines| && Passes(res.lines[i])
    else false
  }

  lemma {:induction false} PassingTextsEmpty(lines: seq<OcrLine>)
    ensures |PassingTexts(lines)| == 0 <==> forall i :: 0 <= i < |lines| ==> !Passes(lines[i])
  {
    if |lines| > 0 {
      var init := lines[..|lines| - 1];
      PassingTextsEmpty(init);
      assert forall i :: 0 <= i < |init| ==> init[i] == lines[i];
    }
  }

  /** The two OCR helpers agree in one direction: a picture with no passing
      line never yields text. */
  lemma NoTextMeansNoOcrText(res: OcrResult)
    requires !ContainsText(res)
    ensures OcrText(res) == ""
  {
    if res.FirstPage? {
      PassingTextsEmpty(res.lines);
      StripBlank("");
    }
  }

  /** A picture whose only passing line is whitespace contains text for
      `contains_text` yet yields "" from `process_image_for_ocr`; the deck
      walk therefore checks both before it records the picture. */
  lemma BlankLineCounterexample()
    ensures var res := FirstPage([("  ", 0.9)]);
      ContainsText(res) && OcrText(res) == ""
  {
    var res := FirstPage([("  ", 0.9)]);
    assert Passes(res.lines[0]);
    assert PassingTexts(res.lines) == ["  "];
    StripBlank("  ");
  }

  /** `process_image_for_ocr` */
  method ProcessImageForOcr(res: OcrResult) returns (text: string)
    ensures text == OcrText(res)
  {
    if res.NoResult? {
      return "";
    }
    var lines := res.lines;
    var texts: seq<string> := [];
    var i := 0;
    while i < |lines|
      invariant 0 <= i <= |lines|
      invariant texts == PassingTexts(lines[..i])
    {
      if |lines[i].0| >= 2 && lines[i].1 > 0.5 {
        texts := texts + [lines[i].0];
      }
      assert lines[..i + 1][..i] == lines[..i];
      i := i + 1;
    }
    assert lines[..i] == lines;
    var fullText := Strip(Join("\n", texts));
    text := if fullText != "" then fullText else "";
  }

  /** The entry of one picture with text: a record in the "json" format, the
      line "\nSlide {s}, Image {i} Text:\n{text}" otherwise. */
  function Entry(json: bool, slide: nat, image: nat, text: string): Item {
    if json then Record(slide, image, text) else Str(Rendered(slide, image, text))
  }

  function Rendered(slide: nat, image: nat, text: string): string {
    "\nSlide " + NatToString(slide) + ", Image " + NatToString(image) + " Text:\n" + text
  }

  /** The number of pictures among the shapes; `image_index` is one more than
      the number of pictures before the current shape. */
  function PictureCount(shapes: seq<Shape>): nat {
    if |shapes| == 0 then 0
    else PictureCount(shapes[..|shapes| - 1]) + (if shapes[|shapes| - 1].picture.Some? then 1 else 0)
  }

  /** The picture keeps an entry: `contains_text` holds and the OCR text is non-empty. */
  predicate Recorded(sh: Shape) {
    sh.picture.Some? && ContainsText(sh.picture.value) && OcrText(sh.picture.value) != ""
  }

  /** The entries of the pictures of slide `n`. */
  function SlideEntries(json: bool, n: nat, shapes: seq<Shape>): seq<Item> {
    if |shapes| == 0 then []
    else
      var init := shapes[..|shapes| - 1];
      var sh := shapes[|shapes| - 1];
      SlideEntries(json, n, init) +
        (if Recorded(sh) then [Entry(json, n, PictureCount(init) + 1, OcrText(sh.picture.value))] else [])
  }

  /** The entries of a deck, slide by slide. */
  function DeckEntries(json: bool, slides: seq<Slide>): seq<Item> {
    if |slides| == 0 then []
    else DeckEntries(json, slides[..|slides| - 1]) + SlideEntries(json, |slides|, slides[|slides| - 1].shapes)
  }

  /** What `extract_images_from_ppt_paddleocr` returns; [] when the package
      cannot be read. */
  function ImageTexts(pkg: Outcome<Deck>, outputFormat: string): seq<Item> {
    if pkg.Raised? then [] else DeckEntries(outputFormat == "json", pkg.value.slides)
  }

  /** `extract_images_from_ppt_paddleocr` */
  method ExtractImages(pkg: Outcome<Deck>, outputFormat: string) returns (imageTexts: seq<Item>)
    ensures imageTexts == ImageTexts(pkg, outputFormat)
  {
    if pkg.Raised? {
      return [];
    }
    var json := outputFormat == "json";
    var slides := pkg.value.slides;
    imageTexts := [];
    var n := 0;
    while n < |slides|
      invariant 0 <= n <= |slides|
      invariant imageTexts == DeckEntries(json, slides[..n])
    {
      var slideTexts := ExtractSlideImages(json, n + 1, slides[n].shapes);
      imageTexts := imageTexts + slideTexts;
      assert slides[..n + 1][..n] == slides[..n];
      n := n + 1;
    }
    assert slides[..n] == slides;
  }

  /** The loop over the shapes of slide `n`; `image_index` restarts at 1. */
  method ExtractSlideImages(json: bool, n: nat, shapes: seq<Shape>) returns (items: seq<Item>)
    ensures items == SlideEntries(json, n, shapes)
  {
    items := [];
    var imageIndex := 1;
    var j := 0;
    while j < |shapes|
      invariant 0 <= j <= |shapes|
      invariant imageIndex == PictureCount(shapes[..j]) + 1
      invariant items == SlideEntries(json, n, shapes[..j])
    {
      var shape := shapes[j];
      if shape.picture.Some? {
        var hasText := ContainsText(shape.picture.value);
        if hasText {
          var text := ProcessImageForOcr(shape.picture.value);
          if text != "" {
            items := items + [Entry(json, n, imageIndex, text)];
          }
        }
        imageIndex := imageIndex + 1;
      }
      assert shapes[..j + 1][..j] == shapes[..j];
      j := j + 1;
    }
    assert shapes[..j] == shapes;
  }

  /** Every entry of a slide in the "json" format is a record of that slide
      with a non-empty stripped text, and the image numbers increase and stay
      within the slide's pictures. */
  lemma {:induction false} SlideEntriesSpec(n: nat, shapes: seq<Shape>)
    ensures var es := SlideEntries(true, n, shapes);
      && |es| <= PictureCount(shapes)
      && (forall i :: 0 <= i < |es| ==>
            es[i].Record? && es[i].slide == n && 1 <= es[i].image <= PictureCount(shapes) &&
            es[i].text != "" && IsStripped(es[i].text))
      && (forall i, j :: 0 <= i < j < |es| ==> es[i].image < es[j].image)
  {
    if |shapes| > 0 {
      var init := shapes[..|shapes| - 1];
      SlideEntriesSpec(n, init);
      var es0 := SlideEntries(true, n, init);
      var es := SlideEntries(true, n, shapes);
      var sh := shapes[|shapes| - 1];
      assert es == es0 + (if Recorded(sh) then [Entry(true, n, PictureCount(init) + 1, OcrText(sh.picture.value))] else []);
      forall i, j | 0 <= i < j < |es| ensures es[i].image < es[j].image {
        assert es[i] == es0[i];
        if j < |es0| {
          assert es[j] == es0[j];
        }
      }
    }
  }

  /** Records come in deck order: by slide, then by image number, with no
      two records for the same picture. */
  predicate Before(a: Item, b: Item)
    requires a.Record? && b.Record?
  {
    a.slide < b.slide || (a.slide == b.slide && a.image < b.image)
  }

  /** The "json" entries of a deck are records of slides 1..|slides|, sorted
      by (slide, image) without repetition. */
  lemma {:induction false} DeckEntriesSorted(slides: seq<Slide>)
    ensures forall i :: 0 <= i < |DeckEntries(true, slides)| ==>
      DeckEntries(true, slides)[i].Record? && 1 <= DeckEntries(true, slides)[i].slide <= |slides|
    ensures forall i, j :: 0 <= i < j < |DeckEntries(true, slides)| ==>
      Before(DeckEntries(true, slides)[i], DeckEntries(true, slides)[j])
  {
    if |slides| > 0 {
      var init := slides[..|slides| - 1];
      DeckEntriesSorted(init);
      var es0 := DeckEntries(true, init);
      var tail := SlideEntries(true, |slides|, slides[|slides| - 1].shapes);
      SlideEntriesSpec(|slides|, slides[|slides| - 1].shapes);
      var es := DeckEntries(true, slides);
      assert es == es0 + tail;
      assert forall k :: 0 <= k < |tail| ==> tail[k].Record? && tail[k].slide == |slides|;
      forall i | 0 <= i < |es| ensures es[i].Record? && 1 <= es[i].slide <= |slides| {
        if i < |es0| {
          assert es[i] == es0[i];
        } else {
          assert es[i] == tail[i - |es0|];
        }
      }
      forall i, j | 0 <= i < j < |es| ensures Before(es[i], es[j]) {
        if j < |es0| {
          assert es[i] == es0[i] && es[j] == es0[j];
        } else if i < |es0| {
          assert es[i] == es0[i] && es[j] == tail[j - |es0|];
        } else {
          assert es[i] == tail[i - |es0|] && es[j] == tail[j - |es0|];
        }
      }
    }
  }

  /** The text format of an entry: what the "text" output holds in place of a record. */
  function AsText(it: Item): Item {
    if it.Record? then Str(Rendered(it.slide, it.image, it.text)) else it
  }

  function AllAsText(items: seq<Item>): (r: seq<Item>)
    ensures |r| == |items|
  {
    if |items| == 0 then [] else AllAsText(items[..|items| - 1]) + [AsText(items[|items| - 1])]
  }

  lemma {:induction false} AllAsTextAppend(a: seq<Item>, b: seq<Item>)
    ensures AllAsText(a + b) == AllAsText(a) + AllAsText(b)
  {
    if |b| > 0 {
      var b0 := b[..|b| - 1];
      AllAsTextAppend(a, b0);
      assert (a + b)[..|a + b| - 1] == a + b0;
    } else {
      assert a + b == a;
    }
  }

  lemma {:induction false} SlideFormatsAgree(n: nat, shapes: seq<Shape>)
    ensures SlideEntries(false, n, shapes) == AllAsText(SlideEntries(true, n, shapes))
  {
    if |shapes| > 0 {
      var init := shapes[..|shapes| - 1];
      SlideFormatsAgree(n, init);
      var sh := shapes[|shapes| - 1];
      var tail := if Recorded(sh) then [Entry(true, n, PictureCount(init) + 1, OcrText(sh.picture.value))] else [];
      AllAsTextAppend(SlideEntries(true, n, init), tail);
      if Recorded(sh) {
        assert AllAsText(tail) == [AsText(tail[0])];
      }
    }
  }

  /** The two output formats hold the same pictures in the same order: the
      "text" output is the "json" output with each record formatted. */
  lemma {:induction false} FormatsAgree(slides: seq<Slide>)
    ensures DeckEntries(false, slides) == AllAsText(DeckEntries(true, slides))
  {
    if |slides| > 0 {
      var init := slides[..|slides| - 1];
      FormatsAgree(init);
      SlideFormatsAgree(|slides|, slides[|slides| - 1].shapes);
      AllAsTextAppend(DeckEntries(true, init), SlideEntries(true, |slides|, slides[|slides| - 1].shapes));
    }
  }
}
