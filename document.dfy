/** What the document libraries report about one file: the python-pptx object
    model of a `.pptx` package, the PowerPoint automation view of a legacy file,
    and what the OCR engine recognises in a picture. The extractors read these
    values instead of calling the libraries. */
module Document {

  /** The outcome of a library call: it returned a value, or it raised with
      the message `str(e)`. */
  datatype Outcome<T> = Opened(value: T) | Raised(message: string)

  /** One recognised OCR line: its text and its confidence score. */
  type OcrLine = (string, real)

  /** What `ocr.ocr(image_path)` yields for one picture: nothing usable (the
      engine raised, returned `None`, or returned no first page), or the lines
      of the first page in recognition order. */
  datatype OcrResult = NoResult | FirstPage(lines: seq<OcrLine>)

  /** A paragraph of a text frame: the texts of its runs and its nesting level. */
  datatype Paragraph = Paragraph(runs: seq<string>, level: nat)

  /** The title of a chart; `titleFrame` is the title's text when its title
      element carries a text frame. */
  datatype Chart = Chart(titleFrame: Option<string>)

  datatype Option<T> = None | Some(value: T)

  /** A python-pptx shape. Each field is present exactly when the matching
      python-pptx test holds: `has_text_frame`, `shape_type == TABLE` (the
      table's rows of cell texts), `has_chart`, `shape_type == PICTURE` (what
      the OCR engine recognises in the picture's image). */
  datatype Shape = Shape(
    textFrame: Option<seq<Paragraph>>,
    table: Option<seq<seq<string>>>,
    chart: Option<Chart>,
    picture: Option<OcrResult>)

  /** A slide: its shapes in order, the text of its title placeholder if it has
      one, and the text of its notes text frame if it has a notes slide with one. */
  datatype Slide = Slide(shapes: seq<Shape>, title: Option<string>, notes: Option<string>)

  /** A calendar date and time, as `datetime` holds it. */
  datatype DateTime = DateTime(year: nat, month: nat, day: nat, hour: nat, minute: nat, second: nat)

  /** The ranges a `datetime` keeps its fields in. */
  predicate IsDateTime(d: DateTime) {
    1 <= d.year <= 9999 && 1 <= d.month <= 12 && 1 <= d.day <= 31 &&
    d.hour < 24 && d.minute < 60 && d.second < 60
  }

  /** The package's core properties as python-pptx reports them: absent text
      properties read as "", absent dates as `None`, an absent revision as 0. */
  datatype CoreProps = CoreProps(
    title: string, author: string, subject: string, keywords: string,
    comments: string, lastModifiedBy: string,
    created: Option<DateTime>, modified: Option<DateTime>,
    category: string, contentStatus: string, identifier: string,
    language: string, revision: int)

  /** An opened `.pptx` package. */
  datatype Deck = Deck(slides: seq<Slide>, core: CoreProps)

  /** A value held in a metadata dictionary: a string or a Python integer. */
  datatype Value = Text(s: string) | Number(n: int)

  /** A shape as PowerPoint automation reports it: `HasTextFrame`,
      `TextFrame.HasText` and `TextFrame.TextRange.Text`. */
  datatype LegacyShape = LegacyShape(hasTextFrame: bool, hasText: bool, text: string)

  datatype LegacySlide = LegacySlide(shapes: seq<LegacyShape>)

  /** The built-in document properties; `None` when the property object is
      absent (falsy), otherwise its `Value`. */
  datatype LegacyProps = LegacyProps(
    title: Option<string>, author: Option<string>, subject: Option<string>,
    keywords: Option<string>, comments: Option<string>, lastSavedBy: Option<string>,
    creationDate: Option<DateTime>, lastSaveTime: Option<DateTime>,
    category: Option<string>, revisionNumber: Option<Value>)

  /** A legacy presentation opened through PowerPoint automation. */
  datatype LegacyDeck = LegacyDeck(slides: seq<LegacySlide>, props: LegacyProps)

  /** A Python object in one of the pipeline's result lists: a string, `None`,
      or an image record `{"slide": s, "image": i, "text": t}`. */
  datatype Item = Str(s: string) | NoneItem | Record(slide: nat, image: nat, text: string)

  /** An ordered Python dict of metadata, as its `items()`. */
  type Metadata = seq<(string, Value)>

  predicate HasKey(md: Metadata, key: string) {
    exists i :: 0 <= i < |md| && md[i].0 == key
  }

  function Keys(md: Metadata): (ks: seq<string>)
    ensures |ks| == |md|
    ensures forall i :: 0 <= i < |md| ==> ks[i] == md[i].0
  {
    seq(|md|, i requires 0 <= i < |md| => md[i].0)
  }
}
