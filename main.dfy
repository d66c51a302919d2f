/** The command-line driver (main.py): its own `clean_text_output`, which has
    neither a `None` guard nor an exception handler, and `process_ppt_file`,
    which validates the file and runs the same combine step as the web front
    end. */
module MainScript {
  import opened Strings
  import opened Document
  import FileTypes
  import PptTextExtraction
  import App

  /** Every item is a string, so `slide.strip()` never raises. */
  predicate AllStr(items: seq<Item>) {
    forall i :: 0 <= i < |items| ==> items[i].Str?
  }

  /** The index of the first item that is not a string. */
  function FirstNonStr(items: seq<Item>): (k: nat)
    requires !AllStr(items)
    ensures k < |items| && !items[k].Str?
    ensures forall i :: 0 <= i < k ==> items[i].Str?
  {
    if !items[0].Str? then 0
    else
      assert !AllStr(items[1..]) by {
        var j :| 0 <= j < |items| && !items[j].Str?;
        assert items[1..][j - 1] == items[j];
      }
      1 + FirstNonStr(items[1..])
  }

  /** `str(e)` of the AttributeError that `x.strip()` raises on a non-string. */
  function StripError(item: Item): string {
    if item.NoneItem? then "'NoneType' object has no attribute 'strip'"
    else "'dict' object has no attribute 'strip'"
  }

  /** `clean_text_output(text_list)` of main.py: the cleaning rules of app.py
      in the same order, but the first item that is not a string raises out
      of the function. */
  function CleanTextOutputOf(items: seq<Item>): Outcome<seq<string>> {
    if AllStr(items) then Opened(App.Cleaned(items))
    else Raised(StripError(items[FirstNonStr(items)]))
  }

  method CleanTextOutput(textList: seq<Item>) returns (r: Outcome<seq<string>>)
    ensures r == CleanTextOutputOf(textList)
  {
    var cleanedOutput := [];
    var i := 0;
    while i < |textList|
      invariant 0 <= i <= |textList|
      invariant forall k :: 0 <= k < i ==> textList[k].Str?
      invariant cleanedOutput == App.Cleaned(textList[..i])
    {
      var slide := textList[i];
      App.CleanedSnoc(textList, i);
      if !slide.Str? {
        return Raised(StripError(slide));
      }
      if IsBlank(slide.s) {
        i := i + 1;
        continue;
      }
      var cleanedSlide := App.RemoveWatermark(slide.s);
      cleanedSlide := App.Collapse(Strip(cleanedSlide));
      cleanedOutput := cleanedOutput + [cleanedSlide];
      i := i + 1;
    }
    assert textList[..i] == textList;
    assert AllStr(textList);
    return Opened(cleanedOutput);
  }

  /** On a list of strings both cleaners give the same entries; a `None`
      entry, which app.py skips, makes main.py's cleaner raise. */
  lemma CleanersAgree(items: seq<Item>)
    ensures AllStr(items) ==> CleanTextOutputOf(items) == Opened(App.CleanTextOutputOf(items))
    ensures (exists i :: 0 <= i < |items| && items[i].NoneItem?) ==> CleanTextOutputOf(items).Raised?
  {
    if AllStr(items) {
      assert !App.HasRecord(items);
    }
  }

  /** The three ways `process_ppt_file` ends: it returns at validation, it
      logs an exception, or it writes the optimised text. */
  datatype Run = Skipped | Failed(message: string) | Done(optimized: string)

  /** The inner `process_file` of main.py without the file write. */
  function ProcessFile(path: string, pptx: Outcome<Deck>, legacy: Outcome<LegacyDeck>,
                       imageOutput: seq<Item>, optimize: string -> string): (r: Outcome<string>)
    ensures (if FileTypes.IsPptx(path) then pptx.Raised? else legacy.Raised?) ==>
      r == Raised("Metadata extraction failed: " + (if FileTypes.IsPptx(path) then pptx.message else legacy.message))
    ensures r.Opened? ==> r.value != ""
  {
    var metadata := App.MetadataOf(path, pptx, legacy);
    App.MetadataErrorMessage(path, pptx, legacy);
    if HasKey(metadata, "Error") then
      Raised("Metadata extraction failed: " + PptTextExtraction.Render(App.ErrorValue(metadata)))
    else
      var textOutput := App.TextOutputOf(path, pptx, legacy);
      var cleaned := CleanTextOutputOf(App.Strs(textOutput) + imageOutput);
      if cleaned.Raised? then Raised(cleaned.message)
      else
        var combined := App.Combined(App.MetadataOutput(metadata), cleaned.value);
        var optimized := optimize(combined);
        Opened(if optimized != "" then optimized else combined)
  }

  /** `process_ppt_file(file_path)`; `isFile` is `os.path.isfile(file_path)`. */
  function ProcessPptFile(path: string, isFile: bool, pptx: Outcome<Deck>, legacy: Outcome<LegacyDeck>,
                          imageOutput: seq<Item>, optimize: string -> string): (r: Run)
    ensures r.Skipped? <==> FileTypes.ValidateFileType(path, isFile, FileTypes.SupportedFormats, false) == FileTypes.Ok(false)
    ensures !isFile ==> r.Skipped?
  {
    var valid := FileTypes.ValidateFileType(path, isFile, FileTypes.SupportedFormats, false);
    if valid == FileTypes.Ok(false) then Skipped
    else
      match ProcessFile(path, pptx, legacy, imageOutput, optimize)
      case Raised(message) => Failed(message)
      case Opened(text) => Done(text)
  }

  /** An existing `.pptx` file is always processed. */
  lemma PptxNeverSkipped(path: string, pptx: Outcome<Deck>, legacy: Outcome<LegacyDeck>,
                         imageOutput: seq<Item>, optimize: string -> string)
    requires FileTypes.IsPptx(path)
    ensures !ProcessPptFile(path, true, pptx, legacy, imageOutput, optimize).Skipped?
  {
    FileTypes.PptxIsSupported(path);
  }

  /** main.py and app.py produce the same text when every image entry is a
      string. */
  lemma FrontEndsAgree(path: string, pptx: Outcome<Deck>, legacy: Outcome<LegacyDeck>,
                       imageOutput: seq<Item>, optimize: string -> string)
    requires AllStr(imageOutput)
    ensures ProcessFile(path, pptx, legacy, imageOutput, optimize) == App.ProcessFile(path, pptx, legacy, imageOutput, optimize)
  {
    var metadata := App.MetadataOf(path, pptx, legacy);
    App.MetadataErrorMessage(path, pptx, legacy);
    if !HasKey(metadata, "Error") {
      var items := App.Strs(App.TextOutputOf(path, pptx, legacy)) + imageOutput;
      StrsAllStr(App.TextOutputOf(path, pptx, legacy), imageOutput);
      CleanersAgree(items);
    }
  }

  lemma StrsAllStr(texts: seq<string>, extra: seq<Item>)
    requires AllStr(extra)
    ensures AllStr(App.Strs(texts) + extra)
  {
    var items := App.Strs(texts) + extra;
    forall i | 0 <= i < |items| ensures items[i].Str? {
      if i >= |texts| {
        assert items[i] == extra[i - |texts|];
      }
    }
  }
}
