/** The web front end's text pipeline (app.py): `clean_text_output`, which
    filters, de-watermarks and tidies the extracted entries, and the combine
    step of `process_file`, which routes a file to a reader pair, renders the
    metadata, joins everything and applies the two fallbacks. */
module App {
  import opened Strings
  import opened Document
  import FileTypes
  import PptTextExtraction
  import AiOptimizer

  // ---------------------------------------------------------------------------
  // Watermark removal: `re.compile(r'stablediffusionweb\.com').sub('', s)`

  const Watermark: string := "stablediffusionweb.com"

  /** Every non-overlapping occurrence of the watermark, scanning left to
      right, is deleted. */
  function RemoveWatermark(s: string): (r: string)
    ensures |r| <= |s|
  {
    if |s| == 0 then ""
    else if StartsWith(s, Watermark) then RemoveWatermark(s[|Watermark|..])
    else [s[0]] + RemoveWatermark(s[1..])
  }

  /** A string without the watermark passes through unchanged. */
  lemma {:induction false} RemoveWatermarkAbsent(s: string)
    requires !Contains(s, Watermark)
    ensures RemoveWatermark(s) == s
  {
    if |s| > 0 {
      RemoveWatermarkAbsent(s[1..]);
    }
  }

  // ---------------------------------------------------------------------------
  // Blank-line collapsing: `re.sub(r'\n\s*\n', '\n', s)`

  /** The whitespace that `t` starts with holds no newline. */
  predicate NoNewlineAhead(t: string) {
    |t| == 0 || !IsSpace(t[0]) || (t[0] != '\n' && NoNewlineAhead(t[1..]))
  }

  /** No newline is followed, across whitespace only, by another newline:
      the pattern `\n\s*\n` matches nowhere in `s`. */
  predicate BlankRunFree(s: string) {
    |s| == 0 || ((s[0] == '\n' ==> NoNewlineAhead(s[1..])) && BlankRunFree(s[1..]))
  }

  /** The same condition stated over positions: no two newlines have only
      whitespace between them. */
  predicate NoBlankRun(s: string) {
    forall i, j :: 0 <= i < j < |s| && s[i] == '\n' && s[j] == '\n' ==> !IsBlank(s[i + 1..j])
  }

  /** The leftmost match of `\n\s*\n` at a newline spans, because `\s*` is
      greedy and backtracks only to a newline, up to the last newline of the
      whitespace that follows; the match becomes one "\n" and the scan goes
      on after it. Deleting the span's characters one at a time, from the
      front, until no newline is left ahead gives the same string. */
  function Collapse(s: string): (r: string)
    ensures |r| <= |s|
    decreases |s|
  {
    if |s| == 0 then ""
    else if s[0] == '\n' && !NoNewlineAhead(s[1..]) then
      if s[1] == '\n' then Collapse(s[1..]) else Collapse([s[0]] + s[2..])
    else [s[0]] + Collapse(s[1..])
  }

  lemma {:induction false} NoNewlineAheadMeans(t: string)
    ensures NoNewlineAhead(t) <==> forall j :: 0 <= j < |t| && t[j] == '\n' ==> !IsBlank(t[..j])
  {
    if |t| == 0 {
    } else if !IsSpace(t[0]) {
      forall j | 0 <= j < |t| && t[j] == '\n' ensures !IsBlank(t[..j]) {
        assert t[..j][0] == t[0];
      }
    } else if t[0] == '\n' {
      assert IsBlank(t[..0]);
    } else {
      NoNewlineAheadMeans(t[1..]);
      forall j | 1 <= j <= |t| ensures IsBlank(t[..j]) <==> IsBlank(t[1..][..j - 1]) {
        assert t[..j] == [t[0]] + t[1..][..j - 1];
      }
      if NoNewlineAhead(t) {
        forall j | 0 <= j < |t| && t[j] == '\n' ensures !IsBlank(t[..j]) {
          assert t[1..][j - 1] == t[j];
        }
      } else {
        var j' :| 0 <= j' < |t| - 1 && t[1..][j'] == '\n' && IsBlank(t[1..][..j']);
        assert t[j' + 1] == '\n' && IsBlank(t[..j' + 1]);
      }
    }
  }

  /** The recursive and the positional statements of "no `\n\s*\n` match" agree. */
  lemma {:induction false} BlankRunFreeMeans(s: string)
    ensures BlankRunFree(s) <==> NoBlankRun(s)
  {
    if |s| > 0 {
      var t := s[1..];
      BlankRunFreeMeans(t);
      NoNewlineAheadMeans(t);
      forall j | 1 <= j <= |s| ensures s[1..j] == t[..j - 1] {
      }
      if BlankRunFree(s) {
        forall i, j | 0 <= i < j < |s| && s[i] == '\n' && s[j] == '\n' ensures !IsBlank(s[i + 1..j]) {
          if i == 0 {
            assert t[j - 1] == '\n';
          } else {
            assert t[i - 1] == '\n' && t[j - 1] == '\n' && t[i - 1 + 1..j - 1] == s[i + 1..j];
          }
        }
      } else if s[0] == '\n' && !NoNewlineAhead(t) {
        var j' :| 0 <= j' < |t| && t[j'] == '\n' && IsBlank(t[..j']);
        assert s[j' + 1] == '\n' && s[0 + 1..j' + 1] == t[..j'];
      } else {
        var i', j' :| 0 <= i' < j' < |t| && t[i'] == '\n' && t[j'] == '\n' && IsBlank(t[i' + 1..j']);
        assert s[i' + 1] == '\n' && s[j' + 1] == '\n' && s[i' + 1 + 1..j' + 1] == t[i' + 1..j'];
      }
    }
  }

  lemma {:induction false} CollapseKeepsNoNewlineAhead(t: string)
    requires NoNewlineAhead(t)
    ensures NoNewlineAhead(Collapse(t))
    decreases |t|
  {
    if |t| > 0 && IsSpace(t[0]) {
      CollapseKeepsNoNewlineAhead(t[1..]);
      assert Collapse(t) == [t[0]] + Collapse(t[1..]);
    }
  }

  /** After collapsing, `\n\s*\n` matches nowhere. */
  lemma {:induction false} CollapseBlankRunFree(s: string)
    ensures BlankRunFree(Collapse(s))
    ensures NoBlankRun(Collapse(s))
    decreases |s|
  {
    if |s| > 0 {
      if s[0] == '\n' && !NoNewlineAhead(s[1..]) {
        if s[1] == '\n' {
          CollapseBlankRunFree(s[1..]);
        } else {
          CollapseBlankRunFree([s[0]] + s[2..]);
        }
      } else {
        CollapseBlankRunFree(s[1..]);
        if s[0] == '\n' {
          CollapseKeepsNoNewlineAhead(s[1..]);
        }
        assert Collapse(s)[1..] == Collapse(s[1..]);
      }
    }
    BlankRunFreeMeans(Collapse(s));
  }

  /** A string without a `\n\s*\n` match is left as it is. */
  lemma {:induction false} CollapseIdentity(s: string)
    requires BlankRunFree(s)
    ensures Collapse(s) == s
    decreases |s|
  {
    if |s| > 0 {
      CollapseIdentity(s[1..]);
    }
  }

  /** Collapsing keeps a last character that is not whitespace. */
  lemma {:induction false} CollapseLast(s: string)
    requires |s| > 0 && !IsSpace(s[|s| - 1])
    ensures |Collapse(s)| > 0 && Collapse(s)[|Collapse(s)| - 1] == s[|s| - 1]
    decreases |s|
  {
    if s[0] == '\n' && !NoNewlineAhead(s[1..]) {
      if s[1] == '\n' {
        CollapseLast(s[1..]);
      } else {
        assert !NoNewlineAhead(s[2..]);
        CollapseLast([s[0]] + s[2..]);
      }
    } else if |s| > 1 {
      CollapseLast(s[1..]);
    }
  }

  /** Collapsing a stripped string leaves it stripped. */
  lemma CollapseStripped(s: string)
    requires IsStripped(s)
    ensures IsStripped(Collapse(s))
    ensures |s| > 0 ==> |Collapse(s)| > 0
  {
    if |s| > 0 {
      CollapseLast(s);
      assert Collapse(s)[0] == s[0];
    }
  }

  // ---------------------------------------------------------------------------
  // clean_text_output

  /** One kept entry: watermark removed, stripped, blank-line runs collapsed. */
  function CleanEntry(s: string): string {
    Collapse(Strip(RemoveWatermark(s)))
  }

  /** Every cleaned entry is stripped and has no `\n\s*\n` run. */
  lemma CleanEntryTidy(s: string)
    ensures IsStripped(CleanEntry(s))
    ensures NoBlankRun(CleanEntry(s))
  {
    CollapseStripped(Strip(RemoveWatermark(s)));
    CollapseBlankRunFree(Strip(RemoveWatermark(s)));
  }

  /** A tidy entry without the watermark is its own cleaning. */
  lemma CleanEntryFixpoint(e: string)
    requires IsStripped(e) && NoBlankRun(e) && !Contains(e, Watermark)
    ensures CleanEntry(e) == e
  {
    RemoveWatermarkAbsent(e);
    StripStripped(e);
    BlankRunFreeMeans(e);
    CollapseIdentity(e);
  }

  /** `not slide or not slide.strip()` for an entry that is a string or `None`. */
  predicate Kept(item: Item) {
    item.Str? && !IsBlank(item.s)
  }

  /** What one item contributes to the output. */
  function CleanedItem(item: Item): seq<string> {
    if Kept(item) then [CleanEntry(item.s)] else []
  }

  /** The cleaned entries of a list, in order; records are treated apart. */
  function Cleaned(items: seq<Item>): seq<string> {
    if |items| == 0 then []
    else Cleaned(items[..|items| - 1]) + CleanedItem(items[|items| - 1])
  }

  /** A record reaches `slide.strip()`, which raises AttributeError. */
  predicate HasRecord(items: seq<Item>) {
    exists i :: 0 <= i < |items| && items[i].Record?
  }

  /** `clean_text_output(text_list)`; the handler returns [] when a record raises. */
  function CleanTextOutputOf(items: seq<Item>): seq<string> {
    if HasRecord(items) then [] else Cleaned(items)
  }

  method CleanTextOutput(textList: seq<Item>) returns (cleanedOutput: seq<string>)
    ensures cleanedOutput == CleanTextOutputOf(textList)
  {
    cleanedOutput := [];
    var i := 0;
    while i < |textList|
      invariant 0 <= i <= |textList|
      invariant forall k :: 0 <= k < i ==> !textList[k].Record?
      invariant cleanedOutput == Cleaned(textList[..i])
    {
      var slide := textList[i];
      CleanedSnoc(textList, i);
      if slide.Record? {
        assert HasRecord(textList);
        return [];
      }
      if slide.NoneItem? || IsBlank(slide.s) {
        i := i + 1;
        continue;
      }
      var cleanedSlide := RemoveWatermark(slide.s);
      cleanedSlide := Collapse(Strip(cleanedSlide));
      cleanedOutput := cleanedOutput + [cleanedSlide];
      i := i + 1;
    }
    assert textList[..i] == textList;
    assert !HasRecord(textList);
  }

  lemma CleanedSnoc(items: seq<Item>, i: nat)
    requires i < |items|
    ensures Cleaned(items[..i + 1]) == Cleaned(items[..i]) + CleanedItem(items[i])
  {
    assert items[..i + 1][..i] == items[..i];
  }

  /** Cleaning is done entry by entry: a split list cleans to the two halves'
      results, in order. */
  lemma {:induction false} CleanedAppend(a: seq<Item>, b: seq<Item>)
    ensures Cleaned(a + b) == Cleaned(a) + Cleaned(b)
    decreases |b|
  {
    if |b| > 0 {
      var b0 := b[..|b| - 1];
      assert (a + b)[..|a + b| - 1] == a + b0;
      CleanedAppend(a, b0);
    } else {
      assert a + b == a;
    }
  }

  lemma CleanedSingle(item: Item)
    ensures Cleaned([item]) == CleanedItem(item)
  {
    assert [item][..0] == [];
  }

  /** At most one entry per item, and every entry tidy. */
  lemma {:induction false} CleanedEntries(items: seq<Item>)
    ensures |Cleaned(items)| <= |items|
    ensures forall e :: e in Cleaned(items) ==> IsStripped(e) && NoBlankRun(e)
  {
    if |items| > 0 {
      var last := items[|items| - 1];
      CleanedEntries(items[..|items| - 1]);
      if Kept(last) {
        CleanEntryTidy(last.s);
      }
    }
  }

  /** An entry that is only the watermark passes the emptiness test (which
      comes first) and so appears in the output as "". */
  lemma WatermarkOnlyEntry()
    ensures CleanTextOutputOf([Str(Watermark)]) == [""]
  {
    assert StartsWith(Watermark, Watermark);
    assert Watermark[|Watermark|..] == "";
    assert RemoveWatermark(Watermark) == "";
    assert Strip("") == "";
    assert CleanEntry(Watermark) == "";
    assert Watermark[0] == 's';
    assert Kept(Str(Watermark));
    CleanedSingle(Str(Watermark));
  }

  /** The strings of a list as items. */
  function Strs(texts: seq<string>): (r: seq<Item>)
    ensures |r| == |texts|
    ensures forall i :: 0 <= i < |texts| ==> r[i] == Str(texts[i])
  {
    seq(|texts|, i requires 0 <= i < |texts| => Str(texts[i]))
  }

  /** Re-cleaning an output whose entries are non-empty and watermark-free
      gives it back unchanged. */
  lemma CleanAgain(out: seq<string>)
    requires forall e :: e in out ==> e != "" && IsStripped(e) && NoBlankRun(e) && !Contains(e, Watermark)
    ensures CleanTextOutputOf(Strs(out)) == out
  {
    forall i | 0 <= i < |out|
      ensures out[i] != "" && IsStripped(out[i]) && NoBlankRun(out[i]) && !Contains(out[i], Watermark)
    {
      assert out[i] in out;
    }
    CleanedAgain(out);
    assert !HasRecord(Strs(out));
  }

  lemma {:induction false} CleanedAgain(out: seq<string>)
    requires forall i :: 0 <= i < |out| ==> out[i] != "" && IsStripped(out[i]) && NoBlankRun(out[i]) && !Contains(out[i], Watermark)
    ensures Cleaned(Strs(out)) == out
  {
    if |out| > 0 {
      var init := out[..|out| - 1];
      var e := out[|out| - 1];
      CleanedAgain(init);
      CleanedSnoc(Strs(out), |out| - 1);
      assert Strs(out)[..|out| - 1] == Strs(init);
      KeptTidy(e);
      LastSplit(out);
    }
  }

  lemma LastSplit(s: seq<string>)
    requires |s| > 0
    ensures s == s[..|s| - 1] + [s[|s| - 1]]
  {
  }

  lemma KeptTidy(e: string)
    requires e != "" && IsStripped(e) && NoBlankRun(e) && !Contains(e, Watermark)
    ensures CleanedItem(Str(e)) == [e]
  {
    CleanEntryFixpoint(e);
    assert !IsSpace(e[0]);
  }

  // ---------------------------------------------------------------------------
  // The combine step of process_file

  /** `f"{key}: {value}"` */
  function MetadataLine(kv: (string, Value)): string {
    kv.0 + ": " + PptTextExtraction.Render(kv.1)
  }

  /** `"\n".join(f"{key}: {value}" for key, value in metadata.items())` */
  function MetadataOutput(md: Metadata): string {
    Join("\n", seq(|md|, i requires 0 <= i < |md| => MetadataLine(md[i])))
  }

  /** `metadata['Error']` for a dictionary that has the key. */
  function ErrorValue(md: Metadata): (v: Value)
    requires HasKey(md, "Error")
    ensures exists i :: 0 <= i < |md| && md[i] == ("Error", v)
  {
    if md[0].0 == "Error" then md[0].1 else ErrorValue(md[1..])
  }

  const NoContent: string := "No content extracted"

  /** `"\n".join([metadata_output] + cleaned)`, replaced by "No content
      extracted" when it is whitespace only. */
  function Combined(metadataOutput: string, cleaned: seq<string>): (r: string)
    ensures !IsBlank(r) && r != ""
  {
    var combined := Join("\n", [metadataOutput] + cleaned);
    if IsBlank(combined) then
      assert !IsSpace(NoContent[0]);
      NoContent
    else combined
  }

  /** The metadata a file's reader pair produces: the error dictionary of the
      routed reader when it fails, otherwise the 13 keys. */
  function MetadataOf(path: string, pptx: Outcome<Deck>, legacy: Outcome<LegacyDeck>): (md: Metadata)
    ensures FileTypes.IsPptx(path) && pptx.Raised? ==> md == PptTextExtraction.ErrorMetadata(pptx.message)
    ensures !FileTypes.IsPptx(path) && legacy.Raised? ==> md == PptTextExtraction.ErrorMetadata(legacy.message)
    ensures !(if FileTypes.IsPptx(path) then pptx.Raised? else legacy.Raised?) ==>
      Keys(md) == PptTextExtraction.MetadataKeys
  {
    if FileTypes.IsPptx(path) then PptTextExtraction.ExtractMetadata(pptx)
    else PptTextExtraction.ExtractMetadataLegacy(legacy)
  }

  /** The slide texts a file's reader pair produces, once its metadata is
      known to be readable: at most one entry per slide of the routed deck,
      and none when automation fails on a legacy file. */
  function TextOutputOf(path: string, pptx: Outcome<Deck>, legacy: Outcome<LegacyDeck>): (r: seq<string>)
    requires FileTypes.IsPptx(path) ==> pptx.Opened?
    ensures FileTypes.IsPptx(path) ==> |r| <= |pptx.value.slides|
    ensures !FileTypes.IsPptx(path) && legacy.Opened? ==> |r| <= |legacy.value.slides|
    ensures !FileTypes.IsPptx(path) && legacy.Raised? ==> r == []
  {
    if FileTypes.IsPptx(path) then
      var texts := PptTextExtraction.PptxTexts(pptx.value.slides);
      PptTextExtraction.EntriesNumbered(texts);
      PptTextExtraction.KeptSlidesSpec(texts);
      PptTextExtraction.PptxEntries(pptx.value.slides)
    else if legacy.Opened? then
      var texts := PptTextExtraction.LegacySlideTexts(legacy.value.slides);
      PptTextExtraction.EntriesNumbered(texts);
      PptTextExtraction.KeptSlidesSpec(texts);
      PptTextExtraction.LegacyText(legacy)
    else PptTextExtraction.LegacyText(legacy)
  }

  /** `process_file` without the file write. The package is given as both
      reader views; the image output is an input (its extractor is not
      callable as written); `optimize` is `optimize_text_with_ai`. A
      dictionary with "Error" raises; `text_output or []` and `image_output
      or []` change nothing on lists; a falsy optimiser result falls back to
      the combined text. */
  function ProcessFile(path: string, pptx: Outcome<Deck>, legacy: Outcome<LegacyDeck>,
                       imageOutput: seq<Item>, optimize: string -> string): (r: Outcome<string>)
    ensures r.Raised? <==> (if FileTypes.IsPptx(path) then pptx.Raised? else legacy.Raised?)
    ensures r.Raised? ==>
      r.message == "Metadata extraction failed: " + (if FileTypes.IsPptx(path) then pptx.message else legacy.message)
    ensures r.Opened? ==> r.value != ""
  {
    var metadata := MetadataOf(path, pptx, legacy);
    MetadataErrorMessage(path, pptx, legacy);
    if HasKey(metadata, "Error") then
      Raised("Metadata extraction failed: " + PptTextExtraction.Render(ErrorValue(metadata)))
    else
      var combined := CombinedOutputOf(metadata, path, pptx, legacy, imageOutput);
      var optimized := optimize(combined);
      Opened(if optimized != "" then optimized else combined)
  }

  /** The metadata has an "Error" key exactly when the routed reader raised,
      and then its value is the exception's message. */
  lemma MetadataErrorMessage(path: string, pptx: Outcome<Deck>, legacy: Outcome<LegacyDeck>)
    ensures HasKey(MetadataOf(path, pptx, legacy), "Error") <==> (if FileTypes.IsPptx(path) then pptx.Raised? else legacy.Raised?)
    ensures HasKey(MetadataOf(path, pptx, legacy), "Error") ==>
      PptTextExtraction.Render(ErrorValue(MetadataOf(path, pptx, legacy))) == (if FileTypes.IsPptx(path) then pptx.message else legacy.message)
  {
    PptTextExtraction.ErrorKeyExactlyOnFailure(pptx, legacy);
    if HasKey(MetadataOf(path, pptx, legacy), "Error") {
      assert MetadataOf(path, pptx, legacy) == PptTextExtraction.ErrorMetadata(if FileTypes.IsPptx(path) then pptx.message else legacy.message);
    }
  }

  /** `combined_output`: the metadata block and the cleaned entries. */
  function CombinedOutputOf(metadata: Metadata, path: string, pptx: Outcome<Deck>, legacy: Outcome<LegacyDeck>,
                            imageOutput: seq<Item>): string
    requires FileTypes.IsPptx(path) ==> pptx.Opened?
  {
    Combined(MetadataOutput(metadata), CleanTextOutputOf(Strs(TextOutputOf(path, pptx, legacy)) + imageOutput))
  }

  /** The optimiser never returns "", so `or combined_output` never applies
      and the file receives the optimiser's text. */
  lemma OptimizerOutputKept(path: string, pptx: Outcome<Deck>, legacy: Outcome<LegacyDeck>,
                            imageOutput: seq<Item>, o: AiOptimizer.Oracles)
    requires !(if FileTypes.IsPptx(path) then pptx.Raised? else legacy.Raised?)
    ensures ProcessFile(path, pptx, legacy, imageOutput, t => AiOptimizer.OptimizedText(t, o))
      == Opened(AiOptimizer.OptimizedText(CombinedOutputOf(MetadataOf(path, pptx, legacy), path, pptx, legacy, imageOutput), o))
  {
    var combined := CombinedOutputOf(MetadataOf(path, pptx, legacy), path, pptx, legacy, imageOutput);
    PptTextExtraction.ErrorKeyExactlyOnFailure(pptx, legacy);
    AiOptimizer.OptimizedTextEnds(combined, o);
  }

  /** A 13-key metadata block starts with "Title: ". */
  lemma MetadataOutputStartsWithTitle(md: Metadata)
    requires Keys(md) == PptTextExtraction.MetadataKeys
    ensures StartsWith(MetadataOutput(md), "Title: ")
  {
    assert md[0].0 == Keys(md)[0] == "Title";
    var lines := seq(|md|, i requires 0 <= i < |md| => MetadataLine(md[i]));
    JoinStartsWithFirst("\n", lines);
    assert lines[0][..7] == "Title: ";
  }

  /** A readable file's metadata block starts with "Title: ", so the combined
      text is never the "No content extracted" fallback: it is the metadata
      block followed by the cleaned entries. */
  lemma CombinedStartsWithMetadata(md: Metadata, cleaned: seq<string>)
    requires Keys(md) == PptTextExtraction.MetadataKeys
    ensures Combined(MetadataOutput(md), cleaned) == Join("\n", [MetadataOutput(md)] + cleaned)
    ensures StartsWith(Combined(MetadataOutput(md), cleaned), "Title: ")
  {
    var mo := MetadataOutput(md);
    MetadataOutputStartsWithTitle(md);
    JoinStartsWithFirst("\n", [mo] + cleaned);
    var combined := Join("\n", [mo] + cleaned);
    assert combined[..7] == mo[..7];
    assert combined[0] == 'T';
  }
}
