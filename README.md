# pptx_extraction — a verified model of the text pipeline

This project is a Dafny model of the text pipeline of *pptx_extraction*. The pipeline turns a
PowerPoint file into one narrated script. It has these steps:

- **File validation and routing** (`modules/utils.py`; the extension test in
  `modules/ppt_text_extraction.py`, `app.py` and `main.py`). The extension is taken the way
  `os.path.splitext` takes it and lowercased. It is then compared with an allowed list whose
  entries are lowercased and stripped of leading dots. A file whose lowercased extension is
  exactly `.pptx` goes to the python-pptx readers; any other file goes to the PowerPoint-automation
  ("legacy") readers.
- **Three slide readers.** Each produces a list of `@@@Slide_N@@@` entries:
  - the `.pptx` reader, one line per text run;
  - the legacy reader, one stripped line per shape with text;
  - the richer reader of `modules/text_extraction.py`, with titles, indented bullets, tables,
    chart titles, notes and a `[No text content]` placeholder.
- **Metadata.** Three readers build a 13-key dictionary whose falsy values read `N/A`, or an
  `{"Error": …}` dictionary on failure: the `.pptx` and legacy readers of
  `modules/ppt_text_extraction.py`, and the `.pptx` reader of `modules/text_extraction.py`.
- **The OCR gate and image indexing** (`modules/image_extraction_p.py`). A recognised line counts
  when it has at least two characters and a confidence above 0.5. Pictures are numbered per slide,
  and each picture with text yields an entry, as a record or as a formatted string.
- **`clean_text_output`** (`app.py` and `main.py`). It drops empty entries, removes the
  `stablediffusionweb.com` watermark, strips, and collapses `\n\s*\n` runs. Then comes the
  **combine step** of `process_file`:
  - a metadata "Error" aborts;
  - otherwise the `key: value` block is joined with the cleaned entries;
  - a blank result is replaced by `No content extracted`;
  - an empty optimiser result falls back to the combined text.
- **The narrative composer** `optimize_text_with_ai` (`modules/ai_optimizer.py`). It is a line-driven
  state machine:
  - a metadata section, closed by the first key containing `Revision`;
  - slide markers that are counted and introduced by the counter;
  - cleaned lines buffered per slide and turned into prose by `_process_slide` and
    `_process_final_slide`, which use `_format_list` and `_generate_transition`;
  - exactly one closing phrase at the end.

The document libraries are replaced by data, in module `Document`:

- python-pptx's object model, PowerPoint automation's view of a legacy file, and PaddleOCR's
  recognised lines are datatypes.
- A library call that raises is `Raised(message)`.
- spaCy's sentence splitter, the GPT-2 text generator and `random.choice` are the fields of
  `AiOptimizer.Oracles`. The k-th `random.choice(list)` picks `list[rng(k) % len(list)]`, and a draw
  counter is threaded through the composer's state.

The loops of the source are Dafny methods with loop invariants. Each one is proved equal to a
recursive specification function, and the properties are proved about those functions.

Module layout: `Strings` (Python `str` operations), `Document` (library inputs), `FileTypes`
(`modules/utils.py`), `PptTextExtraction`, `TextExtraction`, `ImageExtraction`, `App` (`app.py`),
`MainScript` (`main.py`) and `AiOptimizer`.

### Behaviour of the code worth noting

- The `.pptx` reader appends every text run on its own line, so the runs of one paragraph are
  separated by "\n" (`modules/ppt_text_extraction.py:29-32`).
- The `.pptx` and legacy readers omit a slide without text (`modules/ppt_text_extraction.py:31`,
  `:90`), so entry numbers can have gaps. Only the richer reader keeps every slide.
- A metadata failure is fatal: `process_file` raises as soon as the dictionary has an "Error" key
  (`app.py:120-122`, `main.py:42-44`), before any slide text is read.
- The `.pptx` reader of `modules/ppt_text_extraction.py` has no handler, so a package it cannot
  open raises instead of giving an empty list.

## Model

| member | source | states |
|---|---|---|
| Strings.StripBlank | app.py:57 | `s.strip()` is empty exactly when `s` is whitespace only |
| Strings.Split | modules/ai_optimizer.py:175 | `s.split(c)` gives at least one part and no part holds `c` |
| Strings.SplitJoin | modules/ai_optimizer.py:175 | splitting a `c`-joined list whose parts are free of `c` returns the list |
| Strings.SplitFirst | modules/ai_optimizer.py:192 | `split(':', 1)`: the key holds no colon and key + ':' + value is the line |
| Strings.Lower | modules/utils.py:37 | `lower()` keeps the length and lowercases each character |
| FileTypes.Ext | modules/utils.py:36 | the `splitext` extension is "" or a '.'-led suffix of the path with no separator and no further dot |
| FileTypes.NormalizeExt | modules/utils.py:40 | a normalised allowed extension never starts with '.' |
| FileTypes.NormalizeAll | modules/utils.py:40 | the normalised list has one entry per allowed extension, in order |
| FileTypes.ValidateFileType | modules/utils.py:9-51 | a missing file gives False, or FileNotFound when raising is on, before any extension test; otherwise the verdict is the membership of the lowercased extension without its dot in the normalised list; with raising on, a valid type gives True and an invalid one raises InvalidFileType with the lowercased extension and the normalised list |
| FileTypes.ExtOfLower | modules/utils.py:36-37 | lowercasing before or after `splitext` gives the same extension (the router lowercases first, the validator after) |
| FileTypes.ExtNameIgnoresCase | modules/utils.py:36-37 | paths that differ only in letter case compare with the same extension |
| FileTypes.NormalizeIgnoresCase | modules/utils.py:40 | allowed extensions that differ only in case normalise alike |
| FileTypes.ValidateIgnoresCase | modules/utils.py:36-43 | changing the case of the path or of any allowed extension never changes the verdict |
| FileTypes.NormalizeExtLeadingDot | modules/utils.py:40 | a leading dot is irrelevant: ".x" and "x" normalise alike |
| FileTypes.NormalizeExamples | modules/utils.py:40 | ".PPTX" and ".pptx" both normalise to "pptx" |
| FileTypes.ExtensionlessFile | modules/utils.py:43 | an extensionless file compares as "" |
| FileTypes.PptxInSupported | app.py:49 | "pptx" is among the eight normalised supported formats |
| FileTypes.IsPptx | modules/ppt_text_extraction.py:16-17 | the router's test, which lowercases before `splitext`, holds exactly when the lowercased extension is ".pptx" |
| FileTypes.PptxIsSupported | main.py:28 | every existing path the router sends to the `.pptx` readers passes validation |
| PptTextExtraction.ExtractTextFromPpt | modules/ppt_text_extraction.py:13-34 | a lowercased extension other than ".pptx" goes to the legacy reader; an unreadable `.pptx` raises; otherwise the entries of the slides |
| PptTextExtraction.ExtractPptxSlides | modules/ppt_text_extraction.py:24-32 | the slide loop returns the entries of the slides that have runs, numbered by deck position |
| PptTextExtraction.CollectRuns | modules/ppt_text_extraction.py:25-30 | the run texts of all text-frame shapes, in order |
| PptTextExtraction.CollectParagraphRuns | modules/ppt_text_extraction.py:28-30 | the run texts of a text frame's paragraphs, in order |
| PptTextExtraction.ParagraphRunsNonEmpty | modules/ppt_text_extraction.py:28-30 | a text frame yields runs iff some paragraph has a run |
| PptTextExtraction.SlideRunsNonEmpty | modules/ppt_text_extraction.py:25-31 | a slide yields an entry iff one of its text frames has a run, even an empty-text one |
| PptTextExtraction.KeptSlidesSpec | modules/ppt_text_extraction.py:24-32 | the kept slide numbers are strictly increasing, lie in 1..n, are exactly the slides with text, and are no more than the slides |
| PptTextExtraction.EntriesNumbered | modules/ppt_text_extraction.py:24-32 | entry i is "\n\n@@@Slide_k@@@\n" plus the texts of slide k joined by "\n", where k is the i-th kept deck position |
| PptTextExtraction.ExtractTextFromPptLegacy | modules/ppt_text_extraction.py:64-104 | the legacy entries, or [] when automation fails |
| PptTextExtraction.ExtractLegacySlides | modules/ppt_text_extraction.py:83-91 | the legacy slide loop gives the entries of the slides with kept texts |
| PptTextExtraction.CollectLegacyTexts | modules/ppt_text_extraction.py:84-89 | the stripped non-empty texts of the shapes with a text frame that has text |
| PptTextExtraction.LegacyTextsClean | modules/ppt_text_extraction.py:86-89 | every kept legacy text is stripped and non-empty, at most one per shape |
| PptTextExtraction.ReadersAgree | modules/ppt_text_extraction.py:24-91 | decks with the same per-slide texts give the same entries through either reader |
| Strings.PadNatSpec | modules/ppt_text_extraction.py:49-50 | `%02d`/`%04d` of a number below 10^w is exactly w digits that read back as the number |
| PptTextExtraction.FormatDateLayout | modules/ppt_text_extraction.py:49-50 | '%Y-%m-%d %H:%M:%S' is 19 characters with '-', '-', ' ', ':', ':' at 4, 7, 10, 13, 16 and digit fields that read back as year, month, day, hour, minute and second |
| PptTextExtraction.OrNA | modules/ppt_text_extraction.py:43-54 | `s or "N/A"` is never empty and is `s` unless `s` is empty |
| PptTextExtraction.DateOrNA | modules/ppt_text_extraction.py:49-50 | a date field reads "N/A" exactly when the date is absent, and is the formatted date otherwise |
| PptTextExtraction.WithKeys | modules/ppt_text_extraction.py:42-56 | the dictionary has the 13 keys in order, holding the given values |
| PptTextExtraction.RevisionOrNA | modules/ppt_text_extraction.py:55 | a non-zero revision is kept as that integer, zero reads "N/A"; it never prints empty |
| PptTextExtraction.ExtractMetadata | modules/ppt_text_extraction.py:36-62 | the 13 keys in order with no value printing empty, or only `{"Error": str(e)}` on failure |
| PptTextExtraction.MetadataValues | modules/ppt_text_extraction.py:42-56 | under each key, the core property: a non-empty string as it is, a falsy one as "N/A", a present date formatted, a non-zero revision as the integer |
| PptTextExtraction.ExtractMetadataLegacy | modules/ppt_text_extraction.py:106-150 | the same 13 keys in order, every value a string, the three fixed "N/A"s, or `{"Error": str(e)}` |
| PptTextExtraction.LegacyMetadataValues | modules/ppt_text_extraction.py:124-136 | under each key, the built-in property's value or "N/A" when it is absent, dates formatted, the revision number through `str`, and "N/A" for the three keys the legacy reader cannot read |
| PptTextExtraction.ErrorNotAKey | modules/ppt_text_extraction.py:42-56 | "Error" is not one of the 13 keys |
| PptTextExtraction.ErrorKeyExactlyOnFailure | modules/ppt_text_extraction.py:42-62 | both readers produce an "Error" key iff reading failed |
| TextExtraction.KeptRunText | modules/text_extraction.py:38 | a paragraph's text is empty iff all its runs are whitespace only |
| TextExtraction.Indent | modules/text_extraction.py:41-42 | the prefix is two spaces per level, plus "▪ " iff level > 0 |
| TextExtraction.ParagraphLine | modules/text_extraction.py:37-43 | no line iff every run is blank; otherwise the prefix and the separator-less kept text |
| TextExtraction.RowCells | modules/text_extraction.py:49 | every kept cell is stripped and non-empty |
| TextExtraction.RichEntries | modules/text_extraction.py:25-71 | exactly one entry per slide |
| TextExtraction.EmptySlidePlaceholder | modules/text_extraction.py:67-71 | a slide without lines gives "@@@Slide_n@@@\n[No text content]" |
| TextExtraction.TitleFirst | modules/text_extraction.py:30-31 | a slide with a title starts with "Title: " and the stripped title |
| TextExtraction.KeptRunTextNonBlank | modules/text_extraction.py:38-39 | a paragraph's kept text is empty or has a non-space character |
| TextExtraction.ParagraphLinesNonBlank | modules/text_extraction.py:37-43 | every paragraph line has a non-space character |
| TextExtraction.ShapesLinesNonBlank | modules/text_extraction.py:34-58 | every line from text frames, tables and charts has a non-space character |
| TextExtraction.SlideLinesNonBlank | modules/text_extraction.py:66-69 | no line of a slide is blank, so the filter at the join drops nothing |
| TextExtraction.NonBlankKeepsAll | modules/text_extraction.py:68 | the whitespace filter keeps a list of non-blank lines whole |
| TextExtraction.TableRowsCount | modules/text_extraction.py:47-53 | at most one line per row, and none iff no row keeps a cell (then no table block) |
| TextExtraction.ExtractTextFromPpt | modules/text_extraction.py:10-78 | the per-slide entries, or ["Error: Unable to process {path}"] on failure |
| TextExtraction.ExtractSlides | modules/text_extraction.py:25-71 | the slide loop builds one entry per slide in deck order |
| TextExtraction.FormatSlide | modules/text_extraction.py:66-71 | the marker, then the non-blank lines joined by "\n" or the placeholder |
| TextExtraction.CollectSlideLines | modules/text_extraction.py:26-64 | title, then shape lines, then non-blank notes as "Notes:\n…" |
| TextExtraction.CollectShapesLines | modules/text_extraction.py:34-58 | the lines of every shape, in order |
| TextExtraction.CollectShapeLines | modules/text_extraction.py:35-58 | the first case that applies among text frame, table and chart |
| TextExtraction.CollectTableRows | modules/text_extraction.py:47-51 | the rows that keep a cell, their cells joined by a bar between spaces |
| TextExtraction.ExtractMetadata | modules/text_extraction.py:80-116 | the 13 keys in order with non-empty string values, or `{"Error": "Unable to process {path}"}` |
| TextExtraction.RevisionText | modules/text_extraction.py:108 | `str(revision)` when the revision is non-zero, "N/A" otherwise |
| TextExtraction.MetadataValues | modules/text_extraction.py:96-109 | under each key, the core property: a non-empty string as it is, a falsy one as "N/A", a present date formatted, a non-zero revision through `str` |
| TextExtraction.MetadataReadersRenderAlike | modules/text_extraction.py:95-109 | both `.pptx` metadata readers print the same keys and values |
| ImageExtraction.ContainsText | modules/image_extraction_p.py:113-135 | a picture contains text exactly when the OCR engine has a first page and the length and confidence gate keeps one of its lines |
| ImageExtraction.OcrText | modules/image_extraction_p.py:98-107 | the OCR text is stripped |
| ImageExtraction.PassingTextsEmpty | modules/image_extraction_p.py:103-105 | no line is kept iff no line passes length ≥ 2 and confidence > 0.5 |
| ImageExtraction.NoTextMeansNoOcrText | modules/image_extraction_p.py:98-130 | when `contains_text` is False, `process_image_for_ocr` returns "" |
| ImageExtraction.BlankLineCounterexample | modules/image_extraction_p.py:104-107 | the converse fails: a passing whitespace line makes `contains_text` True yet the OCR text "" |
| ImageExtraction.ProcessImageForOcr | modules/image_extraction_p.py:87-111 | the passing lines in recognition order, joined by "\n" and stripped; "" without a result |
| ImageExtraction.ExtractImages | modules/image_extraction_p.py:21-85 | the entries of every slide in order, [] when the package cannot be read |
| ImageExtraction.ExtractSlideImages | modules/image_extraction_p.py:41-78 | the index restarts at 1 and advances once per picture; an entry only for a picture with text |
| ImageExtraction.SlideEntriesSpec | modules/image_extraction_p.py:41-78 | a slide's records carry its number, strictly increasing image numbers within its pictures, and non-empty stripped text |
| ImageExtraction.DeckEntriesSorted | modules/image_extraction_p.py:38-81 | records are sorted by (slide, image) without repetition and name slides 1..n |
| ImageExtraction.SlideFormatsAgree | modules/image_extraction_p.py:59-67 | on one slide the text format is the json format with each record rendered |
| ImageExtraction.FormatsAgree | modules/image_extraction_p.py:64-67 | both output formats list the same pictures in the same order |
| App.RemoveWatermark | app.py:55-59 | removing the watermark never lengthens an entry |
| App.RemoveWatermarkAbsent | app.py:59 | an entry without the watermark is unchanged |
| App.Collapse | app.py:60 | collapsing never lengthens a string |
| App.NoNewlineAheadMeans | app.py:60 | the recursive "no newline after leading whitespace" test agrees with its positional form |
| App.BlankRunFreeMeans | app.py:60 | the recursive and the positional "no `\n\s*\n` match" agree |
| App.CollapseBlankRunFree | app.py:60 | after the substitution `\n\s*\n` matches nowhere |
| App.CollapseIdentity | app.py:60 | a string without a match is unchanged |
| App.CollapseStripped | app.py:60 | collapsing keeps a stripped string stripped and non-empty |
| App.CleanEntryTidy | app.py:59-60 | every cleaned entry is stripped and has no `\n\s*\n` run |
| App.CleanEntryFixpoint | app.py:59-60 | a tidy watermark-free entry is its own cleaning |
| App.CleanTextOutput | app.py:51-65 | None and blank entries are dropped and the rest cleaned in order; a record entry makes the handler return [] |
| App.CleanedAppend | app.py:56-61 | cleaning works entry by entry and keeps order |
| App.CleanedEntries | app.py:56-61 | at most one output per input, and each one tidy |
| App.WatermarkOnlyEntry | app.py:57-61 | an entry that is only the watermark appears as "" |
| App.CleanAgain | app.py:56-61 | re-cleaning non-empty, tidy, watermark-free entries returns them unchanged |
| App.ErrorValue | app.py:121-122 | `metadata['Error']` is the value stored under "Error" |
| App.Combined | app.py:136-139 | the combined text is never blank, thanks to the "No content extracted" fallback |
| App.MetadataOf | app.py:116-119 | routed by the extension test, the failing reader's error dictionary, otherwise the 13 keys |
| App.TextOutputOf | app.py:125-128 | the routed reader's entries: at most one per slide, none when automation fails on a legacy file |
| App.ProcessFile | app.py:115-141 | raises "Metadata extraction failed: …" iff the routed metadata reader failed, with its message; otherwise a non-empty text |
| App.MetadataErrorMessage | app.py:119-122 | the metadata has "Error" iff the routed reader failed, and it holds that failure's message |
| App.OptimizerOutputKept | app.py:141 | the optimiser never returns "", so the result is its text and never the fallback |
| App.MetadataOutputStartsWithTitle | app.py:123 | a 13-key metadata block starts with "Title: " |
| App.CombinedStartsWithMetadata | app.py:123-139 | for a readable file the combined text is the metadata block joined with the cleaned entries, never the fallback |
| MainScript.FirstNonStr | main.py:95-97 | the first entry on which `slide.strip()` raises |
| MainScript.CleanTextOutput | main.py:91-104 | the same cleaning as app.py on strings; the first non-string raises out of the function |
| MainScript.CleanersAgree | main.py:91-104 | both cleaners agree on string lists; a None entry makes main.py's raise |
| MainScript.ProcessFile | main.py:36-80 | a metadata failure raises with the reader's message; an optimised text is never empty |
| MainScript.ProcessPptFile | main.py:26-89 | skipped iff validation against the eight formats fails; a missing file is always skipped |
| MainScript.PptxNeverSkipped | main.py:28-30 | an existing `.pptx` file is always processed |
| MainScript.FrontEndsAgree | main.py:36-71 | main.py and app.py produce the same result when every image entry is a string |
| AiOptimizer.Choose | modules/ai_optimizer.py:195 | `random.choice` returns a member of its list |
| AiOptimizer.Preprocess | modules/ai_optimizer.py:175 | every kept line is stripped and non-empty, at most one per part |
| AiOptimizer.SlideMarkerRecognised | modules/ai_optimizer.py:200-201 | every `@@@Slide_N@@@` marker the readers write is recognised |
| AiOptimizer.SpaceRun | modules/ai_optimizer.py:212 | `\s{2,}` consumes the maximal whitespace run |
| AiOptimizer.Scrub | modules/ai_optimizer.py:212 | no bullet, hyphen or tab survives the substitution |
| AiOptimizer.CleanLine | modules/ai_optimizer.py:212 | a cleaned line is stripped and has no bullet, hyphen or tab |
| AiOptimizer.MetaLineOfWellFormed | modules/ai_optimizer.py:191-193 | a "key: value" line is re-emitted unchanged, colons in the value included |
| AiOptimizer.Transition | modules/ai_optimizer.py:292-302 | no previous context gives "我们先来看看，"; at most one random draw |
| AiOptimizer.FormatList | modules/ai_optimizer.py:304-314 | the list paragraph and the draws it uses equal `FormatListOf`, whose shape `FormatListShape` proves |
| AiOptimizer.ListSentences | modules/ai_optimizer.py:308-313 | the intro, then one part per item; one draw per item after the first |
| AiOptimizer.FormatListShape | modules/ai_optimizer.py:304-314 | starts with "具体来说， ", the first item without connector and marked key, ends with "。" |
| AiOptimizer.Sentences | modules/ai_optimizer.py:235-236 | every sentence is stripped |
| AiOptimizer.TrimListMarks | modules/ai_optimizer.py:255 | `strip('：，')` leaves no '：' or '，' at either end |
| AiOptimizer.Classify | modules/ai_optimizer.py:242-254 | formula iff a formula symbol; picture iff "Image" and no symbol; list item iff neither, fewer than 10 words, and ':' or a trailing '，' |
| AiOptimizer.FlushList | modules/ai_optimizer.py:257-259 | the list buffer is empty afterwards and the context is kept |
| AiOptimizer.ProcessSlide | modules/ai_optimizer.py:233-267 | the slide paragraph and the draws it uses equal `ProcessSlideOf`, characterised by `SlideRunSpec` |
| AiOptimizer.SlideRunSpec | modules/ai_optimizer.py:240-265 | the context is the last prose sentence, the buffer holds the list sentences since it, and there are never more parts than sentences |
| AiOptimizer.SlideRunNoList | modules/ai_optimizer.py:240-262 | without list sentences every sentence gives exactly one part |
| AiOptimizer.RStripCommas | modules/ai_optimizer.py:290 | no trailing '，' remains |
| AiOptimizer.ProcessFinalSlide | modules/ai_optimizer.py:269-290 | the closing paragraph equals `ProcessFinalSlideOf`, whose shape `FinalSlideShape` proves |
| AiOptimizer.FinalSentence | modules/ai_optimizer.py:276-288 | the part for a sentence by content, then by position |
| AiOptimizer.FinalSlideShape | modules/ai_optimizer.py:273-290 | the closing paragraph starts with the slide header; its last character is "。" and the one before it is not '，' (it may be another "。") |
| AiOptimizer.OptimizeTextWithAi | modules/ai_optimizer.py:169-227 | the composed text equals `OptimizedText`, whose shape `SegmentsComplete` proves |
| AiOptimizer.ComposeLines | modules/ai_optimizer.py:189-217 | the line loop's state equals `Run` over the lines read so far |
| AiOptimizer.FinishLines | modules/ai_optimizer.py:219-223 | the final slide when the buffer is non-empty, then one closing phrase |
| AiOptimizer.HandleMetadataLine | modules/ai_optimizer.py:191-197 | the re-emitted line, and for a "Revision" key the end phrase and the end of the section |
| AiOptimizer.HandleMarker | modules/ai_optimizer.py:200-209 | the counter grows by one, the buffer is flushed and emptied |
| AiOptimizer.CloseSection | modules/ai_optimizer.py:206-208 | a section end from the second slide on, then the intro numbered by the counter |
| AiOptimizer.FlushSlideBuffer | modules/ai_optimizer.py:203-205 | a non-empty buffer becomes one slide paragraph |
| AiOptimizer.MetadataStepShaped | modules/ai_optimizer.py:191-197 | a metadata line keeps the output's shape: one end phrase at most, none before the section closes, no metadata line after it |
| AiOptimizer.MarkerStepShaped | modules/ai_optimizer.py:200-209 | a marker keeps intros numbered 1..count with one section end fewer, and each paragraph followed by a section end or intro |
| AiOptimizer.StepShaped | modules/ai_optimizer.py:189-217 | every line keeps the shape invariant |
| AiOptimizer.RunShaped | modules/ai_optimizer.py:189-217 | the shape invariant holds after any number of lines |
| AiOptimizer.FinishComplete | modules/ai_optimizer.py:219-223 | the finished output ends with the only closing phrase, the final paragraph right before it |
| AiOptimizer.SegmentsComplete | modules/ai_optimizer.py:189-225 | for any input and oracles: one closing phrase, last; at most one metadata end; intros numbered 1..slides with one section end fewer |
| AiOptimizer.OptimizedTextEnds | modules/ai_optimizer.py:223-225 | the text always ends with "\n" and a closing phrase, even for metadata-only input |

## Left out

- Flask routes, uploads, static files, the port loop, logging, directory creation and file writes
  are left out: they are HTTP and OS input/output.
- The single-worker thread pool and the 120-second `future.result` timeout are left out: they are
  concurrency.
- The COM start/open/quit/release sequence of the legacy readers is left out. Only its result is
  modelled: a legacy deck, or a failure.
- python-pptx, PaddleOCR, spaCy and the GPT-2 generator are not modelled; their results are inputs.
  The OCR engine is assumed to give the same result to `contains_text` and
  `process_image_for_ocr` for one picture.
- The image step of `process_file` is an input (`imageOutput`). Its call sites pass `use_gpu`, which
  `extract_images_from_ppt_paddleocr` does not accept, and `extract_images_from_ppt_legacy` is not
  defined in `modules/image_extraction_p.py`. The image reader itself is modelled on its own.
- The two `Presentation(file_path)` calls of one `process_file` are modelled as one outcome, so one
  opening cannot succeed while the other fails.
- `modules/image_extraction_t.py` is not part of this model: it is pixel processing with floating
  thresholds.
- The commented-out drafts at the top of `modules/ai_optimizer.py` are not live code.
- `setup_logger` is plumbing.
- `os.path.isfile` is a boolean parameter.
- AiOptimizer.OptimizeTextWithAi: the handler that returns `text` on an exception is not modelled,
  because the oracles are total. Only a library failure could reach that handler.
- AiOptimizer.ProcessSlide: the composer always passes `prev_context = None`, and `slide_num` is
  unused, so neither is a parameter.
- Strings.Lower: only ASCII letters are lowercased. That is enough for the extensions compared.
- AiOptimizer.SlideMarkerRecognised: `\d` is read as the ASCII digits. Python also accepts other
  Unicode decimal digits.
- PptTextExtraction.FormatDate: the year is padded to four digits. Platform `strftime` differences
  for years before 1000 are not modelled.
- Python dictionaries are ordered lists of key–value pairs. The readers never repeat a key.
