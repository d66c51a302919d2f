/** The narrative composer of modules/ai_optimizer.py: `optimize_text_with_ai`
    turns the combined extraction text into a spoken-style script, with the
    helpers `_process_slide`, `_process_final_slide`, `_format_list` and
    `_generate_transition`. The sentence splitter, the text generator and the
    random number generator are inputs. */
module AiOptimizer {
  import opened Strings
  import opened Document

  // ---------------------------------------------------------------------------
  // What the composer cannot compute itself

  /** The library services the composer calls:
      - `sentences(t)` is `[sent.text for sent in nlp(t).sents]`;
      - `generate(prompt)` is the generator's `generated_text` for the prompt,
        or `None` when the call raises;
      - `rng(k)` is the value behind the k-th call of `random.choice`, which
        picks `list[rng(k) % len(list)]`. */
  datatype Oracles = Oracles(
    sentences: string -> seq<string>,
    generate: string -> Option<string>,
    rng: nat -> nat)

  /** `random.choice(list)` as the k-th draw. */
  function Choose(list: seq<string>, rng: nat -> nat, k: nat): (r: string)
    requires |list| > 0
    ensures r in list
  {
    list[rng(k) % |list|]
  }

  const MetadataEnds: seq<string> := ["课程资料齐全，我们马上开讲！", "文本就位，接下来直入主题！"]
  const SlideIntros: seq<string> := ["我们先从这里入手，聊聊", "接下来带大家走进", "现在一起探讨", "那就让我们开始"]
  const SectionEnds: seq<string> := ["这部分先告一段落，接下来有新亮点", "聊到这里，我们转向新内容", "先到这儿，后续更精彩"]
  const FinalClosings: seq<string> := ["今天的课程到此结束，大家收获如何？下次见！", "好了，这节内容就先画个句号，咱们下次再续！"]
  const Connectors: seq<string> := ["接着是", "然后聊到", "再看看", "另外还有"]
  const FallbackTransitions: seq<string> := ["顺着这个思路，", "再来看看，", "基于此，"]

  // ---------------------------------------------------------------------------
  // Line preprocessing: `[line.strip() for line in text.split('\n') if line.strip()]`

  function Preprocess(parts: seq<string>): (lines: seq<string>)
    ensures |lines| <= |parts|
    ensures forall l :: l in lines ==> l != "" && IsStripped(l)
  {
    if |parts| == 0 then []
    else
      var s := Strip(parts[|parts| - 1]);
      Preprocess(parts[..|parts| - 1]) + (if s != "" then [s] else [])
  }

  function Lines(text: string): seq<string> {
    Preprocess(Split(text, '\n'))
  }

  // ---------------------------------------------------------------------------
  // Slide markers: `re.match(r'(?:接下来聊聊|让我们进入|现在我们来看)第 (\d+) 张幻灯片：', line)`
  // or `re.match(r'@@@Slide_\d+@@@', line)`

  predicate IsDigit(c: char) {
    '0' <= c <= '9'
  }

  /** `s` starts with one or more digits followed by `suffix`. */
  predicate DigitsThen(s: string, suffix: string) {
    |s| > 0 && IsDigit(s[0]) && (StartsWith(s[1..], suffix) || DigitsThen(s[1..], suffix))
  }

  const IntroPrefixes: seq<string> := ["接下来聊聊", "让我们进入", "现在我们来看"]

  predicate IsSlideMarker(line: string) {
    (StartsWith(line, "@@@Slide_") && DigitsThen(line[9..], "@@@"))
    || exists p :: p in IntroPrefixes && StartsWith(line, p + "第 ") && DigitsThen(line[|p| + 2..], " 张幻灯片：")
  }

  lemma {:induction false} DigitsThenAppend(d: string, suffix: string)
    requires |d| > 0 && forall i :: 0 <= i < |d| ==> IsDigit(d[i])
    ensures DigitsThen(d + suffix, suffix)
  {
    if |d| == 1 {
      assert (d + suffix)[1..] == suffix;
    } else {
      DigitsThenAppend(d[1..], suffix);
      assert (d + suffix)[1..] == d[1..] + suffix;
    }
  }

  /** Every marker line the slide readers write, `@@@Slide_{n}@@@`, is
      recognised, whatever follows it on the line. */
  lemma SlideMarkerRecognised(n: nat, rest: string)
    ensures IsSlideMarker("@@@Slide_" + NatToString(n) + "@@@" + rest)
  {
    var line := "@@@Slide_" + NatToString(n) + "@@@" + rest;
    DigitsThenAppend(NatToString(n), "@@@");
    assert line[..9] == "@@@Slide_";
    assert line[9..] == NatToString(n) + "@@@" + rest;
    DigitsThenMore(NatToString(n) + "@@@", "@@@", rest);
    assert NatToString(n) + "@@@" + rest == (NatToString(n) + "@@@") + rest;
  }

  lemma {:induction false} DigitsThenMore(s: string, suffix: string, rest: string)
    requires DigitsThen(s, suffix)
    ensures DigitsThen(s + rest, suffix)
  {
    assert (s + rest)[1..] == s[1..] + rest;
    if StartsWith(s[1..], suffix) {
      assert (s[1..] + rest)[..|suffix|] == s[1..][..|suffix|];
    } else {
      DigitsThenMore(s[1..], suffix, rest);
    }
  }

  // ---------------------------------------------------------------------------
  // Line scrubbing:
  // `re.sub(r'[▪•\-\t]|stablediffusionweb\.com|WHATEV-VEER\.|\s{2,}', ' ', line).strip()`

  predicate IsBulletChar(c: char) {
    c == '▪' || c == '•' || c == '-' || c == '\t'
  }

  /** Length of the whitespace run `s` starts with. */
  function SpaceRun(s: string): (n: nat)
    ensures n <= |s|
    ensures forall i :: 0 <= i < n ==> IsSpace(s[i])
    ensures n < |s| ==> !IsSpace(s[n])
  {
    if |s| > 0 && IsSpace(s[0]) then 1 + SpaceRun(s[1..]) else 0
  }

  /** The substitution, scanning left to right and trying the alternatives in
      order at each position: a bullet, hyphen or tab; the watermark; the
      "WHATEV-VEER." mark; two or more whitespace characters (greedily). Each
      match becomes one space. */
  function Scrub(s: string): (r: string)
    ensures forall c :: c in r ==> !IsBulletChar(c)
    decreases |s|
  {
    if |s| == 0 then ""
    else if IsBulletChar(s[0]) then " " + Scrub(s[1..])
    else if StartsWith(s, "stablediffusionweb.com") then " " + Scrub(s[22..])
    else if StartsWith(s, "WHATEV-VEER.") then " " + Scrub(s[12..])
    else if |s| >= 2 && IsSpace(s[0]) && IsSpace(s[1]) then " " + Scrub(s[SpaceRun(s)..])
    else [s[0]] + Scrub(s[1..])
  }

  /** A cleaned line: scrubbed and stripped. */
  function CleanLine(line: string): (r: string)
    ensures IsStripped(r)
    ensures forall c :: c in r ==> !IsBulletChar(c)
  {
    var s := Scrub(line);
    StripInside(s);
    Strip(s)
  }

  /** Every character of `Strip(s)` is a character of `s`. */
  lemma StripInside(s: string)
    ensures forall c :: c in Strip(s) ==> c in s
  {
    var l := LStrip(s);
    LStripDrops(s);
    RStripDrops(l);
    forall c | c in Strip(s) ensures c in s {
      var i :| 0 <= i < |Strip(s)| && Strip(s)[i] == c;
      assert Strip(s)[i] == l[i] == s[|s| - |l| + i];
    }
  }

  // ---------------------------------------------------------------------------
  // Metadata lines: `key, value = line.split(':', 1)`, `f"{key.strip()}: {value.strip()}"`

  function MetaLineOf(line: string): string
    requires ':' in line
  {
    var kv := SplitFirst(line, ':');
    Strip(kv.0) + ": " + Strip(kv.1)
  }

  /** A line already of the form "key: value", with a colon-free stripped key
      and a stripped value, is re-emitted unchanged; the value may itself hold
      colons. */
  lemma MetaLineOfWellFormed(key: string, value: string)
    requires ':' !in key && IsStripped(key) && IsStripped(value)
    ensures ':' in key + ": " + value
    ensures MetaLineOf(key + ": " + value) == key + ": " + value
  {
    var line := key + ": " + value;
    assert line[|key|] == ':';
    var kv := SplitFirst(line, ':');
    SplitFirstUnique(line, kv.0, kv.1, key, " " + value);
    StripStripped(key);
    StripLeadingSpace(value);
  }

  /** Position of the first colon of `s`, or `|s|`. */
  function ColonIndex(s: string): (k: nat)
    ensures k <= |s|
  {
    if |s| == 0 || s[0] == ':' then 0 else 1 + ColonIndex(s[1..])
  }

  lemma {:induction false} ColonIndexAt(a: string, b: string)
    requires ':' !in a
    ensures ColonIndex(a + [':'] + b) == |a|
  {
    if |a| > 0 {
      assert (a + [':'] + b)[1..] == a[1..] + [':'] + b;
      ColonIndexAt(a[1..], b);
    }
  }

  /** A string splits at its first colon in one way only. */
  lemma SplitFirstUnique(s: string, a: string, b: string, c: string, d: string)
    requires ':' !in a && ':' !in c
    requires s == a + [':'] + b && s == c + [':'] + d
    ensures a == c && b == d
  {
    ColonIndexAt(a, b);
    ColonIndexAt(c, d);
    assert a == s[..|a|] == c;
    assert b == s[|a| + 1..] == d;
  }

  lemma StripLeadingSpace(v: string)
    requires IsStripped(v)
    ensures Strip(" " + v) == v
  {
    assert (" " + v)[1..] == v;
    LStripOfStripped(v);
    assert LStrip(" " + v) == LStrip(v) == v;
  }

  // ---------------------------------------------------------------------------
  // _generate_transition

  /** `_generate_transition(prev_context, current_line)`: a fixed opener when
      there is no previous context; otherwise the second-to-last '，'-separated
      part of the generated text plus '，' ("接着是，" when it has no '，'), or
      a random fallback when generation raises. Returns the draw counter after
      the call. */
  function Transition(prev: string, current: string, o: Oracles, draws: nat): (r: (string, nat))
    ensures prev == "" ==> r == ("我们先来看看，", draws)
    ensures r.1 == draws || r.1 == draws + 1
  {
    if prev == "" then ("我们先来看看，", draws)
    else
      match o.generate(prev + "，接下来是" + current)
      case Some(generated) =>
        var parts := Split(generated, '，');
        (if |parts| > 1 then parts[|parts| - 2] + "，" else "接着是，", draws)
      case None => (Choose(FallbackTransitions, o.rng, draws), draws + 1)
  }

  // ---------------------------------------------------------------------------
  // _format_list

  /** Item i of a list: a random connector from the second item on, the
      item, and "，这点很关键" or "，也很重要" by the parity of i. Item i ≥ 1
      takes draw `draws + i - 1`. */
  function ListPart(items: seq<string>, i: nat, rng: nat -> nat, draws: nat): string
    requires i < |items|
  {
    (if i == 0 then "" else Choose(Connectors, rng, draws + i - 1))
    + items[i] + (if i % 2 == 0 then "，这点很关键" else "，也很重要")
  }

  function ListParts(items: seq<string>, n: nat, rng: nat -> nat, draws: nat): (r: seq<string>)
    requires n <= |items|
    ensures |r| == n
    ensures forall i :: 0 <= i < n ==> r[i] == ListPart(items, i, rng, draws)
  {
    seq(n, i requires 0 <= i < n => ListPart(items, i, rng, draws))
  }

  lemma ListPartsSnoc(items: seq<string>, n: nat, rng: nat -> nat, draws: nat)
    requires n < |items|
    ensures ListParts(items, n + 1, rng, draws) == ListParts(items, n, rng, draws) + [ListPart(items, n, rng, draws)]
  {
  }

  /** `_format_list(items, prev_context)` and the draw counter after it. */
  function FormatListOf(items: seq<string>, rng: nat -> nat, draws: nat): (r: (string, nat))
  {
    if |items| == 0 then ("", draws)
    else (Join(" ", ["具体来说，"] + ListParts(items, |items|, rng, draws)) + "。", draws + |items| - 1)
  }

  method FormatList(items: seq<string>, rng: nat -> nat, draws: nat) returns (text: string, drawsAfter: nat)
    ensures text == FormatListOf(items, rng, draws).0
    ensures drawsAfter == FormatListOf(items, rng, draws).1
  {
    if |items| == 0 {
      return "", draws;
    }
    var sentences;
    sentences, drawsAfter := ListSentences(items, rng, draws);
    text := Join(" ", sentences) + "。";
  }

  /** The loop of `_format_list`: the opening phrase, then one sentence per
      item. */
  method ListSentences(items: seq<string>, rng: nat -> nat, draws: nat) returns (sentences: seq<string>, drawsAfter: nat)
    requires |items| > 0
    ensures sentences == ["具体来说，"] + ListParts(items, |items|, rng, draws)
    ensures drawsAfter == draws + |items| - 1
  {
    sentences := ["具体来说，"];
    drawsAfter := draws;
    var i := 0;
    while i < |items|
      invariant 0 <= i <= |items|
      invariant sentences == ["具体来说，"] + ListParts(items, i, rng, draws)
      invariant drawsAfter == if i == 0 then draws else draws + i - 1
    {
      var connector := "";
      if i != 0 {
        connector := Choose(Connectors, rng, drawsAfter);
        drawsAfter := drawsAfter + 1;
      }
      var part := connector + items[i] + (if i % 2 == 0 then "，这点很关键" else "，也很重要");
      assert part == ListPart(items, i, rng, draws);
      ListPartsSnoc(items, i, rng, draws);
      sentences := sentences + [part];
      i := i + 1;
    }
  }

  /** A non-empty list reads "具体来说， " then the first item, which has no
      connector and is marked as key, and ends with "。"; one draw is used per
      item after the first. */
  lemma FormatListShape(items: seq<string>, rng: nat -> nat, draws: nat)
    requires |items| > 0
    ensures StartsWith(FormatListOf(items, rng, draws).0, "具体来说， " + items[0] + "，这点很关键")
    ensures EndsWith(FormatListOf(items, rng, draws).0, "。")
    ensures FormatListOf(items, rng, draws).1 == draws + |items| - 1
  {
    var parts := ["具体来说，"] + ListParts(items, |items|, rng, draws);
    var p := "具体来说， " + items[0] + "，这点很关键";
    assert parts[1] == ListPart(items, 0, rng, draws) == items[0] + "，这点很关键";
    assert parts[0] + " " + parts[1] == p;
    JoinPrefix2(" ", parts);
    var j := Join(" ", parts);
    assert j[..|p|] == p;
    var t := j + "。";
    assert t[..|p|] == p;
    assert t[|t| - 1..] == "。";
  }

  /** A join of two or more parts starts with the first two and the separator. */
  lemma {:induction false} JoinPrefix2(sep: string, parts: seq<string>)
    requires |parts| >= 2
    ensures StartsWith(Join(sep, parts), parts[0] + sep + parts[1])
  {
    if |parts| > 2 {
      JoinPrefix2(sep, parts[..|parts| - 1]);
    }
  }

  // ---------------------------------------------------------------------------
  // Sentence classification (shared by _process_slide and _process_final_slide)

  /** `[sent.text.strip() for sent in nlp(" ".join(slide_lines)).sents]` */
  function Sentences(slideLines: seq<string>, o: Oracles): (sents: seq<string>)
    ensures forall s :: s in sents ==> IsStripped(s)
  {
    var raw := o.sentences(Join(" ", slideLines));
    seq(|raw|, i requires 0 <= i < |raw| => Strip(raw[i]))
  }

  /** `any(symbol in sent for symbol in ['=', '∑', 'σ'])` */
  predicate HasFormulaSymbol(s: string) {
    '=' in s || '∑' in s || 'σ' in s
  }

  /** `sent.split(sep)[-1]`: what follows the last occurrence of `sep`. */
  function LastPart(s: string, sep: string): (r: string)
    requires |sep| > 0
    ensures |r| <= |s|
    decreases |s|
  {
    if !Contains(s, sep) then s
    else if StartsWith(s, sep) then LastPart(s[|sep|..], sep)
    else LastPart(s[1..], sep)
  }

  /** `sent.split('Text:')[-1].strip() if 'Text:' in sent else ""` */
  function ImageContent(s: string): string {
    if Contains(s, "Text:") then Strip(LastPart(s, "Text:")) else ""
  }

  /** `len(s.split())`: the number of maximal runs of non-whitespace. */
  function WordCount(s: string): nat {
    if |s| == 0 then 0
    else (if !IsSpace(s[0]) && (|s| == 1 || IsSpace(s[1])) then 1 else 0) + WordCount(s[1..])
  }

  predicate IsListMark(c: char) {
    c == '：' || c == '，'
  }

  /** `s.strip('：，')` */
  function TrimListMarks(s: string): (r: string)
    ensures |r| == 0 || (!IsListMark(r[0]) && !IsListMark(r[|r| - 1]))
    decreases |s|
  {
    if |s| > 0 && IsListMark(s[0]) then TrimListMarks(s[1..])
    else if |s| > 0 && IsListMark(s[|s| - 1]) then TrimListMarks(s[..|s| - 1])
    else s
  }

  datatype Kind = Formula | Picture | ListItem | Prose

  /** The tests of `_process_slide`, in their order: formula symbols, then
      "Image", then a short sentence with ':' or a trailing '，'. */
  function Classify(s: string): (k: Kind)
    ensures k == Formula <==> HasFormulaSymbol(s)
    ensures k == Picture <==> !HasFormulaSymbol(s) && Contains(s, "Image")
    ensures k == ListItem <==>
      !HasFormulaSymbol(s) && !Contains(s, "Image") && WordCount(s) < 10 && (':' in s || EndsWith(s, "，"))
  {
    if HasFormulaSymbol(s) then Formula
    else if Contains(s, "Image") then Picture
    else if WordCount(s) < 10 && (':' in s || EndsWith(s, "，")) then ListItem
    else Prose
  }

  // ---------------------------------------------------------------------------
  // _process_slide

  function FormulaPart(s: string): string {
    "这里有个关键点，我们来看公式：" + s + "，它" + (if '∑' in s then "揭示模型计算的关键" else "提升模型的效率") + "。"
  }

  function PicturePart(s: string): string {
    var content := ImageContent(s);
    "幻灯片上有个直观的展示" + (if content != "" then "，内容是：" + content else "，具体请看幻灯片") + "。"
  }

  /** The loop state of `_process_slide`: `narrative`, `list_items`,
      `prev_context` ("" for `None`) and the draw counter. */
  datatype SlideState = SlideState(narrative: seq<string>, listItems: seq<string>, prev: string, draws: nat)

  /** `narrative.append(_format_list(list_items, prev_context))` when the list
      buffer is non-empty; the buffer is then empty. */
  function FlushList(st: SlideState, o: Oracles): (r: SlideState)
    ensures |r.listItems| == 0 && r.prev == st.prev
  {
    if |st.listItems| > 0 then
      var formatted := FormatListOf(st.listItems, o.rng, st.draws);
      SlideState(st.narrative + [formatted.0], [], st.prev, formatted.1)
    else st
  }

  /** One sentence of `_process_slide`. */
  function SlideStep(st: SlideState, s: string, o: Oracles): SlideState {
    match Classify(s)
    case Formula => st.(narrative := st.narrative + [FormulaPart(s)])
    case Picture => st.(narrative := st.narrative + [PicturePart(s)])
    case ListItem => st.(listItems := st.listItems + [TrimListMarks(s)])
    case Prose =>
      var flushed := FlushList(st, o);
      var transition := Transition(flushed.prev, s, o, flushed.draws);
      SlideState(flushed.narrative + [transition.0 + s + "。"], [], s, transition.1)
  }

  /** The state after the first sentences; the composer always passes
      `prev_context = None`. */
  function SlideRun(sents: seq<string>, o: Oracles, draws: nat): SlideState {
    if |sents| == 0 then SlideState([], [], "", draws)
    else SlideStep(SlideRun(sents[..|sents| - 1], o, draws), sents[|sents| - 1], o)
  }

  /** `_process_slide(slide_lines, None, n)` and the draw counter after it. */
  function ProcessSlideOf(slideLines: seq<string>, o: Oracles, draws: nat): (string, nat) {
    var st := FlushList(SlideRun(Sentences(slideLines, o), o, draws), o);
    (Join(" ", st.narrative), st.draws)
  }

  lemma SlideRunSnoc(sents: seq<string>, i: nat, o: Oracles, draws: nat)
    requires i < |sents|
    ensures SlideRun(sents[..i + 1], o, draws) == SlideStep(SlideRun(sents[..i], o, draws), sents[i], o)
  {
    assert sents[..i + 1][..i] == sents[..i];
  }

  method ProcessSlide(slideLines: seq<string>, o: Oracles, draws: nat) returns (text: string, drawsAfter: nat)
    ensures (text, drawsAfter) == ProcessSlideOf(slideLines, o, draws)
  {
    var sentences := Sentences(slideLines, o);
    var narrative: seq<string> := [];
    var listItems: seq<string> := [];
    var prevContext := "";
    drawsAfter := draws;
    var i := 0;
    while i < |sentences|
      invariant 0 <= i <= |sentences|
      invariant SlideState(narrative, listItems, prevContext, drawsAfter) == SlideRun(sentences[..i], o, draws)
    {
      var sent := sentences[i];
      SlideRunSnoc(sentences, i, o, draws);
      if HasFormulaSymbol(sent) {
        narrative := narrative + [FormulaPart(sent)];
      } else if Contains(sent, "Image") {
        narrative := narrative + [PicturePart(sent)];
      } else if WordCount(sent) < 10 && (':' in sent || EndsWith(sent, "，")) {
        listItems := listItems + [TrimListMarks(sent)];
      } else {
        if |listItems| > 0 {
          var formatted;
          formatted, drawsAfter := FormatList(listItems, o.rng, drawsAfter);
          narrative := narrative + [formatted];
          listItems := [];
        }
        var transition := Transition(prevContext, sent, o, drawsAfter);
        drawsAfter := transition.1;
        narrative := narrative + [transition.0 + sent + "。"];
        prevContext := sent;
      }
      i := i + 1;
    }
    assert sentences[..i] == sentences;
    if |listItems| > 0 {
      var formatted;
      formatted, drawsAfter := FormatList(listItems, o.rng, drawsAfter);
      narrative := narrative + [formatted];
    }
    text := Join(" ", narrative);
  }

  /** The previous context is the last prose sentence so far. */
  function LastProse(sents: seq<string>): string {
    if |sents| == 0 then ""
    else if Classify(sents[|sents| - 1]) == Prose then sents[|sents| - 1]
    else LastProse(sents[..|sents| - 1])
  }

  /** The list sentences after the last prose sentence. */
  function PendingList(sents: seq<string>): seq<string> {
    if |sents| == 0 then []
    else if Classify(sents[|sents| - 1]) == Prose then []
    else
      var s := sents[|sents| - 1];
      PendingList(sents[..|sents| - 1]) + (if Classify(s) == ListItem then [TrimListMarks(s)] else [])
  }

  /** Every formula, picture and prose sentence adds one part; list items wait
      in the buffer, which holds exactly the list sentences since the last
      prose sentence, and the context is the last prose sentence. Each flush
      adds one more part, so there are never more parts than sentences. */
  lemma {:induction false} SlideRunSpec(sents: seq<string>, o: Oracles, draws: nat)
    ensures SlideRun(sents, o, draws).prev == LastProse(sents)
    ensures SlideRun(sents, o, draws).listItems == PendingList(sents)
    ensures |SlideRun(sents, o, draws).narrative| + |SlideRun(sents, o, draws).listItems| <= |sents|
    ensures SlideRun(sents, o, draws).draws >= draws
  {
    if |sents| > 0 {
      var init := sents[..|sents| - 1];
      var s := sents[|sents| - 1];
      SlideRunSpec(init, o, draws);
      var st := SlideRun(init, o, draws);
    }
  }

  /** Without list sentences, every sentence gives exactly one part. */
  lemma {:induction false} SlideRunNoList(sents: seq<string>, o: Oracles, draws: nat)
    requires forall i :: 0 <= i < |sents| ==> Classify(sents[i]) != ListItem
    ensures |SlideRun(sents, o, draws).narrative| == |sents|
    ensures SlideRun(sents, o, draws).listItems == []
  {
    if |sents| > 0 {
      SlideRunNoList(sents[..|sents| - 1], o, draws);
    }
  }

  // ---------------------------------------------------------------------------
  // _process_final_slide

  function FinalHeader(slideNum: nat): string {
    "\n在第 " + NatToString(slideNum) + " 张幻灯片中，我们深入剖析了知识点的细节。"
  }

  /** The part for sentence i: formula and picture sentences by content, the
      others by position (first, last, in between). */
  function FinalPart(sents: seq<string>, i: nat): string
    requires i < |sents|
  {
    var s := sents[i];
    if HasFormulaSymbol(s) then
      "其中一个关键点是公式：" + s + "，它" + (if '∑' in s then "揭示了计算的核心逻辑" else "让模型运行更高效") + "，"
    else if Contains(s, "Image") then
      var content := ImageContent(s);
      "幻灯片上通过图示" + (if content != "" then "展示了" + content else "清晰呈现了相关内容") + "，"
    else if i == 0 then "首先是" + s + "，这为我们理解整体框架奠定了基础，"
    else if i == |sents| - 1 then "最后谈到" + s + "，它不仅总结了前面的内容，也为后续学习提供了启发。"
    else "接着是" + s + "，进一步丰富了我们的视角，"
  }

  function FinalParts(sents: seq<string>, n: nat): (r: seq<string>)
    requires n <= |sents|
    ensures |r| == n
    ensures forall i :: 0 <= i < n ==> r[i] == FinalPart(sents, i)
  {
    seq(n, i requires 0 <= i < n => FinalPart(sents, i))
  }

  /** `s.rstrip('，')` */
  function RStripCommas(s: string): (r: string)
    ensures |r| == 0 || r[|r| - 1] != '，'
  {
    if |s| > 0 && s[|s| - 1] == '，' then RStripCommas(s[..|s| - 1]) else s
  }

  /** `_process_final_slide(slide_lines, None, slide_num)` */
  function ProcessFinalSlideOf(slideLines: seq<string>, slideNum: nat, o: Oracles): string {
    var sents := Sentences(slideLines, o);
    RStripCommas(Join(" ", [FinalHeader(slideNum)] + FinalParts(sents, |sents|))) + "。"
  }

  method ProcessFinalSlide(slideLines: seq<string>, slideNum: nat, o: Oracles) returns (text: string)
    ensures text == ProcessFinalSlideOf(slideLines, slideNum, o)
  {
    var sentences := Sentences(slideLines, o);
    var narrative := [FinalHeader(slideNum)];
    var i := 0;
    while i < |sentences|
      invariant 0 <= i <= |sentences|
      invariant narrative == [FinalHeader(slideNum)] + FinalParts(sentences, i)
    {
      var part := FinalSentence(sentences, i);
      narrative := narrative + [part];
      FinalPartsSnoc(sentences, i);
      i := i + 1;
    }
    text := RStripCommas(Join(" ", narrative)) + "。";
  }

  lemma FinalPartsSnoc(sents: seq<string>, i: nat)
    requires i < |sents|
    ensures FinalParts(sents, i + 1) == FinalParts(sents, i) + [FinalPart(sents, i)]
  {
  }

  /** The loop body of `_process_final_slide` for sentence i. */
  method FinalSentence(sentences: seq<string>, i: nat) returns (part: string)
    requires i < |sentences|
    ensures part == FinalPart(sentences, i)
  {
    var sent := sentences[i];
    if HasFormulaSymbol(sent) {
      var purpose := if '∑' in sent then "揭示了计算的核心逻辑" else "让模型运行更高效";
      part := "其中一个关键点是公式：" + sent + "，它" + purpose + "，";
    } else if Contains(sent, "Image") {
      var content := ImageContent(sent);
      part := "幻灯片上通过图示" + (if content != "" then "展示了" + content else "清晰呈现了相关内容") + "，";
    } else if i == 0 {
      part := "首先是" + sent + "，这为我们理解整体框架奠定了基础，";
    } else if i == |sentences| - 1 {
      part := "最后谈到" + sent + "，它不仅总结了前面的内容，也为后续学习提供了启发。";
    } else {
      part := "接着是" + sent + "，进一步丰富了我们的视角，";
    }
  }

  /** Trailing commas are removed only after `h` when `h` does not end in one. */
  lemma {:induction false} RStripCommasKeeps(h: string, t: string)
    requires |h| > 0 && h[|h| - 1] != '，'
    ensures StartsWith(RStripCommas(h + t), h)
    decreases |t|
  {
    if |t| > 0 && t[|t| - 1] == '，' {
      assert (h + t)[..|h + t| - 1] == h + t[..|t| - 1];
      RStripCommasKeeps(h, t[..|t| - 1]);
    }
  }

  /** The last character is "。" and the one before it, if any, is not '，'.
      (A closing part that already ends in "。" leaves "。。" at the end.) */
  predicate EndsWithPeriod(r: string) {
    |r| > 0 && r[|r| - 1] == '。' && (|r| < 2 || r[|r| - 2] != '，')
  }

  /** The closing paragraph opens with the slide-number header, its last
      character is "。", and the character before that is not '，'. */
  lemma FinalSlideShape(slideLines: seq<string>, slideNum: nat, o: Oracles)
    ensures StartsWith(ProcessFinalSlideOf(slideLines, slideNum, o), FinalHeader(slideNum))
    ensures EndsWithPeriod(ProcessFinalSlideOf(slideLines, slideNum, o))
  {
    var sents := Sentences(slideLines, o);
    var parts := [FinalHeader(slideNum)] + FinalParts(sents, |sents|);
    var h := FinalHeader(slideNum);
    var j := Join(" ", parts);
    JoinStartsWithFirst(" ", parts);
    assert j == h + j[|h|..];
    assert ProcessFinalSlideOf(slideLines, slideNum, o) == RStripCommas(h + j[|h|..]) + "。";
    HeaderThenPeriod(h, j[|h|..]);
  }

  /** Stripping the trailing commas of `h + t` and adding "。" keeps the
      prefix `h` and leaves no '，' before the final "。". */
  lemma HeaderThenPeriod(h: string, t: string)
    requires |h| > 0 && h[|h| - 1] != '，'
    ensures StartsWith(RStripCommas(h + t) + "。", h)
    ensures EndsWithPeriod(RStripCommas(h + t) + "。")
  {
    RStripCommasKeeps(h, t);
    var stripped := RStripCommas(h + t);
    var r := stripped + "。";
    assert r[..|h|] == stripped[..|h|] == h;
  }

  // ---------------------------------------------------------------------------
  // optimize_text_with_ai

  /** One element of `optimized_lines`, tagged with the branch that appended it. */
  datatype Segment =
    | MetaLine(text: string)
    | MetaEnd(phrase: string)
    | SlideBody(text: string)
    | SectionEnd(phrase: string)
    | Intro(phrase: string, number: nat)
    | FinalBody(text: string)
    | Closing(phrase: string)

  /** The string the branch appends. */
  function RenderSegment(seg: Segment): string {
    match seg
    case MetaLine(t) => t
    case MetaEnd(p) => "\n" + p
    case SlideBody(t) => t
    case SectionEnd(p) => "\n" + p
    case Intro(p, n) => "\n" + p + "第 " + NatToString(n) + " 张幻灯片："
    case FinalBody(t) => t
    case Closing(p) => "\n" + p
  }

  /** The loop state of `optimize_text_with_ai`: `optimized_lines`,
      `slide_count`, `current_section == "metadata"`, `slide_buffer` and the
      draw counter. */
  datatype Composer = Composer(out: seq<Segment>, slideCount: nat, inMetadata: bool, buffer: seq<string>, draws: nat)

  const Start: Composer := Composer([], 0, true, [], 0)

  /** A metadata line: re-emitted as "key: value"; a key containing
      "Revision" closes the metadata section with a random phrase. */
  function MetadataStep(st: Composer, line: string, o: Oracles): Composer
    requires ':' in line
  {
    var key := SplitFirst(line, ':').0;
    var withLine := st.out + [MetaLine(MetaLineOf(line))];
    if Contains(key, "Revision") then
      Composer(withLine + [MetaEnd(Choose(MetadataEnds, o.rng, st.draws))], st.slideCount, false, st.buffer, st.draws + 1)
    else st.(out := withLine)
  }

  /** A slide marker: count it, flush the buffer through `_process_slide`,
      close the previous section from the second marker on, and introduce the
      slide by the counter. */
  function MarkerStep(st: Composer, o: Oracles): Composer {
    var appended := MarkerOutput(st.out, st.slideCount + 1, st.buffer, st.draws, o);
    Composer(appended.0, st.slideCount + 1, st.inMetadata, [], appended.1)
  }

  /** What the marker branch appends for the slide numbered `count`, and the
      draw counter after it. */
  function MarkerOutput(out: seq<Segment>, count: nat, buffer: seq<string>, draws: nat, o: Oracles): (seq<Segment>, nat) {
    var flushed := FlushBuffer(out, buffer, draws, o);
    CloseAndIntroduce(flushed.0, count, flushed.1, o)
  }

  /** After the flush: a section-end phrase from the second slide on, then
      the intro of slide `count`. */
  function CloseAndIntroduce(out: seq<Segment>, count: nat, draws: nat, o: Oracles): (seq<Segment>, nat) {
    var ended :=
      if count > 1 then (out + [SectionEnd(Choose(SectionEnds, o.rng, draws))], draws + 1)
      else (out, draws);
    (ended.0 + [Intro(Choose(SlideIntros, o.rng, ended.1), count)], ended.1 + 1)
  }

  /** `_process_slide` on a non-empty buffer, appended as one segment, with
      the draw counter after it. */
  function FlushBuffer(out: seq<Segment>, buffer: seq<string>, draws: nat, o: Oracles): (seq<Segment>, nat) {
    if |buffer| > 0 then
      var processed := ProcessSlideOf(buffer, o, draws);
      (out + [SlideBody(processed.0)], processed.1)
    else (out, draws)
  }

  /** One line of the loop: metadata, marker, or content for the buffer. */
  function Step(st: Composer, line: string, o: Oracles): Composer {
    if st.inMetadata && ':' in line then MetadataStep(st, line, o)
    else if IsSlideMarker(line) then MarkerStep(st, o)
    else
      var cleaned := CleanLine(line);
      if cleaned == "" then st else st.(buffer := st.buffer + [cleaned])
  }

  function Run(lines: seq<string>, o: Oracles): Composer {
    if |lines| == 0 then Start
    else Step(Run(lines[..|lines| - 1], o), lines[|lines| - 1], o)
  }

  /** After the loop: the last buffer through `_process_final_slide`, then
      one closing phrase. */
  function Finish(st: Composer, o: Oracles): seq<Segment> {
    var withFinal :=
      if |st.buffer| > 0 then st.out + [FinalBody(ProcessFinalSlideOf(st.buffer, st.slideCount, o))]
      else st.out;
    withFinal + [Closing(Choose(FinalClosings, o.rng, st.draws))]
  }

  function Segments(text: string, o: Oracles): seq<Segment> {
    Finish(Run(Lines(text), o), o)
  }

  function RenderAll(segs: seq<Segment>): (r: seq<string>)
    ensures |r| == |segs|
    ensures forall i :: 0 <= i < |segs| ==> r[i] == RenderSegment(segs[i])
  {
    seq(|segs|, i requires 0 <= i < |segs| => RenderSegment(segs[i]))
  }

  /** `optimize_text_with_ai(text)`: `"\n".join(optimized_lines)`. */
  function OptimizedText(text: string, o: Oracles): string {
    Join("\n", RenderAll(Segments(text, o)))
  }

  lemma RunSnoc(lines: seq<string>, i: nat, o: Oracles)
    requires i < |lines|
    ensures Run(lines[..i + 1], o) == Step(Run(lines[..i], o), lines[i], o)
  {
    assert lines[..i + 1][..i] == lines[..i];
  }

  method OptimizeTextWithAi(text: string, o: Oracles) returns (optimizedText: string)
    ensures optimizedText == OptimizedText(text, o)
  {
    var lines := Lines(text);
    var optimizedLines, slideCount, inMetadata, slideBuffer, draws := ComposeLines(lines, o);
    optimizedLines := FinishLines(optimizedLines, slideCount, slideBuffer, draws, o);
    optimizedText := Join("\n", RenderAll(optimizedLines));
  }

  /** The loop over the lines. */
  method ComposeLines(lines: seq<string>, o: Oracles)
    returns (optimizedLines: seq<Segment>, slideCount: nat, inMetadata: bool, slideBuffer: seq<string>, draws: nat)
    ensures Composer(optimizedLines, slideCount, inMetadata, slideBuffer, draws) == Run(lines, o)
  {
    optimizedLines, slideCount, inMetadata, slideBuffer, draws := [], 0, true, [], 0;
    var i := 0;
    while i < |lines|
      invariant 0 <= i <= |lines|
      invariant Composer(optimizedLines, slideCount, inMetadata, slideBuffer, draws) == Run(lines[..i], o)
    {
      var line := lines[i];
      RunSnoc(lines, i, o);
      if inMetadata && ':' in line {
        optimizedLines, inMetadata, draws := HandleMetadataLine(optimizedLines, line, draws, o);
      } else if IsSlideMarker(line) {
        optimizedLines, slideCount, slideBuffer, draws := HandleMarker(optimizedLines, slideCount, slideBuffer, draws, o);
      } else {
        var cleanedLine := CleanLine(line);
        if cleanedLine != "" {
          slideBuffer := slideBuffer + [cleanedLine];
        }
      }
      i := i + 1;
    }
    assert lines[..i] == lines;
  }

  /** After the loop: the final slide, then the closing phrase. */
  method FinishLines(out: seq<Segment>, slideCount: nat, slideBuffer: seq<string>, draws: nat, o: Oracles)
    returns (out': seq<Segment>)
    ensures forall inMetadata :: out' == Finish(Composer(out, slideCount, inMetadata, slideBuffer, draws), o)
  {
    out' := out;
    if |slideBuffer| > 0 {
      var finalText := ProcessFinalSlide(slideBuffer, slideCount, o);
      out' := out' + [FinalBody(finalText)];
    }
    out' := out' + [Closing(Choose(FinalClosings, o.rng, draws))];
  }

  /** The metadata branch of the loop (taken while in the metadata section). */
  method HandleMetadataLine(out: seq<Segment>, line: string, draws: nat, o: Oracles)
    returns (out': seq<Segment>, inMetadata': bool, draws': nat)
    requires ':' in line
    ensures forall count, buffer ::
      Composer(out', count, inMetadata', buffer, draws') == MetadataStep(Composer(out, count, true, buffer, draws), line, o)
  {
    var key := SplitFirst(line, ':').0;
    out' := out + [MetaLine(MetaLineOf(line))];
    inMetadata', draws' := true, draws;
    if Contains(key, "Revision") {
      out' := out' + [MetaEnd(Choose(MetadataEnds, o.rng, draws))];
      draws' := draws + 1;
      inMetadata' := false;
    }
  }

  /** The slide-marker branch of the loop. */
  method HandleMarker(out: seq<Segment>, slideCount: nat, slideBuffer: seq<string>, draws: nat, o: Oracles)
    returns (out': seq<Segment>, slideCount': nat, slideBuffer': seq<string>, draws': nat)
    ensures slideCount' == slideCount + 1 && slideBuffer' == []
    ensures (out', draws') == MarkerOutput(out, slideCount + 1, slideBuffer, draws, o)
  {
    slideCount' := slideCount + 1;
    out', draws' := FlushSlideBuffer(out, slideBuffer, draws, o);
    slideBuffer' := [];
    out', draws' := CloseSection(out', slideCount', draws', o);
  }

  /** The section end and the intro the marker branch appends. */
  method CloseSection(out: seq<Segment>, slideCount: nat, draws: nat, o: Oracles)
    returns (out': seq<Segment>, draws': nat)
    ensures (out', draws') == CloseAndIntroduce(out, slideCount, draws, o)
  {
    out', draws' := out, draws;
    if slideCount > 1 {
      out' := out' + [SectionEnd(Choose(SectionEnds, o.rng, draws'))];
      draws' := draws' + 1;
    }
    out' := out' + [Intro(Choose(SlideIntros, o.rng, draws'), slideCount)];
    draws' := draws' + 1;
  }

  /** `if slide_buffer: optimized_lines.append(_process_slide(...))` */
  method FlushSlideBuffer(out: seq<Segment>, slideBuffer: seq<string>, draws: nat, o: Oracles)
    returns (out': seq<Segment>, draws': nat)
    ensures (out', draws') == FlushBuffer(out, slideBuffer, draws, o)
  {
    out', draws' := out, draws;
    if |slideBuffer| > 0 {
      var processed;
      processed, draws' := ProcessSlide(slideBuffer, o, draws);
      out' := out + [SlideBody(processed)];
    }
  }

  // ---------------------------------------------------------------------------
  // The shape of optimized_lines

  function CountIf(segs: seq<Segment>, p: Segment -> bool): nat {
    if |segs| == 0 then 0
    else CountIf(segs[..|segs| - 1], p) + (if p(segs[|segs| - 1]) then 1 else 0)
  }

  lemma {:induction false} CountIfAppend(a: seq<Segment>, b: seq<Segment>, p: Segment -> bool)
    ensures CountIf(a + b, p) == CountIf(a, p) + CountIf(b, p)
    decreases |b|
  {
    if |b| == 0 {
      assert a + b == a;
    } else {
      assert (a + b)[..|a + b| - 1] == a + b[..|b| - 1];
      CountIfAppend(a, b[..|b| - 1], p);
    }
  }

  lemma {:induction false} CountIfZero(segs: seq<Segment>, p: Segment -> bool)
    ensures CountIf(segs, p) == 0 <==> forall i :: 0 <= i < |segs| ==> !p(segs[i])
  {
    if |segs| > 0 {
      CountIfZero(segs[..|segs| - 1], p);
      assert forall i :: 0 <= i < |segs| - 1 ==> segs[..|segs| - 1][i] == segs[i];
    }
  }

  predicate IsMetaEnd(seg: Segment) { seg.MetaEnd? }
  predicate IsSectionEnd(seg: Segment) { seg.SectionEnd? }

  /** The slide numbers of the intros, in order. */
  function IntroNumbers(segs: seq<Segment>): seq<nat> {
    if |segs| == 0 then []
    else IntroNumbers(segs[..|segs| - 1]) + (if segs[|segs| - 1].Intro? then [segs[|segs| - 1].number] else [])
  }

  lemma {:induction false} IntroNumbersAppend(a: seq<Segment>, b: seq<Segment>)
    ensures IntroNumbers(a + b) == IntroNumbers(a) + IntroNumbers(b)
    decreases |b|
  {
    if |b| == 0 {
      assert a + b == a;
    } else {
      assert (a + b)[..|a + b| - 1] == a + b[..|b| - 1];
      IntroNumbersAppend(a, b[..|b| - 1]);
    }
  }

  /** 1, 2, …, n */
  function UpTo(n: nat): (r: seq<nat>)
    ensures |r| == n
    ensures forall i :: 0 <= i < n ==> r[i] == i + 1
  {
    seq(n, i requires 0 <= i < n => i + 1)
  }

  /** What holds of the loop state after every line:
      - no closing phrase and no final paragraph yet;
      - the metadata section is open exactly while no metadata-end phrase
        has been emitted, and at most one is;
      - no metadata line follows a metadata-end phrase;
      - the intros are numbered 1, 2, … up to the slide counter, and there is
        one section-end phrase fewer than intros;
      - every slide paragraph is followed by a section end or an intro, and
        every section end by an intro. */
  predicate Shaped(st: Composer) {
    NotFinished(st.out) && MetadataClosedOnce(st) && Numbered(st) && Adjacent(st.out)
  }

  predicate NotFinished(out: seq<Segment>) {
    forall i :: 0 <= i < |out| ==> !out[i].Closing? && !out[i].FinalBody?
  }

  predicate MetadataClosedOnce(st: Composer) {
    var out := st.out;
    (st.inMetadata <==> CountIf(out, IsMetaEnd) == 0)
    && CountIf(out, IsMetaEnd) <= 1
    && (forall i, j :: 0 <= i < j < |out| && out[i].MetaEnd? ==> !out[j].MetaLine?)
  }

  predicate Numbered(st: Composer) {
    IntroNumbers(st.out) == UpTo(st.slideCount)
    && CountIf(st.out, IsSectionEnd) == (if st.slideCount == 0 then 0 else st.slideCount - 1)
  }

  predicate Adjacent(out: seq<Segment>) {
    (forall i :: 0 <= i < |out| && out[i].SlideBody? ==> i + 1 < |out| && (out[i + 1].SectionEnd? || out[i + 1].Intro?))
    && (forall i :: 0 <= i < |out| && out[i].SectionEnd? ==> i + 1 < |out| && out[i + 1].Intro?)
  }

  lemma MetadataStepShaped(st: Composer, line: string, o: Oracles)
    requires Shaped(st) && st.inMetadata && ':' in line
    ensures Shaped(MetadataStep(st, line, o))
  {
    var meta, ending := MetadataParts(st, line, o);
    var nout := st.out + [meta] + ending;
    MetaAppendNotFinished(st.out, meta, ending);
    MetaAppendAdjacent(st.out, meta, ending);
    MetaAppendCounts(st.out, meta, ending);
    CountIfZero(st.out, IsMetaEnd);
    MetaAppendOrder(st.out, meta, ending);
  }

  /** The metadata branch appends the re-emitted line and, for a "Revision"
      key, the metadata-end phrase, which closes the section. */
  lemma MetadataParts(st: Composer, line: string, o: Oracles) returns (meta: Segment, ending: seq<Segment>)
    requires ':' in line
    ensures MetadataStep(st, line, o).out == st.out + [meta] + ending
    ensures meta.MetaLine? && |ending| <= 1 && (|ending| == 1 ==> ending[0].MetaEnd?)
    ensures MetadataStep(st, line, o).inMetadata == (st.inMetadata && |ending| == 0)
    ensures MetadataStep(st, line, o).slideCount == st.slideCount
  {
    var key := SplitFirst(line, ':').0;
    meta := MetaLine(MetaLineOf(line));
    ending := if Contains(key, "Revision") then [MetaEnd(Choose(MetadataEnds, o.rng, st.draws))] else [];
  }

  lemma MetaAppendNotFinished(out: seq<Segment>, meta: Segment, ending: seq<Segment>)
    requires NotFinished(out)
    requires meta.MetaLine? && |ending| <= 1 && (|ending| == 1 ==> ending[0].MetaEnd?)
    ensures NotFinished(out + [meta] + ending)
  {
    var nout := out + [meta] + ending;
    forall i | |out| <= i < |nout| ensures nout[i].MetaLine? || nout[i].MetaEnd? {
      assert nout[i] in [meta] + ending;
    }
  }

  lemma MetaAppendAdjacent(out: seq<Segment>, meta: Segment, ending: seq<Segment>)
    requires Adjacent(out)
    requires meta.MetaLine? && |ending| <= 1 && (|ending| == 1 ==> ending[0].MetaEnd?)
    ensures Adjacent(out + [meta] + ending)
  {
    var nout := out + [meta] + ending;
    forall i | |out| <= i < |nout| ensures nout[i].MetaLine? || nout[i].MetaEnd? {
      assert nout[i] in [meta] + ending;
    }
  }

  lemma MetaAppendCounts(out: seq<Segment>, meta: Segment, ending: seq<Segment>)
    requires meta.MetaLine? && |ending| <= 1 && (|ending| == 1 ==> ending[0].MetaEnd?)
    ensures IntroNumbers(out + [meta] + ending) == IntroNumbers(out)
    ensures CountIf(out + [meta] + ending, IsSectionEnd) == CountIf(out, IsSectionEnd)
    ensures CountIf(out + [meta] + ending, IsMetaEnd) == CountIf(out, IsMetaEnd) + |ending|
  {
    CountMaybeSnoc(out, [meta], IsMetaEnd);
    CountMaybeSnoc(out + [meta], ending, IsMetaEnd);
    CountMaybeSnoc(out, [meta], IsSectionEnd);
    CountMaybeSnoc(out + [meta], ending, IsSectionEnd);
    IntroNumbersMaybeSnoc(out, [meta]);
    IntroNumbersMaybeSnoc(out + [meta], ending);
  }

  /** With no metadata end yet, the only one is the last segment. */
  lemma MetaAppendOrder(out: seq<Segment>, meta: Segment, ending: seq<Segment>)
    requires forall i :: 0 <= i < |out| ==> !out[i].MetaEnd?
    requires meta.MetaLine? && |ending| <= 1 && (|ending| == 1 ==> ending[0].MetaEnd?)
    ensures forall i, j :: 0 <= i < j < |out + [meta] + ending| && (out + [meta] + ending)[i].MetaEnd? ==> !(out + [meta] + ending)[j].MetaLine?
  {
    var nout := out + [meta] + ending;
    forall i | 0 <= i < |nout| - 1 ensures !nout[i].MetaEnd? {
      if i >= |out| {
        assert nout[i] == meta;
      }
    }
  }

  lemma MarkerStepShaped(st: Composer, o: Oracles)
    requires Shaped(st)
    ensures Shaped(MarkerStep(st, o))
  {
    var body, ending, intro := MarkerOutputParts(st.out, st.slideCount + 1, st.buffer, st.draws, o);
    MarkerSegmentsShaped(st, body, ending, intro, MarkerOutput(st.out, st.slideCount + 1, st.buffer, st.draws, o).1);
  }

  /** The marker branch appends an optional slide paragraph, a section end
      from the second slide on, and the intro of slide `count`. */
  lemma MarkerOutputParts(out: seq<Segment>, count: nat, buffer: seq<string>, draws: nat, o: Oracles)
    returns (body: seq<Segment>, ending: seq<Segment>, intro: Segment)
    ensures MarkerOutput(out, count, buffer, draws, o).0 == out + body + ending + [intro]
    ensures |body| <= 1 && (|body| == 1 ==> body[0].SlideBody?)
    ensures |ending| == (if count > 1 then 1 else 0) && (|ending| == 1 ==> ending[0].SectionEnd?)
    ensures intro.Intro? && intro.number == count
  {
    var flushed := FlushBuffer(out, buffer, draws, o);
    FlushBufferAppends(out, buffer, draws, o);
    body := flushed.0[|out|..];
    assert flushed.0 == out + body;
    ending, intro := CloseAndIntroduceParts(flushed.0, count, flushed.1, o);
  }

  lemma CloseAndIntroduceParts(out: seq<Segment>, count: nat, draws: nat, o: Oracles)
    returns (ending: seq<Segment>, intro: Segment)
    ensures CloseAndIntroduce(out, count, draws, o).0 == out + ending + [intro]
    ensures |ending| == (if count > 1 then 1 else 0) && (|ending| == 1 ==> ending[0].SectionEnd?)
    ensures intro.Intro? && intro.number == count
  {
    ending := if count > 1 then [SectionEnd(Choose(SectionEnds, o.rng, draws))] else [];
    intro := Intro(Choose(SlideIntros, o.rng, if count > 1 then draws + 1 else draws), count);
  }

  /** Flushing appends at most one segment, a slide paragraph. */
  lemma FlushBufferAppends(out: seq<Segment>, buffer: seq<string>, draws: nat, o: Oracles)
    ensures var f := FlushBuffer(out, buffer, draws, o);
      |out| <= |f.0| <= |out| + 1 && f.0[..|out|] == out
      && (|f.0| == |out| + 1 ==> f.0[|out|].SlideBody?)
  {
  }

  /** Appending an optional slide paragraph, a section end from the second
      slide on, and the intro of the next slide keeps the shape. */
  lemma MarkerSegmentsShaped(st: Composer, body: seq<Segment>, ending: seq<Segment>, intro: Segment, draws: nat)
    requires Shaped(st)
    requires |body| <= 1 && (|body| == 1 ==> body[0].SlideBody?)
    requires |ending| == (if st.slideCount > 0 then 1 else 0) && (|ending| == 1 ==> ending[0].SectionEnd?)
    requires intro.Intro? && intro.number == st.slideCount + 1
    ensures Shaped(Composer(st.out + body + ending + [intro], st.slideCount + 1, st.inMetadata, [], draws))
  {
    MarkerCounts(st, body, ending, intro, draws);
    MarkerAdjacent(st.out, body, ending, intro);
    MarkerAppendKinds(st.out, body, ending, intro);
    MarkerAppendOrder(st.out, st.out + body + ending + [intro]);
  }

  /** Everything the marker branch appends is a slide paragraph, a section
      end or an intro. */
  lemma MarkerAppendKinds(out: seq<Segment>, body: seq<Segment>, ending: seq<Segment>, intro: Segment)
    requires |body| <= 1 && (|body| == 1 ==> body[0].SlideBody?)
    requires |ending| <= 1 && (|ending| == 1 ==> ending[0].SectionEnd?)
    requires intro.Intro?
    ensures NotFinished(out) ==> NotFinished(out + body + ending + [intro])
    ensures forall i :: |out| <= i < |out + body + ending + [intro]| ==> !(out + body + ending + [intro])[i].MetaLine?
  {
    var nout := out + body + ending + [intro];
    forall i | |out| <= i < |nout| ensures nout[i].SlideBody? || nout[i].SectionEnd? || nout[i].Intro? {
      assert nout[i] in body + ending + [intro];
    }
  }

  /** Appending no metadata line keeps them all before the metadata end. */
  lemma MarkerAppendOrder(out: seq<Segment>, nout: seq<Segment>)
    requires |out| <= |nout| && nout[..|out|] == out
    requires forall i, j :: 0 <= i < j < |out| && out[i].MetaEnd? ==> !out[j].MetaLine?
    requires forall i :: |out| <= i < |nout| ==> !nout[i].MetaLine?
    ensures forall i, j :: 0 <= i < j < |nout| && nout[i].MetaEnd? ==> !nout[j].MetaLine?
  {
    forall i, j | 0 <= i < j < |nout| && nout[i].MetaEnd? ensures !nout[j].MetaLine? {
      if j < |out| {
        assert out[i] == nout[i] && out[j] == nout[j];
      }
    }
  }

  /** Appending at most one segment. */
  lemma CountMaybeSnoc(segs: seq<Segment>, extra: seq<Segment>, p: Segment -> bool)
    requires |extra| <= 1
    ensures CountIf(segs + extra, p) == CountIf(segs, p) + (if |extra| == 1 && p(extra[0]) then 1 else 0)
  {
    if |extra| == 1 {
      assert (segs + extra)[..|segs|] == segs;
    } else {
      assert segs + extra == segs;
    }
  }

  lemma IntroNumbersMaybeSnoc(segs: seq<Segment>, extra: seq<Segment>)
    requires |extra| <= 1
    ensures IntroNumbers(segs + extra) == IntroNumbers(segs) + (if |extra| == 1 && extra[0].Intro? then [extra[0].number] else [])
  {
    if |extra| == 1 {
      assert (segs + extra)[..|segs|] == segs;
    } else {
      assert segs + extra == segs;
    }
  }

  lemma MarkerCounts(st: Composer, body: seq<Segment>, ending: seq<Segment>, intro: Segment, draws: nat)
    requires Numbered(st)
    requires |body| <= 1 && (|body| == 1 ==> body[0].SlideBody?)
    requires |ending| == (if st.slideCount > 0 then 1 else 0) && (|ending| == 1 ==> ending[0].SectionEnd?)
    requires intro.Intro? && intro.number == st.slideCount + 1
    ensures Numbered(Composer(st.out + body + ending + [intro], st.slideCount + 1, st.inMetadata, [], draws))
    ensures CountIf(st.out + body + ending + [intro], IsMetaEnd) == CountIf(st.out, IsMetaEnd)
  {
    var nout := st.out + body + ending + [intro];
    MarkerIntroNumbers(st.out, body, ending, intro);
    UpToSnoc(st.slideCount);
    assert IntroNumbers(nout) == UpTo(st.slideCount + 1);
    MarkerEnds(st.out, body, ending, intro);
    assert CountIf(nout, IsSectionEnd) == st.slideCount;
  }

  lemma UpToSnoc(n: nat)
    ensures UpTo(n) + [n + 1] == UpTo(n + 1)
  {
  }

  /** The marker branch adds `|ending|` section ends and no metadata end. */
  lemma MarkerEnds(out: seq<Segment>, body: seq<Segment>, ending: seq<Segment>, intro: Segment)
    requires |body| <= 1 && (|body| == 1 ==> body[0].SlideBody?)
    requires |ending| <= 1 && (|ending| == 1 ==> ending[0].SectionEnd?)
    requires intro.Intro?
    ensures CountIf(out + body + ending + [intro], IsSectionEnd) == CountIf(out, IsSectionEnd) + |ending|
    ensures CountIf(out + body + ending + [intro], IsMetaEnd) == CountIf(out, IsMetaEnd)
  {
    MarkerCount(out, body, ending, intro, IsSectionEnd);
    MarkerCount(out, body, ending, intro, IsMetaEnd);
  }

  lemma MarkerIntroNumbers(out: seq<Segment>, body: seq<Segment>, ending: seq<Segment>, intro: Segment)
    requires |body| <= 1 && (|body| == 1 ==> body[0].SlideBody?)
    requires |ending| <= 1 && (|ending| == 1 ==> ending[0].SectionEnd?)
    requires intro.Intro?
    ensures IntroNumbers(out + body + ending + [intro]) == IntroNumbers(out) + [intro.number]
  {
    IntroNumbersMaybeSnoc(out, body);
    IntroNumbersMaybeSnoc(out + body, ending);
    IntroNumbersMaybeSnoc(out + body + ending, [intro]);
  }

  lemma MarkerCount(out: seq<Segment>, body: seq<Segment>, ending: seq<Segment>, intro: Segment, p: Segment -> bool)
    requires |body| <= 1 && |ending| <= 1
    ensures CountIf(out + body + ending + [intro], p) ==
      CountIf(out, p) + (if |body| == 1 && p(body[0]) then 1 else 0)
      + (if |ending| == 1 && p(ending[0]) then 1 else 0) + (if p(intro) then 1 else 0)
  {
    CountMaybeSnoc(out, body, p);
    CountMaybeSnoc(out + body, ending, p);
    CountMaybeSnoc(out + body + ending, [intro], p);
  }

  lemma MarkerAdjacent(out: seq<Segment>, body: seq<Segment>, ending: seq<Segment>, intro: Segment)
    requires Adjacent(out)
    requires |body| <= 1 && (|body| == 1 ==> body[0].SlideBody?)
    requires |ending| <= 1 && (|ending| == 1 ==> ending[0].SectionEnd?)
    requires intro.Intro?
    ensures Adjacent(out + body + ending + [intro])
  {
    var nout := out + body + ending + [intro];
    assert nout[|nout| - 1] == intro;
    forall i | 0 <= i < |nout| && nout[i].SlideBody?
      ensures i + 1 < |nout| && (nout[i + 1].SectionEnd? || nout[i + 1].Intro?)
    {
      if i >= |out| {
        assert i == |out| && nout[i + 1] == (ending + [intro])[0];
      }
    }
    forall i | 0 <= i < |nout| && nout[i].SectionEnd?
      ensures i + 1 < |nout| && nout[i + 1].Intro?
    {
      if i >= |out| {
        assert i == |out| + |body| && i + 1 == |nout| - 1;
      }
    }
  }

  lemma StepShaped(st: Composer, line: string, o: Oracles)
    requires Shaped(st)
    ensures Shaped(Step(st, line, o))
  {
    if st.inMetadata && ':' in line {
      MetadataStepShaped(st, line, o);
    } else if IsSlideMarker(line) {
      MarkerStepShaped(st, o);
    }
  }

  lemma {:induction false} RunShaped(lines: seq<string>, o: Oracles)
    ensures Shaped(Run(lines, o))
  {
    if |lines| == 0 {
      assert UpTo(0) == [];
    } else {
      RunShaped(lines[..|lines| - 1], o);
      StepShaped(Run(lines[..|lines| - 1], o), lines[|lines| - 1], o);
    }
  }

  /** The shape of the finished `optimized_lines`, `slides` being the final
      slide counter:
      - it ends with the one closing phrase, and nothing else is one;
      - a final-slide paragraph can only sit right before the closing phrase;
      - at most one metadata-end phrase, and no metadata line after it;
      - the intros are numbered 1, 2, …, `slides`, with one section-end
        phrase fewer;
      - every slide paragraph is followed by a section end or an intro, and
        every section end by an intro. */
  predicate Complete(segs: seq<Segment>, slides: nat) {
    |segs| > 0 && segs[|segs| - 1].Closing?
    && (forall i :: 0 <= i < |segs| - 1 ==> !segs[i].Closing?)
    && (forall i :: 0 <= i < |segs| && segs[i].FinalBody? ==> i == |segs| - 2)
    && CountIf(segs, IsMetaEnd) <= 1
    && (forall i, j :: 0 <= i < j < |segs| && segs[i].MetaEnd? ==> !segs[j].MetaLine?)
    && IntroNumbers(segs) == UpTo(slides)
    && CountIf(segs, IsSectionEnd) == (if slides == 0 then 0 else slides - 1)
    && Adjacent(segs[..|segs| - 1])
  }

  lemma FinishComplete(st: Composer, o: Oracles)
    requires Shaped(st)
    ensures Complete(Finish(st, o), st.slideCount)
  {
    var body, closing := FinishParts(st, o);
    FinishAppendCounts(st.out, body, closing);
    FinishAppendKinds(st.out, body, closing);
    MarkerAppendOrder(st.out, st.out + body + [closing]);
    assert (st.out + body + [closing])[..|st.out + body + [closing]| - 1] == st.out + body;
    FinishAppendAdjacent(st.out, body);
  }

  /** After the loop come an optional final-slide paragraph and the closing
      phrase. */
  lemma FinishParts(st: Composer, o: Oracles) returns (body: seq<Segment>, closing: Segment)
    ensures Finish(st, o) == st.out + body + [closing]
    ensures |body| <= 1 && (|body| == 1 ==> body[0].FinalBody?) && closing.Closing?
    ensures closing == Closing(Choose(FinalClosings, o.rng, st.draws))
  {
    body := if |st.buffer| > 0 then [FinalBody(ProcessFinalSlideOf(st.buffer, st.slideCount, o))] else [];
    closing := Closing(Choose(FinalClosings, o.rng, st.draws));
  }

  lemma FinishAppendCounts(out: seq<Segment>, body: seq<Segment>, closing: Segment)
    requires |body| <= 1 && (|body| == 1 ==> body[0].FinalBody?) && closing.Closing?
    ensures IntroNumbers(out + body + [closing]) == IntroNumbers(out)
    ensures CountIf(out + body + [closing], IsSectionEnd) == CountIf(out, IsSectionEnd)
    ensures CountIf(out + body + [closing], IsMetaEnd) == CountIf(out, IsMetaEnd)
  {
    IntroNumbersMaybeSnoc(out, body);
    IntroNumbersMaybeSnoc(out + body, [closing]);
    assert out + body + [closing] == out + [] + body + [closing];
    MarkerCount(out, [], body, closing, IsSectionEnd);
    MarkerCount(out, [], body, closing, IsMetaEnd);
  }

  lemma FinishAppendKinds(out: seq<Segment>, body: seq<Segment>, closing: Segment)
    requires NotFinished(out)
    requires |body| <= 1 && (|body| == 1 ==> body[0].FinalBody?) && closing.Closing?
    ensures var segs := out + body + [closing];
      segs[|segs| - 1].Closing?
      && (forall i :: 0 <= i < |segs| - 1 ==> !segs[i].Closing?)
      && (forall i :: 0 <= i < |segs| && segs[i].FinalBody? ==> i == |segs| - 2)
      && (forall i :: |out| <= i < |segs| ==> !segs[i].MetaLine?)
  {
    var segs := out + body + [closing];
    forall i | |out| <= i < |segs| ensures segs[i].FinalBody? || segs[i].Closing? {
      assert segs[i] in body + [closing];
    }
  }

  lemma FinishAppendAdjacent(out: seq<Segment>, body: seq<Segment>)
    requires Adjacent(out)
    requires |body| <= 1 && (|body| == 1 ==> body[0].FinalBody?)
    ensures Adjacent(out + body)
  {
    var front := out + body;
    forall i | 0 <= i < |front| && front[i].SlideBody?
      ensures i + 1 < |front| && (front[i + 1].SectionEnd? || front[i + 1].Intro?)
    {
      assert i < |out|;
    }
    forall i | 0 <= i < |front| && front[i].SectionEnd?
      ensures i + 1 < |front| && front[i + 1].Intro?
    {
      assert i < |out|;
    }
  }

  /** Whatever the oracles do, the composed output has the shape above, with
      as many intros as the slide counter counted markers. */
  lemma SegmentsComplete(text: string, o: Oracles)
    ensures Complete(Segments(text, o), Run(Lines(text), o).slideCount)
  {
    RunShaped(Lines(text), o);
    FinishComplete(Run(Lines(text), o), o);
  }

  /** The optimised text ends with a newline and one of the closing phrases. */
  lemma OptimizedTextEnds(text: string, o: Oracles)
    ensures EndsWith(OptimizedText(text, o), "\n" + Choose(FinalClosings, o.rng, Run(Lines(text), o).draws))
  {
    var body, closing := FinishParts(Run(Lines(text), o), o);
    RenderedEnds(Segments(text, o));
  }

  /** Joined with newlines, a segment list ends with its last segment. */
  lemma RenderedEnds(segs: seq<Segment>)
    requires |segs| > 0
    ensures EndsWith(Join("\n", RenderAll(segs)), RenderSegment(segs[|segs| - 1]))
  {
    JoinEndsWithLast("\n", RenderAll(segs));
  }
}
