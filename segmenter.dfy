/**
 * The text segmenter: it cuts one item into speakable fragments separated by
 * pause items, and merges neighbouring items of the same voice. Two versions
 * are modelled side by side: the current `TTS_Processor`
 * (src/tts_arranger/tts_processor.py) and the older `TTS_Arranger` snapshot
 * (tts_arranger.py). They share the splitting passes and differ in the
 * lower bound of `_get_character`, in the trailing-punctuation rule, in the
 * merge separator, in the pause bypass and in the order of merging and
 * preparing.
 *
 * Every pass is a spec function defined by recursion on the LAST element it
 * consumes, and a method with the source's loop proved equal to it.
 */
module Segmenter {
  import opened Text
  import opened Scan
  import opened Items

  datatype Variant = Processor | Arranger

  // Pause lengths in milliseconds; both versions use the same values.
  const PauseSentence: int := 750
  const PauseQuestionExclamation: int := 1000
  const PauseParentheses: int := 300
  const PauseDash: int := 300
  const PauseNewline: int := 250
  const PauseColon: int := 100

  const VctkModel: string := "tts_models/en/vctk/vits"
  const ThorstenModel: string := "tts_models/de/thorsten/tacotron2-DDC"

  /**
   * What the segmenter is configured with. `replace` stands for the regex
   * replace table (loaded from CSV files) and `tweak` for the German number
   * rewriting applied for the Thorsten model; both are opaque here.
   */
  datatype Config = Config(variant: Variant, model: string, replace: string -> string, tweak: string -> string)

  /** Two items speak with the same voice: same speaker name and speaker index. */
  predicate SameVoice(a: Item, b: Item) { a.speaker == b.speaker && a.speakerIdx == b.speakerIdx }

  /** The voice every item built by `TTS_Item(length=ms)` has. */
  predicate PauseVoice(x: Item) { x.speaker == "" && x.speakerIdx == PauseMarker }

  /** No two neighbours in `xs` speak with the same voice. */
  predicate Separated(xs: seq<Item>) {
    forall j, k :: 0 <= j < |xs| && 0 <= k < |xs| && k == j + 1 ==> !SameVoice(xs[j], xs[k])
  }

  /** `x` speaks as (sp, idx) or is pause-voiced. */
  predicate Speaks(x: Item, sp: string, idx: int) { (x.speaker == sp && x.speakerIdx == idx) || PauseVoice(x) }

  /** Every item of `xs` speaks as (sp, idx) or is pause-voiced. */
  predicate VoicedAs(xs: seq<Item>, sp: string, idx: int) {
    forall k :: 0 <= k < |xs| ==> Speaks(xs[k], sp, idx)
  }

  /** A pause item, but only when its length is positive (the `if pause_ms > 0` guards). */
  function PauseIfPositive(ms: int): (r: seq<Item>)
    ensures |r| <= 1
    ensures |r| == 1 <==> ms > 0
    ensures forall k :: 0 <= k < |r| ==> IsPause(r[k]) && PauseVoice(r[k]) && r[k].length == ms
  {
    if ms > 0 then [Pause(ms)] else []
  }

  // ---------------------------------------------------------------------
  // Character filter

  /** `''.join(filter(lambda ch: ord(ch) < 0x3000, text))`: drops CJK and wider characters. */
  function DropWide(s: string): (r: string)
    ensures |r| <= |s|
    ensures forall k :: 0 <= k < |r| ==> r[k] < '\U{3000}'
    ensures forall k :: 0 <= k < |s| && s[k] < '\U{3000}' ==> s[k] in r
    ensures (forall k :: 0 <= k < |s| ==> s[k] < '\U{3000}') ==> r == s
    decreases |s|
  {
    if |s| == 0 then ""
    else
      var front := DropWide(s[..|s| - 1]);
      assert s == s[..|s| - 1] + [s[|s| - 1]];
      front + (if s[|s| - 1] < '\U{3000}' then [s[|s| - 1]] else "")
  }

  // ---------------------------------------------------------------------
  // _break_single

  /** The fragments `_break_single` has emitted for one item, and its `last_start`. */
  datatype Cut = Cut(out: seq<Item>, lastStart: nat)

  /**
   * The loop over the matches `ms` of one item: each non-empty text between a
   * match's start and its delimiter becomes an item with the source's voice
   * and length, followed by a pause of `pausePost` when that is positive; an
   * empty one is skipped and does not move `last_start`.
   */
  function CutThrough(it: Item, ms: seq<Match>, pausePost: int): (c: Cut)
    ensures forall k :: 0 <= k < |c.out| ==>
      (SameVoice(c.out[k], it) && c.out[k].length == it.length && c.out[k].text != "")
      || (c.out[k] == Pause(pausePost) && pausePost > 0)
    decreases |ms|
  {
    if |ms| == 0 then Cut([], 0)
    else
      var c := CutThrough(it, ms[..|ms| - 1], pausePost);
      var m := ms[|ms| - 1];
      var piece := Slice(it.text, m.start, m.groupEnd);
      if piece == "" then c
      else Cut(c.out + [NewItem(piece, it.speaker, it.speakerIdx, it.length)] + PauseIfPositive(pausePost), m.end)
  }

  /**
   * `_break_single` on one item with `keep=False`: a pause passes through, then
   * come the fragments, then the stripped rest after the last emitted fragment
   * (with no pause after it).
   */
  function BreakSingleItem(it: Item, d: Delim, pausePost: int): (r: seq<Item>)
    ensures forall k :: 0 <= k < |r| ==>
      r[k] == it || (r[k] == Pause(pausePost) && pausePost > 0)
      || (SameVoice(r[k], it) && r[k].length == it.length && r[k].text != "")
  {
    var c := CutThrough(it, Matches(it.text, d), pausePost);
    var rest := Strip(Slice(it.text, c.lastStart, |it.text|));
    (if IsPause(it) then [it] else []) + c.out
    + (if rest != "" then [NewItem(rest, it.speaker, it.speakerIdx, it.length)] else [])
  }

  function BreakSingle(items: seq<Item>, d: Delim, pausePost: int): seq<Item>
    decreases |items|
  {
    if |items| == 0 then []
    else BreakSingle(items[..|items| - 1], d, pausePost) + BreakSingleItem(items[|items| - 1], d, pausePost)
  }

  // ---------------------------------------------------------------------
  // _break_items

  /** The `start_end` pair of `_break_items`. */
  datatype Bracket = Bracket(open: string, close: string)

  /** What `_break_items` carries while it walks one item's characters. */
  datatype Walk = Walk(out: seq<Item>, isOpen: bool, pos: nat, found: bool)

  /** The lowest position `_get_character` reads: 0 now, 1 in the older snapshot. */
  function Lowest(v: Variant): nat { if v == Processor then 0 else 1 }

  /** A one-character string `[c]` equals `s`: `s` is that single character. */
  predicate IsChar(s: string, c: char) { |s| == 1 && s[0] == c }

  /** `c in '.,;:'` */
  predicate IsClausePunct(c: char) { c == '.' || c == ',' || c == ';' || c == ':' }

  /** The neighbour at `pos` is missing, ASCII punctuation or a blank. */
  predicate Boundary(v: Variant, t: string, pos: int) { InPunctOrBlank(CharAt(t, pos, Lowest(v))) }

  /** A recognised delimiter: emit `prefix`, then the text since `pos` if any; resume after idx. */
  function Emit(w: Walk, prefix: seq<Item>, piece: Item, idx: nat, isOpen: bool): Walk
  {
    Walk(w.out + prefix + (if piece.text != "" then [piece] else []), isOpen, idx + 1, true)
  }

  /** A '.', ',', ';' or ':' right at the resume point is glued to the last output item. */
  function Attach(w: Walk, c: char, idx: nat, width: nat): Walk
  {
    if w.pos == idx && |w.out| > 0 then
      var last := w.out[|w.out| - 1];
      Walk(w.out[..|w.out| - 1] + [last.(text := last.text + [c])], w.isOpen, w.pos + width, w.found)
    else w
  }

  /**
   * One iteration of the character loop of `_break_items`, at index idx: the
   * candidate piece is the stripped text from `pos` up to idx.
   */
  function WalkStep(v: Variant, it: Item, b: Bracket, pausePre: int, w: Walk, idx: nat): Walk
    requires idx < |it.text|
  {
    StepWith(v, it.text, b, pausePre, w, idx, it.(text := Strip(Slice(it.text, w.pos, idx))))
  }

  /** What the character at idx of `t` does, given the candidate piece. */
  function StepWith(v: Variant, t: string, b: Bracket, pausePre: int, w: Walk, idx: nat, piece: Item): Walk
    requires idx < |t|
  {
    var c := t[idx];
    if b.open == b.close then
      if IsChar(b.open, c) then
        if !w.isOpen then (if Boundary(v, t, idx - 1) then Emit(w, [], piece, idx, true) else w)
        else (if Boundary(v, t, idx + 1) then Emit(w, [], piece, idx, false) else w)
      else if IsClausePunct(c) then Attach(w, c, idx, |b.open|)
      else w
    else if IsChar(b.open, c) then
      if Boundary(v, t, idx - 1) then Emit(w, [], piece, idx, w.isOpen) else w
    else if IsChar(b.close, c) then
      if Boundary(v, t, idx + 1) then Emit(w, PauseIfPositive(pausePre), piece, idx, w.isOpen) else w
    else if IsClausePunct(c) then Attach(w, c, idx, |b.open|)
    else w
  }

  /** The character loop after its first n iterations. */
  function WalkChars(v: Variant, it: Item, b: Bracket, pausePre: int, w0: Walk, n: nat): Walk
    requires n <= |it.text|
    decreases n
  {
    if n == 0 then w0 else WalkStep(v, it, b, pausePre, WalkChars(v, it, b, pausePre, w0, n - 1), n - 1)
  }

  /** The output so far and the `isOpen` flag, which persists from item to item. */
  datatype Pass = Pass(out: seq<Item>, isOpen: bool)

  /**
   * `_break_items` on one item: a pause passes through, the characters are
   * walked, a pause of `pausePost` follows if any delimiter was recognised,
   * then comes the stripped rest. The rest takes the `current_speaker` fields,
   * which the character loop has set to this item's own whenever the text is
   * non-empty, and only then can the rest be non-empty.
   */
  function BreakItem(v: Variant, it: Item, b: Bracket, pausePre: int, pausePost: int, p: Pass): Pass
  {
    var start := if IsPause(it) then p.out + [it] else p.out;
    var w := WalkChars(v, it, b, pausePre, Walk(start, p.isOpen, 0, false), |it.text|);
    var out := if w.found then w.out + PauseIfPositive(pausePost) else w.out;
    var rest := Strip(Slice(it.text, w.pos, |it.text|));
    Pass(out + (if rest != "" then [it.(text := rest)] else []), w.isOpen)
  }

  function BreakItemsFrom(v: Variant, items: seq<Item>, b: Bracket, pausePre: int, pausePost: int): Pass
    decreases |items|
  {
    if |items| == 0 then Pass([], false)
    else BreakItem(v, items[|items| - 1], b, pausePre, pausePost, BreakItemsFrom(v, items[..|items| - 1], b, pausePre, pausePost))
  }

  function BreakItems(v: Variant, items: seq<Item>, b: Bracket, pausePre: int, pausePost: int): seq<Item>
  {
    BreakItemsFrom(v, items, b, pausePre, pausePost).out
  }

  // ---------------------------------------------------------------------
  // The final pass of _prepare_item

  /** `[–—]` becomes '-', `[„“”]` becomes '"', `[‘’]` becomes an apostrophe. */
  function NormalChar(c: char): char
  {
    if c == '\U{2013}' || c == '\U{2014}' then '-'
    else if c == '\U{201e}' || c == '\U{201c}' || c == '\U{201d}' then '"'
    else if c == '\U{2018}' || c == '\U{2019}' then '\''
    else c
  }

  function Normalise(s: string): (r: string)
    ensures |r| == |s|
    ensures forall k :: 0 <= k < |s| ==> r[k] == NormalChar(s[k])
  {
    seq(|s|, k requires 0 <= k < |s| => NormalChar(s[k]))
  }

  /**
   * `_minimize_tailing_punctuation` of the older snapshot: a trailing run of
   * ASCII punctuation and blanks is cut back to its first character, and a
   * text made only of such characters is left alone.
   */
  function MinimizeTrailing(s: string): (r: string)
    ensures |r| <= |s| && r == s[..|r|]
    ensures forall k :: |r| <= k < |s| ==> IsPunctOrBlank(s[k])
    ensures |s| > 0 && !IsPunctOrBlank(s[|s| - 1]) ==> r == s
    ensures (forall k :: 0 <= k < |s| ==> IsPunctOrBlank(s[k])) ==> r == s
    ensures |r| < |s| ==> |r| >= 2 && IsPunctOrBlank(r[|r| - 1]) && !IsPunctOrBlank(r[|r| - 2])
  {
    var n := KeepCount(s, IsPunctOrBlank);
    if n == 0 || n == |s| then s else s[..n + 1]
  }

  /**
   * The text a fragment is reduced to: normalised, trailing punctuation
   * trimmed (all of it now, all but the first character in the older
   * snapshot), stripped, leading punctuation dropped, stripped again, and
   * given a full stop after a final letter or digit unless the model is the
   * default VCTK one.
   */
  function Polish(v: Variant, model: string, s: string): (r: string)
    ensures |r| > 0 ==> !IsSpace(r[0]) && !IsSpace(r[|r| - 1])
    ensures model != VctkModel && |r| > 0 ==> !IsAsciiAlnum(r[|r| - 1])
  {
    AddStop(model != VctkModel, Core(Trim(v, Normalise(s))))
  }

  /** The trailing-punctuation rule: `rstrip(string.punctuation + ' ')` now, minimisation before. */
  function Trim(v: Variant, s: string): (r: string)
    ensures |r| <= |s|
  {
    if v == Processor then RStrip(s, IsPunctOrBlank) else MinimizeTrailing(s)
  }

  /** `text.strip().lstrip(string.punctuation).strip()`. */
  function Core(s: string): (r: string)
    ensures |r| > 0 ==> !IsSpace(r[0]) && !IsSpace(r[|r| - 1])
  {
    Strip(LStrip(Strip(s), IsPunct))
  }

  /** `re.sub(r'([a-zA-Z0-9])$', r'\1.', text)` when `enabled`. */
  function AddStop(enabled: bool, s: string): (r: string)
    requires |s| > 0 ==> !IsSpace(s[0]) && !IsSpace(s[|s| - 1])
    ensures |r| > 0 ==> !IsSpace(r[0]) && !IsSpace(r[|r| - 1])
    ensures enabled && |r| > 0 ==> !IsAsciiAlnum(r[|r| - 1])
    ensures !enabled ==> r == s
  {
    if enabled && |s| > 0 && IsAsciiAlnum(s[|s| - 1]) then s + "." else s
  }

  /** The pause that follows a kept fragment, decided by its last character. */
  function SentencePause(text: string): (r: seq<Item>)
    ensures |r| <= 1
    ensures |r| == 1 <==> |text| > 0 && text[|text| - 1] in ".:!?"
    ensures |r| == 1 && text[|text| - 1] in ".:" ==> r[0] == Pause(PauseSentence)
    ensures |r| == 1 && text[|text| - 1] in "!?" ==> r[0] == Pause(PauseQuestionExclamation)
  {
    if |text| > 0 && text[|text| - 1] in ".:" then [Pause(PauseSentence)]
    else if |text| > 0 && text[|text| - 1] in "!?" then [Pause(PauseQuestionExclamation)]
    else []
  }

  /** A polished fragment is kept only if it holds a letter or digit; its sentence pause follows. */
  function Kept(it: Item, text: string): (r: seq<Item>)
    ensures forall k :: 0 <= k < |r| ==> PauseVoice(r[k]) || (SameVoice(r[k], it) && r[k].length == it.length)
    ensures forall k :: 0 <= k < |r| && r[k].text != "" ==> HasAsciiAlnum(r[k].text) && r[k].text == text
  {
    if |text| > 0 && HasAsciiAlnum(text) then [it.(text := text)] + SentencePause(text) else []
  }

  /** The final loop on one item: a pause is kept, and so is its polished text if it qualifies. */
  function FinishItem(v: Variant, model: string, it: Item): seq<Item>
  {
    FinishWith(it, Polish(v, model, it.text))
  }

  /** The final loop on one item whose text polishes to `text`. */
  function FinishWith(it: Item, text: string): seq<Item>
  {
    (if IsPause(it) then [it] else []) + Kept(it, text)
  }

  function Finish(v: Variant, model: string, items: seq<Item>): seq<Item>
    decreases |items|
  {
    if |items| == 0 then []
    else Finish(v, model, items[..|items| - 1]) + FinishItem(v, model, items[|items| - 1])
  }

  // ---------------------------------------------------------------------
  // _prepare_item

  const Parentheses: Bracket := Bracket("(", ")")
  const EmDashes: Bracket := Bracket("\U{2014}", "\U{2014}")
  const SpacedEnDashes: Bracket := Bracket("\U{2013} ", " \U{2013}")
  const Asterisks: Bracket := Bracket("*", "*")

  /** The seven splitting passes, in the order both versions run them. */
  function Passes(v: Variant, items: seq<Item>): seq<Item>
  {
    var a := BreakSingle(items, Newline, PauseNewline);
    var b := BreakSingle(a, ColonBreak, PauseColon);
    var c := BreakSingle(b, DashBreak, PauseDash);
    var d := BreakItems(v, c, Parentheses, PauseParentheses, PauseParentheses);
    var e := BreakItems(v, d, EmDashes, PauseParentheses, PauseParentheses);
    var f := BreakItems(v, e, SpacedEnDashes, PauseParentheses, PauseParentheses);
    BreakItems(v, f, Asterisks, 0, 0)
  }

  /** The text an item enters the passes with: tweaked (Thorsten model only), filtered, replaced. */
  function CleanText(cfg: Config, text: string): string
  {
    var t := if cfg.variant == Processor && cfg.model == ThorstenModel then cfg.tweak(text) else text;
    cfg.replace(DropWide(t))
  }

  /**
   * `_prepare_item`. The current version returns a pause-marked item
   * untouched; the older snapshot has no such bypass.
   */
  function PrepareItem(cfg: Config, it: Item): seq<Item>
  {
    if cfg.variant == Processor && it.speakerIdx == PauseMarker then [it]
    else Finish(cfg.variant, cfg.model, Passes(cfg.variant, [it.(text := CleanText(cfg, it.text))]))
  }

  // ---------------------------------------------------------------------
  // _merge_similar_items and preprocess_items

  /**
   * A run's item absorbing the next item of the same voice: lengths add up;
   * the current version joins texts with one space, and only when both are
   * non-empty (otherwise the run's text stays as it is); the older snapshot
   * concatenates them.
   */
  function Absorb(v: Variant, run: Item, it: Item): (r: Item)
    ensures SameVoice(r, run) && r.length == run.length + it.length
  {
    var text :=
      if v == Arranger then run.text + it.text
      else if run.text != "" && it.text != "" then run.text + " " + it.text
      else run.text;
    run.(text := text, length := run.length + it.length)
  }

  /**
   * One more item for a merge so far `r`: the open run, which is the last
   * item of `r`, absorbs it when the voice is the same; otherwise it opens a
   * new run.
   */
  function MergeNext(v: Variant, r: seq<Item>, x: Item): seq<Item>
  {
    if |r| > 0 && SameVoice(r[|r| - 1], x) then r[..|r| - 1] + [Absorb(v, r[|r| - 1], x)]
    else r + [x]
  }

  /**
   * `_merge_similar_items` by value: each maximal run of neighbours with the
   * same voice becomes its first item having absorbed the others.
   */
  function MergeSimilar(v: Variant, items: seq<Item>): (r: seq<Item>)
    ensures |r| <= |items| && (|r| == 0 <==> |items| == 0)
    decreases |items|
  {
    if |items| == 0 then []
    else MergeNext(v, MergeSimilar(v, items[..|items| - 1]), items[|items| - 1])
  }

  /** The merge of one more item is one more step of the merge. */
  lemma MergeSimilarSnoc(v: Variant, items: seq<Item>, i: nat)
    requires i < |items|
    ensures MergeSimilar(v, items[..i + 1]) == MergeNext(v, MergeSimilar(v, items[..i]), items[i])
  {
    assert items[..i + 1][..i] == items[..i];
  }

  /** A step of the merge when the merge so far is `closed` followed by the open run `merged`. */
  lemma MergeNextOfRun(v: Variant, closed: seq<Item>, merged: Item, x: Item)
    ensures MergeNext(v, closed + [merged], x)
      == if SameVoice(merged, x) then closed + [Absorb(v, merged, x)] else closed + [merged] + [x]
  {
    var r := closed + [merged];
    assert r[..|r| - 1] == closed;
  }

  /** One more item for `MergeSimilar`, when the merge so far is `closed` followed by the open run `merged`. */
  lemma MergeSimilarStep(v: Variant, items: seq<Item>, i: nat, closed: seq<Item>, merged: Item)
    requires i < |items| && MergeSimilar(v, items[..i]) == closed + [merged]
    ensures MergeSimilar(v, items[..i + 1])
      == if SameVoice(merged, items[i]) then closed + [Absorb(v, merged, items[i])] else closed + [merged] + [items[i]]
  {
    MergeSimilarSnoc(v, items, i);
    MergeNextOfRun(v, closed, merged, items[i]);
  }

  /** The first item opens the first run. */
  lemma MergeSimilarFirst(v: Variant, items: seq<Item>)
    requires |items| > 0
    ensures MergeSimilar(v, items[..1]) == [] + [items[0]]
  {
    assert items[..1][..0] == [];
  }

  lemma MergeSimilarWhole(v: Variant, items: seq<Item>)
    ensures MergeSimilar(v, items[..|items|]) == MergeSimilar(v, items)
  {
    assert items[..|items|] == items;
  }

  function PrepareAll(cfg: Config, items: seq<Item>): seq<Item>
    decreases |items|
  {
    if |items| == 0 then []
    else PrepareAll(cfg, items[..|items| - 1]) + PrepareItem(cfg, items[|items| - 1])
  }

  /** `preprocess_items`: merge then prepare now; prepare then merge in the older snapshot. */
  function Preprocess(cfg: Config, items: seq<Item>): seq<Item>
  {
    if cfg.variant == Processor then PrepareAll(cfg, MergeSimilar(Processor, items))
    else MergeSimilar(Arranger, PrepareAll(cfg, items))
  }

  // ---------------------------------------------------------------------
  // The loops of the source, each proved equal to its spec function

  /** Concatenation regrouped; stated once so that loops need not prove it by extensionality. */
  lemma Regroup<T>(a: seq<T>, b: seq<T>, c: seq<T>, e: seq<T>)
    ensures a + b + c + e == a + (b + c + e)
  {
  }

  lemma Assoc<T>(a: seq<T>, b: seq<T>, c: seq<T>)
    ensures a + b + c == a + (b + c)
  {
  }

  lemma CutThroughStep(it: Item, ms: seq<Match>, j: nat, pausePost: int)
    requires j < |ms|
    ensures var c := CutThrough(it, ms[..j], pausePost);
      var piece := Slice(it.text, ms[j].start, ms[j].groupEnd);
      CutThrough(it, ms[..j + 1], pausePost)
      == if piece == "" then c
         else Cut(c.out + [NewItem(piece, it.speaker, it.speakerIdx, it.length)] + PauseIfPositive(pausePost), ms[j].end)
  {
    assert ms[..j + 1][..j] == ms[..j];
  }

  lemma CutThroughWhole(it: Item, ms: seq<Match>, pausePost: int)
    ensures CutThrough(it, ms[..|ms|], pausePost) == CutThrough(it, ms, pausePost)
  {
    assert ms[..|ms|] == ms;
  }

  lemma BreakSingleStep(items: seq<Item>, i: nat, d: Delim, pausePost: int)
    requires i < |items|
    ensures BreakSingle(items[..i + 1], d, pausePost) == BreakSingle(items[..i], d, pausePost) + BreakSingleItem(items[i], d, pausePost)
  {
    assert items[..i + 1][..i] == items[..i];
  }

  lemma BreakSingleWhole(items: seq<Item>, d: Delim, pausePost: int)
    ensures BreakSingle(items[..|items|], d, pausePost) == BreakSingle(items, d, pausePost)
  {
    assert items[..|items|] == items;
  }

  /** `_break_single` with `keep=False`. */
  method BreakSinglePass(items: seq<Item>, d: Delim, pausePost: int) returns (out: seq<Item>)
    ensures out == BreakSingle(items, d, pausePost)
  {
    out := [];
    for i := 0 to |items|
      invariant out == BreakSingle(items[..i], d, pausePost)
    {
      out := BreakSingleInto(out, items[i], d, pausePost);
      BreakSingleStep(items, i, d, pausePost);
    }
    BreakSingleWhole(items, d, pausePost);
  }

  /** The body of the item loop of `_break_single`: it appends one item's pieces to `final_items`. */
  method BreakSingleInto(finalItems: seq<Item>, it: Item, d: Delim, pausePost: int) returns (out: seq<Item>)
    ensures out == finalItems + BreakSingleItem(it, d, pausePost)
  {
    out := finalItems;
    var text := it.text;
    if text == "" && it.length > 0 {
      out := out + [it];
    }
    ghost var pre := if IsPause(it) then [it] else [];
    assert out == finalItems + pre;
    var lastStart;
    out, lastStart := CutInto(out, it, Matches(text, d), pausePost);
    ghost var cut := CutThrough(it, Matches(text, d), pausePost);
    var rest := Strip(Slice(text, lastStart, |text|));
    ghost var tail := if rest != "" then [NewItem(rest, it.speaker, it.speakerIdx, it.length)] else [];
    if rest != "" {
      out := out + [NewItem(rest, it.speaker, it.speakerIdx, it.length)];
    }
    assert out == finalItems + pre + cut.out + tail;
    Regroup(finalItems, pre, cut.out, tail);
  }

  /** The match loop of `_break_single` on one item: it appends the pieces and moves `last_start`. */
  method CutInto(head: seq<Item>, it: Item, ms: seq<Match>, pausePost: int) returns (out: seq<Item>, lastStart: nat)
    ensures out == head + CutThrough(it, ms, pausePost).out
    ensures lastStart == CutThrough(it, ms, pausePost).lastStart
  {
    out := head;
    lastStart := 0;
    for j := 0 to |ms|
      invariant out == head + CutThrough(it, ms[..j], pausePost).out
      invariant lastStart == CutThrough(it, ms[..j], pausePost).lastStart
    {
      CutThroughStep(it, ms, j, pausePost);
      ghost var c := CutThrough(it, ms[..j], pausePost);
      var m := ms[j];
      var piece := Slice(it.text, m.start, m.groupEnd);
      if piece != "" {
        ghost var x := NewItem(piece, it.speaker, it.speakerIdx, it.length);
        out := out + [NewItem(piece, it.speaker, it.speakerIdx, it.length)];
        if pausePost > 0 {
          out := out + [Pause(pausePost)];
        }
        assert out == head + (c.out + [x] + PauseIfPositive(pausePost));
        lastStart := m.end;
      }
    }
    CutThroughWhole(it, ms, pausePost);
  }

  lemma BreakItemsStep(v: Variant, items: seq<Item>, i: nat, b: Bracket, pausePre: int, pausePost: int)
    requires i < |items|
    ensures BreakItemsFrom(v, items[..i + 1], b, pausePre, pausePost)
      == BreakItem(v, items[i], b, pausePre, pausePost, BreakItemsFrom(v, items[..i], b, pausePre, pausePost))
  {
    assert items[..i + 1][..i] == items[..i];
  }

  lemma BreakItemsWhole(v: Variant, items: seq<Item>, b: Bracket, pausePre: int, pausePost: int)
    ensures BreakItemsFrom(v, items[..|items|], b, pausePre, pausePost) == BreakItemsFrom(v, items, b, pausePre, pausePost)
  {
    assert items[..|items|] == items;
  }

  /** `_break_items`: the item loop; `isOpen` carries over from one item to the next. */
  method BreakItemsPass(v: Variant, items: seq<Item>, b: Bracket, pausePre: int, pausePost: int) returns (out: seq<Item>)
    ensures out == BreakItems(v, items, b, pausePre, pausePost)
  {
    out := [];
    var isOpen := false;
    for i := 0 to |items|
      invariant Pass(out, isOpen) == BreakItemsFrom(v, items[..i], b, pausePre, pausePost)
    {
      out, isOpen := BreakItemInto(v, items[i], b, pausePre, pausePost, out, isOpen);
      BreakItemsStep(v, items, i, b, pausePre, pausePost);
    }
    BreakItemsWhole(v, items, b, pausePre, pausePost);
  }

  /** The body of the item loop of `_break_items` on one item. */
  method BreakItemInto(v: Variant, it: Item, b: Bracket, pausePre: int, pausePost: int, out0: seq<Item>, isOpen0: bool)
    returns (out: seq<Item>, isOpen: bool)
    ensures Pass(out, isOpen) == BreakItem(v, it, b, pausePre, pausePost, Pass(out0, isOpen0))
  {
    out := out0;
    var t := it.text;
    if t == "" && it.length > 0 {
      out := out + [it];
    }
    var w := WalkItem(v, it, b, pausePre, out, isOpen0);
    out, isOpen := w.out, w.isOpen;
    if w.found && pausePost > 0 {
      out := out + [Pause(pausePost)];
    }
    ghost var mid := out;
    assert mid == if w.found then w.out + PauseIfPositive(pausePost) else w.out;
    var rest := Strip(Slice(t, w.pos, |t|));
    if rest != "" {
      out := out + [it.(text := rest)];
    }
    assert out == mid + (if rest != "" then [it.(text := rest)] else []);
  }

  /** The character loop of `_break_items` on one item. */
  method WalkItem(v: Variant, it: Item, b: Bracket, pausePre: int, out0: seq<Item>, isOpen0: bool) returns (w: Walk)
    ensures w == WalkChars(v, it, b, pausePre, Walk(out0, isOpen0, 0, false), |it.text|)
  {
    w := Walk(out0, isOpen0, 0, false);
    ghost var w0 := w;
    for idx := 0 to |it.text|
      invariant w == WalkChars(v, it, b, pausePre, w0, idx)
    {
      w := WalkNext(v, it, b, pausePre, w, idx);
    }
  }

  /** The body of the character loop: the candidate piece, then what the character does. */
  method WalkNext(v: Variant, it: Item, b: Bracket, pausePre: int, w: Walk, idx: nat) returns (w': Walk)
    requires idx < |it.text|
    ensures w' == WalkStep(v, it, b, pausePre, w, idx)
  {
    var newItem := it.(text := Strip(Slice(it.text, w.pos, idx)));
    var out, isOpen, pos, found := WalkAt(v, it.text, b, pausePre, w.out, w.isOpen, w.pos, w.found, idx, newItem);
    w' := Walk(out, isOpen, pos, found);
  }

  /** One iteration of the character loop, at index idx, with its candidate piece `newItem`. */
  method WalkAt(v: Variant, t: string, b: Bracket, pausePre: int, out0: seq<Item>, isOpen0: bool, pos0: nat, found0: bool,
                idx: nat, newItem: Item)
    returns (out: seq<Item>, isOpen: bool, pos: nat, found: bool)
    requires idx < |t|
    ensures Walk(out, isOpen, pos, found) == StepWith(v, t, b, pausePre, Walk(out0, isOpen0, pos0, found0), idx, newItem)
  {
    out, isOpen, pos, found := out0, isOpen0, pos0, found0;
    var c := t[idx];
    var add := false;
    if b.open == b.close {
      if IsChar(b.open, c) {
        if !isOpen {
          if Boundary(v, t, idx - 1) {
            isOpen := true;
            add := true;
          }
        } else if Boundary(v, t, idx + 1) {
          isOpen := false;
          add := true;
        }
      } else if IsClausePunct(c) {
        out, pos := AttachAt(out, isOpen, pos, found, c, idx, |b.open|);
      }
    } else if IsChar(b.open, c) {
      if Boundary(v, t, idx - 1) {
        add := true;
      }
    } else if IsChar(b.close, c) {
      if Boundary(v, t, idx + 1) {
        add := true;
        if pausePre > 0 {
          out := out + [Pause(pausePre)];
        }
      }
    } else if IsClausePunct(c) {
      out, pos := AttachAt(out, isOpen, pos, found, c, idx, |b.open|);
    }
    if add {
      if newItem.text != "" {
        out := out + [newItem];
      }
      pos := idx + 1;
      found := true;
    }
  }

  /** A '.', ',', ';' or ':' at the resume point joins the text of the last output item. */
  method AttachAt(out0: seq<Item>, isOpen: bool, pos0: nat, found: bool, c: char, idx: nat, width: nat)
    returns (out: seq<Item>, pos: nat)
    ensures Walk(out, isOpen, pos, found) == Attach(Walk(out0, isOpen, pos0, found), c, idx, width)
  {
    out, pos := out0, pos0;
    if pos == idx && |out| > 0 {
      out := out[..|out| - 1] + [out[|out| - 1].(text := out[|out| - 1].text + [c])];
      pos := pos + width;
    }
  }

  /** `_minimize_tailing_punctuation`: count the trailing run from the end, then cut. */
  method MinimizeTailingPunctuation(text: string) returns (r: string)
    ensures r == MinimizeTrailing(text)
  {
    var run := 0;
    var i := |text|;
    while i > 0
      invariant 0 <= i <= |text| && run == |text| - i
      invariant forall k :: i <= k < |text| ==> IsPunctOrBlank(text[k])
    {
      if IsPunctOrBlank(text[i - 1]) {
        run := run + 1;
        i := i - 1;
      } else {
        return Slice(text, 0, |text| - run + 1);
      }
    }
    return text;
  }

  lemma FinishStep(v: Variant, model: string, items: seq<Item>, i: nat)
    requires i < |items|
    ensures Finish(v, model, items[..i + 1]) == Finish(v, model, items[..i]) + FinishItem(v, model, items[i])
  {
    assert items[..i + 1][..i] == items[..i];
  }

  lemma FinishWhole(v: Variant, model: string, items: seq<Item>)
    ensures Finish(v, model, items[..|items|]) == Finish(v, model, items)
  {
    assert items[..|items|] == items;
  }

  /** The final loop of `_prepare_item`. */
  method FinishPass(v: Variant, model: string, items: seq<Item>) returns (out: seq<Item>)
    ensures out == Finish(v, model, items)
  {
    out := [];
    for i := 0 to |items|
      invariant out == Finish(v, model, items[..i])
    {
      out := FinishInto(out, v, model, items[i]);
      FinishStep(v, model, items, i);
    }
    FinishWhole(v, model, items);
  }

  /** The body of the final loop on one item: it polishes the text and appends what is kept. */
  method FinishInto(finalItems: seq<Item>, v: Variant, model: string, it: Item) returns (out: seq<Item>)
    ensures out == finalItems + FinishItem(v, model, it)
  {
    out := finalItems;
    if it.text == "" && it.length > 0 {
      out := out + [it];
    }
    ghost var pre := if IsPause(it) then [it] else [];
    assert out == finalItems + pre;
    var text := PolishText(v, model, it.text);
    out := KeepInto(out, it, text);
    Assoc(finalItems, pre, Kept(it, text));
  }

  /** The chain of text edits at the head of the final loop. */
  method PolishText(v: Variant, model: string, s: string) returns (text: string)
    ensures text == Polish(v, model, s)
  {
    text := Normalise(s);
    if v == Processor {
      text := RStrip(text, IsPunctOrBlank);
    } else {
      text := MinimizeTailingPunctuation(text);
    }
    text := AddStop(model != VctkModel, Core(text));
  }

  /** The tail of the final loop: a text with a letter or digit is kept, then its sentence pause. */
  method KeepInto(finalItems: seq<Item>, it: Item, text: string) returns (out: seq<Item>)
    ensures out == finalItems + Kept(it, text)
  {
    out := finalItems;
    if |text| > 0 && HasAsciiAlnum(text) {
      out := out + [it.(text := text)];
      if text[|text| - 1] in ".:" {
        out := out + [Pause(PauseSentence)];
      } else if text[|text| - 1] in "!?" {
        out := out + [Pause(PauseQuestionExclamation)];
      }
    }
  }

  /**
   * `_merge_similar_items`. In the source the open run's item is also the last
   * element of `final_items` (the same object, edited in place), which is why
   * it is never appended twice; by value, the open run is kept apart in
   * `merged` and appended at the end.
   */
  method MergeSimilarItems(v: Variant, items: seq<Item>) returns (out: seq<Item>)
    ensures out == MergeSimilar(v, items)
  {
    if |items| == 0 {
      return [];
    }
    var closed: seq<Item> := [];
    var merged := items[0];
    MergeSimilarFirst(v, items);
    for i := 1 to |items|
      invariant MergeSimilar(v, items[..i]) == closed + [merged]
    {
      var item := items[i];
      MergeSimilarStep(v, items, i, closed, merged);
      if merged.speaker == item.speaker && merged.speakerIdx == item.speakerIdx {
        merged := AbsorbInto(v, merged, item);
      } else {
        closed := closed + [merged];
        merged := item;
      }
    }
    out := closed + [merged];
    MergeSimilarWhole(v, items);
  }

  /** The same-voice branch of the merge loop: the open run's item takes in `item`. */
  method AbsorbInto(v: Variant, merged: Item, item: Item) returns (r: Item)
    ensures r == Absorb(v, merged, item)
  {
    var text := merged.text;
    if v == Arranger {
      text := text + item.text;
    } else if merged.text != "" && item.text != "" {
      text := text + " " + item.text;
    }
    r := merged.(text := text, length := merged.length + item.length);
  }

  /** `_prepare_item`: the bypass, the text clean-up, the seven passes and the final loop. */
  method PrepareItemSteps(cfg: Config, it: Item) returns (out: seq<Item>)
    ensures out == PrepareItem(cfg, it)
  {
    if cfg.variant == Processor && it.speakerIdx == PauseMarker {
      return [it];
    }
    var text := it.text;
    if cfg.variant == Processor && cfg.model == ThorstenModel {
      text := cfg.tweak(text);
    }
    text := cfg.replace(DropWide(text));
    var items := [it.(text := text)];
    items := BreakSinglePass(items, Newline, PauseNewline);
    items := BreakSinglePass(items, ColonBreak, PauseColon);
    items := BreakSinglePass(items, DashBreak, PauseDash);
    items := BreakItemsPass(cfg.variant, items, Parentheses, PauseParentheses, PauseParentheses);
    items := BreakItemsPass(cfg.variant, items, EmDashes, PauseParentheses, PauseParentheses);
    items := BreakItemsPass(cfg.variant, items, SpacedEnDashes, PauseParentheses, PauseParentheses);
    items := BreakItemsPass(cfg.variant, items, Asterisks, 0, 0);
    out := FinishPass(cfg.variant, cfg.model, items);
  }

  /** The loop of `preprocess_items` that prepares every item and concatenates the results. */
  method PrepareEach(cfg: Config, items: seq<Item>) returns (out: seq<Item>)
    ensures out == PrepareAll(cfg, items)
  {
    out := [];
    for i := 0 to |items|
      invariant out == PrepareAll(cfg, items[..i])
    {
      var prepared := PrepareItemSteps(cfg, items[i]);
      out := out + prepared;
      assert items[..i + 1][..i] == items[..i];
    }
    assert items[..|items|] == items;
  }

  /** `preprocess_items`. */
  method PreprocessItems(cfg: Config, items: seq<Item>) returns (out: seq<Item>)
    ensures out == Preprocess(cfg, items)
  {
    if cfg.variant == Processor {
      var merged := MergeSimilarItems(Processor, items);
      out := PrepareEach(cfg, merged);
    } else {
      var prepared := PrepareEach(cfg, items);
      out := MergeSimilarItems(Arranger, prepared);
    }
  }
}
