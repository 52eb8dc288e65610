/**
 * What the segmenter's passes keep: the voice of every fragment, pause items,
 * the lengths and the texts a merge joins; and how delimiters are recognised.
 */
module SegmenterProps {
  import opened Text
  import opened Scan
  import opened Items
  import opened Segmenter

  // ---------------------------------------------------------------------
  // Voices

  lemma VoicedAsConcat(a: seq<Item>, b: seq<Item>, sp: string, idx: int)
    ensures VoicedAs(a + b, sp, idx) <==> VoicedAs(a, sp, idx) && VoicedAs(b, sp, idx)
  {
    if VoicedAs(a + b, sp, idx) {
      forall k | 0 <= k < |a| ensures Speaks(a[k], sp, idx) {
        assert (a + b)[k] == a[k];
      }
      forall k | 0 <= k < |b| ensures Speaks(b[k], sp, idx) {
        assert (a + b)[|a| + k] == b[k];
      }
    }
  }

  /** Pause-voiced items speak as anybody. */
  lemma PauseVoicedAsAnyone(xs: seq<Item>, sp: string, idx: int)
    requires VoicedAs(xs, "", PauseMarker)
    ensures VoicedAs(xs, sp, idx)
  {
    forall k | 0 <= k < |xs| ensures Speaks(xs[k], sp, idx) {
      assert Speaks(xs[k], "", PauseMarker);
    }
  }

  /** `_break_single` gives every fragment the voice of the item it was cut from. */
  lemma {:induction false} BreakSingleKeepsVoice(items: seq<Item>, d: Delim, pausePost: int, sp: string, idx: int)
    requires VoicedAs(items, sp, idx)
    ensures VoicedAs(BreakSingle(items, d, pausePost), sp, idx)
    decreases |items|
  {
    if |items| > 0 {
      var front := items[..|items| - 1];
      assert VoicedAs(front, sp, idx);
      BreakSingleKeepsVoice(front, d, pausePost, sp, idx);
      var it := items[|items| - 1];
      assert Speaks(it, sp, idx);
      var r := BreakSingleItem(it, d, pausePost);
      forall k | 0 <= k < |r| ensures Speaks(r[k], sp, idx) {
        if r[k] != it && !(r[k] == Pause(pausePost) && pausePost > 0) {
          assert SameVoice(r[k], it);
        }
      }
      VoicedAsConcat(BreakSingle(front, d, pausePost), r, sp, idx);
    }
  }

  lemma EmitKeepsVoice(w: Walk, prefix: seq<Item>, piece: Item, i: nat, isOpen: bool, sp: string, idx: int)
    requires VoicedAs(w.out, sp, idx) && VoicedAs(prefix, sp, idx) && Speaks(piece, sp, idx)
    ensures VoicedAs(Emit(w, prefix, piece, i, isOpen).out, sp, idx)
  {
    var tail := if piece.text != "" then [piece] else [];
    VoicedAsConcat(w.out, prefix, sp, idx);
    VoicedAsConcat(w.out + prefix, tail, sp, idx);
  }

  /** Gluing punctuation to the last item changes its text only. */
  lemma AttachKeepsVoice(w: Walk, c: char, i: nat, width: nat, sp: string, idx: int)
    requires VoicedAs(w.out, sp, idx)
    ensures VoicedAs(Attach(w, c, i, width).out, sp, idx)
  {
    if w.pos == i && |w.out| > 0 {
      var n := |w.out|;
      var last := w.out[n - 1];
      assert Speaks(last, sp, idx);
      assert VoicedAs(w.out[..n - 1], sp, idx);
      VoicedAsConcat(w.out[..n - 1], [last.(text := last.text + [c])], sp, idx);
    }
  }

  lemma StepWithKeepsVoice(v: Variant, t: string, b: Bracket, pausePre: int, w: Walk, i: nat, piece: Item, sp: string, idx: int)
    requires i < |t| && VoicedAs(w.out, sp, idx) && Speaks(piece, sp, idx)
    ensures VoicedAs(StepWith(v, t, b, pausePre, w, i, piece).out, sp, idx)
  {
    var c := t[i];
    assert VoicedAs([], sp, idx);
    assert VoicedAs(PauseIfPositive(pausePre), sp, idx);
    EmitKeepsVoice(w, [], piece, i, true, sp, idx);
    EmitKeepsVoice(w, [], piece, i, false, sp, idx);
    EmitKeepsVoice(w, [], piece, i, w.isOpen, sp, idx);
    EmitKeepsVoice(w, PauseIfPositive(pausePre), piece, i, w.isOpen, sp, idx);
    AttachKeepsVoice(w, c, i, |b.open|, sp, idx);
  }

  lemma {:induction false} WalkCharsKeepsVoice(v: Variant, it: Item, b: Bracket, pausePre: int, w0: Walk, n: nat, sp: string, idx: int)
    requires n <= |it.text| && VoicedAs(w0.out, sp, idx) && Speaks(it, sp, idx)
    ensures VoicedAs(WalkChars(v, it, b, pausePre, w0, n).out, sp, idx)
    decreases n
  {
    if n > 0 {
      WalkCharsKeepsVoice(v, it, b, pausePre, w0, n - 1, sp, idx);
      WalkStepKeepsVoice(v, it, b, pausePre, WalkChars(v, it, b, pausePre, w0, n - 1), n - 1, sp, idx);
    }
  }

  lemma WalkStepKeepsVoice(v: Variant, it: Item, b: Bracket, pausePre: int, w: Walk, i: nat, sp: string, idx: int)
    requires i < |it.text| && VoicedAs(w.out, sp, idx) && Speaks(it, sp, idx)
    ensures VoicedAs(WalkStep(v, it, b, pausePre, w, i).out, sp, idx)
  {
    StepWithKeepsVoice(v, it.text, b, pausePre, w, i, it.(text := Strip(Slice(it.text, w.pos, i))), sp, idx);
  }

  lemma BreakItemKeepsVoice(v: Variant, it: Item, b: Bracket, pausePre: int, pausePost: int, p: Pass, sp: string, idx: int)
    requires VoicedAs(p.out, sp, idx) && Speaks(it, sp, idx)
    ensures VoicedAs(BreakItem(v, it, b, pausePre, pausePost, p).out, sp, idx)
  {
    var start := if IsPause(it) then p.out + [it] else p.out;
    VoicedAsConcat(p.out, [it], sp, idx);
    WalkCharsKeepsVoice(v, it, b, pausePre, Walk(start, p.isOpen, 0, false), |it.text|, sp, idx);
    var w := WalkChars(v, it, b, pausePre, Walk(start, p.isOpen, 0, false), |it.text|);
    VoicedAsConcat(w.out, PauseIfPositive(pausePost), sp, idx);
    var out := if w.found then w.out + PauseIfPositive(pausePost) else w.out;
    var rest := Strip(Slice(it.text, w.pos, |it.text|));
    VoicedAsConcat(out, if rest != "" then [it.(text := rest)] else [], sp, idx);
  }

  /** `_break_items` gives every fragment the voice of the item it was cut from. */
  lemma {:induction false} BreakItemsKeepsVoice(v: Variant, items: seq<Item>, b: Bracket, pausePre: int, pausePost: int, sp: string, idx: int)
    requires VoicedAs(items, sp, idx)
    ensures VoicedAs(BreakItemsFrom(v, items, b, pausePre, pausePost).out, sp, idx)
    decreases |items|
  {
    if |items| > 0 {
      var front := items[..|items| - 1];
      assert VoicedAs(front, sp, idx);
      BreakItemsKeepsVoice(v, front, b, pausePre, pausePost, sp, idx);
      assert Speaks(items[|items| - 1], sp, idx);
      BreakItemKeepsVoice(v, items[|items| - 1], b, pausePre, pausePost, BreakItemsFrom(v, front, b, pausePre, pausePost), sp, idx);
    }
  }

  /** The final loop keeps pauses and texts with their own voice, and adds pause-voiced pauses. */
  lemma {:induction false} FinishKeepsVoice(v: Variant, model: string, items: seq<Item>, sp: string, idx: int)
    requires VoicedAs(items, sp, idx)
    ensures VoicedAs(Finish(v, model, items), sp, idx)
    decreases |items|
  {
    if |items| > 0 {
      var front := items[..|items| - 1];
      assert VoicedAs(front, sp, idx);
      FinishKeepsVoice(v, model, front, sp, idx);
      var it := items[|items| - 1];
      assert Speaks(it, sp, idx);
      FinishWithKeepsVoice(it, Polish(v, model, it.text), sp, idx);
      VoicedAsConcat(Finish(v, model, front), FinishItem(v, model, it), sp, idx);
    }
  }

  lemma FinishWithKeepsVoice(it: Item, text: string, sp: string, idx: int)
    requires Speaks(it, sp, idx)
    ensures VoicedAs(FinishWith(it, text), sp, idx)
  {
    KeptKeepsVoice(it, text, sp, idx);
    VoicedAsConcat(if IsPause(it) then [it] else [], Kept(it, text), sp, idx);
  }

  lemma KeptKeepsVoice(it: Item, text: string, sp: string, idx: int)
    requires Speaks(it, sp, idx)
    ensures VoicedAs(Kept(it, text), sp, idx)
  {
    var r := Kept(it, text);
    forall k | 0 <= k < |r| ensures Speaks(r[k], sp, idx) {
      if !PauseVoice(r[k]) {
        assert SameVoice(r[k], it);
      }
    }
  }

  lemma PassesKeepVoice(v: Variant, items: seq<Item>, sp: string, idx: int)
    requires VoicedAs(items, sp, idx)
    ensures VoicedAs(Passes(v, items), sp, idx)
  {
    var a := BreakSingle(items, Newline, PauseNewline);
    BreakSingleKeepsVoice(items, Newline, PauseNewline, sp, idx);
    var b := BreakSingle(a, ColonBreak, PauseColon);
    BreakSingleKeepsVoice(a, ColonBreak, PauseColon, sp, idx);
    var c := BreakSingle(b, DashBreak, PauseDash);
    BreakSingleKeepsVoice(b, DashBreak, PauseDash, sp, idx);
    var d := BreakItems(v, c, Parentheses, PauseParentheses, PauseParentheses);
    BreakItemsKeepsVoice(v, c, Parentheses, PauseParentheses, PauseParentheses, sp, idx);
    var e := BreakItems(v, d, EmDashes, PauseParentheses, PauseParentheses);
    BreakItemsKeepsVoice(v, d, EmDashes, PauseParentheses, PauseParentheses, sp, idx);
    var f := BreakItems(v, e, SpacedEnDashes, PauseParentheses, PauseParentheses);
    BreakItemsKeepsVoice(v, e, SpacedEnDashes, PauseParentheses, PauseParentheses, sp, idx);
    BreakItemsKeepsVoice(v, f, Asterisks, 0, 0, sp, idx);
  }

  /**
   * Every item `_prepare_item` returns has the speaker and speaker index of
   * the item it was given, or is a pause.
   */
  lemma PrepareKeepsVoice(cfg: Config, it: Item)
    ensures VoicedAs(PrepareItem(cfg, it), it.speaker, it.speakerIdx)
  {
    var sp, idx := it.speaker, it.speakerIdx;
    assert Speaks(it, sp, idx);
    if !(cfg.variant == Processor && it.speakerIdx == PauseMarker) {
      var start := [it.(text := CleanText(cfg, it.text))];
      assert Speaks(start[0], sp, idx);
      PassesKeepVoice(cfg.variant, start, sp, idx);
      FinishKeepsVoice(cfg.variant, cfg.model, Passes(cfg.variant, start), sp, idx);
    }
  }

  lemma {:induction false} PrepareAllKeepsVoice(cfg: Config, items: seq<Item>, sp: string, idx: int)
    requires VoicedAs(items, sp, idx)
    ensures VoicedAs(PrepareAll(cfg, items), sp, idx)
    decreases |items|
  {
    if |items| > 0 {
      var front := items[..|items| - 1];
      assert VoicedAs(front, sp, idx);
      PrepareAllKeepsVoice(cfg, front, sp, idx);
      var it := items[|items| - 1];
      PrepareKeepsVoice(cfg, it);
      if !(it.speaker == sp && it.speakerIdx == idx) {
        assert PauseVoice(it);
        PauseVoicedAsAnyone(PrepareItem(cfg, it), sp, idx);
      }
      VoicedAsConcat(PrepareAll(cfg, front), PrepareItem(cfg, it), sp, idx);
    }
  }

  lemma {:induction false} MergeKeepsVoice(v: Variant, items: seq<Item>, sp: string, idx: int)
    requires VoicedAs(items, sp, idx)
    ensures VoicedAs(MergeSimilar(v, items), sp, idx)
    decreases |items|
  {
    if |items| > 0 {
      var front := items[..|items| - 1];
      assert VoicedAs(front, sp, idx);
      MergeKeepsVoice(v, front, sp, idx);
      var r := MergeSimilar(v, front);
      assert MergeSimilar(v, items) == MergeNext(v, r, items[|items| - 1]);
      MergeNextKeepsVoice(v, r, items[|items| - 1], sp, idx);
    }
  }

  lemma MergeNextKeepsVoice(v: Variant, r: seq<Item>, x: Item, sp: string, idx: int)
    requires VoicedAs(r, sp, idx) && Speaks(x, sp, idx)
    ensures VoicedAs(MergeNext(v, r, x), sp, idx)
  {
    if |r| > 0 && SameVoice(r[|r| - 1], x) {
      assert Speaks(r[|r| - 1], sp, idx);
      assert VoicedAs(r[..|r| - 1], sp, idx);
      VoicedAsConcat(r[..|r| - 1], [Absorb(v, r[|r| - 1], x)], sp, idx);
    } else {
      VoicedAsConcat(r, [x], sp, idx);
    }
  }

  /** `preprocess_items` on items of one voice yields only that voice and pauses. */
  lemma PreprocessKeepsVoice(cfg: Config, items: seq<Item>, sp: string, idx: int)
    requires VoicedAs(items, sp, idx)
    ensures VoicedAs(Preprocess(cfg, items), sp, idx)
  {
    if cfg.variant == Processor {
      MergeKeepsVoice(Processor, items, sp, idx);
      PrepareAllKeepsVoice(cfg, MergeSimilar(Processor, items), sp, idx);
    } else {
      PrepareAllKeepsVoice(cfg, items, sp, idx);
      MergeKeepsVoice(Arranger, PrepareAll(cfg, items), sp, idx);
    }
  }

  // ---------------------------------------------------------------------
  // Pause items

  lemma BreakSingleKeepsPause(it: Item, d: Delim, pausePost: int)
    requires IsPause(it)
    ensures BreakSingle([it], d, pausePost) == [it]
  {
    assert Matches(it.text, d) == [];
    assert [it][..0] == [];
    assert BreakSingleItem(it, d, pausePost) == [it] + [] + [];
  }

  lemma BreakItemsKeepsPause(v: Variant, it: Item, b: Bracket, pausePre: int, pausePost: int)
    requires IsPause(it)
    ensures BreakItems(v, [it], b, pausePre, pausePost) == [it]
  {
    assert [it][..0] == [];
    var w0 := Walk([] + [it], false, 0, false);
    assert WalkChars(v, it, b, pausePre, w0, |it.text|) == w0;
    assert Strip(Slice(it.text, 0, |it.text|)) == "";
    assert BreakItem(v, it, b, pausePre, pausePost, Pass([], false)) == Pass([] + [it], false);
    assert BreakItemsFrom(v, [it], b, pausePre, pausePost) == BreakItem(v, it, b, pausePre, pausePost, BreakItemsFrom(v, [], b, pausePre, pausePost));
  }

  lemma FinishKeepsPause(v: Variant, model: string, it: Item)
    requires IsPause(it)
    ensures Finish(v, model, [it]) == [it]
  {
    assert [it][..0] == [];
    assert Polish(v, model, "") == "";
  }

  /**
   * A pause item comes out of `_prepare_item` as it went in, in both
   * versions: through the bypass when it carries the marker, and otherwise
   * through every pass, provided the text clean-up maps "" to "".
   */
  lemma PauseItemsSurvive(cfg: Config, it: Item)
    requires IsPause(it) && CleanText(cfg, "") == ""
    ensures PrepareItem(cfg, it) == [it]
  {
    if !(cfg.variant == Processor && it.speakerIdx == PauseMarker) {
      var v := cfg.variant;
      assert it.(text := CleanText(cfg, it.text)) == it;
      BreakSingleKeepsPause(it, Newline, PauseNewline);
      BreakSingleKeepsPause(it, ColonBreak, PauseColon);
      BreakSingleKeepsPause(it, DashBreak, PauseDash);
      BreakItemsKeepsPause(v, it, Parentheses, PauseParentheses, PauseParentheses);
      BreakItemsKeepsPause(v, it, EmDashes, PauseParentheses, PauseParentheses);
      BreakItemsKeepsPause(v, it, SpacedEnDashes, PauseParentheses, PauseParentheses);
      BreakItemsKeepsPause(v, it, Asterisks, 0, 0);
      FinishKeepsPause(v, cfg.model, it);
    }
  }

  // ---------------------------------------------------------------------
  // Merging

  function TotalLength(xs: seq<Item>): int
    decreases |xs|
  {
    if |xs| == 0 then 0 else TotalLength(xs[..|xs| - 1]) + xs[|xs| - 1].length
  }

  lemma TotalLengthSnoc(xs: seq<Item>, y: Item)
    ensures TotalLength(xs + [y]) == TotalLength(xs) + y.length
  {
    assert (xs + [y])[..|xs|] == xs;
  }

  /** Merging neither loses nor invents length: the lengths of a run are summed. */
  lemma {:induction false} MergeKeepsTotalLength(v: Variant, items: seq<Item>)
    ensures TotalLength(MergeSimilar(v, items)) == TotalLength(items)
    decreases |items|
  {
    if |items| > 0 {
      var front := items[..|items| - 1];
      var x := items[|items| - 1];
      assert items == front + [x];
      MergeKeepsTotalLength(v, front);
      var r := MergeSimilar(v, front);
      assert MergeSimilar(v, items) == MergeNext(v, r, x);
      MergeNextLength(v, r, x);
      TotalLengthSnoc(front, x);
    }
  }

  lemma MergeNextLength(v: Variant, r: seq<Item>, x: Item)
    ensures TotalLength(MergeNext(v, r, x)) == TotalLength(r) + x.length
  {
    if |r| > 0 && SameVoice(r[|r| - 1], x) {
      var m := |r| - 1;
      assert r[..m] + [r[m]] == r;
      TotalLengthSnoc(r[..m], r[m]);
      TotalLengthSnoc(r[..m], Absorb(v, r[m], x));
    } else {
      TotalLengthSnoc(r, x);
    }
  }

  /** No two neighbouring results of the merge share a voice. */
  lemma {:induction false} MergeSeparates(v: Variant, items: seq<Item>)
    ensures Separated(MergeSimilar(v, items))
    decreases |items|
  {
    if |items| > 0 {
      MergeSeparates(v, items[..|items| - 1]);
      var r := MergeSimilar(v, items[..|items| - 1]);
      assert MergeSimilar(v, items) == MergeNext(v, r, items[|items| - 1]);
      MergeNextSeparates(v, r, items[|items| - 1]);
    }
  }

  lemma MergeNextSeparates(v: Variant, r: seq<Item>, x: Item)
    requires Separated(r)
    ensures Separated(MergeNext(v, r, x))
  {
    var m := MergeNext(v, r, x);
    if |r| > 0 && SameVoice(r[|r| - 1], x) {
      assert m == r[..|r| - 1] + [Absorb(v, r[|r| - 1], x)];
      forall j, k | 0 <= j < |m| && 0 <= k < |m| && k == j + 1 ensures !SameVoice(m[j], m[k]) {
        assert m[j] == r[j];
        if k < |r| - 1 {
          assert m[k] == r[k];
        } else {
          assert SameVoice(m[k], r[k]);
        }
      }
    } else {
      assert m == r + [x];
      forall j, k | 0 <= j < |m| && 0 <= k < |m| && k == j + 1 ensures !SameVoice(m[j], m[k]) {
        assert m[j] == r[j];
        if k < |r| {
          assert m[k] == r[k];
        }
      }
    }
  }

  /** Items with no two neighbours of the same voice are left as they are. */
  lemma {:induction false} MergeOfSeparated(v: Variant, items: seq<Item>)
    requires Separated(items)
    ensures MergeSimilar(v, items) == items
    decreases |items|
  {
    if |items| > 0 {
      var front := items[..|items| - 1];
      var x := items[|items| - 1];
      assert items == front + [x];
      assert Separated(front) by {
        forall j, k | 0 <= j < |front| && 0 <= k < |front| && k == j + 1 ensures !SameVoice(front[j], front[k]) {
          assert front[j] == items[j] && front[k] == items[k];
        }
      }
      MergeOfSeparated(v, front);
      assert MergeSimilar(v, items) == MergeNext(v, front, x);
      if |front| > 0 {
        assert front[|front| - 1] == items[|items| - 2];
        assert !SameVoice(items[|items| - 2], items[|items| - 1]);
      }
    }
  }

  /** Merging twice is merging once. */
  lemma MergeIsIdempotent(v: Variant, items: seq<Item>)
    ensures MergeSimilar(v, MergeSimilar(v, items)) == MergeSimilar(v, items)
  {
    MergeSeparates(v, items);
    MergeOfSeparated(v, MergeSimilar(v, items));
  }

  function AllText(xs: seq<Item>): string
    decreases |xs|
  {
    if |xs| == 0 then "" else AllText(xs[..|xs| - 1]) + xs[|xs| - 1].text
  }

  lemma AllTextSnoc(xs: seq<Item>, y: Item)
    ensures AllText(xs + [y]) == AllText(xs) + y.text
  {
    assert (xs + [y])[..|xs|] == xs;
  }

  /** The older snapshot concatenates the texts of a run: no character is lost or added. */
  lemma {:induction false} ArrangerMergeKeepsText(items: seq<Item>)
    ensures AllText(MergeSimilar(Arranger, items)) == AllText(items)
    decreases |items|
  {
    if |items| > 0 {
      var front := items[..|items| - 1];
      var x := items[|items| - 1];
      assert items == front + [x];
      ArrangerMergeKeepsText(front);
      var r := MergeSimilar(Arranger, front);
      assert MergeSimilar(Arranger, items) == MergeNext(Arranger, r, x);
      ArrangerMergeNextText(r, x);
      AllTextSnoc(front, x);
    }
  }

  lemma ArrangerMergeNextText(r: seq<Item>, x: Item)
    ensures AllText(MergeNext(Arranger, r, x)) == AllText(r) + x.text
  {
    if |r| > 0 && SameVoice(r[|r| - 1], x) {
      var m := |r| - 1;
      AllTextSnoc(r[..m], Absorb(Arranger, r[m], x));
      assert r[..m] + [r[m]] == r;
      AllTextSnoc(r[..m], r[m]);
    } else {
      AllTextSnoc(r, x);
    }
  }

  function Texts(xs: seq<Item>): (ts: seq<string>)
    ensures |ts| == |xs|
    decreases |xs|
  {
    if |xs| == 0 then [] else Texts(xs[..|xs| - 1]) + [xs[|xs| - 1].text]
  }

  lemma TextsSnoc(xs: seq<Item>, y: Item)
    ensures Texts(xs + [y]) == Texts(xs) + [y.text]
  {
    assert (xs + [y])[..|xs|] == xs;
  }

  lemma JoinSnoc(ps: seq<string>, x: string, sep: char)
    requires |ps| > 0
    ensures Join(ps + [x], sep) == Join(ps, sep) + [sep] + x
  {
    assert (ps + [x])[..|ps|] == ps;
  }

  predicate AllSpoken(xs: seq<Item>) { forall k :: 0 <= k < |xs| ==> xs[k].text != "" }

  /** The absorbing step of the current version keeps the texts joined by spaces. */
  lemma JoinAbsorb(r: seq<Item>, x: Item, front: seq<Item>)
    requires |r| > 0 && |front| > 0 && r[|r| - 1].text != "" && x.text != ""
    requires Join(Texts(r), ' ') == Join(Texts(front), ' ')
    ensures Join(Texts(r[..|r| - 1] + [Absorb(Processor, r[|r| - 1], x)]), ' ') == Join(Texts(front + [x]), ' ')
  {
    var m := |r| - 1;
    var y := Absorb(Processor, r[m], x);
    var head := Texts(r[..m]);
    assert y.text == r[m].text + [' '] + x.text;
    TextsSnoc(r[..m], y);
    assert r[..m] + [r[m]] == r;
    TextsSnoc(r[..m], r[m]);
    TextsSnoc(front, x);
    JoinSnoc(Texts(front), x.text, ' ');
    JoinAfter(head, r[m].text, x.text);
  }

  /** Appending " " + b to the last of the joined pieces is joining one more piece b. */
  lemma JoinAfter(head: seq<string>, a: string, b: string)
    ensures Join(head + [a + [' '] + b], ' ') == Join(head + [a], ' ') + [' '] + b
  {
    if |head| > 0 {
      JoinSnoc(head, a + [' '] + b, ' ');
      JoinSnoc(head, a, ' ');
      var j := Join(head, ' ');
      assert j + [' '] + (a + [' '] + b) == j + [' '] + a + [' '] + b;
    } else {
      assert head + [a + [' '] + b] == [a + [' '] + b];
      assert head + [a] == [a];
    }
  }

  /** Appending a new run keeps the texts joined by spaces. */
  lemma JoinAppend(r: seq<Item>, x: Item, front: seq<Item>)
    requires |r| == 0 <==> |front| == 0
    requires Join(Texts(r), ' ') == Join(Texts(front), ' ')
    ensures Join(Texts(r + [x]), ' ') == Join(Texts(front + [x]), ' ')
  {
    TextsSnoc(r, x);
    TextsSnoc(front, x);
    if |r| > 0 {
      JoinSnoc(Texts(r), x.text, ' ');
      JoinSnoc(Texts(front), x.text, ' ');
    }
  }

  lemma AllSpokenSnoc(a: seq<Item>, y: Item)
    requires AllSpoken(a) && y.text != ""
    ensures AllSpoken(a + [y])
  {
    forall k | 0 <= k < |a| + 1 ensures (a + [y])[k].text != "" {
      if k < |a| {
        assert (a + [y])[k] == a[k];
      }
    }
  }

  /**
   * The current version joins the texts of a run with single spaces: when
   * every text is non-empty, the merged texts joined by spaces are the
   * original texts joined by spaces, and no merged text is empty.
   */
  lemma {:induction false} ProcessorMergeJoinsWithSpaces(items: seq<Item>)
    requires AllSpoken(items)
    ensures AllSpoken(MergeSimilar(Processor, items))
    ensures Join(Texts(MergeSimilar(Processor, items)), ' ') == Join(Texts(items), ' ')
    decreases |items|
  {
    if |items| > 0 {
      var front := items[..|items| - 1];
      var x := items[|items| - 1];
      assert items == front + [x];
      assert AllSpoken(front);
      ProcessorMergeJoinsWithSpaces(front);
      var r := MergeSimilar(Processor, front);
      assert MergeSimilar(Processor, items) == MergeNext(Processor, r, x);
      ProcessorMergeNextJoins(r, x, front);
    }
  }

  lemma ProcessorMergeNextJoins(r: seq<Item>, x: Item, front: seq<Item>)
    requires AllSpoken(r) && x.text != "" && (|r| == 0 <==> |front| == 0)
    requires Join(Texts(r), ' ') == Join(Texts(front), ' ')
    ensures AllSpoken(MergeNext(Processor, r, x))
    ensures Join(Texts(MergeNext(Processor, r, x)), ' ') == Join(Texts(front + [x]), ' ')
  {
    if |r| > 0 && SameVoice(r[|r| - 1], x) {
      JoinAbsorb(r, x, front);
      assert AllSpoken(r[..|r| - 1]);
      AllSpokenSnoc(r[..|r| - 1], Absorb(Processor, r[|r| - 1], x));
    } else {
      JoinAppend(r, x, front);
      AllSpokenSnoc(r, x);
    }
  }

  /**
   * The current version's join needs both texts non-empty: a run that starts
   * with an empty text keeps it empty, so the text of the item it absorbs is
   * lost (its length is still added).
   */
  lemma ProcessorEmptyRunSwallowsText(x: Item, y: Item)
    requires x.text == "" && SameVoice(x, y)
    ensures MergeSimilar(Processor, [x, y]) == [x.(length := x.length + y.length)]
  {
    var xs := [x, y];
    MergeSimilarSnoc(Processor, xs, 0);
    MergeSimilarSnoc(Processor, xs, 1);
    assert xs[..0] == [] && xs[..1] == [] + [x] && xs[..2] == xs;
    MergeNextOfRun(Processor, [], x, y);
  }

  // ---------------------------------------------------------------------
  // Recognising delimiters in _break_items

  /**
   * `_get_character` returns '' outside the text, and '' is in every string:
   * a position before the lowest one read (index 0 now, 1 in the older
   * snapshot) or past the end is always a boundary; inside, the character
   * must be ASCII punctuation or a space.
   */
  lemma BoundaryCases(v: Variant, t: string, pos: int)
    ensures pos < Lowest(v) || pos >= |t| ==> Boundary(v, t, pos)
    ensures Lowest(v) <= pos < |t| ==> (Boundary(v, t, pos) <==> IsPunctOrBlank(t[pos]))
  {
  }

  /** In the older snapshot an opener at index 1 counts whatever stands at index 0. */
  lemma ArrangerOpenerAtOne(t: string)
    ensures Boundary(Arranger, t, 0)
    ensures |t| > 0 && !IsPunctOrBlank(t[0]) ==> !Boundary(Processor, t, 0)
  {
  }

  /**
   * A delimiter of two characters never equals the one character it is
   * compared with, so such a pair never splits: `found` and `isOpen` stay
   * as they were.
   */
  lemma StepWithLongDelimiters(v: Variant, t: string, b: Bracket, pausePre: int, w: Walk, i: nat, piece: Item)
    requires i < |t| && |b.open| != 1 && |b.close| != 1
    ensures StepWith(v, t, b, pausePre, w, i, piece).found == w.found
    ensures StepWith(v, t, b, pausePre, w, i, piece).isOpen == w.isOpen
  {
    assert [t[i]] != b.open && [t[i]] != b.close;
  }

  lemma {:induction false} LongDelimitersNeverMatch(v: Variant, it: Item, b: Bracket, pausePre: int, w0: Walk, n: nat)
    requires n <= |it.text| && |b.open| != 1 && |b.close| != 1
    ensures var w := WalkChars(v, it, b, pausePre, w0, n); w.found == w0.found && w.isOpen == w0.isOpen
    decreases n
  {
    if n > 0 {
      LongDelimitersNeverMatch(v, it, b, pausePre, w0, n - 1);
      var w := WalkChars(v, it, b, pausePre, w0, n - 1);
      StepWithLongDelimiters(v, it.text, b, pausePre, w, n - 1, it.(text := Strip(Slice(it.text, w.pos, n - 1))));
    }
  }

  lemma SpacedEnDashesNeverSplit(v: Variant, it: Item, pausePre: int, w0: Walk)
    ensures !w0.found ==> !WalkChars(v, it, SpacedEnDashes, pausePre, w0, |it.text|).found
  {
    LongDelimitersNeverMatch(v, it, SpacedEnDashes, pausePre, w0, |it.text|);
  }

  // ---------------------------------------------------------------------
  // The final pass

  lemma NormaliseKeepsPlain(s: string)
    requires forall k :: 0 <= k < |s| ==> NormalChar(s[k]) == s[k]
    ensures Normalise(s) == s
  {
  }

  /** A word that starts with no punctuation and has solid ends survives the strips. */
  lemma CoreOfSolidWord(s: string)
    requires |s| > 0 && !IsSpace(s[0]) && !IsSpace(s[|s| - 1]) && !IsPunct(s[0])
    ensures Core(s) == s
  {
    StripKeepsSolidEnds(s);
    assert LeadCount(s, IsPunct) == 0;
    assert LStrip(s, IsPunct) == s;
  }

  /**
   * Polishing a text without dashes or curly quotes that is a solid word `w`
   * followed by a run `tail` of punctuation and blanks: the older snapshot
   * keeps the first character of the run, the current version none of it.
   */
  lemma PolishWordWithTail(w: string, tail: string)
    requires |w| > 0 && forall k :: 0 <= k < |w| ==> IsAsciiAlnum(w[k])
    requires |tail| > 0 && IsPunct(tail[0]) && forall k :: 0 <= k < |tail| ==> IsPunctOrBlank(tail[k])
    ensures Polish(Arranger, VctkModel, w + tail) == w + [tail[0]]
    ensures Polish(Processor, VctkModel, w + tail) == w
  {
    var s := w + tail;
    PlainWordWithTail(w, tail);
    TrimWordWithTail(w, tail);
    var t := w + [tail[0]];
    assert t[0] == w[0] && t[|t| - 1] == tail[0];
    assert !IsSpace(tail[0]) && IsAsciiAlnum(w[0]) && !IsSpace(w[|w| - 1]);
    PolishWhenTrimmedToWord(Arranger, s, t);
    PolishWhenTrimmedToWord(Processor, s, w);
  }

  lemma PlainWordWithTail(w: string, tail: string)
    requires forall k :: 0 <= k < |w| ==> IsAsciiAlnum(w[k])
    requires forall k :: 0 <= k < |tail| ==> IsPunctOrBlank(tail[k])
    ensures Normalise(w + tail) == w + tail
  {
    var s := w + tail;
    forall k | 0 <= k < |s| ensures NormalChar(s[k]) == s[k] {
      if k < |w| {
        assert s[k] == w[k];
      } else {
        assert s[k] == tail[k - |w|];
      }
    }
    NormaliseKeepsPlain(s);
  }

  lemma TrimWordWithTail(w: string, tail: string)
    requires |w| > 0 && IsAsciiAlnum(w[|w| - 1])
    requires |tail| > 0 && forall k :: 0 <= k < |tail| ==> IsPunctOrBlank(tail[k])
    ensures Trim(Arranger, w + tail) == w + [tail[0]]
    ensures Trim(Processor, w + tail) == w
  {
    var s := w + tail;
    KeepCountOfTail(w, tail, IsPunctOrBlank);
    assert s[..|w| + 1] == w + [tail[0]] && s[..|w|] == w;
  }

  lemma PolishWhenTrimmedToWord(v: Variant, s: string, t: string)
    requires Normalise(s) == s && Trim(v, s) == t
    requires |t| > 0 && IsAsciiAlnum(t[0]) && !IsSpace(t[|t| - 1])
    ensures Polish(v, VctkModel, s) == t
  {
    CoreOfSolidWord(t);
  }

  /** The repository's tests: the older snapshot keeps the first trailing mark, the current one none. */
  lemma SicExample()
    ensures Polish(Arranger, VctkModel, "sic!].") == "sic!"
    ensures Polish(Processor, VctkModel, "sic!].") == "sic"
  {
    assert "sic!]." == "sic" + "!].";
    PolishWordWithTail("sic", "!].");
  }

  lemma CandleExample()
    ensures Polish(Arranger, VctkModel, "candle- ?, ?") == "candle-"
    ensures Polish(Processor, VctkModel, "candle- ?, ?") == "candle"
  {
    assert "candle- ?, ?" == "candle" + "- ?, ?";
    PolishWordWithTail("candle", "- ?, ?");
  }

  lemma LStripKeepsLast(s: string, drop: char -> bool)
    requires |s| > 0 && !drop(s[|s| - 1])
    ensures var l := LStrip(s, drop); |l| > 0 && l[|l| - 1] == s[|s| - 1]
  {
  }

  /**
   * With the default VCTK model the current version strips every trailing
   * punctuation mark and blank before the sentence pause is chosen: a
   * polished text can end in punctuation, and so earn a 750 or 1000 ms pause,
   * only when the trimmed text ends in whitespace other than a blank.
   */
  lemma ProcessorSentencePauseNeedsOtherWhitespace(s: string)
    ensures var t := Trim(Processor, Normalise(s));
      var r := Polish(Processor, VctkModel, s);
      |r| > 0 && IsPunct(r[|r| - 1]) ==> |t| > 0 && IsSpace(t[|t| - 1]) && t[|t| - 1] != ' '
  {
    var t := Trim(Processor, Normalise(s));
    assert Polish(Processor, VctkModel, s) == Core(t);
    if |t| > 0 && !IsSpace(t[|t| - 1]) {
      CoreKeepsLast(t);
    }
  }

  /** The strips keep a last character that is neither whitespace nor punctuation. */
  lemma CoreKeepsLast(t: string)
    requires |t| > 0 && !IsSpace(t[|t| - 1]) && !IsPunct(t[|t| - 1])
    ensures var c := Core(t); |c| > 0 && c[|c| - 1] == t[|t| - 1]
  {
    StripKeepsLast(t);
    LStripKeepsLast(Strip(t), IsPunct);
    StripKeepsLast(LStrip(Strip(t), IsPunct));
  }
}
