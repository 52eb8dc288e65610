/**
 * Properties of the oldest segmenter snapshot: the voice it gives its
 * output, the bracket pair it never splits at, the `opened` flag that
 * crosses item boundaries, and the empty fragments `_break_single` emits.
 */
module LegacyProps {
  import opened Wrappers
  import opened Text
  import opened Scan
  import S = Segmenter
  import opened LegacyConvert

  predicate SpokenBy(xs: seq<LegacyItem>, sp: string) {
    forall k :: 0 <= k < |xs| ==> xs[k].speaker == sp
  }

  /** Spoken by `sp` with the default speaker index -1. */
  predicate Voiced(xs: seq<LegacyItem>, sp: string) {
    forall k :: 0 <= k < |xs| ==> xs[k].speaker == sp && xs[k].speakerIdx == -1
  }

  lemma VoicedConcat(a: seq<LegacyItem>, b: seq<LegacyItem>, sp: string)
    requires Voiced(a, sp) && Voiced(b, sp)
    ensures Voiced(a + b, sp)
  {
    assert forall k :: |a| <= k < |a + b| ==> (a + b)[k] == b[k - |a|];
  }

  // ---------------------------------------------------------------------
  // The voice of the output

  /** `_break_single` builds fresh items: the speaker is copied, the speaker index falls back to -1. */
  lemma BreakSingleItemVoiced(it: LegacyItem, d: Delim, keep: bool, stripSilence: bool, pausePost: int)
    ensures Voiced(BreakSingleItem(it, Some(d), keep, stripSilence, pausePost), it.speaker)
  {
    var r := BreakSingleItem(it, Some(d), keep, stripSilence, pausePost);
    var ms := Matches(it.text, d);
    forall k | 0 <= k < |r| ensures r[k].speaker == it.speaker && r[k].speakerIdx == -1 {
      if k < |ms| {
        assert r[k] == r[..|ms|][k];
      }
    }
  }

  lemma {:induction false} BreakSingleVoiced(items: seq<LegacyItem>, breakAt: Option<Delim>, keep: bool, stripSilence: bool,
                                             pausePost: int, sp: string)
    requires SpokenBy(items, sp)
    ensures Voiced(BreakSingle(items, breakAt, keep, stripSilence, pausePost), sp)
    decreases |items|
  {
    if |items| > 0 {
      var front := items[..|items| - 1];
      var last := items[|items| - 1];
      BreakSingleVoiced(front, breakAt, keep, stripSilence, pausePost, sp);
      if breakAt.Some? {
        BreakSingleItemVoiced(last, breakAt.value, keep, stripSilence, pausePost);
      }
      VoicedConcat(BreakSingle(front, breakAt, keep, stripSilence, pausePost), BreakSingleItem(last, breakAt, keep, stripSilence, pausePost), sp);
    }
  }

  lemma LStepVoiced(t: string, b: S.Bracket, pausePre: int, pausePost: int, w: LWalk, idx: nat, piece: LegacyItem, sp: string)
    requires idx < |t| && Voiced(w.out, sp) && piece.speaker == sp && piece.speakerIdx == -1
    ensures Voiced(LStepWith(t, b, pausePre, pausePost, w, idx, piece).out, sp)
  {
  }

  lemma {:induction false} LWalkCharsVoiced(it: LegacyItem, b: S.Bracket, pausePre: int, pausePost: int, w0: LWalk, n: nat)
    requires n <= |it.text| && Voiced(w0.out, it.speaker) && it.speakerIdx == -1
    ensures Voiced(LWalkChars(it, b, pausePre, pausePost, w0, n).out, it.speaker)
    decreases n
  {
    if n > 0 {
      LWalkCharsVoiced(it, b, pausePre, pausePost, w0, n - 1);
      LWalkStepVoiced(it, b, pausePre, pausePost, w0, n - 1, LWalkChars(it, b, pausePre, pausePost, w0, n - 1));
    }
  }

  lemma LWalkStepVoiced(it: LegacyItem, b: S.Bracket, pausePre: int, pausePost: int, w0: LWalk, n: nat, w: LWalk)
    requires n < |it.text| && LWalkChars(it, b, pausePre, pausePost, w0, n) == w
    requires Voiced(w.out, it.speaker) && it.speakerIdx == -1
    ensures Voiced(LWalkChars(it, b, pausePre, pausePost, w0, n + 1).out, it.speaker)
  {
    LWalkCharsStep(it, b, pausePre, pausePost, w0, n, w);
    LStepVoiced(it.text, b, pausePre, pausePost, w, n, it.(text := Strip(Slice(it.text, w.pos, n))), it.speaker);
  }

  /** `_break_speakers` copies the item it splits: every output keeps the voice of its input. */
  lemma {:induction false} BreakSpeakersVoiced(items: seq<LegacyItem>, b: S.Bracket, pausePre: int, pausePost: int, sp: string)
    requires Voiced(items, sp)
    ensures Voiced(BreakSpeakers(items, b, pausePre, pausePost), sp)
    decreases |items|
  {
    if |items| > 0 {
      var front := items[..|items| - 1];
      var it := items[|items| - 1];
      BreakSpeakersVoiced(front, b, pausePre, pausePost, sp);
      var p := BreakSpeakersFrom(front, b, pausePre, pausePost);
      LWalkCharsVoiced(it, b, pausePre, pausePost, LWalk(p.out, p.isOpen, 0), |it.text|);
    }
  }

  lemma FinishVoiced(items: seq<LegacyItem>, sp: string)
    requires Voiced(items, sp)
    ensures Voiced(Finish(items), sp)
  {
  }

  lemma AdjustLastVoiced(items: seq<LegacyItem>, pausePre: int, pausePost: int, sp: string)
    requires Voiced(items, sp)
    ensures Voiced(AdjustLast(items, pausePre, pausePost), sp)
  {
    var r := AdjustLast(items, pausePre, pausePost);
    forall k | 0 <= k < |r| ensures r[k].speaker == sp && r[k].speakerIdx == -1 {
      if k < |r| - 1 {
        assert r[k] == r[..|items| - 1][k];
      }
    }
  }

  /**
   * Every item `prepare_item` returns is spoken by the speaker of the item it
   * was given, and carries the default speaker index -1 whatever index that
   * item had: the first `_break_single` pass rebuilds every fragment.
   */
  lemma LegacyPrepareVoiced(clean: string -> string, it: LegacyItem)
    ensures Voiced(LegacyPrepare(clean, it), it.speaker)
  {
    var sp := it.speaker;
    var a := BreakSingle([it.(text := clean(it.text))], Some(Newline), false, true, 250);
    BreakSingleVoiced([it.(text := clean(it.text))], Some(Newline), false, true, 250, sp);
    var b := BreakSingle(a, Some(SentenceBreak), true, true, 0);
    BreakSingleVoiced(a, Some(SentenceBreak), true, true, 0, sp);
    var c := BreakSingle(b, Some(ColonBreak), false, true, 150);
    BreakSingleVoiced(b, Some(ColonBreak), false, true, 150, sp);
    var d := BreakSingle(c, Some(DashBreak), false, true, 150);
    BreakSingleVoiced(c, Some(DashBreak), false, true, 150, sp);
    var e := BreakSpeakers(d, S.Parentheses, 300, 300);
    BreakSpeakersVoiced(d, S.Parentheses, 300, 300, sp);
    var f := BreakSpeakers(e, S.EmDashes, 300, 300);
    BreakSpeakersVoiced(e, S.EmDashes, 300, 300, sp);
    var g := BreakSpeakers(f, S.SpacedEnDashes, 300, 300);
    BreakSpeakersVoiced(f, S.SpacedEnDashes, 300, 300, sp);
    var h := BreakSpeakers(g, S.Asterisks, 0, 0);
    BreakSpeakersVoiced(g, S.Asterisks, 0, 0, sp);
    assert LegacyPasses([it.(text := clean(it.text))]) == h;
    FinishVoiced(h, sp);
    AdjustLastVoiced(Finish(h), it.pausePre, it.pausePost, sp);
  }

  // ---------------------------------------------------------------------
  // Spaced en dashes

  lemma LStepSpacedEnDashes(t: string, pausePre: int, pausePost: int, w: LWalk, idx: nat, piece: LegacyItem)
    requires idx < |t|
    ensures |LStepWith(t, S.SpacedEnDashes, pausePre, pausePost, w, idx, piece).out| == |w.out|
  {
    assert [t[idx]] != S.SpacedEnDashes.open && [t[idx]] != S.SpacedEnDashes.close;
  }

  lemma {:induction false} LWalkCharsSpacedEnDashes(it: LegacyItem, pausePre: int, pausePost: int, w0: LWalk, n: nat)
    requires n <= |it.text|
    ensures |LWalkChars(it, S.SpacedEnDashes, pausePre, pausePost, w0, n).out| == |w0.out|
    decreases n
  {
    if n > 0 {
      LWalkCharsSpacedEnDashes(it, pausePre, pausePost, w0, n - 1);
      var w := LWalkChars(it, S.SpacedEnDashes, pausePre, pausePost, w0, n - 1);
      LStepSpacedEnDashes(it.text, pausePre, pausePost, w, n - 1, it.(text := Strip(Slice(it.text, w.pos, n - 1))));
    }
  }

  /**
   * The pair ('– ', ' –') is two characters wide while the character loop
   * compares it with one character at a time: the pass never splits an item,
   * it can only glue punctuation onto the previous one.
   */
  lemma {:induction false} SpacedEnDashesNeverSplit(items: seq<LegacyItem>, pausePre: int, pausePost: int)
    ensures |BreakSpeakers(items, S.SpacedEnDashes, pausePre, pausePost)| <= |items|
    decreases |items|
  {
    if |items| > 0 {
      var front := items[..|items| - 1];
      var it := items[|items| - 1];
      SpacedEnDashesNeverSplit(front, pausePre, pausePost);
      var p := BreakSpeakersFrom(front, S.SpacedEnDashes, pausePre, pausePost);
      LWalkCharsSpacedEnDashes(it, pausePre, pausePost, LWalk(p.out, p.isOpen, 0), |it.text|);
    }
  }

  // ---------------------------------------------------------------------
  // Concrete traces

  /**
   * `opened` is set once per call, not per item: after an item holding a
   * lone '*', a following "*x" is taken to close the pair, fails the
   * neighbour test and comes out unsplit; on its own the same item opens a
   * pair and loses its '*'.
   */
  lemma OpenedCarriesOver()
    ensures var b := Make("*x", "", 0, 0, true);
      BreakSpeakers([b], S.Asterisks, 0, 0) == [b.(text := "x")]
    ensures var a := Make("*", "", 0, 0, true);
      var b := Make("*x", "", 0, 0, true);
      BreakSpeakers([a, b], S.Asterisks, 0, 0) == [b]
  {
    var a := Make("*", "", 0, 0, true);
    var b := Make("*x", "", 0, 0, true);
    var p0 := LPass([], false);
    // b on its own opens at index 0 and keeps "x" as the rest
    var wb := LWalkChars(b, S.Asterisks, 0, 0, LWalk([], false, 0), 1);
    assert S.Boundary(S.Arranger, b.text, -1);
    assert wb == LWalk([], true, 1);
    assert LWalkChars(b, S.Asterisks, 0, 0, LWalk([], false, 0), 2) == wb;
    assert Slice(b.text, 1, 2) == "x";
    assert Strip("x") == "x";
    assert [b][..0] == [];
    // after a, b's '*' is taken as a closer; 'x' follows, so nothing happens
    var wa := LWalkChars(a, S.Asterisks, 0, 0, LWalk([], false, 0), 1);
    assert wa == LWalk([], true, 1);
    assert Slice(a.text, 1, 1) == "";
    assert BreakSpeakersFrom([a], S.Asterisks, 0, 0) == LPass([], true) by {
      assert [a][..0] == [];
    }
    assert !S.Boundary(S.Arranger, b.text, 1);
    var wc := LWalkChars(b, S.Asterisks, 0, 0, LWalk([], true, 0), 1);
    assert wc == LWalk([], true, 0);
    assert LWalkChars(b, S.Asterisks, 0, 0, LWalk([], true, 0), 2) == wc;
    assert Slice(b.text, 0, 2) == "*x";
    assert Strip("*x") == "*x";
    assert [a, b][..1] == [a];
  }

  /**
   * Two line feeds in a row: unlike the later snapshots, `_break_single`
   * emits the empty text between them as an item of its own.
   */
  lemma BlankLineYieldsEmptyItem(it: LegacyItem)
    requires it.text == "a\n\nb"
    ensures BreakSingleItem(it, Some(Newline), false, true, 250)
      == [Make("a", it.speaker, 0, 250, true), Make("", it.speaker, 0, 250, true),
          Make("b", it.speaker, it.pausePre, it.pausePost, it.stripSilence)]
  {
    var t := it.text;
    assert Find(t, Newline, 3, 4) == None;
    assert Find(t, Newline, 3, 3) == None;
    assert MatchesFrom(t, Newline, 3) == [];
    assert Find(t, Newline, 2, 2) == Some(Match(2, 2, 3));
    assert MatchesFrom(t, Newline, 2) == [Match(2, 2, 3)];
    assert Find(t, Newline, 0, 1) == Some(Match(0, 1, 2));
    assert Find(t, Newline, 0, 0) == Some(Match(0, 1, 2));
    var ms := Matches(t, Newline);
    assert ms == [Match(0, 1, 2), Match(2, 2, 3)];
    assert Slice(t, 0, 1) == "a";
    assert Slice(t, 2, 2) == "";
    assert Slice(t, 3, 4) == "b";
    assert Strip("b") == "b";
  }
}
