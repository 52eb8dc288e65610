/**
 * What the dict passes of json_processor.py guarantee: the merge separates
 * speakers and loses neither length nor text, `optimize` is idempotent and
 * never caps the pauses that the project mapping writes, `preprocess` leaves
 * no bracket, ellipsis or long dash behind.
 */
module ConsolidatorProps {
  import opened Wrappers
  import opened Text
  import opened Consolidator
  import I = Items

  /** No two neighbours share a speaker id. */
  predicate Separated(xs: seq<Entry>)
  {
    forall k :: 0 < k < |xs| ==> SpeakerOf(xs[k - 1]) != SpeakerOf(xs[k])
  }

  predicate NoEmpty(xs: seq<Entry>) { forall k :: 0 <= k < |xs| ==> !IsEmpty(xs[k]) }

  predicate AllKept(xs: seq<Entry>) { forall k :: 0 <= k < |xs| ==> Keep(xs[k]) }

  /** The merge loop only has no open run before its first item. */
  predicate Opened(st: Run) { st.merged.None? ==> st.final == [] }

  lemma KeptIsNotEmpty(e: Entry)
    requires Keep(e)
    ensures !IsEmpty(e)
  {
  }

  /** The loop's state after one step, flushed, branch by branch. */
  lemma FlushStep(st: Run, t: Entry)
    ensures st.merged.None? ==> Flush(st) == st.final && Flush(MergeStep(st, t)) == st.final + [t]
    ensures st.merged.Some? ==> Flush(st) == st.final + [st.merged.value]
    ensures st.merged.Some? && IsEmpty(st.merged.value) ==> Flush(MergeStep(st, t)) == st.final + [t]
    ensures st.merged.Some? && !IsEmpty(st.merged.value) && SpeakerOf(st.merged.value) == SpeakerOf(t)
      ==> Flush(MergeStep(st, t)) == st.final + [Combine(st.merged.value, t)]
    ensures st.merged.Some? && !IsEmpty(st.merged.value) && SpeakerOf(st.merged.value) != SpeakerOf(t)
      ==> Flush(MergeStep(st, t)) == Flush(st) + [t]
  {
  }

  // ---------------------------------------------------------------------
  // Runs of one speaker become one dict

  lemma MergeStepSeparates(st: Run, t: Entry)
    requires Opened(st) && Separated(Flush(st)) && NoEmpty(Flush(st)) && !IsEmpty(t)
    ensures var st' := MergeStep(st, t);
      Opened(st') && st'.merged.Some? && Separated(Flush(st')) && NoEmpty(Flush(st'))
  {
    if st.merged.Some? {
      var m := st.merged.value;
      assert Flush(st) == st.final + [m];
      assert Flush(st)[|st.final|] == m;
      if SpeakerOf(m) == SpeakerOf(t) {
        var xs := st.final + [Combine(m, t)];
        assert Flush(MergeStep(st, t)) == xs;
        assert forall k :: 0 <= k < |st.final| ==> xs[k] == Flush(st)[k];
      } else {
        assert Flush(MergeStep(st, t)) == Flush(st) + [t];
      }
    }
  }

  /** Given no falsy dict, the merged list has no two neighbours with one speaker id. */
  lemma {:induction false} MergeSeparates(items: seq<Entry>)
    requires NoEmpty(items)
    ensures Opened(MergeFrom(items)) && (|items| > 0 ==> MergeFrom(items).merged.Some?)
    ensures Separated(MergeItems(items)) && NoEmpty(MergeItems(items))
    decreases |items|
  {
    if |items| > 0 {
      var front := items[..|items| - 1];
      var x := items[|items| - 1];
      assert MergeFrom(items) == MergeStep(MergeFrom(front), x);
      MergeSeparates(front);
      MergeStepSeparates(MergeFrom(front), x);
    }
  }

  /** A list that is already separated is a fixed point of the merge. */
  lemma {:induction false} MergeOfSeparated(xs: seq<Entry>)
    requires NoEmpty(xs) && Separated(xs)
    ensures MergeFrom(xs) == if |xs| == 0 then Run([], None) else Run(xs[..|xs| - 1], Some(xs[|xs| - 1]))
    ensures MergeItems(xs) == xs
    decreases |xs|
  {
    if |xs| > 0 {
      var front := xs[..|xs| - 1];
      var x := xs[|xs| - 1];
      assert MergeFrom(xs) == MergeStep(MergeFrom(front), x);
      assert forall k :: 0 <= k < |front| ==> front[k] == xs[k];
      MergeOfSeparated(front);
      if |front| > 0 {
        assert SpeakerOf(front[|front| - 1]) != SpeakerOf(x);
        assert front[..|front| - 1] + [front[|front| - 1]] == front;
      }
      assert xs == front + [x];
    }
  }

  /** A falsy dict opening the list is replaced by the next item, never emitted. */
  lemma {:induction false} FalsyHeadDropped(rest: seq<Entry>)
    requires |rest| > 0
    ensures MergeFrom([EmptyEntry] + rest) == MergeFrom(rest)
    decreases |rest|
  {
    var xs := [EmptyEntry] + rest;
    var x := rest[|rest| - 1];
    assert xs[..|xs| - 1] == [EmptyEntry] + rest[..|rest| - 1];
    assert MergeFrom(xs) == MergeStep(MergeFrom([EmptyEntry] + rest[..|rest| - 1]), x);
    if |rest| == 1 {
      assert [EmptyEntry] + rest[..0] == [EmptyEntry];
      assert MergeFrom([EmptyEntry]) == Run([], Some(EmptyEntry)) by {
        assert [EmptyEntry][..0] == [];
      }
      assert MergeFrom(rest) == MergeStep(Run([], None), x) by {
        assert rest[..0] == [];
      }
    } else {
      FalsyHeadDropped(rest[..|rest| - 1]);
    }
  }

  // ---------------------------------------------------------------------
  // Nothing of the length or the text is lost

  function Total(xs: seq<Entry>): int
    decreases |xs|
  {
    if |xs| == 0 then 0 else Total(xs[..|xs| - 1]) + MinOf(xs[|xs| - 1])
  }

  lemma TotalSnoc(xs: seq<Entry>, x: Entry)
    ensures Total(xs + [x]) == Total(xs) + MinOf(x)
  {
    assert (xs + [x])[..|xs|] == xs;
  }

  lemma MergeStepTotal(st: Run, t: Entry)
    ensures Total(Flush(MergeStep(st, t))) == Total(Flush(st)) + MinOf(t)
  {
    FlushStep(st, t);
    TotalSnoc(st.final, t);
    if st.merged.Some? {
      var m := st.merged.value;
      TotalSnoc(st.final, m);
      if !IsEmpty(m) && SpeakerOf(m) == SpeakerOf(t) {
        TotalSnoc(st.final, Combine(m, t));
      } else if !IsEmpty(m) {
        TotalSnoc(st.final + [m], t);
      }
    }
  }

  /** Merging keeps the sum of all lengths, whatever the input. */
  lemma {:induction false} MergeKeepsTotal(items: seq<Entry>)
    ensures Total(MergeItems(items)) == Total(items)
    decreases |items|
  {
    if |items| > 0 {
      var front := items[..|items| - 1];
      var x := items[|items| - 1];
      assert MergeFrom(items) == MergeStep(MergeFrom(front), x);
      MergeKeepsTotal(front);
      MergeStepTotal(MergeFrom(front), x);
    }
  }

  predicate NonNegative(xs: seq<Entry>) { forall k :: 0 <= k < |xs| ==> MinOf(xs[k]) >= 0 }

  lemma MergeStepNonNegative(st: Run, t: Entry)
    requires NonNegative(Flush(st)) && MinOf(t) >= 0
    ensures NonNegative(Flush(MergeStep(st, t)))
  {
    FlushStep(st, t);
    var ys := Flush(MergeStep(st, t));
    if st.merged.Some? {
      var m := st.merged.value;
      assert Flush(st)[|st.final|] == m;
      assert forall k :: 0 <= k < |st.final| ==> st.final[k] == Flush(st)[k];
      if IsEmpty(m) || SpeakerOf(m) != SpeakerOf(t) {
        assert ys[|ys| - 1] == t;
        assert forall k :: 0 <= k < |ys| - 1 ==> ys[k] == Flush(st)[k];
      } else {
        assert ys[|ys| - 1] == Combine(m, t);
        assert forall k :: 0 <= k < |ys| - 1 ==> ys[k] == st.final[k];
      }
    }
  }

  lemma {:induction false} MergeKeepsNonNegative(items: seq<Entry>)
    requires NonNegative(items)
    ensures NonNegative(MergeItems(items))
    decreases |items|
  {
    if |items| > 0 {
      var front := items[..|items| - 1];
      var x := items[|items| - 1];
      assert MergeFrom(items) == MergeStep(MergeFrom(front), x);
      MergeKeepsNonNegative(front);
      MergeStepNonNegative(MergeFrom(front), x);
    }
  }

  /** The filter only drops lengths that are not positive, so with none negative it drops only zeros. */
  lemma {:induction false} DropEmptyTotal(items: seq<Entry>)
    ensures Total(DropEmpty(items)) >= Total(items)
    ensures NonNegative(items) ==> Total(DropEmpty(items)) == Total(items) && NonNegative(DropEmpty(items))
    decreases |items|
  {
    if |items| > 0 {
      var front := items[..|items| - 1];
      var x := items[|items| - 1];
      DropEmptyTotal(front);
      if Keep(x) {
        TotalSnoc(DropEmpty(front), x);
      }
    }
  }

  /** With nothing capped and no negative length, `optimize` keeps the total duration. */
  lemma OptimizeKeepsTotal(items: seq<Entry>)
    requires NonNegative(items)
    ensures Total(Optimize(items, 0)) == Total(items)
  {
    var a := MergeItems(items);
    MergeKeepsTotal(items);
    MergeKeepsNonNegative(items);
    var b := DropEmpty(a);
    DropEmptyTotal(a);
    var c := MergeItems(b);
    MergeKeepsTotal(b);
    assert ClampAll(c, 0) == c;
  }

  function Texts(xs: seq<Entry>): (r: seq<string>)
    ensures |r| == |xs| && forall k :: 0 <= k < |xs| ==> r[k] == TextOf(xs[k])
  {
    seq(|xs|, k requires 0 <= k < |xs| => TextOf(xs[k]))
  }

  lemma JoinSnoc(ps: seq<string>, p: string)
    ensures Join(ps + [p], ' ') == if |ps| == 0 then p else Join(ps, ' ') + " " + p
  {
    assert (ps + [p])[..|ps|] == ps;
  }

  /** The spoken text with single spaces between the dicts. */
  function Spoken(xs: seq<Entry>): string { Join(Texts(xs), ' ') }

  lemma SpokenSnoc(xs: seq<Entry>, x: Entry)
    ensures Spoken(xs + [x]) == if |xs| == 0 then TextOf(x) else Spoken(xs) + " " + TextOf(x)
  {
    assert Texts(xs + [x]) == Texts(xs) + [TextOf(x)];
    JoinSnoc(Texts(xs), TextOf(x));
  }

  lemma MergeStepSpoken(st: Run, t: Entry)
    requires Opened(st) && NoEmpty(Flush(st))
    ensures Spoken(Flush(MergeStep(st, t))) == if |Flush(st)| == 0 then TextOf(t) else Spoken(Flush(st)) + " " + TextOf(t)
  {
    SpokenSnoc(st.final, t);
    if st.merged.Some? {
      var m := st.merged.value;
      assert Flush(st)[|st.final|] == m;
      SpokenSnoc(st.final, m);
      if SpeakerOf(m) == SpeakerOf(t) {
        SpokenSnoc(st.final, Combine(m, t));
      } else {
        SpokenSnoc(st.final + [m], t);
      }
    }
  }

  /** Given no falsy dict, merging keeps the words in order with single spaces between the dicts. */
  lemma {:induction false} MergeKeepsSpoken(items: seq<Entry>)
    requires NoEmpty(items)
    ensures Spoken(MergeItems(items)) == Spoken(items)
    decreases |items|
  {
    if |items| > 0 {
      var front := items[..|items| - 1];
      var x := items[|items| - 1];
      assert MergeFrom(items) == MergeStep(MergeFrom(front), x);
      assert forall k :: 0 <= k < |front| ==> front[k] == items[k];
      MergeKeepsSpoken(front);
      MergeSeparates(front);
      MergeStepSpoken(MergeFrom(front), x);
      assert items == front + [x];
      SpokenSnoc(front, x);
    }
  }

  // ---------------------------------------------------------------------
  // optimize applied twice

  lemma KeepCombine(m: Entry, t: Entry)
    requires Keep(m) && Keep(t)
    ensures Keep(Combine(m, t))
  {
    StripEmptyIffBlank(TextOf(m));
    StripEmptyIffBlank(TextOf(t));
    StripEmptyIffBlank(TextOf(m) + " " + TextOf(t));
    BlankJoin(TextOf(m), TextOf(t));
  }

  lemma MergeStepKept(st: Run, t: Entry)
    requires AllKept(Flush(st)) && Keep(t)
    ensures AllKept(Flush(MergeStep(st, t)))
  {
    FlushStep(st, t);
    if st.merged.Some? {
      var m := st.merged.value;
      assert Flush(st)[|st.final|] == m;
      KeptIsNotEmpty(m);
      assert forall k :: 0 <= k < |st.final| ==> st.final[k] == Flush(st)[k];
      if SpeakerOf(m) == SpeakerOf(t) {
        KeepCombine(m, t);
      }
    }
  }

  lemma {:induction false} MergeKeepsKept(items: seq<Entry>)
    requires AllKept(items)
    ensures AllKept(MergeItems(items))
    decreases |items|
  {
    if |items| > 0 {
      var front := items[..|items| - 1];
      var x := items[|items| - 1];
      assert MergeFrom(items) == MergeStep(MergeFrom(front), x);
      MergeKeepsKept(front);
      MergeStepKept(MergeFrom(front), x);
    }
  }

  lemma {:induction false} DropEmptyOfKept(items: seq<Entry>)
    requires AllKept(items)
    ensures DropEmpty(items) == items
    decreases |items|
  {
    if |items| > 0 {
      var n := |items| - 1;
      var init := items[..n];
      assert AllKept(init) by {
        forall k | 0 <= k < |init| ensures Keep(init[k]) {
          assert init[k] == items[k];
        }
      }
      DropEmptyOfKept(init);
      DropEmptyStep(items, n);
      assert Keep(items[n]);
      assert items[..n + 1] == init + [items[n]] == items;
    }
  }

  /** What the second merge and the clamp leave behind. */
  lemma ClampKeepsShape(xs: seq<Entry>, maxPause: int)
    requires Separated(xs) && NoEmpty(xs) && AllKept(xs)
    ensures var ys := ClampAll(xs, maxPause);
      Separated(ys) && NoEmpty(ys) && AllKept(ys) && ClampAll(ys, maxPause) == ys
  {
    var ys := ClampAll(xs, maxPause);
    assert forall k :: 0 <= k < |xs| ==> SpeakerOf(ys[k]) == SpeakerOf(xs[k]);
  }

  /** `optimize` applied to its own output changes nothing, for any cap and any lengths. */
  lemma OptimizeIdempotent(items: seq<Entry>, maxPause: int)
    ensures Optimize(Optimize(items, maxPause), maxPause) == Optimize(items, maxPause)
  {
    var b := DropEmpty(MergeItems(items));
    assert NoEmpty(b) && AllKept(b);
    var c := MergeItems(b);
    MergeSeparates(b);
    MergeKeepsKept(b);
    var d := ClampAll(c, maxPause);
    ClampKeepsShape(c, maxPause);
    MergeOfSeparated(d);
    DropEmptyOfKept(d);
  }

  // ---------------------------------------------------------------------
  // The cap on pauses

  /** The dicts of a stored project: three pauses of 1000 ms under speaker id -1. */
  const StoredPause := Entry(None, Some(1000), Some(Num(-1)))

  /** Adjacent dicts with speaker id -1 form one run: texts joined, lengths added. */
  lemma ThreePausesMerge()
    ensures MergeItems([StoredPause, StoredPause, StoredPause]) == [Entry(Some("  "), Some(3000), Some(Num(-1)))]
  {
    var p := StoredPause;
    var one := Entry(Some(" "), Some(2000), Some(Num(-1)));
    var merged := Entry(Some("  "), Some(3000), Some(Num(-1)));
    assert [p, p, p][..2] == [p, p] && [p, p][..1] == [p] && [p][..0] == [];
    assert MergeFrom([p]) == Run([], Some(p));
    assert TextOf(p) == "" && "" + " " + "" == " " && " " + " " + "" == "  ";
    assert Combine(p, p) == one && Combine(one, p) == merged;
    assert MergeFrom([p, p]) == MergeStep(MergeFrom([p]), p) == Run([], Some(one));
    assert MergeFrom([p, p, p]) == MergeStep(MergeFrom([p, p]), p) == Run([], Some(merged));
  }

  /** A single dict that the filter keeps passes the filter and the second merge unchanged. */
  lemma SingleKept(e: Entry)
    requires Keep(e)
    ensures DropEmpty([e]) == [e] && MergeItems([e]) == [e]
  {
    assert [e][..0] == [];
    assert MergeFrom([e]) == MergeStep(Run([], None), e) == Run([], Some(e));
    assert DropEmpty([e]) == DropEmpty([]) + [e];
  }

  /** Before the cap, three adjacent 1000 ms pauses have become one of 3000 ms. */
  lemma ThreePausesBeforeCap()
    ensures MergeItems(DropEmpty(MergeItems([StoredPause, StoredPause, StoredPause])))
      == [Entry(Some("  "), Some(3000), Some(Num(-1)))]
  {
    var merged := Entry(Some("  "), Some(3000), Some(Num(-1)));
    ThreePausesMerge();
    assert MinOf(merged) == 3000;
    SingleKept(merged);
  }

  /** Under a 1500 ms cap the three pauses become one pause of 1500 ms. */
  lemma ThreePausesCapped()
    ensures Optimize([StoredPause, StoredPause, StoredPause], 1500) == [Entry(Some("  "), Some(1500), Some(Num(-1)))]
  {
    ThreePausesBeforeCap();
    var merged := Entry(Some("  "), Some(3000), Some(Num(-1)));
    assert ClampAll([merged], 1500) == [Clamp(merged, 1500)];
  }

  /** With no cap the merged pause keeps all 3000 ms. */
  lemma ThreePausesUncapped()
    ensures Optimize([StoredPause, StoredPause, StoredPause], 0) == [Entry(Some("  "), Some(3000), Some(Num(-1)))]
  {
    ThreePausesBeforeCap();
    var merged := Entry(Some("  "), Some(3000), Some(Num(-1)));
    assert ClampAll([merged], 0) == [merged];
  }

  predicate NoSpeaker(xs: seq<Entry>, sp: SpeakerId) { forall k :: 0 <= k < |xs| ==> SpeakerOf(xs[k]) != sp }

  lemma MergeStepNoSpeaker(st: Run, t: Entry, sp: SpeakerId)
    requires NoSpeaker(Flush(st), sp) && SpeakerOf(t) != sp
    ensures NoSpeaker(Flush(MergeStep(st, t)), sp)
  {
    FlushStep(st, t);
    if st.merged.Some? {
      assert Flush(st)[|st.final|] == st.merged.value;
      assert forall k :: 0 <= k < |st.final| ==> st.final[k] == Flush(st)[k];
    }
  }

  /** A merged dict always carries the speaker id of one of the inputs. */
  lemma {:induction false} MergeKeepsNoSpeaker(items: seq<Entry>, sp: SpeakerId)
    requires NoSpeaker(items, sp)
    ensures NoSpeaker(MergeItems(items), sp)
    decreases |items|
  {
    if |items| > 0 {
      var front := items[..|items| - 1];
      var x := items[|items| - 1];
      assert MergeFrom(items) == MergeStep(MergeFrom(front), x);
      MergeKeepsNoSpeaker(front, sp);
      MergeStepNoSpeaker(MergeFrom(front), x, sp);
    }
  }

  /**
   * The dicts the project mapping writes have a string speaker id or none,
   * never the integer -1, so no cap ever applies to them.
   */
  lemma MappedPausesNeverCapped(items: seq<I.Item>, maxPause: int)
    ensures Optimize(ItemsToEntries(items), maxPause) == Optimize(ItemsToEntries(items), 0)
  {
    var xs := ItemsToEntries(items);
    assert NoSpeaker(xs, Num(-1));
    MergeKeepsNoSpeaker(xs, Num(-1));
    var a := MergeItems(xs);
    var b := DropEmpty(a);
    forall k | 0 <= k < |b| ensures SpeakerOf(b[k]) != Num(-1) {
      DropEmptyKeepsExactly(a, b[k]);
    }
    MergeKeepsNoSpeaker(b, Num(-1));
    var c := MergeItems(b);
    assert forall k :: 0 <= k < |c| ==> Clamp(c[k], maxPause) == c[k] == Clamp(c[k], 0);
  }

  // ---------------------------------------------------------------------
  // preprocess

  /** Stripping never brings in a character. */
  lemma {:induction false} StripKeepsAbsent(s: string, c: char)
    requires c !in s
    ensures c !in Strip(s)
    decreases |s|
  {
    if |s| > 0 && IsSpace(s[0]) {
      StripKeepsAbsent(s[1..], c);
    } else if |s| > 0 && IsSpace(s[|s| - 1]) {
      StripKeepsAbsent(s[..|s| - 1], c);
    }
  }

  /** Characters that never occur in a rewritten text. */
  predicate Rewritten(c: char) { c == '(' || c == ')' || c == '\U{2026}' || c == '\U{2014}' }

  /**
   * A rewritten text has no bracket, ellipsis or em dash, ends in exactly
   * one space, and holds nothing but that space when the text was blank.
   */
  lemma PrepTextShape(s: string)
    ensures var r := PrepText(s);
      |r| >= 1 && r[|r| - 1] == ' ' && (|r| >= 2 ==> !IsSpace(r[|r| - 2]))
      && forall k :: 0 <= k < |r| ==> !Rewritten(r[k])
  {
    var a := Replace(s, " \U{2013} ", " - ");
    var b := Replace(a, "\U{2014}", " - ");
    var c := Replace(b, " - ", "\n\n");
    var d := Replace(c, "(", "\n\n");
    var e := Replace(d, ")", "\n\n");
    var f := Replace(e, "\U{2026}", "\n\n");
    ReplaceRemoves(a, '\U{2014}', " - ");
    ReplaceKeepsAbsent(b, " - ", "\n\n", '\U{2014}');
    ReplaceKeepsAbsent(c, "(", "\n\n", '\U{2014}');
    ReplaceKeepsAbsent(d, ")", "\n\n", '\U{2014}');
    ReplaceKeepsAbsent(e, "\U{2026}", "\n\n", '\U{2014}');
    ReplaceRemoves(c, '(', "\n\n");
    ReplaceKeepsAbsent(d, ")", "\n\n", '(');
    ReplaceKeepsAbsent(e, "\U{2026}", "\n\n", '(');
    ReplaceRemoves(d, ')', "\n\n");
    ReplaceKeepsAbsent(e, "\U{2026}", "\n\n", ')');
    ReplaceRemoves(e, '\U{2026}', "\n\n");
    assert "(" == ['('] && ")" == [')'] && "\U{2026}" == ['\U{2026}'] && "\U{2014}" == ['\U{2014}'];
    StripKeepsAbsent(f, '(');
    StripKeepsAbsent(f, ')');
    StripKeepsAbsent(f, '\U{2026}');
    StripKeepsAbsent(f, '\U{2014}');
    var r := Strip(f) + " ";
    assert forall k :: 0 <= k < |Strip(f)| ==> r[k] == Strip(f)[k];
  }

  /** `preprocess` rewrites each truthy text in place and touches nothing else. */
  lemma PreprocessShape(items: seq<Entry>)
    ensures var r := Preprocess(items);
      |r| == |items|
      && (forall k :: 0 <= k < |r| ==> MinOf(r[k]) == MinOf(items[k]) && SpeakerOf(r[k]) == SpeakerOf(items[k]))
      && (forall k :: 0 <= k < |r| ==> TextOf(items[k]) == "" ==> r[k] == items[k])
      && (forall k :: 0 <= k < |r| ==> TextOf(items[k]) != "" ==>
            var t := TextOf(r[k]); t[|t| - 1] == ' ' && forall j :: 0 <= j < |t| ==> !Rewritten(t[j]))
  {
    forall k | 0 <= k < |items| && TextOf(items[k]) != ""
      ensures var t := TextOf(Preprocess(items)[k]); t[|t| - 1] == ' ' && forall j :: 0 <= j < |t| ==> !Rewritten(t[j])
    {
      PrepTextShape(TextOf(items[k]));
    }
  }
}
