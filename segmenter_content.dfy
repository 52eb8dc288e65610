/**
 * What the splitting passes of the segmenter produce, stated against the
 * matches and characters of the text rather than against the loops: the
 * fragments `_break_single` emits and their order, the passes that leave a
 * text without delimiters as it was, and traces of the repository's tests
 * through `_break_items` and `_prepare_item`.
 */
module SegmenterContent {
  import opened Text
  import opened Scan
  import opened Items
  import opened Segmenter

  // ---------------------------------------------------------------------
  // _break_single: the fragments

  /** The group of a match: from the match start up to, and not including, its delimiter. */
  function Group(text: string, m: Match): string { Slice(text, m.start, m.groupEnd) }

  /** The non-empty groups of `ms`, in match order. */
  function Groups(text: string, ms: seq<Match>): (g: seq<string>)
    ensures |g| <= |ms|
    ensures forall k :: 0 <= k < |g| ==> g[k] != ""
    decreases |ms|
  {
    if |ms| == 0 then []
    else
      var front := Groups(text, ms[..|ms| - 1]);
      var p := Group(text, ms[|ms| - 1]);
      if p == "" then front
      else
        assert forall k :: 0 <= k < |front| ==> (front + [p])[k] == front[k];
        front + [p]
  }

  /** The item `_break_single` builds for a fragment: the source item's voice and length. */
  function Fragment(it: Item, s: string): Item { NewItem(s, it.speaker, it.speakerIdx, it.length) }

  /** One more match: the groups and the loop state each grow by that match's group, if it is non-empty. */
  lemma CutThroughSnoc(it: Item, ms: seq<Match>, pausePost: int)
    requires |ms| > 0
    ensures var n := |ms| - 1;
      var p := Group(it.text, ms[n]);
      var c0 := CutThrough(it, ms[..n], pausePost);
      && Groups(it.text, ms) == Groups(it.text, ms[..n]) + (if p == "" then [] else [p])
      && CutThrough(it, ms, pausePost)
         == if p == "" then c0 else Cut(c0.out + [Fragment(it, p)] + PauseIfPositive(pausePost), ms[n].end)
  {
    var n := |ms| - 1;
    CutThroughStep(it, ms, n, pausePost);
    CutThroughWhole(it, ms, pausePost);
    assert ms[..n + 1] == ms;
  }

  /**
   * With a positive `pause_post_ms` the match loop emits, for each non-empty
   * group in order, its fragment followed by one pause, and nothing else.
   */
  lemma {:induction false} CutThroughPaused(it: Item, ms: seq<Match>, pausePost: int)
    requires pausePost > 0
    ensures var c := CutThrough(it, ms, pausePost);
      var g := Groups(it.text, ms);
      && |c.out| == 2 * |g|
      && forall k :: 0 <= k < |g| ==> c.out[2 * k] == Fragment(it, g[k]) && c.out[2 * k + 1] == Pause(pausePost)
    decreases |ms|
  {
    if |ms| > 0 {
      var n := |ms| - 1;
      CutThroughPaused(it, ms[..n], pausePost);
      CutThroughSnoc(it, ms, pausePost);
      var c0 := CutThrough(it, ms[..n], pausePost);
      var g0 := Groups(it.text, ms[..n]);
      var p := Group(it.text, ms[n]);
      var c := CutThrough(it, ms, pausePost);
      if p == "" {
        assert c == c0 && Groups(it.text, ms) == g0 + [];
        assert g0 + [] == g0;
      } else {
        var g := g0 + [p];
        PairSnoc(c0.out, |g0|, Fragment(it, p), Pause(pausePost), c.out);
        forall k | 0 <= k < |g|
          ensures c.out[2 * k] == Fragment(it, g[k]) && c.out[2 * k + 1] == Pause(pausePost)
        {
          if k < |g0| {
            assert g[k] == g0[k];
          }
        }
      }
    }
  }

  /** Appending an element and a separator to a sequence of element-separator pairs. */
  lemma PairSnoc<T>(out0: seq<T>, n0: nat, x: T, z: T, out: seq<T>)
    requires |out0| == 2 * n0 && out == out0 + [x] + [z]
    ensures |out| == 2 * (n0 + 1)
    ensures forall k :: 0 <= k < n0 ==> out[2 * k] == out0[2 * k] && out[2 * k + 1] == out0[2 * k + 1]
    ensures out[2 * n0] == x && out[2 * n0 + 1] == z
  {
  }

  /** Without a pause the match loop emits exactly the fragments of the non-empty groups, in order. */
  lemma {:induction false} CutThroughUnpaused(it: Item, ms: seq<Match>, pausePost: int)
    requires pausePost <= 0
    ensures var c := CutThrough(it, ms, pausePost);
      var g := Groups(it.text, ms);
      |c.out| == |g| && forall k :: 0 <= k < |g| ==> c.out[k] == Fragment(it, g[k])
    decreases |ms|
  {
    if |ms| > 0 {
      var n := |ms| - 1;
      CutThroughUnpaused(it, ms[..n], pausePost);
      CutThroughSnoc(it, ms, pausePost);
      var c0 := CutThrough(it, ms[..n], pausePost);
      var g0 := Groups(it.text, ms[..n]);
      var p := Group(it.text, ms[n]);
      if p != "" {
        var c := CutThrough(it, ms, pausePost);
        assert c.out == c0.out + [Fragment(it, p)];
        forall k | 0 <= k < |g0| + 1 ensures c.out[k] == Fragment(it, (g0 + [p])[k]) {
          if k < |g0| {
            assert c.out[k] == c0.out[k];
          }
        }
      }
    }
  }

  /** When no group is emitted, nothing is emitted and `last_start` stays 0. */
  lemma {:induction false} CutThroughNoGroup(it: Item, ms: seq<Match>, pausePost: int)
    requires forall i :: 0 <= i < |ms| ==> Group(it.text, ms[i]) == ""
    ensures CutThrough(it, ms, pausePost) == Cut([], 0)
    decreases |ms|
  {
    if |ms| > 0 {
      var n := |ms| - 1;
      assert forall i :: 0 <= i < n ==> ms[..n][i] == ms[i];
      CutThroughNoGroup(it, ms[..n], pausePost);
      CutThroughSnoc(it, ms, pausePost);
    }
  }

  /**
   * `last_start` is the end of the match whose group was emitted last: the
   * match j with a non-empty group after which every group is empty.
   */
  lemma {:induction false} CutThroughLastStart(it: Item, ms: seq<Match>, pausePost: int, j: nat)
    requires j < |ms| && Group(it.text, ms[j]) != ""
    requires forall i :: j < i < |ms| ==> Group(it.text, ms[i]) == ""
    ensures CutThrough(it, ms, pausePost).lastStart == ms[j].end
    decreases |ms|
  {
    var n := |ms| - 1;
    CutThroughSnoc(it, ms, pausePost);
    if j < n {
      assert forall i :: j < i < n ==> ms[..n][i] == ms[i];
      CutThroughLastStart(it, ms[..n], pausePost, j);
    }
  }

  /** `_break_single` on one item is the pass-through pause, the emitted fragments, then the rest. */
  lemma BreakSingleItemParts(it: Item, d: Delim, pausePost: int)
    ensures var c := CutThrough(it, Matches(it.text, d), pausePost);
      var rest := Strip(Slice(it.text, c.lastStart, |it.text|));
      BreakSingleItem(it, d, pausePost)
      == (if IsPause(it) then [it] else []) + c.out + (if rest != "" then [Fragment(it, rest)] else [])
  {
  }

  /**
   * `_break_single` on one item with a positive pause: a pause passes through
   * first, then each non-empty group in match order as a fragment followed
   * by the pause, and last, only when it is not empty, the stripped text
   * after `last_start` as one more item of the same voice.
   */
  lemma BreakSingleItemPaused(it: Item, d: Delim, pausePost: int)
    requires pausePost > 0
    ensures var r := BreakSingleItem(it, d, pausePost);
      var c := CutThrough(it, Matches(it.text, d), pausePost);
      var g := Groups(it.text, Matches(it.text, d));
      var lead := if IsPause(it) then 1 else 0;
      var rest := Strip(Slice(it.text, c.lastStart, |it.text|));
      && |r| == lead + 2 * |g| + (if rest != "" then 1 else 0)
      && (IsPause(it) ==> r[0] == it)
      && (forall k :: 0 <= k < |g| ==> r[lead + 2 * k] == Fragment(it, g[k]) && r[lead + 2 * k + 1] == Pause(pausePost))
      && (rest != "" ==> r[|r| - 1] == Fragment(it, rest))
  {
    var ms := Matches(it.text, d);
    var c := CutThrough(it, ms, pausePost);
    var g := Groups(it.text, ms);
    var lead: seq<Item> := if IsPause(it) then [it] else [];
    var rest := Strip(Slice(it.text, c.lastStart, |it.text|));
    var tail := if rest != "" then [Fragment(it, rest)] else [];
    var r := BreakSingleItem(it, d, pausePost);
    BreakSingleItemParts(it, d, pausePost);
    CutThroughPaused(it, ms, pausePost);
    Within(lead, c.out, tail);
    PausedShift(r, lead, c.out, tail, g, it, pausePost);
  }

  /** The same without a pause: the pass-through pause, the fragments in match order, then the rest. */
  lemma BreakSingleItemUnpaused(it: Item, d: Delim, pausePost: int)
    requires pausePost <= 0
    ensures var r := BreakSingleItem(it, d, pausePost);
      var c := CutThrough(it, Matches(it.text, d), pausePost);
      var g := Groups(it.text, Matches(it.text, d));
      var lead := if IsPause(it) then 1 else 0;
      var rest := Strip(Slice(it.text, c.lastStart, |it.text|));
      && |r| == lead + |g| + (if rest != "" then 1 else 0)
      && (IsPause(it) ==> r[0] == it)
      && (forall k :: 0 <= k < |g| ==> r[lead + k] == Fragment(it, g[k]))
      && (rest != "" ==> r[|r| - 1] == Fragment(it, rest))
  {
    var ms := Matches(it.text, d);
    var c := CutThrough(it, ms, pausePost);
    var g := Groups(it.text, ms);
    var lead: seq<Item> := if IsPause(it) then [it] else [];
    var rest := Strip(Slice(it.text, c.lastStart, |it.text|));
    var tail := if rest != "" then [Fragment(it, rest)] else [];
    var r := BreakSingleItem(it, d, pausePost);
    BreakSingleItemParts(it, d, pausePost);
    CutThroughUnpaused(it, ms, pausePost);
    Within(lead, c.out, tail);
    UnpausedShift(r, lead, c.out, tail, g, it);
  }

  /** The fragment-pause pairs of the match loop, seen after `lead`. */
  lemma PausedShift(r: seq<Item>, lead: seq<Item>, out: seq<Item>, tail: seq<Item>, g: seq<string>, it: Item, pausePost: int)
    requires r == lead + out + tail && |out| == 2 * |g|
    requires forall k :: 0 <= k < |g| ==> out[2 * k] == Fragment(it, g[k]) && out[2 * k + 1] == Pause(pausePost)
    ensures forall k :: 0 <= k < |g| ==> r[|lead| + 2 * k] == Fragment(it, g[k]) && r[|lead| + 2 * k + 1] == Pause(pausePost)
  {
    forall k | 0 <= k < |g|
      ensures r[|lead| + 2 * k] == Fragment(it, g[k]) && r[|lead| + 2 * k + 1] == Pause(pausePost)
    {
      assert r[|lead| + 2 * k] == out[2 * k];
      assert r[|lead| + (2 * k + 1)] == out[2 * k + 1];
    }
  }

  /** The fragments of the match loop, seen after `lead`. */
  lemma UnpausedShift(r: seq<Item>, lead: seq<Item>, out: seq<Item>, tail: seq<Item>, g: seq<string>, it: Item)
    requires r == lead + out + tail && |out| == |g|
    requires forall k :: 0 <= k < |g| ==> out[k] == Fragment(it, g[k])
    ensures forall k :: 0 <= k < |g| ==> r[|lead| + k] == Fragment(it, g[k])
  {
    forall k | 0 <= k < |g| ensures r[|lead| + k] == Fragment(it, g[k]) {
      assert r[|lead| + k] == out[k];
    }
  }

  /** Where the parts of a three-part concatenation sit. */
  lemma Within<T>(lead: seq<T>, mid: seq<T>, tail: seq<T>)
    ensures |lead + mid + tail| == |lead| + |mid| + |tail|
    ensures forall k :: 0 <= k < |mid| ==> (lead + mid + tail)[|lead| + k] == mid[k]
    ensures |lead| > 0 ==> (lead + mid + tail)[0] == lead[0]
    ensures |tail| > 0 ==> (lead + mid + tail)[|lead| + |mid| + |tail| - 1] == tail[|tail| - 1]
  {
  }

  // ---------------------------------------------------------------------
  // Passes over text that holds none of their delimiters

  /**
   * What a splitting pass makes of an item whose text it finds nothing to
   * split in: a pause passes through, and the stripped text, if any, stays
   * with the item's voice and length.
   */
  function Tidy(it: Item): (r: seq<Item>)
    ensures |r| <= 2
    ensures forall k :: 0 <= k < |r| ==> r[k] == it || (r[k].text == Strip(it.text) != "" && r[k] == it.(text := Strip(it.text)))
  {
    (if IsPause(it) then [it] else []) + (if Strip(it.text) != "" then [it.(text := Strip(it.text))] else [])
  }

  function TidyAll(items: seq<Item>): seq<Item>
    decreases |items|
  {
    if |items| == 0 then [] else TidyAll(items[..|items| - 1]) + Tidy(items[|items| - 1])
  }

  /** The delimiter of `d` occurs nowhere in `t`. */
  predicate NoDelim(t: string, d: Delim) { forall j :: 0 <= j < |t| ==> !DelimAt(t, j, d) }

  /** `_break_single` on one item whose text holds no delimiter only strips it. */
  lemma BreakSingleItemQuiet(it: Item, d: Delim, pausePost: int)
    requires NoDelim(it.text, d)
    ensures BreakSingleItem(it, d, pausePost) == Tidy(it)
  {
    NoDelimiterNoMatch(it.text, d);
    assert CutThrough(it, [], pausePost) == Cut([], 0);
    assert Slice(it.text, 0, |it.text|) == it.text;
  }

  /** `_break_single` over items whose texts hold no delimiter only strips them and drops the blank ones. */
  lemma {:induction false} BreakSingleQuiet(items: seq<Item>, d: Delim, pausePost: int)
    requires forall k :: 0 <= k < |items| ==> NoDelim(items[k].text, d)
    ensures BreakSingle(items, d, pausePost) == TidyAll(items)
    decreases |items|
  {
    if |items| > 0 {
      var n := |items| - 1;
      var init := items[..n];
      assert forall k :: 0 <= k < n ==> init[k] == items[k];
      BreakSingleQuiet(init, d, pausePost);
      BreakSingleItemQuiet(items[n], d, pausePost);
      calc {
        BreakSingle(items, d, pausePost);
        BreakSingle(init, d, pausePost) + BreakSingleItem(items[n], d, pausePost);
        TidyAll(init) + Tidy(items[n]);
        TidyAll(items);
      }
    }
  }

  /**
   * A text `_break_items` finds nothing in: neither delimiter occurs as a
   * character, and it does not start with a mark the loop would glue to the
   * previous item.
   */
  predicate QuietFor(b: Bracket, t: string) {
    (forall j :: 0 <= j < |t| ==> !IsChar(b.open, t[j]) && !IsChar(b.close, t[j]))
    && (|t| > 0 ==> !IsClausePunct(t[0]))
  }

  /** On such a text the character loop changes nothing. */
  lemma {:induction false} WalkCharsQuiet(v: Variant, it: Item, b: Bracket, pausePre: int, w0: Walk, n: nat)
    requires n <= |it.text| && w0.pos == 0 && QuietFor(b, it.text)
    ensures WalkChars(v, it, b, pausePre, w0, n) == w0
    decreases n
  {
    if n > 0 {
      WalkCharsQuiet(v, it, b, pausePre, w0, n - 1);
      assert !IsChar(b.open, it.text[n - 1]) && !IsChar(b.close, it.text[n - 1]);
      if IsClausePunct(it.text[n - 1]) {
        assert n - 1 != 0;
      }
    }
  }

  /** `_break_items` on one such item only strips it. */
  lemma BreakItemQuiet(v: Variant, it: Item, b: Bracket, pausePre: int, pausePost: int, p: Pass)
    requires QuietFor(b, it.text)
    ensures BreakItem(v, it, b, pausePre, pausePost, p) == Pass(p.out + Tidy(it), p.isOpen)
  {
    var start := if IsPause(it) then p.out + [it] else p.out;
    WalkCharsQuiet(v, it, b, pausePre, Walk(start, p.isOpen, 0, false), |it.text|);
    assert Slice(it.text, 0, |it.text|) == it.text;
  }

  /** `_break_items` over such items only strips them and drops the blank ones. */
  lemma {:induction false} BreakItemsQuiet(v: Variant, items: seq<Item>, b: Bracket, pausePre: int, pausePost: int)
    requires forall k :: 0 <= k < |items| ==> QuietFor(b, items[k].text)
    ensures BreakItemsFrom(v, items, b, pausePre, pausePost) == Pass(TidyAll(items), false)
    ensures BreakItems(v, items, b, pausePre, pausePost) == TidyAll(items)
    decreases |items|
  {
    if |items| > 0 {
      var n := |items| - 1;
      var init := items[..n];
      assert forall k :: 0 <= k < n ==> init[k] == items[k];
      BreakItemsQuiet(v, init, b, pausePre, pausePost);
      BreakItemQuiet(v, items[n], b, pausePre, pausePost, Pass(TidyAll(init), false));
      calc {
        BreakItemsFrom(v, items, b, pausePre, pausePost);
        BreakItem(v, items[n], b, pausePre, pausePost, BreakItemsFrom(v, init, b, pausePre, pausePost));
        Pass(TidyAll(init) + Tidy(items[n]), false);
        Pass(TidyAll(items), false);
      }
    }
  }
}
