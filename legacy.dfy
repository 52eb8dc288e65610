/**
 * The oldest snapshot of the segmenter, `TTS_Convert` (tts_convert.py). Its
 * items carry their pauses as `pause_pre`/`pause_post` fields instead of
 * separate pause items, `_break_single` also emits empty fragments, the
 * bracket pass `_break_speakers` gives the fragments it flushes the call's
 * pauses, and `prepare_item` sets the pause after a fragment from its last
 * character. `_find_and_break` cuts over-long lines.
 */
module LegacyConvert {
  import opened Wrappers
  import opened Text
  import opened Scan
  import S = Segmenter

  /** `TTS_Item` of tts_convert.py: no length, pauses as fields, speaker index -1 by default. */
  datatype LegacyItem = LegacyItem(text: string, speaker: string, pausePre: int, pausePost: int, stripSilence: bool, speakerIdx: int)

  /** `TTS_Item(text, speaker, pause_pre, pause_post, strip_silence)`: the speaker index keeps its default. */
  function Make(text: string, speaker: string, pausePre: int, pausePost: int, stripSilence: bool): LegacyItem
  {
    LegacyItem(text, speaker, pausePre, pausePost, stripSilence, -1)
  }

  // ---------------------------------------------------------------------
  // _find_and_break

  predicate OccursAt(line: string, b: string, j: int) {
    0 <= j && j + |b| <= |line| && line[j..j + |b|] == b
  }

  /** `line.rfind(b, 0, end)` for end <= len(line): the last occurrence of b that ends by `end`, or -1. */
  function RFind(line: string, b: string, end: nat): (i: int)
    requires end <= |line|
    ensures -1 <= i && (i >= 0 ==> i + |b| <= end)
    ensures i >= 0 ==> OccursAt(line, b, i)
    ensures forall j :: i < j && j + |b| <= end ==> !OccursAt(line, b, j)
    decreases end
  {
    if |b| > end then -1
    else if line[end - |b|..end] == b then end - |b|
    else
      assert |b| > 0;
      RFind(line, b, end - 1)
  }

  /**
   * The loop over `break_at`: the first break string that occurs in the
   * first `end` characters decides, at its last occurrence there; -1 if none does.
   */
  function FirstBreak(line: string, breakAt: seq<string>, end: nat): (i: int)
    requires end <= |line|
    ensures -1 <= i <= end
    ensures i == -1 <==> forall k :: 0 <= k < |breakAt| ==> RFind(line, breakAt[k], end) == -1
    decreases |breakAt|
  {
    if |breakAt| == 0 then -1
    else
      var f := RFind(line, breakAt[0], end);
      if f >= 0 then f
      else
        var i := FirstBreak(line, breakAt[1..], end);
        assert forall k :: 1 <= k < |breakAt| ==> breakAt[k] == breakAt[1..][k - 1];
        i
  }

  /** The break strings are tried in list order: the position comes from the first one that occurs. */
  lemma {:induction false} FirstBreakIsFirst(line: string, breakAt: seq<string>, end: nat)
    requires end <= |line| && FirstBreak(line, breakAt, end) >= 0
    ensures exists k ::
      && 0 <= k < |breakAt|
      && RFind(line, breakAt[k], end) == FirstBreak(line, breakAt, end)
      && (forall j :: 0 <= j < k ==> RFind(line, breakAt[j], end) == -1)
    decreases |breakAt|
  {
    if RFind(line, breakAt[0], end) < 0 {
      var tail := breakAt[1..];
      FirstBreakIsFirst(line, tail, end);
      var k :| 0 <= k < |tail| && RFind(line, tail[k], end) == FirstBreak(line, tail, end)
        && (forall j :: 0 <= j < k ==> RFind(line, tail[j], end) == -1);
      assert breakAt[k + 1] == tail[k];
      forall j | 0 <= j < k + 1 ensures RFind(line, breakAt[j], end) == -1 {
        if j > 0 {
          assert breakAt[j] == tail[j - 1];
        }
      }
    }
  }

  /**
   * `_find_and_break` on one line of item `it`: a line of at most `breakAfter`
   * characters is stripped; a longer one is cut at the first break string's
   * last occurrence before `breakAfter` (that one character is dropped), or
   * else hard at `breakAfter`, and the stripped rest is cut again.
   */
  function BreakLine(it: LegacyItem, line: string, breakAt: seq<string>, breakAfter: nat): (r: seq<LegacyItem>)
    requires breakAfter > 0
    ensures |r| >= 1
    ensures forall k :: 0 <= k < |r| ==> |r[k].text| <= breakAfter
    ensures forall k :: 0 <= k < |r| ==> r[k] == Make(r[k].text, it.speaker, it.pausePre, it.pausePost, it.stripSilence)
    decreases |line|
  {
    if |line| <= breakAfter then [Make(Strip(line), it.speaker, it.pausePre, it.pausePost, it.stripSilence)]
    else
      var find := FirstBreak(line, breakAt, breakAfter);
      var cut := if find >= 0 then find else breakAfter;
      var skip := if find >= 0 then find + 1 else breakAfter;
      [Make(Strip(line[..cut]), it.speaker, it.pausePre, it.pausePost, it.stripSilence)]
        + BreakLine(it, Strip(line[skip..]), breakAt, breakAfter)
  }

  function FindAndBreak(items: seq<LegacyItem>, breakAt: seq<string>, breakAfter: nat): (r: seq<LegacyItem>)
    requires breakAfter > 0
    ensures |r| >= |items|
    ensures forall k :: 0 <= k < |r| ==> |r[k].text| <= breakAfter
    decreases |items|
  {
    if |items| == 0 then []
    else
      var front := FindAndBreak(items[..|items| - 1], breakAt, breakAfter);
      var last := items[|items| - 1];
      var tail := BreakLine(last, last.text, breakAt, breakAfter);
      assert forall k :: |front| <= k < |front| + |tail| ==> (front + tail)[k] == tail[k - |front|];
      front + tail
  }

  /** A line that already fits is only stripped. */
  lemma ShortLineIsStripped(it: LegacyItem, breakAt: seq<string>, breakAfter: nat)
    requires breakAfter > 0 && |it.text| <= breakAfter
    ensures FindAndBreak([it], breakAt, breakAfter) == [Make(Strip(it.text), it.speaker, it.pausePre, it.pausePost, it.stripSilence)]
  {
    assert [it][..0] == [];
  }

  /** With no break string in the window, the line is cut hard at `breakAfter`. */
  lemma HardBreakWithoutBreakString(it: LegacyItem, line: string, breakAt: seq<string>, breakAfter: nat)
    requires 0 < breakAfter < |line|
    requires forall k :: 0 <= k < |breakAt| ==> forall j :: 0 <= j && j + |breakAt[k]| <= breakAfter ==> !OccursAt(line, breakAt[k], j)
    ensures BreakLine(it, line, breakAt, breakAfter)[0].text == Strip(line[..breakAfter])
  {
    forall k | 0 <= k < |breakAt| ensures RFind(line, breakAt[k], breakAfter) == -1 {
      NoOccurrenceNoFind(line, breakAt[k], breakAfter);
    }
  }

  lemma NoOccurrenceNoFind(line: string, b: string, end: nat)
    requires end <= |line|
    requires forall j :: 0 <= j && j + |b| <= end ==> !OccursAt(line, b, j)
    ensures RFind(line, b, end) == -1
  {
  }

  /** The loop over `break_at`, with its early exit. */
  method FindBreak(line: string, breakAt: seq<string>, end: nat) returns (find: int)
    requires end <= |line|
    ensures find == FirstBreak(line, breakAt, end)
  {
    find := -1;
    var k := 0;
    while k < |breakAt|
      invariant 0 <= k <= |breakAt|
      invariant find == -1
      invariant FirstBreak(line, breakAt, end) == FirstBreak(line, breakAt[k..], end)
    {
      find := RFindLoop(line, breakAt[k], end);
      if find >= 0 {
        return;
      }
      assert breakAt[k..][1..] == breakAt[k + 1..];
      k := k + 1;
    }
  }

  /** `str.rfind` as a backwards scan. */
  method RFindLoop(line: string, b: string, end: nat) returns (i: int)
    requires end <= |line|
    ensures i == RFind(line, b, end)
  {
    if |b| > end {
      return -1;
    }
    var e := end;
    while line[e - |b|..e] != b
      invariant |b| <= e <= end
      invariant RFind(line, b, end) == RFind(line, b, e)
      decreases e
    {
      if e == |b| {
        return -1;
      }
      e := e - 1;
    }
    return e - |b|;
  }

  /** `_find_and_break` on one line, recursing on the rest as the source does. */
  method BreakLineRec(it: LegacyItem, line: string, breakAt: seq<string>, breakAfter: nat) returns (r: seq<LegacyItem>)
    requires breakAfter > 0
    ensures r == BreakLine(it, line, breakAt, breakAfter)
    decreases |line|
  {
    if |line| <= breakAfter {
      return [Make(Strip(line), it.speaker, it.pausePre, it.pausePost, it.stripSilence)];
    }
    var find := FindBreak(line, breakAt, breakAfter);
    var cut, skip := breakAfter, breakAfter;
    if find >= 0 {
      cut, skip := find, find + 1;
    }
    var tail := Strip(line[skip..]);
    assert |tail| < |line|;
    var rest := BreakLineRec(it, tail, breakAt, breakAfter);
    r := [Make(Strip(line[..cut]), it.speaker, it.pausePre, it.pausePost, it.stripSilence)] + rest;
  }

  lemma FindAndBreakStep(items: seq<LegacyItem>, i: nat, breakAt: seq<string>, breakAfter: nat)
    requires i < |items| && breakAfter > 0
    ensures FindAndBreak(items[..i + 1], breakAt, breakAfter)
      == FindAndBreak(items[..i], breakAt, breakAfter) + BreakLine(items[i], items[i].text, breakAt, breakAfter)
  {
    assert items[..i + 1][..i] == items[..i];
  }

  /** `_find_and_break`: the item loop. */
  method FindAndBreakItems(items: seq<LegacyItem>, breakAt: seq<string>, breakAfter: nat) returns (out: seq<LegacyItem>)
    requires breakAfter > 0
    ensures out == FindAndBreak(items, breakAt, breakAfter)
  {
    out := [];
    for i := 0 to |items|
      invariant out == FindAndBreak(items[..i], breakAt, breakAfter)
    {
      var pieces := BreakLineRec(items[i], items[i].text, breakAt, breakAfter);
      FindAndBreakStep(items, i, breakAt, breakAfter);
      out := out + pieces;
    }
    assert items[..|items|] == items;
  }

  // ---------------------------------------------------------------------
  // _break_single

  /** End of the last match, where the rest of the text starts (`last_start`). */
  function LastEnd(ms: seq<Match>): nat
  {
    if |ms| == 0 then 0 else ms[|ms| - 1].end
  }

  /**
   * One item per match, empty ones included: the text from the match's
   * start to its delimiter, or through the delimiter when `keep`, with
   * no pause before it and `pausePost` after it.
   */
  function Fragments(it: LegacyItem, ms: seq<Match>, keep: bool, stripSilence: bool, pausePost: int): (r: seq<LegacyItem>)
    ensures |r| == |ms|
    ensures forall k :: 0 <= k < |ms| ==>
      r[k] == Make(Slice(it.text, ms[k].start, if keep then ms[k].end else ms[k].groupEnd), it.speaker, 0, pausePost, stripSilence)
    decreases |ms|
  {
    if |ms| == 0 then []
    else
      var m := ms[|ms| - 1];
      Fragments(it, ms[..|ms| - 1], keep, stripSilence, pausePost)
      + [Make(Slice(it.text, m.start, if keep then m.end else m.groupEnd), it.speaker, 0, pausePost, stripSilence)]
  }

  /**
   * `_break_single` on one item: nothing at all for an empty pattern;
   * otherwise the fragments, then the stripped rest after the last match,
   * which keeps the item's pauses.
   */
  function BreakSingleItem(it: LegacyItem, breakAt: Option<Delim>, keep: bool, stripSilence: bool, pausePost: int): (r: seq<LegacyItem>)
    ensures breakAt.None? ==> r == []
    ensures breakAt.Some? ==>
      var ms := Matches(it.text, breakAt.value);
      |ms| <= |r| <= |ms| + 1 && r[..|ms|] == Fragments(it, ms, keep, stripSilence, pausePost)
    ensures breakAt.Some? && |r| > |Matches(it.text, breakAt.value)| ==>
      r[|r| - 1] == Make(Strip(Slice(it.text, LastEnd(Matches(it.text, breakAt.value)), |it.text|)), it.speaker, it.pausePre, it.pausePost, it.stripSilence)
      && r[|r| - 1].text != ""
  {
    match breakAt
    case None => []
    case Some(d) =>
      var ms := Matches(it.text, d);
      var rest := Strip(Slice(it.text, LastEnd(ms), |it.text|));
      Fragments(it, ms, keep, stripSilence, pausePost)
      + (if rest != "" then [Make(rest, it.speaker, it.pausePre, it.pausePost, it.stripSilence)] else [])
  }

  function BreakSingle(items: seq<LegacyItem>, breakAt: Option<Delim>, keep: bool, stripSilence: bool, pausePost: int): seq<LegacyItem>
    decreases |items|
  {
    if |items| == 0 then []
    else
      BreakSingle(items[..|items| - 1], breakAt, keep, stripSilence, pausePost)
      + BreakSingleItem(items[|items| - 1], breakAt, keep, stripSilence, pausePost)
  }

  /** An empty pattern fails the `if break_at` test for every item: the pass returns nothing. */
  lemma {:induction false} EmptyPatternDropsEverything(items: seq<LegacyItem>, keep: bool, stripSilence: bool, pausePost: int)
    ensures BreakSingle(items, None, keep, stripSilence, pausePost) == []
    decreases |items|
  {
    if |items| > 0 {
      EmptyPatternDropsEverything(items[..|items| - 1], keep, stripSilence, pausePost);
    }
  }

  /** Unlike the later snapshots, a delimiter right after the previous one yields an empty fragment. */
  lemma EmptyFragmentIsKept(it: LegacyItem, d: Delim, keep: bool, stripSilence: bool, pausePost: int, k: nat)
    requires k < |Matches(it.text, d)| && Matches(it.text, d)[k].start == Matches(it.text, d)[k].groupEnd && !keep
    ensures BreakSingleItem(it, Some(d), keep, stripSilence, pausePost)[k] == Make("", it.speaker, 0, pausePost, stripSilence)
  {
    var ms := Matches(it.text, d);
    var r := BreakSingleItem(it, Some(d), keep, stripSilence, pausePost);
    assert r[k] == r[..|ms|][k];
  }

  /** With `keep`, every fragment ends with its own delimiter. */
  lemma KeptFragmentEndsWithDelimiter(it: LegacyItem, d: Delim, stripSilence: bool, pausePost: int, k: nat)
    requires k < |Matches(it.text, d)|
    ensures var f := BreakSingleItem(it, Some(d), true, stripSilence, pausePost)[k].text;
      |f| >= DelimLen(d) && DelimAt(f, |f| - DelimLen(d), d)
  {
    var ms := Matches(it.text, d);
    var r := BreakSingleItem(it, Some(d), true, stripSilence, pausePost);
    assert r[k] == r[..|ms|][k];
    var m := ms[k];
    assert WellFormed(it.text, d, m);
    assert r[k].text == it.text[m.start..m.end];
    DelimAtWindow(it.text, m.start, m.end, m.groupEnd, d);
  }

  /** A delimiter occurrence inside a window is one of the window too. */
  lemma DelimAtWindow(text: string, lo: nat, hi: nat, j: nat, d: Delim)
    requires lo <= j && j + DelimLen(d) == hi <= |text| && DelimAt(text, j, d)
    ensures DelimAt(text[lo..hi], j - lo, d)
  {
    var f := text[lo..hi];
    assert f[j - lo] == text[j];
    if DelimLen(d) == 2 {
      assert f[j - lo + 1] == text[j + 1];
    }
  }

  /** A text in which the pattern never occurs comes back stripped, as one item or none. */
  lemma NoDelimiterKeepsStrippedItem(it: LegacyItem, d: Delim, keep: bool, stripSilence: bool, pausePost: int)
    requires forall j :: 0 <= j < |it.text| ==> !DelimAt(it.text, j, d)
    ensures var rest := Strip(it.text);
      BreakSingleItem(it, Some(d), keep, stripSilence, pausePost)
      == if rest != "" then [Make(rest, it.speaker, it.pausePre, it.pausePost, it.stripSilence)] else []
  {
    NoDelimiterNoMatch(it.text, d);
    assert Slice(it.text, 0, |it.text|) == it.text;
  }

  lemma FragmentsStep(it: LegacyItem, ms: seq<Match>, j: nat, keep: bool, stripSilence: bool, pausePost: int)
    requires j < |ms|
    ensures Fragments(it, ms[..j + 1], keep, stripSilence, pausePost)
      == Fragments(it, ms[..j], keep, stripSilence, pausePost)
      + [Make(Slice(it.text, ms[j].start, if keep then ms[j].end else ms[j].groupEnd), it.speaker, 0, pausePost, stripSilence)]
    ensures LastEnd(ms[..j + 1]) == ms[j].end
  {
    assert ms[..j + 1][..j] == ms[..j];
  }

  lemma BreakSingleStep(items: seq<LegacyItem>, i: nat, breakAt: Option<Delim>, keep: bool, stripSilence: bool, pausePost: int)
    requires i < |items|
    ensures BreakSingle(items[..i + 1], breakAt, keep, stripSilence, pausePost)
      == BreakSingle(items[..i], breakAt, keep, stripSilence, pausePost) + BreakSingleItem(items[i], breakAt, keep, stripSilence, pausePost)
  {
    assert items[..i + 1][..i] == items[..i];
  }

  /** `_break_single`: the item loop. */
  method BreakSinglePass(items: seq<LegacyItem>, breakAt: Option<Delim>, keep: bool, stripSilence: bool, pausePost: int)
    returns (out: seq<LegacyItem>)
    ensures out == BreakSingle(items, breakAt, keep, stripSilence, pausePost)
  {
    out := [];
    for i := 0 to |items|
      invariant out == BreakSingle(items[..i], breakAt, keep, stripSilence, pausePost)
    {
      out := BreakSingleInto(out, items[i], breakAt, keep, stripSilence, pausePost);
      BreakSingleStep(items, i, breakAt, keep, stripSilence, pausePost);
    }
    assert items[..|items|] == items;
  }

  /** The body of the item loop: one item's fragments and rest appended to `final_items`. */
  method BreakSingleInto(finalItems: seq<LegacyItem>, it: LegacyItem, breakAt: Option<Delim>, keep: bool, stripSilence: bool, pausePost: int)
    returns (out: seq<LegacyItem>)
    ensures out == finalItems + BreakSingleItem(it, breakAt, keep, stripSilence, pausePost)
  {
    out := finalItems;
    if breakAt.Some? {
      var text := it.text;
      var ms := Matches(text, breakAt.value);
      var lastStart;
      out, lastStart := FragmentsInto(out, it, ms, keep, stripSilence, pausePost);
      var rest := Strip(Slice(text, lastStart, |text|));
      ghost var tail := if rest != "" then [Make(rest, it.speaker, it.pausePre, it.pausePost, it.stripSilence)] else [];
      if rest != "" {
        out := out + [Make(rest, it.speaker, it.pausePre, it.pausePost, it.stripSilence)];
      }
      assert out == finalItems + Fragments(it, ms, keep, stripSilence, pausePost) + tail;
      S.Assoc(finalItems, Fragments(it, ms, keep, stripSilence, pausePost), tail);
    }
  }

  /** The match loop of `_break_single` on one item. */
  method FragmentsInto(head: seq<LegacyItem>, it: LegacyItem, ms: seq<Match>, keep: bool, stripSilence: bool, pausePost: int)
    returns (out: seq<LegacyItem>, lastStart: nat)
    ensures out == head + Fragments(it, ms, keep, stripSilence, pausePost)
    ensures lastStart == LastEnd(ms)
  {
    out := head;
    lastStart := 0;
    for j := 0 to |ms|
      invariant out == head + Fragments(it, ms[..j], keep, stripSilence, pausePost)
      invariant lastStart == LastEnd(ms[..j])
    {
      FragmentsStep(it, ms, j, keep, stripSilence, pausePost);
      var m := ms[j];
      var length := if keep then 0 else m.end - m.groupEnd;
      out := out + [Make(Slice(it.text, m.start, m.end - length), it.speaker, 0, pausePost, stripSilence)];
      lastStart := m.end;
    }
    assert ms[..|ms|] == ms;
  }

  // ---------------------------------------------------------------------
  // _break_speakers

  /** What `_break_speakers` carries while it walks one item's characters. */
  datatype LWalk = LWalk(out: seq<LegacyItem>, isOpen: bool, pos: nat)

  /** The output so far and `opened`, which persists from item to item. */
  datatype LPass = LPass(out: seq<LegacyItem>, isOpen: bool)

  /** A recognised delimiter: the text since `pos`, if any, is flushed with the call's pauses. */
  function LEmit(w: LWalk, piece: LegacyItem, idx: nat, isOpen: bool, pausePre: int, pausePost: int): LWalk
  {
    LWalk(w.out + (if piece.text != "" then [piece.(pausePre := pausePre, pausePost := pausePost)] else []), isOpen, idx + 1)
  }

  /** A '.', ',', ';' or ':' right at the resume point is glued to the last output item. */
  function LAttach(w: LWalk, c: char, idx: nat, width: nat): LWalk
  {
    if w.pos == idx && |w.out| > 0 then
      var last := w.out[|w.out| - 1];
      LWalk(w.out[..|w.out| - 1] + [last.(text := last.text + [c])], w.isOpen, w.pos + width)
    else w
  }

  /**
   * What the character at idx of `t` does, given the candidate piece. The
   * neighbour test is `_get_character`, which reads no lower than index 1.
   */
  function LStepWith(t: string, b: S.Bracket, pausePre: int, pausePost: int, w: LWalk, idx: nat, piece: LegacyItem): LWalk
    requires idx < |t|
  {
    var c := t[idx];
    if b.open == b.close then
      if S.IsChar(b.open, c) then
        if !w.isOpen then (if S.Boundary(S.Arranger, t, idx - 1) then LEmit(w, piece, idx, true, pausePre, pausePost) else w)
        else (if S.Boundary(S.Arranger, t, idx + 1) then LEmit(w, piece, idx, false, pausePre, pausePost) else w)
      else if S.IsClausePunct(c) then LAttach(w, c, idx, |b.open|)
      else w
    else if S.IsChar(b.open, c) then
      if S.Boundary(S.Arranger, t, idx - 1) then LEmit(w, piece, idx, w.isOpen, pausePre, pausePost) else w
    else if S.IsChar(b.close, c) then
      if S.Boundary(S.Arranger, t, idx + 1) then LEmit(w, piece, idx, w.isOpen, pausePre, pausePost) else w
    else if S.IsClausePunct(c) then LAttach(w, c, idx, |b.open|)
    else w
  }

  /** One iteration of the character loop: the candidate piece is a copy of the item with text `text[pos:idx].strip()`. */
  function LWalkStep(it: LegacyItem, b: S.Bracket, pausePre: int, pausePost: int, w: LWalk, idx: nat): LWalk
    requires idx < |it.text|
  {
    LStepWith(it.text, b, pausePre, pausePost, w, idx, it.(text := Strip(Slice(it.text, w.pos, idx))))
  }

  /** The character loop after its first n iterations. */
  function LWalkChars(it: LegacyItem, b: S.Bracket, pausePre: int, pausePost: int, w0: LWalk, n: nat): LWalk
    requires n <= |it.text|
    decreases n
  {
    if n == 0 then w0 else LWalkStep(it, b, pausePre, pausePost, LWalkChars(it, b, pausePre, pausePost, w0, n - 1), n - 1)
  }

  /**
   * `_break_speakers` on one item: the characters are walked, then the
   * stripped rest is appended as a copy of the item, keeping its pauses.
   */
  function LBreakItem(it: LegacyItem, b: S.Bracket, pausePre: int, pausePost: int, p: LPass): LPass
  {
    var w := LWalkChars(it, b, pausePre, pausePost, LWalk(p.out, p.isOpen, 0), |it.text|);
    var rest := Strip(Slice(it.text, w.pos, |it.text|));
    LPass(w.out + (if rest != "" then [it.(text := rest)] else []), w.isOpen)
  }

  function BreakSpeakersFrom(items: seq<LegacyItem>, b: S.Bracket, pausePre: int, pausePost: int): LPass
    decreases |items|
  {
    if |items| == 0 then LPass([], false)
    else LBreakItem(items[|items| - 1], b, pausePre, pausePost, BreakSpeakersFrom(items[..|items| - 1], b, pausePre, pausePost))
  }

  function BreakSpeakers(items: seq<LegacyItem>, b: S.Bracket, pausePre: int, pausePost: int): seq<LegacyItem>
  {
    BreakSpeakersFrom(items, b, pausePre, pausePost).out
  }

  lemma BreakSpeakersStep(items: seq<LegacyItem>, i: nat, b: S.Bracket, pausePre: int, pausePost: int)
    requires i < |items|
    ensures BreakSpeakersFrom(items[..i + 1], b, pausePre, pausePost)
      == LBreakItem(items[i], b, pausePre, pausePost, BreakSpeakersFrom(items[..i], b, pausePre, pausePost))
  {
    assert items[..i + 1][..i] == items[..i];
  }

  /** `_break_speakers`: the item loop; `opened` carries over from one item to the next. */
  method BreakSpeakersPass(items: seq<LegacyItem>, b: S.Bracket, pausePre: int, pausePost: int) returns (out: seq<LegacyItem>)
    ensures out == BreakSpeakers(items, b, pausePre, pausePost)
  {
    out := [];
    var isOpen := false;
    for i := 0 to |items|
      invariant LPass(out, isOpen) == BreakSpeakersFrom(items[..i], b, pausePre, pausePost)
    {
      out, isOpen := BreakSpeakersInto(items[i], b, pausePre, pausePost, out, isOpen);
      BreakSpeakersStep(items, i, b, pausePre, pausePost);
    }
    assert items[..|items|] == items;
  }

  /** The body of the item loop on one item: the character loop, then the rest. */
  method BreakSpeakersInto(it: LegacyItem, b: S.Bracket, pausePre: int, pausePost: int, out0: seq<LegacyItem>, isOpen0: bool)
    returns (out: seq<LegacyItem>, isOpen: bool)
    ensures LPass(out, isOpen) == LBreakItem(it, b, pausePre, pausePost, LPass(out0, isOpen0))
  {
    var w := LWalkItem(it, b, pausePre, pausePost, out0, isOpen0);
    out, isOpen := w.out, w.isOpen;
    var rest := Strip(Slice(it.text, w.pos, |it.text|));
    if rest != "" {
      out := out + [it.(text := rest)];
    }
  }

  /** The character loop of `_break_speakers` on one item. */
  method LWalkItem(it: LegacyItem, b: S.Bracket, pausePre: int, pausePost: int, out0: seq<LegacyItem>, isOpen0: bool) returns (w: LWalk)
    ensures w == LWalkChars(it, b, pausePre, pausePost, LWalk(out0, isOpen0, 0), |it.text|)
  {
    w := LWalk(out0, isOpen0, 0);
    ghost var w0 := w;
    for idx := 0 to |it.text|
      invariant w == LWalkChars(it, b, pausePre, pausePost, w0, idx)
    {
      w := LWalkNext(it, b, pausePre, pausePost, w, idx);
    }
  }

  /** One more character for `LWalkChars`, from the state `w` reached after n characters. */
  lemma LWalkCharsStep(it: LegacyItem, b: S.Bracket, pausePre: int, pausePost: int, w0: LWalk, n: nat, w: LWalk)
    requires n < |it.text| && LWalkChars(it, b, pausePre, pausePost, w0, n) == w
    ensures LWalkChars(it, b, pausePre, pausePost, w0, n + 1)
      == LStepWith(it.text, b, pausePre, pausePost, w, n, it.(text := Strip(Slice(it.text, w.pos, n))))
  {
  }

  /** The body of the character loop: the candidate piece, then what the character does. */
  method LWalkNext(it: LegacyItem, b: S.Bracket, pausePre: int, pausePost: int, w: LWalk, idx: nat) returns (w': LWalk)
    requires idx < |it.text|
    ensures w' == LWalkStep(it, b, pausePre, pausePost, w, idx)
  {
    var newItem := it.(text := Strip(Slice(it.text, w.pos, idx)));
    var out, isOpen, pos := LWalkAt(it.text, b, pausePre, pausePost, w.out, w.isOpen, w.pos, idx, newItem);
    w' := LWalk(out, isOpen, pos);
  }

  /** One iteration of the character loop, at index idx, with its candidate piece `newItem`. */
  method LWalkAt(t: string, b: S.Bracket, pausePre: int, pausePost: int, out0: seq<LegacyItem>, isOpen0: bool, pos0: nat,
                 idx: nat, newItem: LegacyItem)
    returns (out: seq<LegacyItem>, isOpen: bool, pos: nat)
    requires idx < |t|
    ensures LWalk(out, isOpen, pos) == LStepWith(t, b, pausePre, pausePost, LWalk(out0, isOpen0, pos0), idx, newItem)
  {
    out, isOpen, pos := out0, isOpen0, pos0;
    var c := t[idx];
    var add := false;
    if b.open == b.close {
      if S.IsChar(b.open, c) {
        if !isOpen {
          if S.Boundary(S.Arranger, t, idx - 1) {
            isOpen := true;
            add := true;
          }
        } else if S.Boundary(S.Arranger, t, idx + 1) {
          isOpen := false;
          add := true;
        }
      } else if S.IsClausePunct(c) && pos == idx && |out| > 0 {
        out := out[..|out| - 1] + [out[|out| - 1].(text := out[|out| - 1].text + [c])];
        pos := pos + |b.open|;
      }
    } else if S.IsChar(b.open, c) {
      add := S.Boundary(S.Arranger, t, idx - 1);
    } else if S.IsChar(b.close, c) {
      add := S.Boundary(S.Arranger, t, idx + 1);
    } else if S.IsClausePunct(c) && pos == idx && |out| > 0 {
      out := out[..|out| - 1] + [out[|out| - 1].(text := out[|out| - 1].text + [c])];
      pos := pos + |b.open|;
    }
    if add {
      if newItem.text != "" {
        out := out + [newItem.(pausePre := pausePre, pausePost := pausePost)];
      }
      pos := idx + 1;
    }
  }

  // ---------------------------------------------------------------------
  // The final loop of prepare_item

  /**
   * The text a fragment is reduced to: dashes and quotes normalised, the
   * trailing punctuation run cut back to its first character, stripped,
   * leading punctuation dropped, stripped again.
   */
  function LegacyPolish(s: string): (r: string)
    ensures |r| > 0 ==> !IsSpace(r[0]) && !IsSpace(r[|r| - 1])
  {
    S.Core(S.MinimizeTrailing(S.Normalise(s)))
  }

  /** The later snapshot of the arranger polishes text exactly as this one does for the default model. */
  lemma LegacyPolishIsArrangerPolish(s: string)
    ensures LegacyPolish(s) == S.Polish(S.Arranger, S.VctkModel, s)
  {
    var t := S.Core(S.MinimizeTrailing(S.Normalise(s)));
    assert S.Trim(S.Arranger, S.Normalise(s)) == S.MinimizeTrailing(S.Normalise(s));
    assert S.AddStop(false, t) == t;
  }

  /** The pause after a polished text: 500 after '.', ':' or '!', 750 after '?', else unchanged. */
  function EndPause(text: string, pausePost: int): (r: int)
    ensures |text| > 0 && text[|text| - 1] in ".:!" ==> r == 500
    ensures |text| > 0 && text[|text| - 1] == '?' ==> r == 750
    ensures (|text| == 0 || text[|text| - 1] !in ".:!?") ==> r == pausePost
  {
    if |text| > 0 && text[|text| - 1] in ".:!" then 500
    else if |text| > 0 && text[|text| - 1] == '?' then 750
    else pausePost
  }

  /**
   * The final loop on one item: a text that polishes to something non-empty
   * replaces the old one and sets the pause after it; otherwise the item is
   * kept exactly as it was. Nothing is ever dropped.
   */
  function FinishItem(it: LegacyItem): (r: LegacyItem)
    ensures r.speaker == it.speaker && r.speakerIdx == it.speakerIdx && r.pausePre == it.pausePre && r.stripSilence == it.stripSilence
    ensures LegacyPolish(it.text) == "" ==> r == it
    ensures LegacyPolish(it.text) != "" ==> r.text == LegacyPolish(it.text) && r.pausePost == EndPause(r.text, it.pausePost)
  {
    var t := LegacyPolish(it.text);
    if t != "" then it.(text := t, pausePost := EndPause(t, it.pausePost)) else it
  }

  function Finish(items: seq<LegacyItem>): (r: seq<LegacyItem>)
    ensures |r| == |items| && forall k :: 0 <= k < |items| ==> r[k] == FinishItem(items[k])
  {
    Map(FinishItem, items)
  }

  /** `f` applied to every element, in order. */
  function Map<T, U>(f: T -> U, xs: seq<T>): (r: seq<U>)
    ensures |r| == |xs| && forall k :: 0 <= k < |xs| ==> r[k] == f(xs[k])
  {
    seq(|xs|, k requires 0 <= k < |xs| => f(xs[k]))
  }

  /** Replacing element `i` of a list mapped up to `i` by its image extends the mapped prefix. */
  lemma MapReplaceStep<T>(f: T -> T, xs: seq<T>, ys: seq<T>, i: nat, x: T)
    requires i < |xs| && ys == Map(f, xs[..i]) + xs[i..] && x == f(xs[i])
    ensures ys[i := x] == Map(f, xs[..i + 1]) + xs[i + 1..]
  {
    var a := ys[i := x];
    var b := Map(f, xs[..i + 1]) + xs[i + 1..];
    forall k | 0 <= k < |a|
      ensures a[k] == b[k]
    {
      if k < i {
        assert xs[..i][k] == xs[k] == xs[..i + 1][k];
      } else if k > i {
        assert xs[i..][k - i] == xs[k] == xs[i + 1..][k - i - 1];
      }
    }
  }

  /** Nothing mapped yet, and everything mapped. */
  lemma MapEnds<T>(f: T -> T, xs: seq<T>)
    ensures Map(f, xs[..0]) + xs[0..] == xs
    ensures Map(f, xs[..|xs|]) + xs[|xs|..] == Map(f, xs)
  {
    assert xs[..|xs|] == xs;
  }

  /** The last item gains the original pause before it, and 500 ms plus the original pause after it. */
  function AdjustLast(xs: seq<LegacyItem>, pausePre: int, pausePost: int): (r: seq<LegacyItem>)
    ensures |r| == |xs|
    ensures |xs| > 0 ==> r[..|xs| - 1] == xs[..|xs| - 1]
    ensures |xs| > 0 ==> var last := xs[|xs| - 1];
      r[|xs| - 1] == last.(pausePre := last.pausePre + pausePre, pausePost := last.pausePost + 500 + pausePost)
  {
    if |xs| == 0 then []
    else
      var last := xs[|xs| - 1];
      xs[..|xs| - 1] + [last.(pausePre := last.pausePre + pausePre, pausePost := last.pausePost + 500 + pausePost)]
  }

  // ---------------------------------------------------------------------
  // prepare_item

  /** The four single-pattern passes and the four bracket passes, in the order of the source. */
  function LegacyPasses(items: seq<LegacyItem>): seq<LegacyItem>
  {
    var a := BreakSingle(items, Some(Newline), false, true, 250);
    var b := BreakSingle(a, Some(SentenceBreak), true, true, 0);
    var c := BreakSingle(b, Some(ColonBreak), false, true, 150);
    var d := BreakSingle(c, Some(DashBreak), false, true, 150);
    var e := BreakSpeakers(d, S.Parentheses, 300, 300);
    var f := BreakSpeakers(e, S.EmDashes, 300, 300);
    var g := BreakSpeakers(f, S.SpacedEnDashes, 300, 300);
    BreakSpeakers(g, S.Asterisks, 0, 0)
  }

  /**
   * `prepare_item`: the item's text goes through the clean-up substitutions
   * (`clean`), the passes split it, the final loop polishes each fragment,
   * and the last fragment receives the item's own pauses.
   */
  function LegacyPrepare(clean: string -> string, it: LegacyItem): seq<LegacyItem>
  {
    AdjustLast(Finish(LegacyPasses([it.(text := clean(it.text))])), it.pausePre, it.pausePost)
  }

  /** The chain of text edits at the head of the final loop. */
  method LegacyPolishText(s: string) returns (text: string)
    ensures text == LegacyPolish(s)
  {
    text := S.Normalise(s);
    text := S.MinimizeTailingPunctuation(text);
    text := S.Core(text);
  }

  /** The final loop, which edits the items in place. */
  method FinishInPlace(items: seq<LegacyItem>) returns (out: seq<LegacyItem>)
    ensures out == Finish(items)
  {
    out := items;
    MapEnds(FinishItem, items);
    for i := 0 to |items|
      invariant out == Map(FinishItem, items[..i]) + items[i..]
    {
      var x := FinishOne(items[i]);
      MapReplaceStep(FinishItem, items, out, i, x);
      out := out[i := x];
    }
  }

  /** The body of the final loop on one item. */
  method FinishOne(it: LegacyItem) returns (r: LegacyItem)
    ensures r == FinishItem(it)
  {
    r := it;
    var text := LegacyPolishText(it.text);
    if |text| > 0 {
      var pausePost := it.pausePost;
      if text[|text| - 1] in ".:!" {
        pausePost := 500;
      } else if text[|text| - 1] == '?' {
        pausePost := 750;
      }
      r := it.(text := text, pausePost := pausePost);
    }
  }

  /** The splitting passes of `prepare_item`, one after the other. */
  method PassesInOrder(items0: seq<LegacyItem>) returns (items: seq<LegacyItem>)
    ensures items == LegacyPasses(items0)
  {
    items := BreakSinglePass(items0, Some(Newline), false, true, 250);
    items := BreakSinglePass(items, Some(SentenceBreak), true, true, 0);
    items := BreakSinglePass(items, Some(ColonBreak), false, true, 150);
    items := BreakSinglePass(items, Some(DashBreak), false, true, 150);
    items := BreakSpeakersPass(items, S.Parentheses, 300, 300);
    items := BreakSpeakersPass(items, S.EmDashes, 300, 300);
    items := BreakSpeakersPass(items, S.SpacedEnDashes, 300, 300);
    items := BreakSpeakersPass(items, S.Asterisks, 0, 0);
  }

  /** The three in-place updates of the last item's pauses. */
  method AdjustLastInPlace(items0: seq<LegacyItem>, pausePre: int, pausePost: int) returns (items: seq<LegacyItem>)
    ensures items == AdjustLast(items0, pausePre, pausePost)
  {
    items := items0;
    if |items| > 0 {
      var n := |items| - 1;
      items := items[n := items[n].(pausePost := items[n].pausePost + 500)];
      items := items[n := items[n].(pausePre := items[n].pausePre + pausePre)];
      items := items[n := items[n].(pausePost := items[n].pausePost + pausePost)];
      assert items[..n] == items0[..n];
    }
  }

  /** `prepare_item` step by step. */
  method LegacyPrepareItem(clean: string -> string, it: LegacyItem) returns (items: seq<LegacyItem>)
    ensures items == LegacyPrepare(clean, it)
  {
    var text := clean(it.text);
    items := PassesInOrder([it.(text := text)]);
    items := FinishInPlace(items);
    items := AdjustLastInPlace(items, it.pausePre, it.pausePost);
  }
}
