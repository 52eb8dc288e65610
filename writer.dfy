/**
 * The bookkeeping of the audio writer (tts_writer.py): removing an option
 * and its value from an ffmpeg argument list, and the chapter loop of
 * `_synthesize_chapters` that numbers the chapter titles, names the part
 * files and chains the chapter times. The durations of the synthesized
 * parts come in as numbers; synthesis and ffmpeg are not part of the model.
 */
module Writer {
  import opened Wrappers
  import opened Text
  import P = Projects

  /** The two exceptions the argument surgery can raise. */
  datatype ArgError = ValueError | IndexError

  /** `xs.index(x)`, or -1 where Python raises. */
  function IndexOf(xs: seq<string>, x: string): (i: int)
    ensures -1 <= i < |xs|
    ensures i >= 0 ==> xs[i] == x && forall k :: 0 <= k < i ==> xs[k] != x
    ensures i < 0 ==> x !in xs
    decreases |xs|
  {
    if |xs| == 0 then -1
    else if xs[0] == x then 0
    else
      var j := IndexOf(xs[1..], x);
      assert forall k :: 1 <= k < |xs| ==> xs[k] == xs[1..][k - 1];
      if j < 0 then -1 else j + 1
  }

  /** Position of the last `x`, or -1. */
  function LastIndex(xs: seq<string>, x: string): (j: int)
    ensures -1 <= j < |xs|
    ensures j >= 0 ==> xs[j] == x && forall k :: j < k < |xs| ==> xs[k] != x
    ensures j < 0 ==> x !in xs
    decreases |xs|
  {
    if |xs| == 0 then -1
    else if xs[|xs| - 1] == x then |xs| - 1
    else
      assert forall k :: 0 <= k < |xs| - 1 ==> xs[k] == xs[..|xs| - 1][k];
      LastIndex(xs[..|xs| - 1], x)
  }

  /** `list.reverse()` */
  function Reverse(xs: seq<string>): (r: seq<string>)
    ensures |r| == |xs| && forall k :: 0 <= k < |xs| ==> r[k] == xs[|xs| - 1 - k]
  {
    seq(|xs|, k requires 0 <= k < |xs| => xs[|xs| - 1 - k])
  }

  /** `list.pop(i)` for an index in range: the list without that element. */
  function Pop(xs: seq<string>, i: nat): (r: seq<string>)
    requires i < |xs|
    ensures |r| == |xs| - 1
    ensures forall k :: 0 <= k < i ==> r[k] == xs[k]
    ensures forall k :: i <= k < |r| ==> r[k] == xs[k + 1]
  {
    xs[..i] + xs[i + 1..]
  }

  /**
   * `_remove_first_arg`: an empty list comes back as it is; otherwise the
   * first `arg` and the element after it are popped, unless `arg` is at
   * position 0. A missing `arg` raises ValueError, a missing successor
   * IndexError.
   */
  function RemoveFirstArg(cmd: seq<string>, arg: string): Result<seq<string>, ArgError>
  {
    if |cmd| == 0 then Ok(cmd)
    else
      var i := IndexOf(cmd, arg);
      if i < 0 then Err(ValueError)
      else if i == 0 then Ok(cmd)
      else
        var once := Pop(cmd, i);
        if i < |once| then Ok(Pop(once, i)) else Err(IndexError)
  }

  /**
   * `_remove_last_arg`: reverse, find `arg`, pop twice just before it,
   * reverse back. An `arg` that is the last element (index 0 once
   * reversed) removes nothing.
   */
  function RemoveLastArg(cmd: seq<string>, arg: string): Result<seq<string>, ArgError>
  {
    if |cmd| == 0 then Ok(cmd)
    else
      var rev := Reverse(cmd);
      var i := IndexOf(rev, arg);
      if i < 0 then Err(ValueError)
      else if i == 0 then Ok(Reverse(rev))
      else Ok(Reverse(Pop(Pop(rev, i - 1), i - 1)))
  }

  lemma ReverseReverse(xs: seq<string>)
    ensures Reverse(Reverse(xs)) == xs
  {
  }

  /** The first `arg` in the reversed list is the last one in the list. */
  lemma IndexOfReverse(xs: seq<string>, x: string)
    ensures IndexOf(Reverse(xs), x) == if x in xs then |xs| - 1 - LastIndex(xs, x) else -1
  {
    var rev := Reverse(xs);
    var i := IndexOf(rev, x);
    var j := LastIndex(xs, x);
    if x in xs {
      assert rev[|xs| - 1 - j] == x;
      assert xs[|xs| - 1 - i] == x;
    } else {
      assert forall k :: 0 <= k < |rev| ==> rev[k] != x;
    }
  }

  /** Position `m` after popping twice at `i - 1` from the reversed list and reversing back. */
  lemma PopTwiceReversedAt(xs: seq<string>, i: nat, m: nat)
    requires 1 <= i < |xs| && m < |xs| - 2
    ensures var r := Reverse(Pop(Pop(Reverse(xs), i - 1), i - 1));
      r[m] == if m < |xs| - 1 - i then xs[m] else xs[m + 2]
  {
    var n := |xs|;
    var rev := Reverse(xs);
    var once := Pop(rev, i - 1);
    var twice := Pop(once, i - 1);
    var p := n - 3 - m;
    assert Reverse(twice)[m] == twice[p];
    if m < n - 1 - i {
      assert i - 1 <= p;
      assert twice[p] == once[p + 1];
      assert once[p + 1] == rev[p + 2];
    } else {
      assert p < i - 1;
      assert twice[p] == once[p];
      assert once[p] == rev[p];
    }
  }

  /** Popping twice at `i - 1` from the reversed list drops positions `j` and `j + 1` of the list. */
  lemma PopTwiceReversed(xs: seq<string>, i: nat)
    requires 1 <= i < |xs|
    ensures var j := |xs| - 1 - i;
      Reverse(Pop(Pop(Reverse(xs), i - 1), i - 1)) == xs[..j] + xs[j + 2..]
  {
    var j := |xs| - 1 - i;
    var r := Reverse(Pop(Pop(Reverse(xs), i - 1), i - 1));
    var want := xs[..j] + xs[j + 2..];
    forall m | 0 <= m < |xs| - 2
      ensures r[m] == want[m]
    {
      PopTwiceReversedAt(xs, i, m);
    }
  }

  /**
   * `_remove_last_arg` removes the last `arg` and the element after it and
   * keeps every other element in order; an `arg` that ends the list removes
   * nothing.
   */
  lemma RemoveLastArgRemovesLastPair(cmd: seq<string>, arg: string)
    ensures |cmd| == 0 ==> RemoveLastArg(cmd, arg) == Ok(cmd)
    ensures |cmd| > 0 && arg !in cmd ==> RemoveLastArg(cmd, arg) == Err(ValueError)
    ensures arg in cmd ==> var j := LastIndex(cmd, arg);
      RemoveLastArg(cmd, arg) == Ok(if j == |cmd| - 1 then cmd else cmd[..j] + cmd[j + 2..])
  {
    if |cmd| > 0 {
      IndexOfReverse(cmd, arg);
      ReverseReverse(cmd);
      if arg in cmd {
        var j := LastIndex(cmd, arg);
        if j < |cmd| - 1 {
          PopTwiceReversed(cmd, |cmd| - 1 - j);
        }
      }
    }
  }

  /**
   * `_remove_first_arg` removes the first `arg` and the element after it,
   * keeps `arg` at position 0, and fails when `arg` is missing or has no
   * successor.
   */
  lemma RemoveFirstArgRemovesFirstPair(cmd: seq<string>, arg: string)
    ensures |cmd| == 0 ==> RemoveFirstArg(cmd, arg) == Ok(cmd)
    ensures |cmd| > 0 && arg !in cmd ==> RemoveFirstArg(cmd, arg) == Err(ValueError)
    ensures arg in cmd ==> var i := IndexOf(cmd, arg);
      RemoveFirstArg(cmd, arg)
      == if i == 0 then Ok(cmd) else if i == |cmd| - 1 then Err(IndexError) else Ok(cmd[..i] + cmd[i + 2..])
  {
    if arg in cmd {
      var i := IndexOf(cmd, arg);
      if 0 < i < |cmd| - 1 {
        assert Pop(Pop(cmd, i), i) == cmd[..i] + cmd[i + 2..];
      }
    }
  }

  // ---------------------------------------------------------------------
  // The chapter loop of _synthesize_chapters

  function Sum(ds: seq<nat>): nat
    decreases |ds|
  {
    if |ds| == 0 then 0 else Sum(ds[..|ds| - 1]) + ds[|ds| - 1]
  }

  lemma SumStep(ds: seq<nat>, k: nat)
    requires k < |ds|
    ensures Sum(ds[..k + 1]) == Sum(ds[..k]) + ds[k]
  {
    assert ds[..k + 1][..k] == ds[..k];
  }

  /** Parts are mp4 for an m4b book and wav otherwise. */
  function TempFormat(outputFormat: string): string
  {
    if outputFormat != "m4b" then "wav" else "mp4"
  }

  function PartFile(tempDir: string, i: nat, format: string): string
  {
    tempDir + "/" + "tts_part_" + NatToString(i) + "." + format
  }

  /** `f'{number:0{width}} - {title}'` with the width taken from the digits of `count`. */
  function ChapterTitle(number: nat, count: nat, title: string): string
  {
    ZeroPad(NatToString(number), |NatToString(count)|) + " - " + title
  }

  /** A chapter title is digits, then " - ", then the title. */
  lemma ChapterTitleShape(number: nat, count: nat, title: string)
    ensures var r := ChapterTitle(number, count, title);
      && |r| >= |title| + 3 && r[|r| - |title| - 3..] == " - " + title
      && forall k :: 0 <= k < |r| - |title| - 3 ==> '0' <= r[k] <= '9'
  {
    var n := ZeroPad(NatToString(number), |NatToString(count)|);
    ZeroPadDigits(NatToString(number), |NatToString(count)|);
    var r := ChapterTitle(number, count, title);
    assert r == n + (" - " + title);
    assert r[|n|..] == " - " + title;
  }

  /** The chapters with their times set from the durations, built chapter by chapter. */
  function Timed(chapters: seq<P.Chapter>, durations: seq<nat>): (r: seq<P.Chapter>)
    requires |durations| == |chapters|
    ensures |r| == |chapters|
    decreases |chapters|
  {
    if |chapters| == 0 then []
    else
      var n := |chapters| - 1;
      Timed(chapters[..n], durations[..n])
        + [chapters[n].(startTime := Sum(durations[..n]), endTime := Sum(durations))]
  }

  /**
   * Chapter `k` keeps its items and title and runs from the sum of the
   * durations before it to that sum plus its own duration.
   */
  lemma {:induction false} TimedAt(chapters: seq<P.Chapter>, durations: seq<nat>, k: nat)
    requires |durations| == |chapters| && k < |chapters|
    ensures Timed(chapters, durations)[k]
      == chapters[k].(startTime := Sum(durations[..k]), endTime := Sum(durations[..k]) + durations[k])
    decreases |chapters|
  {
    var n := |chapters| - 1;
    if k < n {
      TimedAt(chapters[..n], durations[..n], k);
      assert durations[..n][..k] == durations[..k];
    } else {
      SumStep(durations, n);
      assert durations[..n + 1] == durations;
    }
  }

  /**
   * The first chapter starts at 0, each chapter starts where the previous
   * one ended, and each lasts its part's duration.
   */
  lemma TimedIsContiguous(chapters: seq<P.Chapter>, durations: seq<nat>)
    requires |durations| == |chapters|
    ensures var r := Timed(chapters, durations);
      (|r| > 0 ==> r[0].startTime == 0)
      && (forall k :: 0 <= k < |r| - 1 ==> r[k + 1].startTime == r[k].endTime)
      && (forall k :: 0 <= k < |r| ==> r[k].endTime == r[k].startTime + durations[k])
  {
    var r := Timed(chapters, durations);
    forall k | 0 <= k < |r|
      ensures r[k].startTime == Sum(durations[..k]) && r[k].endTime == Sum(durations[..k + 1])
    {
      TimedAt(chapters, durations, k);
      SumStep(durations, k);
    }
    assert durations[..0] == [];
  }

  /** The (title, file) pair of chapter `i` when `count` temp files are already listed. */
  function TempEntry(i: nat, count: nat, title: string, tempDir: string, format: string): (string, string)
  {
    (ChapterTitle(i + 1, count, title), PartFile(tempDir, i, format))
  }

  /** The (title, file) pairs the loop appends, numbering from `start` existing entries. */
  function NewTempFiles(chapters: seq<P.Chapter>, start: nat, tempDir: string, format: string): (r: seq<(string, string)>)
    ensures |r| == |chapters|
    decreases |chapters|
  {
    if |chapters| == 0 then []
    else
      var n := |chapters| - 1;
      NewTempFiles(chapters[..n], start, tempDir, format) + [TempEntry(n, start + n, chapters[n].title, tempDir, format)]
  }

  /** Chapter `k` gets entry number `start + k`. */
  lemma {:induction false} NewTempFilesAt(chapters: seq<P.Chapter>, start: nat, tempDir: string, format: string, k: nat)
    requires k < |chapters|
    ensures NewTempFiles(chapters, start, tempDir, format)[k] == TempEntry(k, start + k, chapters[k].title, tempDir, format)
    decreases |chapters|
  {
    var n := |chapters| - 1;
    if k < n {
      NewTempFilesAt(chapters[..n], start, tempDir, format, k);
    }
  }

  lemma NewTempFilesStep(chapters: seq<P.Chapter>, start: nat, i: nat, tempDir: string, format: string)
    requires i < |chapters|
    ensures NewTempFiles(chapters[..i + 1], start, tempDir, format)
      == NewTempFiles(chapters[..i], start, tempDir, format) + [TempEntry(i, start + i, chapters[i].title, tempDir, format)]
  {
    assert chapters[..i + 1][..i] == chapters[..i];
  }

  /** Appending `e` to `before + x` gives `before + y` when `y` is `x` followed by `e`. */
  lemma AppendAfter<T>(listed: seq<T>, before: seq<T>, x: seq<T>, y: seq<T>, e: T)
    requires listed == before + x && y == x + [e]
    ensures listed + [e] == before + y
  {
    assert before + (x + [e]) == before + x + [e];
  }

  /** Appending the entry of chapter `i` to the entries of the chapters before it. */
  lemma AppendEntry(before: seq<(string, string)>, listed: seq<(string, string)>, chapters: seq<P.Chapter>,
                    i: nat, tempDir: string, format: string, entry: (string, string))
    requires i < |chapters|
    requires listed == before + NewTempFiles(chapters[..i], |before|, tempDir, format)
    requires entry == TempEntry(i, |before| + i, chapters[i].title, tempDir, format)
    ensures listed + [entry] == before + NewTempFiles(chapters[..i + 1], |before|, tempDir, format)
  {
    NewTempFilesStep(chapters, |before|, i, tempDir, format);
    AppendAfter(listed, before, NewTempFiles(chapters[..i], |before|, tempDir, format),
      NewTempFiles(chapters[..i + 1], |before|, tempDir, format), entry);
  }

  lemma TimedStep(chapters: seq<P.Chapter>, durations: seq<nat>, i: nat)
    requires i < |chapters| == |durations|
    ensures Timed(chapters[..i + 1], durations[..i + 1])
      == Timed(chapters[..i], durations[..i])
         + [chapters[i].(startTime := Sum(durations[..i]), endTime := Sum(durations[..i]) + durations[i])]
  {
    assert chapters[..i + 1][..i] == chapters[..i];
    assert durations[..i + 1][..i] == durations[..i];
    SumStep(durations, i);
  }

  /** A chapter number is never padded when it has at least the digits of the count. */
  lemma NoPaddingFromSmallerCount(number: nat, count: nat, title: string)
    requires count <= number
    ensures ChapterTitle(number, count, title) == NatToString(number) + " - " + title
  {
    DigitsMonotone(count, number);
  }

  /**
   * A writer that starts with no temp files numbers chapter i with the
   * count i, which never has more digits than i + 1: no title is padded.
   */
  lemma FreshWriterNeverPads(chapters: seq<P.Chapter>, tempDir: string, format: string)
    ensures forall k :: 0 <= k < |chapters| ==>
      NewTempFiles(chapters, 0, tempDir, format)[k].0 == NatToString(k + 1) + " - " + chapters[k].title
  {
    forall k | 0 <= k < |chapters|
      ensures NewTempFiles(chapters, 0, tempDir, format)[k].0 == NatToString(k + 1) + " - " + chapters[k].title
    {
      NewTempFilesAt(chapters, 0, tempDir, format, k);
      NoPaddingFromSmallerCount(k + 1, k, chapters[k].title);
    }
  }

  /** With ten temp files already listed, the first new chapter is numbered "01". */
  lemma PaddedAfterTen(title: string)
    ensures ChapterTitle(1, 10, title) == "01 - " + title
  {
    assert NatToString(1) == "1" && NatToString(10) == "10";
  }

  /** The last chapter ends at the sum of all durations. */
  lemma TimedEndsAtTotal(chapters: seq<P.Chapter>, durations: seq<nat>)
    requires |durations| == |chapters| > 0
    ensures Timed(chapters, durations)[|chapters| - 1].endTime == Sum(durations)
  {
    var n := |chapters| - 1;
    TimedAt(chapters, durations, n);
    SumStep(durations, n);
    assert durations[..n + 1] == durations;
  }

  /** The part of TTS_Writer that the chapter loop updates. */
  class TtsWriter {
    var tempFiles: seq<(string, string)>
    var outputFormat: string

    constructor (outputFormat: string)
      ensures tempFiles == [] && this.outputFormat == outputFormat
    {
      tempFiles := [];
      this.outputFormat := outputFormat;
    }

    /** The title and the part file of chapter `i` when `count` temp files are listed. */
    method NextTempFile(i: nat, count: nat, title: string, tempDir: string) returns (entry: (string, string))
      ensures entry == TempEntry(i, count, title, tempDir, TempFormat(outputFormat))
    {
      var tempFormat := "mp4";
      if outputFormat != "m4b" {
        tempFormat := "wav";
      }
      var numZeros := |NatToString(count)|;
      var chapterTitle := ZeroPad(NatToString(i + 1), numZeros) + " - " + title;
      var filenameOut := tempDir + "/" + "tts_part_" + NatToString(i) + "." + tempFormat;
      entry := (chapterTitle, filenameOut);
    }

    /** Lists the part of chapter `i` after those of the chapters before it. */
    method AppendPart(chapters: seq<P.Chapter>, i: nat, tempDir: string, ghost before: seq<(string, string)>)
      requires i < |chapters|
      requires tempFiles == before + NewTempFiles(chapters[..i], |before|, tempDir, TempFormat(outputFormat))
      modifies this`tempFiles
      ensures tempFiles == before + NewTempFiles(chapters[..i + 1], |before|, tempDir, TempFormat(outputFormat))
    {
      var count := |tempFiles|;
      assert count == |before| + i;
      var entry := NextTempFile(i, count, chapters[i].title, tempDir);
      AppendEntry(before, tempFiles, chapters, i, tempDir, TempFormat(outputFormat), entry);
      tempFiles := tempFiles + [entry];
    }

    /**
     * The chapter loop of `_synthesize_chapters`, given each part's duration:
     * returns the chapters with their times and appends one (title, file)
     * pair per chapter to the temp files.
     */
    method SynthesizeChapters(chapters: seq<P.Chapter>, durations: seq<nat>, tempDir: string) returns (timed: seq<P.Chapter>)
      requires |durations| == |chapters|
      modifies this`tempFiles
      ensures timed == Timed(chapters, durations)
      ensures tempFiles == old(tempFiles) + NewTempFiles(chapters, |old(tempFiles)|, tempDir, TempFormat(outputFormat))
    {
      ghost var before := tempFiles;
      var cumulativeTime := 0;
      timed := [];
      for i := 0 to |chapters|
        invariant tempFiles == before + NewTempFiles(chapters[..i], |before|, tempDir, TempFormat(outputFormat))
        invariant cumulativeTime == Sum(durations[..i])
        invariant timed == Timed(chapters[..i], durations[..i])
      {
        AppendPart(chapters, i, tempDir, before);
        var startTime := cumulativeTime;
        var endTime := cumulativeTime + durations[i];
        TimedStep(chapters, durations, i);
        timed := timed + [chapters[i].(startTime := startTime, endTime := endTime)];
        SumStep(durations, i);
        cumulativeTime := endTime;
      }
      assert chapters[..|chapters|] == chapters && durations[..|durations|] == durations;
    }
  }
}
