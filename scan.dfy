/**
 * The splitting passes find their break points with
 * `re.finditer('(.*?)' + break_at, text)`. This module replaces that call by an
 * explicit scanner for the four delimiter patterns the passes use. In the
 * pattern `.` matches anything except a line feed, so the lazy group never
 * crosses a '\n': a match starts right after the last line feed that precedes
 * its delimiter (or where the search resumed), and its group ends at the first
 * delimiter at or after the resume point.
 */
module Scan {
  import opened Text
  import opened Wrappers

  /** The delimiter patterns: `\n`, `[;:]\s`, `[—–]` and `[\.!\?]\s`. */
  datatype Delim = Newline | ColonBreak | DashBreak | SentenceBreak

  function DelimLen(d: Delim): (n: nat)
    ensures 1 <= n <= 2
  {
    match d
    case Newline => 1
    case DashBreak => 1
    case ColonBreak => 2
    case SentenceBreak => 2
  }

  /** The delimiter pattern matches `text` at position j. */
  predicate DelimAt(text: string, j: nat, d: Delim) {
    match d
    case Newline => j < |text| && text[j] == '\n'
    case ColonBreak => j + 1 < |text| && text[j] in ";:" && IsSpace(text[j + 1])
    case DashBreak => j < |text| && text[j] in "\U{2014}\U{2013}"
    case SentenceBreak => j + 1 < |text| && text[j] in ".!?" && IsSpace(text[j + 1])
  }

  /** One regex match: m.start(), the end of group 1, m.end(). */
  datatype Match = Match(start: nat, groupEnd: nat, end: nat)

  predicate WellFormed(text: string, d: Delim, m: Match) {
    m.start <= m.groupEnd && m.end == m.groupEnd + DelimLen(d) <= |text| && DelimAt(text, m.groupEnd, d)
    && (forall j :: m.start <= j < m.groupEnd ==> text[j] != '\n')
  }

  /**
   * The leftmost match whose delimiter lies at or after `e`, for a search that
   * resumed at `s` and has seen no line feed in text[s..e].
   */
  function Find(text: string, d: Delim, s: nat, e: nat): (m: Option<Match>)
    requires s <= e <= |text|
    requires forall j :: s <= j < e ==> text[j] != '\n'
    ensures m.Some? ==> WellFormed(text, d, m.value) && s <= m.value.start && e <= m.value.groupEnd
    ensures m.Some? ==> m.value.start == s || text[m.value.start - 1] == '\n'
    ensures m.Some? ==> forall j :: e <= j < m.value.groupEnd ==> !DelimAt(text, j, d)
    ensures m.None? ==> forall j :: e <= j < |text| ==> !DelimAt(text, j, d)
    decreases |text| - e
  {
    if e >= |text| then None
    else if DelimAt(text, e, d) then Some(Match(s, e, e + DelimLen(d)))
    else if text[e] == '\n' then Find(text, d, e + 1, e + 1)
    else Find(text, d, s, e + 1)
  }

  /** Each match ends before the next one starts. */
  predicate InOrder(ms: seq<Match>) {
    forall k :: 0 < k < |ms| ==> ms[k - 1].end <= ms[k].start
  }

  /** The matches finditer yields once it has reached position p, in order. */
  function MatchesFrom(text: string, d: Delim, p: nat): (ms: seq<Match>)
    requires p <= |text|
    ensures forall k :: 0 <= k < |ms| ==> WellFormed(text, d, ms[k]) && p <= ms[k].start
    ensures InOrder(ms)
    decreases |text| - p
  {
    match Find(text, d, p, p)
    case None => []
    case Some(m) => [m] + MatchesFrom(text, d, m.end)
  }

  function Matches(text: string, d: Delim): (ms: seq<Match>)
    ensures forall k :: 0 <= k < |ms| ==> WellFormed(text, d, ms[k])
    ensures InOrder(ms)
  {
    MatchesFrom(text, d, 0)
  }

  /** No delimiter occurrence overlaps the tail of another: a `\s` is never in `;:` or `.!?`. */
  lemma DelimsDoNotOverlap(text: string, d: Delim, j: nat, i: nat)
    requires DelimAt(text, j, d) && j < i < j + DelimLen(d)
    ensures !DelimAt(text, i, d)
  {
  }

  /**
   * The scanner misses no delimiter: every position where the pattern's
   * delimiter occurs (from p on) closes the group of exactly one match.
   */
  lemma {:induction false} EveryDelimiterIsFound(text: string, d: Delim, p: nat, j: nat)
    requires p <= j && p <= |text| && DelimAt(text, j, d)
    ensures exists k :: 0 <= k < |MatchesFrom(text, d, p)| && MatchesFrom(text, d, p)[k].groupEnd == j
    decreases |text| - p
  {
    var ms := MatchesFrom(text, d, p);
    match Find(text, d, p, p)
    case None =>
      assert false;
    case Some(m) =>
      assert ms[0] == m;
      if m.groupEnd != j {
        assert m.groupEnd < j;
        if j < m.end {
          DelimsDoNotOverlap(text, d, m.groupEnd, j);
          assert false;
        }
        EveryDelimiterIsFound(text, d, m.end, j);
        var k :| 0 <= k < |MatchesFrom(text, d, m.end)| && MatchesFrom(text, d, m.end)[k].groupEnd == j;
        assert ms[k + 1] == MatchesFrom(text, d, m.end)[k];
      }
  }

  /** A text without the delimiter has no match at all. */
  lemma NoDelimiterNoMatch(text: string, d: Delim)
    requires forall j :: 0 <= j < |text| ==> !DelimAt(text, j, d)
    ensures Matches(text, d) == []
  {
  }
}
