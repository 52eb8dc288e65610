/**
 * The small part of Python's string library that the text passes rely on:
 * whitespace and punctuation classes, slicing, the strip family, decimal
 * formatting, str.replace, str.split and str.join.
 */
module Text {

  /** Python's str.isspace() for one character; a `\s` in a str pattern matches the same set. */
  predicate IsSpace(c: char) {
    c == ' ' || ('\t' <= c <= '\r') || ('\U{1c}' <= c <= '\U{1f}') || c == '\U{85}' || c == '\U{a0}'
    || c == '\U{1680}' || ('\U{2000}' <= c <= '\U{200a}') || c == '\U{2028}' || c == '\U{2029}'
    || c == '\U{202f}' || c == '\U{205f}' || c == '\U{3000}'
  }

  /** string.punctuation: the 32 printable ASCII punctuation characters. */
  const Punctuation: string := "!\"#$%&'()*+,-./:;<=>?@[\\]^_`{|}~"

  /** Membership in string.punctuation, by the four ASCII ranges it is made of. */
  predicate IsPunct(c: char) {
    ('!' <= c <= '/') || (':' <= c <= '@') || ('[' <= c <= '`') || ('{' <= c <= '~')
  }

  /** The ranges are exactly the characters of string.punctuation. */
  lemma PunctuationRanges(c: char)
    ensures IsPunct(c) <==> c in Punctuation
  {
    if IsPunct(c) {
      var k := if c <= '/' then c as int - 33
        else if c <= '@' then c as int - 58 + 15
        else if c <= '`' then c as int - 91 + 22
        else c as int - 123 + 28;
      assert Punctuation[k] == c;
    }
  }

  /** Membership in `string.punctuation + ' '`. */
  predicate IsPunctOrBlank(c: char) { IsPunct(c) || c == ' ' }

  /**
   * `s in string.punctuation + ' '` for a string of at most one character:
   * the empty string is a substring of every string.
   */
  predicate InPunctOrBlank(s: string) { |s| == 0 || (|s| == 1 && IsPunctOrBlank(s[0])) }

  predicate IsAsciiAlnum(c: char) { ('a' <= c <= 'z') || ('A' <= c <= 'Z') || ('0' <= c <= '9') }

  /** `re.search(r'[a-zA-Z0-9]', s)` found something. */
  predicate HasAsciiAlnum(s: string) { exists k :: 0 <= k < |s| && IsAsciiAlnum(s[k]) }

  /** Python slicing `s[lo:hi]` for non-negative bounds: clamped, empty when lo >= hi. */
  function Slice(s: string, lo: nat, hi: nat): (r: string)
    ensures |r| <= |s|
    ensures lo <= hi <= |s| ==> r == s[lo..hi]
    ensures (lo >= hi || lo >= |s|) ==> r == []
  {
    var h := if hi <= |s| then hi else |s|;
    if lo >= h then [] else s[lo..h]
  }

  /**
   * A character of `text`, or "" when `pos` is outside `lowest <= pos < |text|`.
   * The current segmenter uses lowest = 0, the two older snapshots lowest = 1.
   */
  function CharAt(text: string, pos: int, lowest: nat): (r: string)
    ensures |r| <= 1
    ensures |r| == 1 <==> lowest <= pos < |text|
    ensures |r| == 1 ==> r[0] == text[pos]
  {
    if lowest <= pos < |text| then [text[pos]] else ""
  }

  /** Number of leading characters of `s` that `drop` removes (str.lstrip). */
  function LeadCount(s: string, drop: char -> bool): (n: nat)
    ensures n <= |s|
    ensures forall k :: 0 <= k < n ==> drop(s[k])
    ensures n < |s| ==> !drop(s[n])
    decreases |s|
  {
    if |s| > 0 && drop(s[0]) then 1 + LeadCount(s[1..], drop) else 0
  }

  /** Length of the prefix that str.rstrip keeps. */
  function KeepCount(s: string, drop: char -> bool): (n: nat)
    ensures n <= |s|
    ensures forall k :: n <= k < |s| ==> drop(s[k])
    ensures n > 0 ==> !drop(s[n - 1])
    decreases |s|
  {
    if |s| > 0 && drop(s[|s| - 1]) then KeepCount(s[..|s| - 1], drop) else |s|
  }

  /** rstrip stops at the last character it does not drop. */
  lemma {:induction false} KeepCountOfTail(p: string, q: string, drop: char -> bool)
    requires |p| > 0 && !drop(p[|p| - 1]) && forall k :: 0 <= k < |q| ==> drop(q[k])
    ensures KeepCount(p + q, drop) == |p|
    decreases |q|
  {
    if |q| == 0 {
      assert p + q == p;
    } else {
      var s := p + q;
      assert s[..|s| - 1] == p + q[..|q| - 1];
      KeepCountOfTail(p, q[..|q| - 1], drop);
    }
  }

  function LStrip(s: string, drop: char -> bool): (r: string)
    ensures |r| <= |s| && r == s[|s| - |r|..]
    ensures |r| > 0 ==> !drop(r[0])
    ensures forall k :: 0 <= k < |s| - |r| ==> drop(s[k])
  {
    s[LeadCount(s, drop)..]
  }

  function RStrip(s: string, drop: char -> bool): (r: string)
    ensures |r| <= |s| && r == s[..|r|]
    ensures |r| > 0 ==> !drop(r[|r| - 1])
    ensures forall k :: |r| <= k < |s| ==> drop(s[k])
  {
    s[..KeepCount(s, drop)]
  }

  /** str.strip() with no argument: whitespace off both ends. */
  function Strip(s: string): (r: string)
    ensures |r| <= |s|
    ensures |r| > 0 ==> !IsSpace(r[0]) && !IsSpace(r[|r| - 1])
    decreases |s|
  {
    if |s| > 0 && IsSpace(s[0]) then Strip(s[1..])
    else if |s| > 0 && IsSpace(s[|s| - 1]) then Strip(s[..|s| - 1])
    else s
  }

  lemma {:induction false} StripOfBlank(s: string)
    requires forall k :: 0 <= k < |s| ==> IsSpace(s[k])
    ensures Strip(s) == ""
    decreases |s|
  {
    if |s| > 0 {
      StripOfBlank(s[1..]);
    }
  }

  /** Whitespace only. */
  predicate Blank(s: string) { forall k :: 0 <= k < |s| ==> IsSpace(s[k]) }

  /** Stripping leaves nothing exactly when the string is whitespace only. */
  lemma {:induction false} StripEmptyIffBlank(s: string)
    ensures Strip(s) == "" <==> Blank(s)
    decreases |s|
  {
    if |s| > 0 && IsSpace(s[0]) {
      StripEmptyIffBlank(s[1..]);
      assert Blank(s) <==> Blank(s[1..]) by {
        assert forall k :: 1 <= k < |s| ==> s[k] == s[1..][k - 1];
      }
    } else if |s| > 0 && IsSpace(s[|s| - 1]) {
      StripEmptyIffBlank(s[..|s| - 1]);
      assert Blank(s) <==> Blank(s[..|s| - 1]) by {
        assert forall k :: 0 <= k < |s| - 1 ==> s[k] == s[..|s| - 1][k];
      }
    }
  }

  /** Two strings joined by a space are whitespace only exactly when both are. */
  lemma BlankJoin(a: string, b: string)
    ensures Blank(a + " " + b) <==> Blank(a) && Blank(b)
  {
    var s := a + " " + b;
    assert forall k :: 0 <= k < |a| ==> s[k] == a[k];
    assert forall k :: 0 <= k < |b| ==> s[|a| + 1 + k] == b[k];
  }

  lemma StripKeepsSolidEnds(s: string)
    requires |s| > 0 && !IsSpace(s[0]) && !IsSpace(s[|s| - 1])
    ensures Strip(s) == s
  {
  }

  /** Stripping never removes a last character that is not whitespace. */
  lemma {:induction false} StripKeepsLast(s: string)
    requires |s| > 0 && !IsSpace(s[|s| - 1])
    ensures var r := Strip(s); |r| > 0 && r[|r| - 1] == s[|s| - 1]
    decreases |s|
  {
    if IsSpace(s[0]) {
      StripKeepsLast(s[1..]);
    }
  }

  function DigitChar(d: nat): (c: char)
    requires d < 10
    ensures '0' <= c <= '9' && c as int - '0' as int == d
  {
    ('0' as int + d) as char
  }

  /** str(n) for a non-negative integer. */
  function NatToString(n: nat): (r: string)
    ensures |r| >= 1
    ensures forall k :: 0 <= k < |r| ==> '0' <= r[k] <= '9'
    ensures n < 10 <==> |r| == 1
    decreases n
  {
    if n < 10 then [DigitChar(n)] else NatToString(n / 10) + [DigitChar(n % 10)]
  }

  /** str(n) for any integer. */
  function IntToString(n: int): (r: string)
    ensures |r| >= 1
    ensures (r[0] == '-') <==> n < 0
  {
    if n < 0 then "-" + NatToString(-n) else NatToString(n)
  }

  /** int(s) for a string of decimal digits: the inverse of NatToString. */
  function ParseNat(s: string): nat
    requires forall k :: 0 <= k < |s| ==> '0' <= s[k] <= '9'
  {
    if |s| == 0 then 0 else 10 * ParseNat(s[..|s| - 1]) + (s[|s| - 1] as int - '0' as int)
  }

  lemma {:induction false} ParseNatToString(n: nat)
    ensures ParseNat(NatToString(n)) == n
    decreases n
  {
    if n >= 10 {
      var r := NatToString(n);
      assert r[..|r| - 1] == NatToString(n / 10);
      ParseNatToString(n / 10);
    }
  }

  /** Different integers print differently, so str(speaker_idx) keeps speakers apart. */
  lemma NatToStringInjective(a: nat, b: nat)
    requires NatToString(a) == NatToString(b)
    ensures a == b
  {
    ParseNatToString(a);
    ParseNatToString(b);
  }

  lemma IntToStringInjective(a: int, b: int)
    requires IntToString(a) == IntToString(b)
    ensures a == b
  {
    var sa, sb := IntToString(a), IntToString(b);
    assert (a < 0) == (b < 0) by {
      assert sa[0] == sb[0];
    }
    if a < 0 {
      assert NatToString(-a) == sa[1..];
      assert NatToString(-b) == sb[1..];
      NatToStringInjective(-a, -b);
    } else {
      NatToStringInjective(a, b);
    }
  }

  /** Printing a larger number never takes fewer digits. */
  lemma {:induction false} DigitsMonotone(a: nat, b: nat)
    requires a <= b
    ensures |NatToString(a)| <= |NatToString(b)|
    decreases b
  {
    if a >= 10 {
      DigitsMonotone(a / 10, b / 10);
    }
  }

  /** `n` zeros. */
  function Zeros(n: nat): string
    decreases n
  {
    if n == 0 then [] else Zeros(n - 1) + ['0']
  }

  lemma {:induction false} ZerosAreZeros(n: nat)
    ensures |Zeros(n)| == n && forall k :: 0 <= k < n ==> Zeros(n)[k] == '0'
    decreases n
  {
    if n > 0 {
      ZerosAreZeros(n - 1);
    }
  }

  /** f'{n:0{width}}' for n >= 0, given the digits of n. */
  function ZeroPad(s: string, width: int): string
  {
    (if |s| < width then Zeros(width - |s|) else []) + s
  }

  /** Zeros on the left up to `width` characters, then `s` unchanged. */
  lemma ZeroPadShape(s: string, width: int)
    ensures var r := ZeroPad(s, width);
      && |r| == (if |s| < width then width else |s|)
      && r[|r| - |s|..] == s
      && forall k :: 0 <= k < |r| - |s| ==> r[k] == '0'
  {
    var zeros := if |s| < width then Zeros(width - |s|) else [];
    if |s| < width {
      ZerosAreZeros(width - |s|);
    }
    assert (zeros + s)[|zeros|..] == s;
  }

  /** Padding a string of digits with zeros leaves only digits. */
  lemma ZeroPadDigits(s: string, width: int)
    requires forall k :: 0 <= k < |s| ==> '0' <= s[k] <= '9'
    ensures var r := ZeroPad(s, width); forall k :: 0 <= k < |r| ==> '0' <= r[k] <= '9'
  {
    var r := ZeroPad(s, width);
    ZeroPadShape(s, width);
    forall k | |r| - |s| <= k < |r|
      ensures '0' <= r[k] <= '9'
    {
      assert r[k] == r[|r| - |s|..][k - (|r| - |s|)];
    }
  }

  /** str.replace(pat, rep) for a non-empty `pat`: left to right, without overlaps. */
  function Replace(s: string, pat: string, rep: string): (r: string)
    requires |pat| > 0
    decreases |s|
  {
    if |s| < |pat| then s
    else if s[..|pat|] == pat then rep + Replace(s[|pat|..], pat, rep)
    else [s[0]] + Replace(s[1..], pat, rep)
  }

  /** A replacement whose pattern is the single character `c` leaves no `c` behind unless `rep` has one. */
  lemma {:induction false} ReplaceRemoves(s: string, c: char, rep: string)
    requires c !in rep
    ensures c !in Replace(s, [c], rep)
    decreases |s|
  {
    if |s| >= 1 {
      ReplaceRemoves(s[1..], c, rep);
    }
  }

  /** Replace never introduces a character that neither the input nor the replacement has. */
  lemma {:induction false} ReplaceKeepsAbsent(s: string, pat: string, rep: string, c: char)
    requires |pat| > 0 && c !in s && c !in rep
    ensures c !in Replace(s, pat, rep)
    decreases |s|
  {
    if |s| >= |pat| {
      if s[..|pat|] == pat {
        ReplaceKeepsAbsent(s[|pat|..], pat, rep, c);
      } else {
        ReplaceKeepsAbsent(s[1..], pat, rep, c);
      }
    }
  }

  function LastIndexOf(s: string, c: char): (i: int)
    ensures -1 <= i < |s|
    ensures i >= 0 ==> s[i] == c
    ensures forall k :: i < k < |s| ==> s[k] != c
    decreases |s|
  {
    if |s| == 0 then -1 else if s[|s| - 1] == c then |s| - 1 else LastIndexOf(s[..|s| - 1], c)
  }

  /** s.split(sep) for a one-character separator: one more piece than separators. */
  function Split(s: string, sep: char): (ps: seq<string>)
    ensures |ps| >= 1
    decreases |s|
  {
    var i := LastIndexOf(s, sep);
    if i < 0 then [s] else Split(s[..i], sep) + [s[i + 1..]]
  }

  /** sep.join(ps). */
  function Join(ps: seq<string>, sep: char): string
  {
    if |ps| == 0 then ""
    else if |ps| == 1 then ps[0]
    else Join(ps[..|ps| - 1], sep) + [sep] + ps[|ps| - 1]
  }

  /** Joining the pieces of a split gives the string back. */
  lemma {:induction false} JoinSplit(s: string, sep: char)
    ensures Join(Split(s, sep), sep) == s
    decreases |s|
  {
    var i := LastIndexOf(s, sep);
    if i >= 0 {
      var front := Split(s[..i], sep);
      JoinSplit(s[..i], sep);
      assert Split(s, sep) == front + [s[i + 1..]];
      assert (front + [s[i + 1..]])[..|front|] == front;
      assert s == s[..i] + [sep] + s[i + 1..];
    }
  }

  /** Dropping the last piece and joining keeps what precedes the last separator. */
  lemma DropLastPiece(s: string, sep: char)
    ensures var ps := Split(s, sep);
      Join(ps[..|ps| - 1], sep) == (if LastIndexOf(s, sep) >= 0 then s[..LastIndexOf(s, sep)] else "")
  {
    var i := LastIndexOf(s, sep);
    if i >= 0 {
      var front := Split(s[..i], sep);
      assert (front + [s[i + 1..]])[..|front|] == front;
      JoinSplit(s[..i], sep);
    }
  }

  predicate NotSpace(c: char) { !IsSpace(c) }

  /** A non-empty run of non-whitespace characters. */
  predicate Word(w: string) {
    |w| > 0 && forall j :: 0 <= j < |w| ==> !IsSpace(w[j])
  }

  /** s.split() with no argument: the maximal runs of non-whitespace characters. */
  function SplitWords(s: string): (ws: seq<string>)
    ensures forall k :: 0 <= k < |ws| ==> Word(ws[k])
    decreases |s|
  {
    if |s| == 0 then []
    else if IsSpace(s[0]) then SplitWords(s[1..])
    else
      var n := LeadCount(s, NotSpace);
      assert Word(s[..n]);
      [s[..n]] + SplitWords(s[n..])
  }

  /** When `drop` removes every character, lstrip removes the whole string. */
  lemma {:induction false} LeadCountAll(s: string, drop: char -> bool)
    requires forall k :: 0 <= k < |s| ==> drop(s[k])
    ensures LeadCount(s, drop) == |s|
    decreases |s|
  {
    if |s| > 0 {
      LeadCountAll(s[1..], drop);
    }
  }

  /** A non-empty string without whitespace is a single word. */
  lemma SingleWord(w: string)
    requires |w| > 0 && forall k :: 0 <= k < |w| ==> NotSpace(w[k])
    ensures SplitWords(w) == [w]
  {
    LeadCountAll(w, NotSpace);
    assert NotSpace(w[0]);
    assert w[|w|..] == "" && w[..|w|] == w;
  }
}
