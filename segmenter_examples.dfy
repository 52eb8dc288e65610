/**
 * Traces of the splitting passes on small texts, character by character and
 * match by match, ending in the repository's test of `_prepare_item` on
 * 'a — b.'.
 */
module SegmenterExamples {
  import opened Text
  import opened Wrappers
  import opened Scan
  import opened Items
  import opened Segmenter
  import opened SegmenterContent
  import opened SegmenterProps

  // ---------------------------------------------------------------------
  // _break_items with ('(', ')') on "a (b) c"

  const ParenText: string := "a (b) c"

  /** The walk before any character: nothing emitted, not open, at 0, nothing found. */
  function Start(): Walk { Walk([], false, 0, false) }

  /** Up to the '(' at 2 nothing happens: 'a' and ' ' are no delimiter and no clause mark. */
  lemma ParenWalkToOpener(v: Variant, it: Item)
    requires it.text == ParenText
    ensures WalkChars(v, it, Parentheses, 300, Start(), 2) == Start()
  {
    assert WalkChars(v, it, Parentheses, 300, Start(), 1) == Start();
  }

  /** The '(' has a blank before it: the text before it, stripped to "a", is emitted and the walk resumes at 3. */
  lemma ParenWalkAtOpener(v: Variant, it: Item)
    requires it.text == ParenText
    ensures WalkChars(v, it, Parentheses, 300, Start(), 3) == Walk([it.(text := "a")], false, 3, true)
  {
    ParenWalkToOpener(v, it);
    assert Slice(ParenText, 0, 2) == "a ";
    assert Strip("a ") == "a" by {
      assert "a "[..1] == "a";
    }
    assert Boundary(v, ParenText, 1);
  }

  /**
   * The ')' at 4 has a blank after it: the pre pause comes first, then the
   * bracketed text "b"; the walk resumes at 5.
   */
  lemma ParenWalkAtCloser(v: Variant, it: Item)
    requires it.text == ParenText
    ensures WalkChars(v, it, Parentheses, 300, Start(), 5)
      == Walk([it.(text := "a"), Pause(300), it.(text := "b")], false, 5, true)
  {
    ParenWalkAtOpener(v, it);
    var w3 := Walk([it.(text := "a")], false, 3, true);
    assert WalkChars(v, it, Parentheses, 300, Start(), 4) == w3;
    assert Slice(ParenText, 3, 4) == "b";
    assert Strip("b") == "b";
    assert Boundary(v, ParenText, 5);
    assert PauseIfPositive(300) == [Pause(300)];
  }

  /** The last two characters, ' ' and 'c', change nothing. */
  lemma ParenWalkDone(v: Variant, it: Item)
    requires it.text == ParenText
    ensures WalkChars(v, it, Parentheses, 300, Start(), 7)
      == Walk([it.(text := "a"), Pause(300), it.(text := "b")], false, 5, true)
  {
    ParenWalkAtCloser(v, it);
    var w5 := Walk([it.(text := "a"), Pause(300), it.(text := "b")], false, 5, true);
    assert WalkChars(v, it, Parentheses, 300, Start(), 6) == w5;
  }

  /** What follows the closer, " c", strips to "c". */
  lemma ParenRest()
    ensures Strip(Slice(ParenText, 5, 7)) == "c"
  {
    assert Slice(ParenText, 5, 7) == " c";
    assert Strip(" c") == "c" by {
      assert " c"[1..] == "c";
    }
  }

  /** The whole walk on the item, then the post pause and the stripped rest. */
  lemma ParenItem(v: Variant, it: Item)
    requires it.text == ParenText
    ensures BreakItem(v, it, Parentheses, 300, 300, Pass([], false))
      == Pass([it.(text := "a"), Pause(300), it.(text := "b"), Pause(300), it.(text := "c")], false)
  {
    ParenWalkDone(v, it);
    ParenRest();
    assert !IsPause(it);
    assert PauseIfPositive(300) == [Pause(300)];
    var w := Walk([it.(text := "a"), Pause(300), it.(text := "b")], false, 5, true);
    assert w.out + [Pause(300)] + [it.(text := "c")]
      == [it.(text := "a"), Pause(300), it.(text := "b"), Pause(300), it.(text := "c")];
  }

  /**
   * `_break_items` with ('(', ')') and 300 ms pauses on "a (b) c": the text
   * before the opener, the pre pause at the closer, the bracketed text, one
   * post pause, then the stripped rest, all with the item's voice and length.
   */
  lemma ParenthesesExample(v: Variant, sp: string, idx: int, len: int)
    ensures var it := Item(ParenText, sp, idx, len);
      BreakItems(v, [it], Parentheses, 300, 300)
      == [it.(text := "a"), Pause(300), it.(text := "b"), Pause(300), it.(text := "c")]
  {
    var it := Item(ParenText, sp, idx, len);
    ParenItem(v, it);
    assert [it][..0] == [];
    assert BreakItemsFrom(v, [it], Parentheses, 300, 300)
      == BreakItem(v, it, Parentheses, 300, 300, Pass([], false));
  }

  // ---------------------------------------------------------------------
  // _prepare_item on 'a — b.'

  const DashText: string := "a \U{2014} b."

  /** The search from 0 stops at the dash at 2. */
  lemma DashFoundFirst()
    ensures Find(DashText, DashBreak, 0, 0) == Some(Match(0, 2, 3))
  {
    assert Find(DashText, DashBreak, 0, 1) == Find(DashText, DashBreak, 0, 2);
  }

  /** After the dash no further dash follows. */
  lemma DashFoundNoMore()
    ensures MatchesFrom(DashText, DashBreak, 3) == []
  {
    assert Find(DashText, DashBreak, 3, 3) == None;
  }

  /** The dash pattern finds one match: group "a " (0 to 2), delimiter at 2, end 3. */
  lemma DashMatches()
    ensures Matches(DashText, DashBreak) == [Match(0, 2, 3)]
  {
    DashFoundFirst();
    DashFoundNoMore();
  }

  /** What follows the dash, " b.", strips to "b.". */
  lemma DashRest()
    ensures Strip(Slice(DashText, 3, 6)) == "b."
  {
    assert Slice(DashText, 3, 6) == " b.";
    assert Strip(" b.") == "b." by {
      assert " b."[1..] == "b.";
    }
  }

  /** The one match cuts out the unstripped group "a " and the pause, and the rest starts at 3. */
  lemma DashCut(it: Item)
    requires it.text == DashText
    ensures CutThrough(it, Matches(it.text, DashBreak), PauseDash) == Cut([it.(text := "a "), Pause(300)], 3)
  {
    DashMatches();
    assert Slice(DashText, 0, 2) == "a ";
    assert [Match(0, 2, 3)][..0] == [];
    assert PauseIfPositive(300) == [Pause(300)];
  }

  /** `_break_single` on a spoken item whose cut and non-empty rest are known. */
  lemma SingleFromParts(it: Item, d: Delim, pausePost: int, out: seq<Item>, last: nat, rest: string)
    requires !IsPause(it) && CutThrough(it, Matches(it.text, d), pausePost) == Cut(out, last)
    requires Strip(Slice(it.text, last, |it.text|)) == rest && rest != ""
    ensures BreakSingle([it], d, pausePost) == out + [it.(text := rest)]
  {
    BreakSingleItemParts(it, d, pausePost);
    assert [it][..0] == [];
    assert BreakSingle([it], d, pausePost) == BreakSingleItem(it, d, pausePost);
    assert Fragment(it, rest) == it.(text := rest);
  }

  /**
   * The dash pass (`[—–]`, 300 ms) on 'a — b.': the group before the dash,
   * unstripped, then the pause, then the stripped rest.
   */
  lemma DashPassExample(sp: string, idx: int, len: int)
    ensures var it := Item(DashText, sp, idx, len);
      BreakSingle([it], DashBreak, PauseDash) == [it.(text := "a "), Pause(300), it.(text := "b.")]
  {
    var it := Item(DashText, sp, idx, len);
    DashCut(it);
    DashRest();
    SingleFromParts(it, DashBreak, PauseDash, [it.(text := "a "), Pause(300)], 3, "b.");
    JoinTwoOne([it.(text := "a "), Pause(300)], [it.(text := "b.")], it.(text := "a "), Pause(300), it.(text := "b."));
  }

  lemma JoinTwoOne<T>(xs: seq<T>, ys: seq<T>, x: T, y: T, z: T)
    requires xs == [x, y] && ys == [z]
    ensures xs + ys == [x, y, z]
  {
  }

  /** The item of the test, with the pieces the passes cut it into. */
  function TestItem(): Item { Item(DashText, "", 0, 0) }

  function PieceA(): Item { TestItem().(text := "a") }

  function PieceB(): Item { TestItem().(text := "b.") }

  /** The text holds neither a line feed nor a ';' or ':' followed by whitespace. */
  lemma DashTextHasNoBreak()
    ensures NoDelim(DashText, Newline) && NoDelim(DashText, ColonBreak)
  {
  }

  /** A list of one item is tidied as that item. */
  lemma TidyAllOne(x: Item)
    ensures TidyAll([x]) == Tidy(x)
  {
    assert [x][..0] == [];
  }

  /** A list of three items is tidied item by item. */
  lemma TidyAllThree(x: Item, y: Item, z: Item)
    ensures TidyAll([x, y, z]) == Tidy(x) + Tidy(y) + Tidy(z)
  {
    assert [x, y, z][..2] == [x, y];
    assert [x, y][..1] == [x];
    TidyAllOne(x);
  }

  /** The text is already stripped: a pass that finds nothing keeps the item as it is. */
  lemma TestItemIsTidy()
    ensures Tidy(TestItem()) == [TestItem()]
  {
    StripKeepsSolidEnds(DashText);
  }

  /** The first two passes keep the item. */
  lemma DashTextQuietBefore()
    ensures BreakSingle([TestItem()], Newline, PauseNewline) == [TestItem()]
    ensures BreakSingle([TestItem()], ColonBreak, PauseColon) == [TestItem()]
  {
    DashTextHasNoBreak();
    BreakSingleQuiet([TestItem()], Newline, PauseNewline);
    BreakSingleQuiet([TestItem()], ColonBreak, PauseColon);
    TidyAllOne(TestItem());
    TestItemIsTidy();
  }

  /** The four bracket passes find nothing in "a", "a " or "b." or in a pause. */
  lemma PiecesQuiet(b: Bracket)
    requires b in {Parentheses, EmDashes, SpacedEnDashes, Asterisks}
    ensures QuietFor(b, "a") && QuietFor(b, "a ") && QuietFor(b, "b.") && QuietFor(b, "")
  {
  }

  /** Tidying strips the trailing blank of "a " and keeps the pause and "b.". */
  lemma PiecesTidy()
    ensures Tidy(TestItem().(text := "a ")) == [PieceA()]
    ensures Tidy(Pause(300)) == [Pause(300)]
    ensures Tidy(PieceA()) == [PieceA()]
    ensures Tidy(PieceB()) == [PieceB()]
  {
    assert Strip("a ") == "a" by {
      assert "a "[..1] == "a";
    }
    StripKeepsSolidEnds("a");
    StripKeepsSolidEnds("b.");
  }

  /** One bracket pass over the three pieces only strips them. */
  lemma BracketPassOnPieces(v: Variant, b: Bracket, pausePre: int, pausePost: int, first: Item)
    requires b in {Parentheses, EmDashes, SpacedEnDashes, Asterisks}
    requires first == TestItem().(text := "a ") || first == PieceA()
    ensures BreakItems(v, [first, Pause(300), PieceB()], b, pausePre, pausePost) == [PieceA(), Pause(300), PieceB()]
  {
    var c := [first, Pause(300), PieceB()];
    PiecesQuiet(b);
    assert forall k :: 0 <= k < |c| ==> QuietFor(b, c[k].text);
    PiecesTidy();
    assert Tidy(first) == [PieceA()];
    calc {
      BreakItems(v, c, b, pausePre, pausePost);
      { BreakItemsQuiet(v, c, b, pausePre, pausePost); }
      TidyAll(c);
      { TidyAllThree(first, Pause(300), PieceB()); }
      Tidy(first) + Tidy(Pause(300)) + Tidy(PieceB());
      [PieceA()] + [Pause(300)] + [PieceB()];
    }
  }

  /** The bracket passes only strip the trailing blank of "a ". */
  lemma BracketPassesExample(v: Variant)
    ensures var c := [TestItem().(text := "a "), Pause(300), PieceB()];
      var d := BreakItems(v, c, Parentheses, PauseParentheses, PauseParentheses);
      var e := BreakItems(v, d, EmDashes, PauseParentheses, PauseParentheses);
      var f := BreakItems(v, e, SpacedEnDashes, PauseParentheses, PauseParentheses);
      d == [PieceA(), Pause(300), PieceB()] && e == d && f == d && BreakItems(v, f, Asterisks, 0, 0) == d
  {
    BracketPassOnPieces(v, Parentheses, PauseParentheses, PauseParentheses, TestItem().(text := "a "));
    BracketPassOnPieces(v, EmDashes, PauseParentheses, PauseParentheses, PieceA());
    BracketPassOnPieces(v, SpacedEnDashes, PauseParentheses, PauseParentheses, PieceA());
    BracketPassOnPieces(v, Asterisks, 0, 0, PieceA());
  }

  /** The seven passes turn the test item into "a", the dash pause and "b.". */
  lemma PassesExample(v: Variant)
    ensures Passes(v, [TestItem()]) == [PieceA(), Pause(300), PieceB()]
  {
    DashTextQuietBefore();
    DashPassExample("", 0, 0);
    BracketPassesExample(v);
  }

  /** A pause has no text, and so polishes to none. */
  lemma PolishEmpty(v: Variant)
    ensures Polish(v, VctkModel, "") == ""
  {
    assert Normalise("") == "";
    assert Core("") == "";
  }

  /** The final loop over three items is the loop over each in turn. */
  lemma FinishThree(v: Variant, model: string, x: Item, y: Item, z: Item)
    ensures Finish(v, model, [x, y, z]) == FinishItem(v, model, x) + FinishItem(v, model, y) + FinishItem(v, model, z)
  {
    var xs := [x, y, z];
    FinishStep(v, model, xs, 0);
    FinishStep(v, model, xs, 1);
    FinishStep(v, model, xs, 2);
    FinishWhole(v, model, xs);
    assert xs[..0] == [];
    assert Finish(v, model, xs[..1]) == FinishItem(v, model, x);
  }

  /** The final loop over three items whose single results are `rx`, `ry` and `rz`. */
  lemma FinishOfThree(v: Variant, model: string, x: Item, y: Item, z: Item, rx: seq<Item>, ry: seq<Item>, rz: seq<Item>)
    requires FinishItem(v, model, x) == rx && FinishItem(v, model, y) == ry && FinishItem(v, model, z) == rz
    ensures Finish(v, model, [x, y, z]) == rx + ry + rz
  {
    FinishThree(v, model, x, y, z);
  }

  lemma JoinFour<T>(rx: seq<T>, ry: seq<T>, rz: seq<T>, x: T, y: T, z: T, q: T)
    requires rx == [x] && ry == [y] && rz == [z, q]
    ensures rx + ry + rz == [x, y, z, q]
  {
  }

  lemma JoinThree<T>(rx: seq<T>, ry: seq<T>, rz: seq<T>, x: T, y: T, z: T)
    requires rx == [x] && ry == [y] && rz == [z]
    ensures rx + ry + rz == [x, y, z]
  {
  }

  /** A text that ends in a letter or digit earns no sentence pause. */
  lemma NoPauseAfterWord(t: string)
    requires |t| > 0 && IsAsciiAlnum(t[|t| - 1])
    ensures SentencePause(t) == []
  {
    var c := t[|t| - 1];
    assert c != '.' && c != ':' && c != '!' && c != '?';
    assert c !in ".:" && c !in "!?";
  }

  /** A spoken item whose polished text ends in a letter or digit is kept with that text, and no pause. */
  lemma FinishWithWord(it: Item, text: string)
    requires !IsPause(it)
    requires |text| > 0 && IsAsciiAlnum(text[|text| - 1])
    ensures FinishWith(it, text) == [it.(text := text)]
  {
    NoPauseAfterWord(text);
    assert HasAsciiAlnum(text) by {
      assert IsAsciiAlnum(text[|text| - 1]);
    }
    calc {
      FinishWith(it, text);
      [] + Kept(it, text);
      [it.(text := text)] + SentencePause(text);
      [it.(text := text)];
    }
  }

  /** A spoken item whose polished text ends in a full stop is kept, and the sentence pause follows. */
  lemma FinishWithStop(it: Item, text: string)
    requires !IsPause(it)
    requires |text| > 0 && IsAsciiAlnum(text[0]) && text[|text| - 1] == '.'
    ensures FinishWith(it, text) == [it.(text := text), Pause(PauseSentence)]
  {
    assert text[|text| - 1] in ".:";
    assert HasAsciiAlnum(text) by {
      assert IsAsciiAlnum(text[0]);
    }
    calc {
      FinishWith(it, text);
      [] + Kept(it, text);
      [it.(text := text)] + SentencePause(text);
      [it.(text := text)] + [Pause(PauseSentence)];
    }
  }

  /** A spoken item whose text polishes to a word is kept, with that text and no pause. */
  lemma FinishWord(v: Variant, it: Item, text: string)
    requires !IsPause(it) && Polish(v, VctkModel, it.text) == text
    requires |text| > 0 && IsAsciiAlnum(text[|text| - 1])
    ensures FinishItem(v, VctkModel, it) == [it.(text := text)]
  {
    FinishWithWord(it, text);
  }

  /** A solid word of letters and digits polishes to itself with the VCTK model. */
  lemma PolishSolidWord(v: Variant, w: string)
    requires |w| > 0 && forall k :: 0 <= k < |w| ==> IsAsciiAlnum(w[k])
    ensures Polish(v, VctkModel, w) == w
  {
    PlainWordWithTail(w, "");
    assert w + "" == w;
    assert KeepCount(w, IsPunctOrBlank) == |w|;
    assert w[..|w|] == w;
    assert Trim(v, w) == w;
    PolishWhenTrimmedToWord(v, w, w);
  }

  /** A spoken solid word is kept as it is, and earns no pause. */
  lemma FinishSolidWord(v: Variant, it: Item)
    requires !IsPause(it) && |it.text| > 0 && forall k :: 0 <= k < |it.text| ==> IsAsciiAlnum(it.text[k])
    ensures FinishItem(v, VctkModel, it) == [it]
  {
    PolishSolidWord(v, it.text);
    FinishWord(v, it, it.text);
    assert it.(text := it.text) == it;
  }

  /** The pause passes through, and its empty text adds nothing. */
  lemma FinishPause(v: Variant)
    ensures FinishItem(v, VctkModel, Pause(300)) == [Pause(300)]
  {
    PolishEmpty(v);
  }

  /** Polishing a solid word with a full stop: the older snapshot keeps the stop, the current version drops it. */
  lemma PolishStopped(w: string)
    requires |w| > 0 && forall k :: 0 <= k < |w| ==> IsAsciiAlnum(w[k])
    ensures Polish(Arranger, VctkModel, w + ".") == w + "."
    ensures Polish(Processor, VctkModel, w + ".") == w
  {
    PolishWordWithTail(w, ".");
    assert w + ["."[0]] == w + ".";
  }

  /**
   * A solid word with a full stop keeps the stop in the older snapshot, whose
   * trailing rule keeps the first mark, and so earns the 750 ms sentence pause.
   */
  lemma FinishStoppedArranger(v: Variant, it: Item, w: string)
    requires v == Arranger
    requires !IsPause(it) && it.text == w + "."
    requires |w| > 0 && forall k :: 0 <= k < |w| ==> IsAsciiAlnum(w[k])
    ensures FinishItem(v, VctkModel, it) == [it, Pause(PauseSentence)]
  {
    PolishStopped(w);
    var t := it.text;
    assert t[0] == w[0] && t[|t| - 1] == '.';
    FinishWithStop(it, t);
    assert it.(text := t) == it;
  }

  /** The current version strips the full stop, and the word earns no pause. */
  lemma FinishStoppedProcessor(v: Variant, it: Item, w: string)
    requires v == Processor
    requires !IsPause(it) && it.text == w + "."
    requires |w| > 0 && forall k :: 0 <= k < |w| ==> IsAsciiAlnum(w[k])
    ensures FinishItem(v, VctkModel, it) == [it.(text := w)]
  {
    PolishStopped(w);
    FinishWithWord(it, w);
  }

  /**
   * The final loop on a word, a 300 ms pause and a word with a full stop:
   * the older snapshot keeps all three and adds the sentence pause, the
   * current version drops the stop and adds none.
   */
  lemma FinishPieces(v: Variant, it: Item, a: string, b: string)
    requires !IsPause(it)
    requires |a| > 0 && forall k :: 0 <= k < |a| ==> IsAsciiAlnum(a[k])
    requires |b| > 0 && forall k :: 0 <= k < |b| ==> IsAsciiAlnum(b[k])
    ensures var x, z := it.(text := a), it.(text := b + ".");
      v == Arranger ==> Finish(v, VctkModel, [x, Pause(300), z]) == [x, Pause(300), z, Pause(750)]
    ensures var x, z := it.(text := a), it.(text := b + ".");
      v == Processor ==> Finish(v, VctkModel, [x, Pause(300), z]) == [x, Pause(300), it.(text := b)]
  {
    var x, z := it.(text := a), it.(text := b + ".");
    var rx, rp, rz := FinishItem(v, VctkModel, x), FinishItem(v, VctkModel, Pause(300)), FinishItem(v, VctkModel, z);
    FinishSolidWord(v, x);
    FinishPause(v);
    FinishOfThree(v, VctkModel, x, Pause(300), z, rx, rp, rz);
    if v == Arranger {
      FinishStoppedArranger(v, z, b);
      JoinFour(rx, rp, rz, x, Pause(300), z, Pause(750));
    } else {
      FinishStoppedProcessor(v, z, b);
      assert z.(text := b) == it.(text := b);
      JoinThree(rx, rp, rz, x, Pause(300), it.(text := b));
    }
  }

  lemma PieceBIsStopped()
    ensures PieceB() == TestItem().(text := "b" + ".")
  {
    assert "b" + "." == "b.";
  }

  /** The final loop on the three pieces of the test item. */
  lemma FinishExample(v: Variant)
    ensures v == Arranger ==>
      Finish(v, VctkModel, [PieceA(), Pause(300), PieceB()]) == [PieceA(), Pause(300), PieceB(), Pause(750)]
    ensures v == Processor ==>
      Finish(v, VctkModel, [PieceA(), Pause(300), PieceB()]) == [PieceA(), Pause(300), TestItem().(text := "b")]
  {
    PieceBIsStopped();
    FinishPieces(v, TestItem(), "a", "b");
  }

  /** The text has no wide character, and the replace table leaves it alone. */
  lemma DashTextIsClean(cfg: Config)
    requires cfg.model == VctkModel && cfg.replace(DashText) == DashText
    ensures CleanText(cfg, DashText) == DashText
  {
    assert DropWide(DashText) == DashText;
  }

  /**
   * The repository's test of `_prepare_item` on 'a — b.' with the default
   * VCTK model and a replace table that leaves the text alone: the older
   * snapshot gives 'a', 300 ms, 'b.', 750 ms as the test expects; the current
   * version gives 'a', 300 ms, 'b', its trailing rule having dropped the stop.
   */
  lemma PrepareDashExample(cfg: Config)
    requires cfg.model == VctkModel && cfg.replace(DashText) == DashText
    ensures cfg.variant == Arranger ==>
      PrepareItem(cfg, TestItem()) == [PieceA(), Pause(PauseDash), PieceB(), Pause(PauseSentence)]
    ensures cfg.variant == Processor ==>
      PrepareItem(cfg, TestItem()) == [PieceA(), Pause(PauseDash), TestItem().(text := "b")]
  {
    DashTextIsClean(cfg);
    assert TestItem().(text := DashText) == TestItem();
    PassesExample(cfg.variant);
    FinishExample(cfg.variant);
  }
}
