/**
 * A trace of the HTML converter on the input of the repository's reader test
 * test_nested_tags (tests/reader_test.py), worked out step by step on the
 * state machine of HtmlConverter, with the constructor's default properties
 * (speaker 0, a pause of 250 ms) in the base frame.
 */
module ConverterExamples {
  import opened Wrappers
  import opened Items
  import opened Checker
  import opened Projects
  import opened HtmlConverter

  const NestedTagsRules: seq<Rule> :=
    [Rule([NameIs("p")], Some(Props(0, 0)), NoSignal), Rule([NameIs("blockquote")], Some(Props(1, 0)), NoSignal)]

  /** <blockquote><p>test</p></blockquote> as the tokenizer reports it. */
  const NestedTagsEvents: seq<Event> :=
    [StartTag("blockquote", []), StartTag("p", []), Data("test"), EndTag("p"), EndTag("blockquote")]

  /** The converter's base frame. */
  const BaseFrame: Frame := Frame(NotMatched, NoSignal, Some(Props(0, 250)))

  /** Both the blockquote and the paragraph end up with speaker 1 and no pause. */
  const QuoteFrame: Frame := Frame(Matched, NoSignal, Some(Props(1, 0)))

  /** The blockquote matches the second rule: speaker 1, no pause. */
  lemma OpenBlockquote()
    ensures Step(NestedTagsRules, DefaultProps,
                 State([BaseFrame], [Chapter([], "", 0, 0)], true, None),
                 StartTag("blockquote", []))
      == StepResult(State([BaseFrame, QuoteFrame], [Chapter([], "", 0, 0)], true, None), true)
  {
  }

  /** The paragraph matches the first rule; its speaker 0 is raised to the blockquote's 1. */
  lemma OpenParagraph()
    ensures Step(NestedTagsRules, DefaultProps,
                 State([BaseFrame, QuoteFrame], [Chapter([], "", 0, 0)], true, None),
                 StartTag("p", []))
      == StepResult(State([BaseFrame, QuoteFrame, QuoteFrame], [Chapter([], "", 0, 0)], true, None), true)
  {
  }

  /** The text becomes an item of speaker 1 in the only chapter. */
  lemma ParagraphText()
    ensures Step(NestedTagsRules, DefaultProps,
                 State([BaseFrame, QuoteFrame, QuoteFrame], [Chapter([], "", 0, 0)], true, None),
                 Data("test"))
      == StepResult(State([BaseFrame, QuoteFrame, QuoteFrame], [Chapter([DataItem("test", Props(1, 0))], "", 0, 0)], true, Some(DataItem("test", Props(1, 0)))), true)
  {
    OneChapter(Chapter([], "", 0, 0), DataItem("test", Props(1, 0)));
    assert [] + [DataItem("test", Props(1, 0))] == [DataItem("test", Props(1, 0))];
  }

  /** Closing the paragraph adds no pause, since its pause is 0. */
  lemma CloseParagraph()
    ensures Step(NestedTagsRules, DefaultProps,
                 State([BaseFrame, QuoteFrame, QuoteFrame], [Chapter([DataItem("test", Props(1, 0))], "", 0, 0)], true, Some(DataItem("test", Props(1, 0)))),
                 EndTag("p"))
      == StepResult(State([BaseFrame, QuoteFrame], [Chapter([DataItem("test", Props(1, 0))], "", 0, 0)], true, None), true)
  {
  }

  /** Closing the blockquote adds no pause either. */
  lemma CloseBlockquote()
    ensures Step(NestedTagsRules, DefaultProps,
                 State([BaseFrame, QuoteFrame], [Chapter([DataItem("test", Props(1, 0))], "", 0, 0)], true, None),
                 EndTag("blockquote"))
      == StepResult(State([BaseFrame], [Chapter([DataItem("test", Props(1, 0))], "", 0, 0)], true, None), true)
  {
  }

  /** The states the trace passes through; S(0) is the state after the first chapter is opened. */
  function S(k: nat): State
    requires k <= 5
  {
    if k == 0 then State([BaseFrame], [Chapter([], "", 0, 0)], true, None)
    else if k == 1 then State([BaseFrame, QuoteFrame], [Chapter([], "", 0, 0)], true, None)
    else if k == 2 then State([BaseFrame, QuoteFrame, QuoteFrame], [Chapter([], "", 0, 0)], true, None)
    else if k == 3 then State([BaseFrame, QuoteFrame, QuoteFrame], [Chapter([DataItem("test", Props(1, 0))], "", 0, 0)], true, Some(DataItem("test", Props(1, 0))))
    else if k == 4 then State([BaseFrame, QuoteFrame], [Chapter([DataItem("test", Props(1, 0))], "", 0, 0)], true, None)
    else State([BaseFrame], [Chapter([DataItem("test", Props(1, 0))], "", 0, 0)], true, None)
  }

  lemma RunOne()
    ensures Run(NestedTagsRules, DefaultProps, S(0), NestedTagsEvents[..1]) == StepResult(S(1), true)
  {
    OpenBlockquote();
    RunPrefix(NestedTagsRules, DefaultProps, S(0), NestedTagsEvents, 0, S(0), S(1));
  }

  lemma RunTwo()
    ensures Run(NestedTagsRules, DefaultProps, S(0), NestedTagsEvents[..2]) == StepResult(S(2), true)
  {
    RunOne();
    OpenParagraph();
    RunPrefix(NestedTagsRules, DefaultProps, S(0), NestedTagsEvents, 1, S(1), S(2));
  }

  lemma RunThree()
    ensures Run(NestedTagsRules, DefaultProps, S(0), NestedTagsEvents[..3]) == StepResult(S(3), true)
  {
    RunTwo();
    ParagraphText();
    RunPrefix(NestedTagsRules, DefaultProps, S(0), NestedTagsEvents, 2, S(2), S(3));
  }

  lemma RunFour()
    ensures Run(NestedTagsRules, DefaultProps, S(0), NestedTagsEvents[..4]) == StepResult(S(4), true)
  {
    RunThree();
    CloseParagraph();
    RunPrefix(NestedTagsRules, DefaultProps, S(0), NestedTagsEvents, 3, S(3), S(4));
  }

  /** The whole run of test_nested_tags after the first chapter is opened. */
  lemma NestedTagsRun()
    ensures Run(NestedTagsRules, DefaultProps, S(0), NestedTagsEvents) == StepResult(S(5), true)
  {
    RunFour();
    CloseBlockquote();
    RunPrefix(NestedTagsRules, DefaultProps, S(0), NestedTagsEvents, 4, S(4), S(5));
    assert NestedTagsEvents[..5] == NestedTagsEvents;
  }

  /**
   * test_nested_tags: a paragraph whose rule says speaker 0 inside a
   * blockquote whose rule says speaker 1 is read by speaker 1, and a pause of
   * 0 adds no pause item.
   */
  lemma NestedTagsExample()
    ensures var r := AddFromHtmlSpec(NestedTagsRules, DefaultProps, Initial(DefaultProps), NestedTagsEvents, true);
      r.ok && r.state.chapters == [Chapter([DataItem("test", Props(1, 0))], "", 0, 0)]
  {
    NestedTagsSpec();
    FinalChapters();
  }

  /** The conversion of test_nested_tags ends in the trace's last state. */
  lemma NestedTagsSpec()
    ensures AddFromHtmlSpec(NestedTagsRules, DefaultProps, Initial(DefaultProps), NestedTagsEvents, true) == StepResult(S(5), true)
  {
    OpensFirstChapter();
    NestedTagsRun();
    CleanKeepsText();
    AddFromHtmlOfRun(NestedTagsRules, DefaultProps, Initial(DefaultProps), S(0), NestedTagsEvents, S(5), S(5).chapters);
    assert S(5).(chapters := S(5).chapters) == S(5);
  }

  lemma FinalChapters()
    ensures S(5).chapters == [Chapter([DataItem("test", Props(1, 0))], "", 0, 0)]
  {
  }

  /** Opening the first chapter of a fresh converter gives the trace's start state. */
  lemma OpensFirstChapter()
    ensures Initial(DefaultProps).(chapters := Initial(DefaultProps).chapters + [EmptyChapter()], hasChapter := true) == S(0)
  {
    assert [] + [EmptyChapter()] == [Chapter([], "", 0, 0)];
  }

  /** The clean-up keeps the single item, which has text. */
  lemma CleanKeepsText()
    ensures CleanChapters(S(5).chapters) == S(5).chapters
  {
    KeptItemsExact([DataItem("test", Props(1, 0))]);
  }

  /**
   * A blank between two tags survives the clean-up, as in the repository's
   * reader test, while the empty items around it go, even one that carries
   * a length but no pause marker.
   */
  lemma CleanKeepsBlankBetweenDropped()
    ensures KeptItems([DataItem("", Props(2, 0)), DataItem(" ", Props(1, 0)), Item("", "", 3, 1000)])
      == [DataItem(" ", Props(1, 0))]
  {
    var e1, blank, e2 := DataItem("", Props(2, 0)), DataItem(" ", Props(1, 0)), Item("", "", 3, 1000);
    KeptItemsOne(e1);
    KeptItemsOne(blank);
    KeptItemsOne(e2);
    KeptItemsAppend([e1], [blank]);
    KeptItemsAppend([e1, blank], [e2]);
    assert [e1] + [blank] == [e1, blank];
    assert [e1, blank] + [e2] == [e1, blank, e2];
  }
}
