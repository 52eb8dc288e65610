/**
 * The HTML-to-items converter. The HTML tokenizer reports start tags, text
 * and end tags; the converter keeps a stack with one frame per open element
 * (verdict, signal, properties), turns text into items of the current
 * chapter and appends a pause after the text of a matched element.
 *
 * `State`, `StartStep`, `DataStep`, `EndStep` and `Run` describe the
 * converter as a pure state machine; the class `Converter` does the same work
 * by updating its fields, and each of its methods is proved equal to the
 * corresponding step. A step that would raise in the source (IndexError on
 * an empty stack, AttributeError before any chapter exists) reports ok = false
 * and leaves the state as far as the source had got.
 */
module HtmlConverter {
  import opened Wrappers
  import opened Text
  import opened Items
  import opened Checker
  import opened Projects

  /** One entry of the stack: what was decided for an open element. */
  datatype Frame = Frame(verdict: Verdict, signal: Signal, props: Option<Props>)

  /** What the HTML tokenizer reports. */
  datatype Event = StartTag(name: string, attrs: seq<(string, string)>) | Data(text: string) | EndTag(name: string)

  /** The converter's observable state; the current chapter is the last chapter once `hasChapter` holds. */
  datatype State = State(stack: seq<Frame>, chapters: seq<Chapter>, hasChapter: bool, currentItem: Option<Item>)

  datatype StepResult = StepResult(state: State, ok: bool)

  /** CheckerItemProperties(pause_after=250), the constructor's default. */
  const DefaultProps: Props := Props(0, 250)

  const IgnoredTags: seq<string> := ["script", "style", "meta"]

  /** Elements after which an unmatched end tag adds no pause and keeps the current item. */
  const InlineTags: seq<string> := ["span", "i", "b", "u", "a", "em"]

  predicate Consistent(st: State) { st.hasChapter ==> |st.chapters| > 0 }

  function Last<T>(s: seq<T>): T
    requires |s| > 0
  {
    s[|s| - 1]
  }

  /** Appends one item to the last chapter. */
  function AppendToLast(cs: seq<Chapter>, it: Item): (r: seq<Chapter>)
    requires |cs| > 0
    ensures |r| == |cs| && r[..|r| - 1] == cs[..|cs| - 1]
    ensures Last(r) == Last(cs).(items := Last(cs).items + [it])
    ensures AllItems(r) == AllItems(cs) + [it]
  {
    var n := |cs|;
    var r := cs[..n - 1] + [Last(cs).(items := Last(cs).items + [it])];
    assert r[..n - 1] == cs[..n - 1];
    r
  }

  // ---------------------------------------------------------------- elements

  /** Value of the last attribute named `key`, if any. */
  function LastValue(attrs: seq<(string, string)>, key: string): Option<string>
  {
    if |attrs| == 0 then None
    else if Last(attrs).0 == key then Some(Last(attrs).1)
    else LastValue(attrs[..|attrs| - 1], key)
  }

  /** tag_to_element, attribute by attribute: 'id' sets the id, 'class' the split class list. */
  function ElementOf(name: string, attrs: seq<(string, string)>): Element
  {
    if |attrs| == 0 then Element(name, "", [])
    else
      var e := ElementOf(name, attrs[..|attrs| - 1]);
      var a := Last(attrs);
      if a.0 == "id" then e.(id := a.1)
      else if a.0 == "class" then e.(classes := SplitWords(a.1))
      else e
  }

  /** A later 'id' or 'class' attribute overrides an earlier one; absent ones leave the defaults. */
  lemma {:induction false} ElementTakesLastAttributes(name: string, attrs: seq<(string, string)>)
    ensures ElementOf(name, attrs).name == name
    ensures ElementOf(name, attrs).id == (match LastValue(attrs, "id") case None => "" case Some(v) => v)
    ensures ElementOf(name, attrs).classes
      == (match LastValue(attrs, "class") case None => [] case Some(v) => SplitWords(v))
    decreases |attrs|
  {
    if |attrs| > 0 {
      ElementTakesLastAttributes(name, attrs[..|attrs| - 1]);
    }
  }

  method TagToElement(name: string, attrs: seq<(string, string)>) returns (e: Element)
    ensures e == ElementOf(name, attrs)
  {
    e := Element(name, "", []);
    var i := 0;
    while i < |attrs|
      invariant 0 <= i <= |attrs|
      invariant e == ElementOf(name, attrs[..i])
    {
      assert attrs[..i + 1][..i] == attrs[..i];
      match attrs[i].0 {
        case "id" => e := e.(id := attrs[i].1);
        case "class" => e := e.(classes := SplitWords(attrs[i].1));
        case _ =>
      }
      i := i + 1;
    }
    assert attrs[..i] == attrs;
  }

  // ------------------------------------------------------------------ rules

  /** _check_elem: the outcome of the first rule that matches, else a miss without signal. */
  function FirstMatch(rules: seq<Rule>, e: Element): Outcome
  {
    if |rules| == 0 then Outcome(NotMatched, NoSignal, None)
    else if Determination(rules[0], e).verdict != NotMatched then Determination(rules[0], e)
    else FirstMatch(rules[1..], e)
  }

  /** Rules are tried in priority order: the earliest matching rule decides alone. */
  lemma {:induction false} FirstMatchingRuleWins(rules: seq<Rule>, e: Element, k: nat)
    requires k < |rules| && Determination(rules[k], e).verdict == Matched
    requires forall j :: 0 <= j < k ==> Determination(rules[j], e).verdict == NotMatched
    ensures FirstMatch(rules, e) == Determination(rules[k], e)
    decreases k
  {
    if k > 0 {
      FirstMatchingRuleWins(rules[1..], e, k - 1);
    }
  }

  /** When no rule matches, the element gets no signal and no properties. */
  lemma {:induction false} NoRuleMatches(rules: seq<Rule>, e: Element)
    requires forall j :: 0 <= j < |rules| ==> Determination(rules[j], e).verdict == NotMatched
    ensures FirstMatch(rules, e) == Outcome(NotMatched, NoSignal, None)
    decreases |rules|
  {
    if |rules| > 0 {
      NoRuleMatches(rules[1..], e);
    }
  }

  method CheckElem(e: Element, rules: seq<Rule>) returns (o: Outcome)
    ensures o == FirstMatch(rules, e)
  {
    var i := 0;
    while i < |rules|
      invariant 0 <= i <= |rules|
      invariant FirstMatch(rules, e) == FirstMatch(rules[i..], e)
    {
      o := Determine(rules[i], e);
      if o.verdict != NotMatched {
        return o;
      }
      assert rules[i..][1..] == rules[i + 1..];
      i := i + 1;
    }
    return Outcome(NotMatched, NoSignal, None);
  }

  // ------------------------------------------------------------------ steps

  /**
   * The frame handle_starttag pushes, or None where the source indexes an
   * empty stack. Script, style and meta are ignored outright. An element no
   * rule matches continues its parent's signal and speaker with the default
   * pause. A speaker index below the parent's is raised to the parent's.
   */
  function OpenFrame(rules: seq<Rule>, defaults: Props, stack: seq<Frame>, name: string, attrs: seq<(string, string)>): Option<Frame>
  {
    if name in IgnoredTags then Some(Frame(Matched, Ignore, None))
    else
      var o := FirstMatch(rules, ElementOf(name, attrs));
      if o.verdict != Matched && |stack| == 0 then None
      else
        var f :=
          if o.verdict == Matched then Frame(o.verdict, o.signal, o.props)
          else
            var top := Last(stack);
            if top.props.Some? then Frame(NotMatched, top.signal, Some(top.props.value.(pauseAfter := defaults.pauseAfter)))
            else Frame(o.verdict, top.signal, None);
        if f.props.None? then Some(f)
        else if |stack| == 0 then None
        else
          var parent := Last(stack).props;
          if parent.Some? && f.props.value.speakerIdx < parent.value.speakerIdx
          then Some(f.(props := Some(f.props.value.(speakerIdx := parent.value.speakerIdx))))
          else Some(f)
  }

  function StartStep(rules: seq<Rule>, defaults: Props, st: State, name: string, attrs: seq<(string, string)>): StepResult
  {
    match OpenFrame(rules, defaults, st.stack, name, attrs)
    case None => StepResult(st, false)
    case Some(f) => StepResult(st.(stack := st.stack + [f]), true)
  }

  /** The item made from text under properties `p` (see DataItemAsWritten for the call as written). */
  function DataItem(data: string, p: Props): (it: Item)
    ensures it.text == data && it.speakerIdx == p.speakerIdx && it.length == 0 && !IsPause(it)
  {
    NewItem(data, "", p.speakerIdx, 0)
  }

  /**
   * `TTS_Item(data, properties.speaker_idx)` as written: the second
   * positional field is `speaker`, so the index lands there (as a number)
   * and speaker_idx keeps its default 0. Returned as the value bound to
   * `speaker` and the item's remaining fields.
   */
  function DataItemAsWritten(data: string, p: Props): (r: (int, Item))
    ensures r.0 == p.speakerIdx
    ensures r.1.text == data && r.1.speakerIdx == 0 && r.1.length == 0
  {
    (p.speakerIdx, NewItem(data, "", 0, 0))
  }

  /** The repository's test expects speaker_idx 1 for text under a rule of speaker 1. */
  lemma AsWrittenDropsSpeakerIndex()
    ensures DataItemAsWritten("test1 ", Props(1, 800)).1.speakerIdx == 0
    ensures DataItem("test1 ", Props(1, 800)).speakerIdx == 1
  {
  }

  /** handle_data. */
  function DataStep(st: State, data: string): StepResult
    requires Consistent(st)
  {
    if |st.stack| == 0 then StepResult(st, false)
    else
      var top := Last(st.stack);
      if top.signal == Ignore then StepResult(st, true)
      else
        var st1 := if top.signal == NewChapter
          then st.(chapters := st.chapters + [EmptyChapter()], hasChapter := true)
          else st;
        if top.props.None? then StepResult(st1, true)
        else
          var it := DataItem(data, top.props.value);
          var st2 := st1.(currentItem := Some(it));
          if !st2.hasChapter then StepResult(st2, false)
          else StepResult(st2.(chapters := AppendToLast(st2.chapters, it)), true)
  }

  /** handle_endtag. */
  function EndStep(st: State, name: string): StepResult
    requires Consistent(st)
  {
    if |st.stack| == 0 then StepResult(st, false)
    else
      var f := Last(st.stack);
      var st1 := st.(stack := st.stack[..|st.stack| - 1]);
      if f.signal == Ignore then StepResult(st1, true)
      else if f.verdict != Matched && name in InlineTags then StepResult(st1, true)
      else if f.verdict == Matched && !st1.hasChapter then StepResult(st1, false)
      else
        var st2 := if f.verdict == Matched && f.props.Some? && f.props.value.pauseAfter > 0
          then st1.(chapters := AppendToLast(st1.chapters, Pause(f.props.value.pauseAfter)))
          else st1;
        StepResult(st2.(currentItem := None), true)
  }

  lemma StepsKeepConsistent(rules: seq<Rule>, defaults: Props, st: State, e: Event)
    requires Consistent(st)
    ensures Consistent(Step(rules, defaults, st, e).state)
  {
  }

  function Step(rules: seq<Rule>, defaults: Props, st: State, e: Event): StepResult
    requires Consistent(st)
  {
    match e
    case StartTag(name, attrs) => StartStep(rules, defaults, st, name, attrs)
    case Data(text) => DataStep(st, text)
    case EndTag(name) => EndStep(st, name)
  }

  /** feed: the events in order, stopping at the first one that raises. */
  function Run(rules: seq<Rule>, defaults: Props, st: State, events: seq<Event>): (r: StepResult)
    requires Consistent(st)
    ensures Consistent(r.state)
  {
    if |events| == 0 then StepResult(st, true)
    else
      var r := Run(rules, defaults, st, events[..|events| - 1]);
      if !r.ok then r
      else
        StepsKeepConsistent(rules, defaults, r.state, Last(events));
        Step(rules, defaults, r.state, Last(events))
  }

  /** Once a step has raised, later events change nothing. */
  lemma {:induction false} RunStopsAtFailure(rules: seq<Rule>, defaults: Props, st: State, events: seq<Event>, i: nat)
    requires Consistent(st) && i <= |events|
    requires !Run(rules, defaults, st, events[..i]).ok
    ensures Run(rules, defaults, st, events) == Run(rules, defaults, st, events[..i])
    decreases |events| - i
  {
    if i < |events| {
      assert events[..i + 1][..i] == events[..i];
      RunStopsAtFailure(rules, defaults, st, events, i + 1);
      assert events[..|events|] == events;
    } else {
      assert events[..i] == events;
    }
  }

  /** add_from_html's clean-up keeps an item if it has text or is a marked pause. */
  predicate Keep(it: Item) { it.text != "" || (it.speakerIdx == PauseMarker && it.length > 0) }

  function KeptItems(items: seq<Item>): (r: seq<Item>)
    ensures |r| <= |items|
    ensures forall k :: 0 <= k < |r| ==> Keep(r[k]) && r[k] in items
  {
    if |items| == 0 then []
    else if Keep(Last(items)) then KeptItems(items[..|items| - 1]) + [Last(items)]
    else KeptItems(items[..|items| - 1])
  }

  /** A chapter whose items are all accepted is unchanged; one whose items are all refused becomes empty. */
  lemma {:induction false} KeptItemsExact(items: seq<Item>)
    ensures (forall k :: 0 <= k < |items| ==> Keep(items[k])) ==> KeptItems(items) == items
    ensures (forall k :: 0 <= k < |items| ==> !Keep(items[k])) ==> KeptItems(items) == []
    decreases |items|
  {
    if |items| > 0 {
      KeptItemsExact(items[..|items| - 1]);
      assert items[..|items| - 1] + [Last(items)] == items;
    }
  }

  /** An item survives the clean-up if and only if it was there and is accepted. */
  lemma {:induction false} KeptItemsKeepsExactly(items: seq<Item>, x: Item)
    ensures x in KeptItems(items) <==> x in items && Keep(x)
    decreases |items|
  {
    if |items| > 0 {
      var init := items[..|items| - 1];
      KeptItemsKeepsExactly(init, x);
      assert items == init + [Last(items)];
    }
  }

  /** One item is kept alone or dropped. */
  lemma KeptItemsOne(x: Item)
    ensures KeptItems([x]) == if Keep(x) then [x] else []
  {
    assert [x][..0] == [];
  }

  /** The clean-up works item by item: it keeps the order and splits over concatenation. */
  lemma {:induction false} KeptItemsAppend(a: seq<Item>, b: seq<Item>)
    ensures KeptItems(a + b) == KeptItems(a) + KeptItems(b)
    decreases |b|
  {
    if |b| == 0 {
      assert a + b == a;
    } else {
      var init := b[..|b| - 1];
      KeptItemsAppend(a, init);
      assert (a + b)[..|a + b| - 1] == a + init;
      assert Last(a + b) == Last(b);
    }
  }

  function CleanChapters(cs: seq<Chapter>): (r: seq<Chapter>)
    ensures |r| == |cs|
    ensures forall k :: 0 <= k < |r| ==> r[k] == cs[k].(items := KeptItems(cs[k].items))
  {
    if |cs| == 0 then [] else CleanChapters(cs[..|cs| - 1]) + [Last(cs).(items := KeptItems(Last(cs).items))]
  }

  /** add_from_html: optionally a new chapter, the events, then the clean-up of every chapter. */
  function AddFromHtmlSpec(rules: seq<Rule>, defaults: Props, st: State, events: seq<Event>, newChapter: bool): (r: StepResult)
    requires Consistent(st)
    ensures Consistent(r.state)
  {
    var st1 := if newChapter then st.(chapters := st.chapters + [EmptyChapter()], hasChapter := true) else st;
    var r := Run(rules, defaults, st1, events);
    if !r.ok then r else StepResult(r.state.(chapters := CleanChapters(r.state.chapters)), true)
  }

  /** add_from_html succeeds with the cleaned chapters of a run that succeeds. */
  lemma AddFromHtmlOfRun(rules: seq<Rule>, defaults: Props, st: State, st1: State, events: seq<Event>, last: State, cleaned: seq<Chapter>)
    requires Consistent(st) && st1 == st.(chapters := st.chapters + [EmptyChapter()], hasChapter := true)
    requires Run(rules, defaults, st1, events) == StepResult(last, true) && CleanChapters(last.chapters) == cleaned
    ensures AddFromHtmlSpec(rules, defaults, st, events, true) == StepResult(last.(chapters := cleaned), true)
  {
  }

  // ---------------------------------------------------------------- properties

  /** Script, style and meta open an ignored frame whatever the rules and the stack. */
  lemma IgnoredTagsBypassRules(rules: seq<Rule>, defaults: Props, stack: seq<Frame>, name: string, attrs: seq<(string, string)>)
    requires name in IgnoredTags
    ensures OpenFrame(rules, defaults, stack, name, attrs) == Some(Frame(Matched, Ignore, None))
  {
  }

  /**
   * An element no rule matches inherits its parent's signal and speaker,
   * takes the default pause, and stays unmatched (so closing it adds no pause).
   */
  lemma UnmatchedInheritsParent(rules: seq<Rule>, defaults: Props, stack: seq<Frame>, name: string, attrs: seq<(string, string)>)
    requires name !in IgnoredTags && |stack| > 0
    requires FirstMatch(rules, ElementOf(name, attrs)).verdict != Matched
    ensures var f := OpenFrame(rules, defaults, stack, name, attrs);
      f.Some? && f.value.verdict == NotMatched && f.value.signal == Last(stack).signal
      && f.value.props == (match Last(stack).props
                           case None => None
                           case Some(p) => Some(p.(pauseAfter := defaults.pauseAfter)))
  {
  }

  /** Nested elements never lower the speaker index: the pushed index is at least the parent's. */
  lemma SpeakerNeverDrops(rules: seq<Rule>, defaults: Props, stack: seq<Frame>, name: string, attrs: seq<(string, string)>)
    requires |stack| > 0 && Last(stack).props.Some?
    requires OpenFrame(rules, defaults, stack, name, attrs).Some?
    ensures var f := OpenFrame(rules, defaults, stack, name, attrs).value;
      f.props.Some? ==> f.props.value.speakerIdx >= Last(stack).props.value.speakerIdx
  {
  }

  /** A matched element keeps its rule's signal and pause, with the speaker raised to the parent's. */
  lemma MatchedTakesRule(rules: seq<Rule>, defaults: Props, stack: seq<Frame>, name: string, attrs: seq<(string, string)>)
    requires name !in IgnoredTags && |stack| > 0
    requires FirstMatch(rules, ElementOf(name, attrs)).verdict == Matched
    ensures var o := FirstMatch(rules, ElementOf(name, attrs));
      var f := OpenFrame(rules, defaults, stack, name, attrs);
      f.Some? && f.value.verdict == Matched && f.value.signal == o.signal
      && (o.props.None? ==> f.value.props.None?)
      && (o.props.Some? ==>
            (f.value.props.Some? && f.value.props.value.pauseAfter == o.props.value.pauseAfter
             && f.value.props.value.speakerIdx
                == (if Last(stack).props.Some? && o.props.value.speakerIdx < Last(stack).props.value.speakerIdx
                    then Last(stack).props.value.speakerIdx else o.props.value.speakerIdx)))
  {
  }

  /** No event removes a chapter. */
  lemma {:induction false} RunKeepsChapters(rules: seq<Rule>, defaults: Props, st: State, events: seq<Event>)
    requires Consistent(st)
    ensures |Run(rules, defaults, st, events).state.chapters| >= |st.chapters|
    decreases |events|
  {
    if |events| > 0 {
      RunKeepsChapters(rules, defaults, st, events[..|events| - 1]);
    }
  }

  /**
   * Closing an element adds a pause exactly when the element was matched, is
   * not ignored, and its properties ask for a positive pause; anything else
   * leaves the chapters as they were.
   */
  lemma PauseOnlyAfterMatchedElements(st: State, name: string)
    requires Consistent(st) && EndStep(st, name).ok
    ensures var f := Last(st.stack);
      var cs := EndStep(st, name).state.chapters;
      if f.signal != Ignore && f.verdict == Matched && f.props.Some? && f.props.value.pauseAfter > 0
      then AllItems(cs) == AllItems(st.chapters) + [Pause(f.props.value.pauseAfter)]
      else cs == st.chapters
  {
  }

  /** A successful end tag pops exactly one frame; a start tag pushes one; text keeps the depth. */
  lemma StepDepth(rules: seq<Rule>, defaults: Props, st: State, e: Event)
    requires Consistent(st) && Step(rules, defaults, st, e).ok
    ensures |Step(rules, defaults, st, e).state.stack|
      == |st.stack| + (if e.StartTag? then 1 else 0) - (if e.EndTag? then 1 else 0)
  {
  }

  function Opens(events: seq<Event>): nat
  {
    if |events| == 0 then 0 else Opens(events[..|events| - 1]) + (if Last(events).StartTag? then 1 else 0)
  }

  function Closes(events: seq<Event>): nat
  {
    if |events| == 0 then 0 else Closes(events[..|events| - 1]) + (if Last(events).EndTag? then 1 else 0)
  }

  /** After a run without error the stack holds one frame per start tag not yet closed. */
  lemma {:induction false} RunDepth(rules: seq<Rule>, defaults: Props, st: State, events: seq<Event>)
    requires Consistent(st) && Run(rules, defaults, st, events).ok
    ensures |Run(rules, defaults, st, events).state.stack| == |st.stack| + Opens(events) - Closes(events)
    decreases |events|
  {
    if |events| > 0 {
      var init := events[..|events| - 1];
      RunDepth(rules, defaults, st, init);
      StepDepth(rules, defaults, Run(rules, defaults, st, init).state, Last(events));
    }
  }

  /** After add_from_html every remaining item has text or is a marked pause. */
  lemma CleanedChaptersHoldOnlyKeptItems(rules: seq<Rule>, defaults: Props, st: State, events: seq<Event>, newChapter: bool)
    requires Consistent(st) && AddFromHtmlSpec(rules, defaults, st, events, newChapter).ok
    ensures var cs := AddFromHtmlSpec(rules, defaults, st, events, newChapter).state.chapters;
      forall c, k :: c in cs && 0 <= k < |c.items| ==> Keep(c.items[k])
  {
    var cs := AddFromHtmlSpec(rules, defaults, st, events, newChapter).state.chapters;
    forall c, k | c in cs && 0 <= k < |c.items|
      ensures Keep(c.items[k])
    {
      var j :| 0 <= j < |cs| && cs[j] == c;
    }
  }

  /** Appending to the only chapter. */
  lemma OneChapter(c: Chapter, it: Item)
    ensures AppendToLast([c], it) == [c.(items := c.items + [it])]
  {
    var r := AppendToLast([c], it);
    assert r[0] == Last(r);
  }

  /** A run that has reached `mid` and whose next event leads to `next` reaches `next`. */
  lemma RunExtend(rules: seq<Rule>, defaults: Props, st: State, events: seq<Event>, e: Event, mid: State, next: State)
    requires Consistent(st) && Consistent(mid)
    requires Run(rules, defaults, st, events) == StepResult(mid, true)
    requires Step(rules, defaults, mid, e) == StepResult(next, true)
    ensures Run(rules, defaults, st, events + [e]) == StepResult(next, true)
  {
    assert (events + [e])[..|events|] == events;
  }

  /** RunExtend on a prefix of a fixed event list. */
  lemma RunPrefix(rules: seq<Rule>, defaults: Props, st: State, events: seq<Event>, k: nat, mid: State, next: State)
    requires k < |events| && Consistent(st) && Consistent(mid)
    requires Run(rules, defaults, st, events[..k]) == StepResult(mid, true)
    requires Step(rules, defaults, mid, events[k]) == StepResult(next, true)
    ensures Run(rules, defaults, st, events[..k + 1]) == StepResult(next, true)
  {
    assert events[..k + 1][..k] == events[..k];
  }

  /** Running two event lists one after the other is running their concatenation. */
  lemma {:induction false} RunAppend(rules: seq<Rule>, defaults: Props, st: State, a: seq<Event>, b: seq<Event>)
    requires Consistent(st) && Run(rules, defaults, st, a).ok
    ensures Run(rules, defaults, st, a + b) == Run(rules, defaults, Run(rules, defaults, st, a).state, b)
    decreases |b|
  {
    if |b| == 0 {
      assert a + b == a;
    } else {
      var n := |b|;
      RunAppend(rules, defaults, st, a, b[..n - 1]);
      assert (a + b)[..|a + b| - 1] == a + b[..n - 1];
    }
  }

  /** The state a fresh converter starts from: one unmatched frame with the default properties. */
  function Initial(defaults: Props): (st: State)
    ensures Consistent(st) && |st.stack| == 1
  {
    State([Frame(NotMatched, NoSignal, Some(defaults))], [], false, None)
  }

  // --------------------------------------------------------------- the class

  datatype Mode = ItemsMode | ProjectMode

  /** What convert_from_html returns: the project, the last chapter's items, or None. */
  datatype Conversion = WholeProject(chapters: seq<Chapter>) | LastChapterItems(items: seq<Item>) | Nothing

  /** A rule file entry as parsed from JSON; absent keys are None. */
  datatype JsonCondition = JsonCondition(name: string, arg: string)
  datatype JsonEntry = JsonEntry(conditions: seq<JsonCondition>, speakerIdx: Option<int>, pauseAfter: Option<int>, signal: Option<string>)

  /** A condition entry with a known name and a non-empty argument becomes a condition. */
  function ConditionOf(jc: JsonCondition): (r: Option<Condition>)
    ensures r.Some? <==> jc.arg != "" && jc.name in KnownConditionNames
    ensures r.Some? ==> r.value.arg == jc.arg
    ensures r.Some? ==> (r.value.NameIs? <==> jc.name == "Name")
    ensures r.Some? ==> (r.value.HasClass? <==> jc.name == "Class")
    ensures r.Some? ==> (r.value.IdIs? <==> jc.name == "ID")
  {
    if jc.arg == "" then None
    else if jc.name == "Name" then Some(NameIs(jc.arg))
    else if jc.name == "Class" then Some(HasClass(jc.arg))
    else if jc.name == "ID" then Some(IdIs(jc.arg))
    else None
  }

  /** The condition names the rule files may use; any other is reported and skipped. */
  const KnownConditionNames: set<string> := {"Name", "Class", "ID"}

  function ConditionsOf(jcs: seq<JsonCondition>): (cs: seq<Condition>)
    ensures |cs| <= |jcs|
    ensures forall k :: 0 <= k < |cs| ==> cs[k].arg != ""
  {
    if |jcs| == 0 then []
    else match ConditionOf(Last(jcs))
      case None => ConditionsOf(jcs[..|jcs| - 1])
      case Some(c) => ConditionsOf(jcs[..|jcs| - 1]) + [c]
  }

  /** A condition is kept exactly when some entry of the list converts to it. */
  lemma {:induction false} ConditionsOfKeepsExactly(jcs: seq<JsonCondition>, c: Condition)
    ensures c in ConditionsOf(jcs) <==> exists jc :: jc in jcs && ConditionOf(jc) == Some(c)
    decreases |jcs|
  {
    if |jcs| > 0 {
      var init := jcs[..|jcs| - 1];
      ConditionsOfKeepsExactly(init, c);
      assert jcs == init + [Last(jcs)];
      if c in ConditionsOf(jcs) && c !in ConditionsOf(init) {
        assert ConditionOf(Last(jcs)) == Some(c);
        assert Last(jcs) in jcs;
      }
    }
  }

  /** One entry gives its condition alone, or nothing. */
  lemma ConditionsOfOne(jc: JsonCondition)
    ensures ConditionsOf([jc]) == match ConditionOf(jc) case None => [] case Some(c) => [c]
  {
    assert [jc][..0] == [];
  }

  /** The conversion works entry by entry: it keeps the order and splits over concatenation. */
  lemma {:induction false} ConditionsOfAppend(a: seq<JsonCondition>, b: seq<JsonCondition>)
    ensures ConditionsOf(a + b) == ConditionsOf(a) + ConditionsOf(b)
    decreases |b|
  {
    if |b| == 0 {
      assert a + b == a;
    } else {
      var init := b[..|b| - 1];
      ConditionsOfAppend(a, init);
      assert (a + b)[..|a + b| - 1] == a + init;
      assert Last(a + b) == Last(b);
    }
  }

  /** An entry with an unknown name, or with an empty argument, leaves no trace among its neighbours. */
  lemma UnusableConditionDropped(a: seq<JsonCondition>, jc: JsonCondition, b: seq<JsonCondition>)
    requires jc.name !in KnownConditionNames || jc.arg == ""
    ensures ConditionsOf(a + [jc] + b) == ConditionsOf(a) + ConditionsOf(b)
  {
    ConditionsOfAppend(a + [jc], b);
    ConditionsOfAppend(a, [jc]);
    ConditionsOfOne(jc);
  }

  function SignalOf(s: Option<string>): Signal
  {
    if s == Some("NEW_CHAPTER") then NewChapter else if s == Some("IGNORE") then Ignore else NoSignal
  }

  /**
   * The rule built from a file entry: the usable conditions in order, always
   * some properties (missing values are 0), and the named signal or none.
   */
  function RuleOf(entry: JsonEntry): (r: Rule)
    ensures r.props.Some?
    ensures r.props.value.speakerIdx == (match entry.speakerIdx case None => 0 case Some(v) => v)
    ensures r.props.value.pauseAfter == (match entry.pauseAfter case None => 0 case Some(v) => v)
    ensures r.signal == NewChapter <==> entry.signal == Some("NEW_CHAPTER")
    ensures r.signal == Ignore <==> entry.signal == Some("IGNORE")
    ensures r.conditions == ConditionsOf(entry.conditions)
    ensures |r.conditions| <= |entry.conditions|
  {
    var idx := match entry.speakerIdx case None => 0 case Some(v) => v;
    var pause := match entry.pauseAfter case None => 0 case Some(v) => v;
    Rule(ConditionsOf(entry.conditions), Some(Props(idx, pause)), SignalOf(entry.signal))
  }

  function RulesOf(entries: seq<JsonEntry>): (rs: seq<Rule>)
    ensures |rs| == |entries|
    ensures forall k :: 0 <= k < |rs| ==> rs[k] == RuleOf(entries[k])
  {
    if |entries| == 0 then [] else RulesOf(entries[..|entries| - 1]) + [RuleOf(Last(entries))]
  }

  /** The rules of several files in order; a file that does not exist (None) adds none. */
  function FileRules(files: seq<Option<seq<JsonEntry>>>): seq<Rule>
  {
    if |files| == 0 then []
    else FileRules(files[..|files| - 1]) + (match Last(files) case None => [] case Some(es) => RulesOf(es))
  }

  /** One more file for `FileRules`, after the rules `pre` that come first. */
  lemma FileRulesStep(pre: seq<Rule>, files: seq<Option<seq<JsonEntry>>>, i: nat)
    requires i < |files|
    ensures pre + FileRules(files[..i]) + (match files[i] case None => [] case Some(es) => RulesOf(es))
      == pre + FileRules(files[..i + 1])
  {
    assert files[..i + 1][..i] == files[..i];
  }

  /** One more entry for `RulesOf`, after the rules `pre` that come first. */
  lemma RulesOfStep(pre: seq<Rule>, entries: seq<JsonEntry>, i: nat)
    requires i < |entries|
    ensures pre + RulesOf(entries[..i]) + [RuleOf(entries[i])] == pre + RulesOf(entries[..i + 1])
  {
    assert entries[..i + 1][..i] == entries[..i];
  }

  method ConvertConditions(jcs: seq<JsonCondition>) returns (cs: seq<Condition>)
    ensures cs == ConditionsOf(jcs)
  {
    cs := [];
    var i := 0;
    while i < |jcs|
      invariant 0 <= i <= |jcs|
      invariant cs == ConditionsOf(jcs[..i])
    {
      assert jcs[..i + 1][..i] == jcs[..i];
      var name, arg := jcs[i].name, jcs[i].arg;
      var condition: Option<Condition> := None;
      match name {
        case "Name" => condition := Some(NameIs(arg));
        case "Class" => condition := Some(HasClass(arg));
        case "ID" => condition := Some(IdIs(arg));
        case _ =>
      }
      if condition.Some? && condition.value.arg != "" {
        cs := cs + [condition.value];
      }
      i := i + 1;
    }
    assert jcs[..i] == jcs;
  }

  class Converter {
    var rules: seq<Rule>
    var defaults: Props
    var stack: seq<Frame>
    var project: Project
    var hasChapter: bool
    var currentItem: Option<Item>

    ghost predicate Valid()
      reads this, project
    {
      hasChapter ==> |project.chapters| > 0
    }

    ghost function Abs(): State
      reads this, project
    {
      State(stack, project.chapters, hasChapter, currentItem)
    }

    /**
     * Custom rules first, then the rules of each rule file, then the default
     * file's unless ignored; the stack starts with an unmatched frame holding
     * the default properties.
     */
    constructor (customRules: seq<Rule>, ruleFiles: seq<Option<seq<JsonEntry>>>, defaultFile: Option<seq<JsonEntry>>,
                 ignoreDefaults: bool, defaultProps: Props)
      ensures Valid()
      ensures rules == customRules + FileRules(ruleFiles)
        + (if ignoreDefaults || defaultFile.None? then [] else RulesOf(defaultFile.value))
      ensures defaults == defaultProps
      ensures stack == [Frame(NotMatched, NoSignal, Some(defaultProps))]
      ensures fresh(project) && project.chapters == [] && !hasChapter && currentItem == None
    {
      defaults := defaultProps;
      rules := customRules;
      stack := [];
      project := new Project();
      hasChapter := false;
      currentItem := None;
      new;
      var i := 0;
      while i < |ruleFiles|
        invariant 0 <= i <= |ruleFiles|
        invariant rules == customRules + FileRules(ruleFiles[..i])
        invariant stack == [] && !hasChapter && currentItem == None && defaults == defaultProps
        invariant fresh(project) && project.chapters == []
      {
        AddCheckersFromJson(ruleFiles[i]);
        FileRulesStep(customRules, ruleFiles, i);
        i := i + 1;
      }
      assert ruleFiles[..i] == ruleFiles;
      if !ignoreDefaults {
        AddCheckersFromJson(defaultFile);
      }
      stack := stack + [Frame(NotMatched, NoSignal, Some(defaults))];
    }

    /** add_checkers_from_json on an already parsed file; a missing file (None) is skipped. */
    method AddCheckersFromJson(file: Option<seq<JsonEntry>>)
      modifies this`rules
      ensures rules == old(rules) + (match file case None => [] case Some(es) => RulesOf(es))
    {
      if file.None? {
        return;
      }
      var entries := file.value;
      var i := 0;
      while i < |entries|
        invariant 0 <= i <= |entries|
        invariant rules == old(rules) + RulesOf(entries[..i])
      {
        var conditions := ConvertConditions(entries[i].conditions);
        var speakerIdx := 0;
        var pauseAfter := 0;
        if entries[i].speakerIdx.Some? {
          speakerIdx := entries[i].speakerIdx.value;
        }
        if entries[i].pauseAfter.Some? {
          pauseAfter := entries[i].pauseAfter.value;
        }
        var signal := NoSignal;
        if entries[i].signal.Some? {
          match entries[i].signal.value {
            case "NEW_CHAPTER" => signal := NewChapter;
            case "IGNORE" => signal := Ignore;
            case _ =>
          }
        }
        assert Rule(conditions, Some(Props(speakerIdx, pauseAfter)), signal) == RuleOf(entries[i]);
        rules := rules + [Rule(conditions, Some(Props(speakerIdx, pauseAfter)), signal)];
        RulesOfStep(old(rules), entries, i);
        i := i + 1;
      }
      assert entries[..i] == entries;
    }

    /** handle_starttag. */
    method HandleStartTag(name: string, attrs: seq<(string, string)>) returns (ok: bool)
      requires Valid()
      modifies this`stack
      ensures Valid()
      ensures StepResult(Abs(), ok) == StartStep(rules, defaults, old(Abs()), name, attrs)
    {
      var verdict, signal, props;
      if name in IgnoredTags {
        verdict, signal, props := Matched, Ignore, None;
      } else {
        var elem := TagToElement(name, attrs);
        var o := CheckElem(elem, rules);
        verdict, signal, props := o.verdict, o.signal, o.props;
        if verdict != Matched {
          if |stack| == 0 {
            return false;
          }
          var top := stack[|stack| - 1];
          signal, props := top.signal, top.props;
          if props.Some? {
            props := Some(props.value.(pauseAfter := defaults.pauseAfter));
            verdict := NotMatched;
          }
        }
      }
      if props.Some? {
        if |stack| == 0 {
          return false;
        }
        var parent := stack[|stack| - 1].props;
        if parent.Some? && props.value.speakerIdx < parent.value.speakerIdx {
          props := Some(props.value.(speakerIdx := parent.value.speakerIdx));
        }
      }
      stack := stack + [Frame(verdict, signal, props)];
      ok := true;
    }

    /** Appends an item to the current chapter, which is the project's last chapter. */
    method AppendToCurrentChapter(it: Item)
      requires Valid() && hasChapter
      modifies project`chapters
      ensures Valid()
      ensures project.chapters == AppendToLast(old(project.chapters), it)
    {
      var n := |project.chapters|;
      var c := project.chapters[n - 1];
      project.chapters := project.chapters[..n - 1] + [c.(items := c.items + [it])];
    }

    /** handle_data. */
    method HandleData(data: string) returns (ok: bool)
      requires Valid()
      modifies this`hasChapter, this`currentItem, project`chapters
      ensures Valid()
      ensures StepResult(Abs(), ok) == DataStep(old(Abs()), data)
    {
      if |stack| == 0 {
        return false;
      }
      var top := stack[|stack| - 1];
      match top.signal {
        case Ignore => return true;
        case NewChapter =>
          project.chapters := project.chapters + [EmptyChapter()];
          hasChapter := true;
        case NoSignal =>
      }
      if top.props.Some? {
        var it := DataItem(data, top.props.value);
        currentItem := Some(it);
        if !hasChapter {
          return false;
        }
        AppendToCurrentChapter(it);
      }
      ok := true;
    }

    /** handle_endtag. */
    method HandleEndTag(name: string) returns (ok: bool)
      requires Valid()
      modifies this`stack, this`currentItem, project`chapters
      ensures Valid()
      ensures StepResult(Abs(), ok) == EndStep(old(Abs()), name)
    {
      if |stack| == 0 {
        return false;
      }
      var f := stack[|stack| - 1];
      stack := stack[..|stack| - 1];
      var addPause := false;
      if f.signal == Ignore {
        return true;
      }
      if f.verdict == Matched {
        addPause := true;
      } else if name in InlineTags {
        return true;
      }
      if addPause {
        if !hasChapter {
          return false;
        }
        if f.props.Some? && f.props.value.pauseAfter > 0 {
          AppendToCurrentChapter(Pause(f.props.value.pauseAfter));
        }
      }
      currentItem := None;
      ok := true;
    }

    /** feed: hands each event to its handler until one raises. */
    method Feed(events: seq<Event>) returns (ok: bool)
      requires Valid()
      modifies this`stack, this`hasChapter, this`currentItem, project`chapters
      ensures Valid()
      ensures StepResult(Abs(), ok) == Run(rules, defaults, old(Abs()), events)
    {
      ok := true;
      var i := 0;
      while i < |events| && ok
        invariant 0 <= i <= |events|
        invariant Valid()
        invariant StepResult(Abs(), ok) == Run(rules, defaults, old(Abs()), events[..i])
      {
        assert events[..i + 1][..i] == events[..i];
        match events[i] {
          case StartTag(name, attrs) => ok := HandleStartTag(name, attrs);
          case Data(text) => ok := HandleData(text);
          case EndTag(name) => ok := HandleEndTag(name);
        }
        i := i + 1;
      }
      if !ok {
        RunStopsAtFailure(rules, defaults, old(Abs()), events, i);
      } else {
        assert events[..i] == events;
      }
    }

    /** add_from_html's clean-up, chapter by chapter. */
    method CleanAllChapters()
      modifies project`chapters
      ensures project.chapters == CleanChapters(old(project.chapters))
    {
      var cleaned: seq<Chapter> := [];
      var i := 0;
      while i < |project.chapters|
        invariant 0 <= i <= |project.chapters|
        invariant cleaned == CleanChapters(project.chapters[..i])
      {
        assert project.chapters[..i + 1][..i] == project.chapters[..i];
        var items := project.chapters[i].items;
        var finalItems: seq<Item> := [];
        var j := 0;
        while j < |items|
          invariant 0 <= j <= |items|
          invariant finalItems == KeptItems(items[..j])
        {
          assert items[..j + 1][..j] == items[..j];
          if items[j].text != "" || (items[j].speakerIdx == PauseMarker && items[j].length > 0) {
            finalItems := finalItems + [items[j]];
          }
          j := j + 1;
        }
        assert items[..j] == items;
        cleaned := cleaned + [project.chapters[i].(items := finalItems)];
        i := i + 1;
      }
      assert project.chapters[..i] == project.chapters;
      project.chapters := cleaned;
    }

    /** add_from_html. */
    method AddFromHtml(events: seq<Event>, newChapter: bool) returns (ok: bool)
      requires Valid()
      modifies this`stack, this`hasChapter, this`currentItem, project`chapters
      ensures Valid()
      ensures StepResult(Abs(), ok) == AddFromHtmlSpec(rules, defaults, old(Abs()), events, newChapter)
    {
      if newChapter {
        project.chapters := project.chapters + [EmptyChapter()];
        hasChapter := true;
      }
      ok := Feed(events);
      if ok {
        CleanAllChapters();
      }
    }

    /**
     * convert_from_html: a fresh project, then add_from_html with a new
     * chapter. In project mode the result is the project; in items mode the
     * last chapter's items.
     */
    method ConvertFromHtml(events: seq<Event>, mode: Mode) returns (ok: bool, out: Conversion)
      requires Valid()
      modifies this
      ensures Valid() && fresh(project)
      ensures rules == old(rules) && defaults == old(defaults)
      ensures StepResult(Abs(), ok)
        == AddFromHtmlSpec(rules, defaults, State(old(stack), [], false, old(currentItem)), events, true)
      ensures !ok ==> out == Nothing
      ensures ok && mode == ProjectMode ==> out == WholeProject(project.chapters)
      ensures ok && mode == ItemsMode ==> |project.chapters| > 0 && out == LastChapterItems(Last(project.chapters).items)
    {
      project := new Project();
      // The previous current chapter belonged to the old project; the call
      // below replaces it before any event is handled.
      hasChapter := false;
      ghost var before := Abs();
      ok := AddFromHtml(events, true);
      RunKeepsChapters(rules, defaults, before.(chapters := before.chapters + [EmptyChapter()], hasChapter := true), events);
      if !ok {
        return ok, Nothing;
      }
      match mode {
        case ProjectMode => out := WholeProject(project.chapters);
        case ItemsMode =>
          if |project.chapters| > 0 {
            out := LastChapterItems(project.chapters[|project.chapters| - 1].items);
          } else {
            out := Nothing;
          }
      }
    }
  }
}
