/**
 * Rules that recognise HTML elements. A rule (a `Checker` in the source) holds
 * a list of conditions on an element's tag name, classes or id, the item
 * properties it assigns, and a signal (ignore the element, or start a new
 * chapter).
 */
module Checker {
  import opened Wrappers

  /** An HTML start tag: its name, its id ('' when absent) and its classes. */
  datatype Element = Element(name: string, id: string, classes: seq<string>)

  datatype Condition = NameIs(arg: string) | HasClass(arg: string) | IdIs(arg: string)

  datatype Signal = NoSignal | Ignore | NewChapter

  datatype Verdict = Matched | NotMatched

  /** The speaker index and the pause (ms) to append after the element's text. */
  datatype Props = Props(speakerIdx: int, pauseAfter: int)

  datatype Rule = Rule(conditions: seq<Condition>, props: Option<Props>, signal: Signal)

  /** What `determine` returns: a verdict, the rule's signal and maybe properties. */
  datatype Outcome = Outcome(verdict: Verdict, signal: Signal, props: Option<Props>)

  predicate Holds(c: Condition, e: Element) {
    match c
    case NameIs(arg) => e.name == arg
    case HasClass(arg) => arg in e.classes
    case IdIs(arg) => arg == e.id
  }

  predicate SomeHolds(cs: seq<Condition>, e: Element) {
    exists k :: 0 <= k < |cs| && Holds(cs[k], e)
  }

  /**
   * The outcome of `determine` in closed form. An ignoring rule matches as soon
   * as any one of its conditions holds and then hands out no properties. Any
   * other rule's running total is overwritten by each condition in turn, so its
   * verdict is decided by the LAST condition alone; a rule without conditions
   * never matches. A miss still reports the rule's own signal.
   */
  function Determination(r: Rule, e: Element): Outcome
  {
    if r.signal == Ignore && SomeHolds(r.conditions, e) then Outcome(Matched, Ignore, None)
    else if |r.conditions| > 0 && Holds(r.conditions[|r.conditions| - 1], e) then Outcome(Matched, r.signal, r.props)
    else Outcome(NotMatched, r.signal, None)
  }

  /** Checker.determine: the loop with its early return and its running total. */
  method Determine(r: Rule, e: Element) returns (out: Outcome)
    ensures out == Determination(r, e)
  {
    var retTotal: Option<bool> := None;
    var i := 0;
    while i < |r.conditions|
      invariant 0 <= i <= |r.conditions|
      invariant r.signal == Ignore ==> forall k :: 0 <= k < i ==> !Holds(r.conditions[k], e)
      invariant i == 0 <==> retTotal.None?
      invariant i > 0 ==> retTotal == Some(Holds(r.conditions[i - 1], e))
    {
      var retVal := Holds(r.conditions[i], e);
      if retVal && r.signal == Ignore {
        return Outcome(Matched, r.signal, None);
      }
      if retTotal == Some(true) {
        retTotal := Some(true && retVal);
      } else {
        retTotal := Some(retVal);
      }
      i := i + 1;
    }
    if retTotal == Some(true) {
      return Outcome(Matched, r.signal, r.props);
    }
    return Outcome(NotMatched, r.signal, None);
  }

  /** A rule that does not ignore matches exactly when its last condition holds. */
  lemma LastConditionDecides(r: Rule, e: Element)
    requires r.signal != Ignore
    ensures Determination(r, e).verdict == Matched
      <==> |r.conditions| > 0 && Holds(r.conditions[|r.conditions| - 1], e)
    ensures Determination(r, e).verdict == Matched ==> Determination(r, e).props == r.props
  {
  }

  /** An ignoring rule matches exactly when some condition holds, and never yields properties. */
  lemma IgnoreMatchesOnAnyCondition(r: Rule, e: Element)
    requires r.signal == Ignore
    ensures Determination(r, e).verdict == Matched <==> SomeHolds(r.conditions, e)
    ensures Determination(r, e).props == None
  {
  }

  /** Every outcome carries the rule's own signal, matched or not, and a miss carries no properties. */
  lemma OutcomeCarriesRuleSignal(r: Rule, e: Element)
    ensures Determination(r, e).signal == r.signal
    ensures Determination(r, e).verdict == NotMatched ==> Determination(r, e).props == None
  {
  }

  /**
   * The conditions are not a conjunction: [name 'p', class 'bla'] matches a
   * 'div' of class 'bla' although its first condition fails.
   */
  lemma NotAConjunction()
    ensures var r := Rule([NameIs("p"), HasClass("bla")], Some(Props(1, 0)), NoSignal);
      var e := Element("div", "", ["bla"]);
      !Holds(r.conditions[0], e) && Determination(r, e) == Outcome(Matched, NoSignal, Some(Props(1, 0)))
  {
  }
}
