/** A one-term plan replayed against a two-course catalog, once with both
    courses of term parity 0 and once with both of parity 1. */
module Scenario {
  import opened Errors
  import opened Strconv
  import opened TokenReader
  import opened Courses
  import opened PlanValidator

  /** One term (counter 1) taking both classes. */
  const PlanTokens: seq<string> := ["2", "A", "x", "B", "y"]

  /** Both classes meet in week 1 on day 0, in different slots. */
  const ClassA := Class("A", "x", [1, 0, 0, 0, 0, 0, 0], 1)
  const ClassB := Class("B", "y", [2, 0, 0, 0, 0, 0, 0], 1)

  /** Course A (credits 3, weight 0) with class "A x", course B (credits 2,
      weight 5) with class "B y", both of parity `term`, no edges. */
  function Built(term: nat): Catalog {
    Catalog(
      map["A" := Course("A", term, 3, 0, false, map["x" := ClassA], [], []),
          "B" := Course("B", term, 2, 5, false, map["y" := ClassB], [], [])],
      map["A x" := ClassA, "B y" := ClassB])
  }

  /** The single term has counter 1, so a parity-0 course is refused with
      the term error, whatever its schedule. */
  lemma EvenRefused()
    ensures Resolved(Built(0))
    ensures ParseOutputSpec(PlanTokens, Built(0), 1).err == Some(TermIncorrect("A"))
  {
    var cat := Built(0);
    assert UintAt(PlanTokens, 0) == Read(2, None, 1);
    assert StringAt(PlanTokens, 1) == Read("A", None, 2);
    assert StringAt(PlanTokens, 2) == Read("x", None, 3);
    assert Key("A", "x") == "A x";
    var st := TermState(3, NoCounters, Some(TermIncorrect("A")), [], true);
    assert PlanClass(PlanTokens, 1, cat, 1, NoCounters, []) == st;
    assert TermClasses(PlanTokens, 1, 2, cat, 1, NoCounters, [], None) == st;
    assert PlayTerm(PlanTokens, 0, 1, cat, NoCounters) == Stop(Outcome(NoCounters, st.err, cat, 3));
  }

  /** With parity 1 both classes are admitted; B's weight counts. */
  lemma OddClassesAdmitted()
    ensures Resolved(Built(1))
    ensures TermClasses(PlanTokens, 1, 2, Built(1), 1, NoCounters, [], None)
         == TermState(5, Counters(2, 0, 5), None, [ClassA, ClassB], false)
  {
    var cat := Built(1);
    assert StringAt(PlanTokens, 1) == Read("A", None, 2);
    assert StringAt(PlanTokens, 2) == Read("x", None, 3);
    assert StringAt(PlanTokens, 3) == Read("B", None, 4);
    assert StringAt(PlanTokens, 4) == Read("y", None, 5);
    assert Key("A", "x") == "A x" && Key("B", "y") == "B y";
    var st1 := TermState(3, Counters(1, 0, 0), None, [ClassA], false);
    assert PlanClass(PlanTokens, 1, cat, 1, NoCounters, []) == st1;
    var st2 := TermState(5, Counters(2, 0, 5), None, [ClassA, ClassB], false);
    assert PlanClass(PlanTokens, 3, cat, 1, st1.res, st1.current) == st2;
    assert TermClasses(PlanTokens, 3, 1, cat, 1, st1.res, st1.current, st1.err) == st2;
  }

  /** Slot 1 and slot 2 of day 0 do not overlap. */
  lemma NoClash()
    ensures FirstConflict([ClassA, ClassB]) == None
  {
    assert !Overlap(1, 2) && !Overlap(0, 0);
    assert !DayOverlap(ClassA.timeTable, ClassB.timeTable, 0);
  }

  /** The plan is accepted with two compulsory classes, no learned
      postrequisite and an optional score of 5. */
  lemma OddAccepted()
    ensures Resolved(Built(1))
    ensures var o := ParseOutputSpec(PlanTokens, Built(1), 1);
      o.err == None && o.res == Counters(2, 0, 5) && o.pos == 5
  {
    var cat := Built(1);
    assert UintAt(PlanTokens, 0) == Read(2, None, 1);
    OddClassesAdmitted();
    NoClash();
    var st := TermState(5, Counters(2, 0, 5), None, [ClassA, ClassB], false);
    PlayTermCases(PlanTokens, 0, 1, cat, NoCounters, st);
    PlayTermsStep(PlanTokens, 0, 1, cat, NoCounters, None, 0);
  }
}
