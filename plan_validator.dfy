/** ParseOutput: replay a study plan term by term against the graph that
    ParseInput built, counting down from the term limit, and either accept it
    with three counters or report the first error it stops on. */
module PlanValidator {
  import opened Errors
  import opened Strings
  import opened Strconv
  import opened TokenReader
  import opened Courses

  /** `uint64` arithmetic wraps modulo 2^64. */
  const TwoTo64: nat := 0x1_0000_0000_0000_0000

  function Wrap(x: nat): (r: Uint64)
    ensures x <= MaxUint64 ==> r == x
  {
    x % TwoTo64
  }

  lemma WrapAdd(a: nat, b: nat)
    ensures Wrap(Wrap(a) + b) == Wrap(a + b)
  {
    var q := a / TwoTo64;
    assert a == q * TwoTo64 + Wrap(a);
    assert a + b == q * TwoTo64 + (Wrap(a) + b);
  }

  /** Adding one to a uint64 counter, which wraps to 0 past its maximum. */
  function Inc(n: Uint64): (r: Uint64)
    ensures n < MaxUint64 ==> r == n + 1
    ensures n == MaxUint64 ==> r == 0
  {
    if n == MaxUint64 then 0 else n + 1
  }

  lemma IncWrap(a: nat)
    ensures Inc(Wrap(a)) == Wrap(a + 1)
  {
    WrapAdd(a, 1);
  }

  /** ParseOutputResult. */
  datatype Counters = Counters(compulsoryCount: Uint64, postCoursesCount: Uint64, optionalScore: Uint64)

  const NoCounters := Counters(0, 0, 0)

  // ---------------------------------------------------------------------
  // Prerequisite and postrequisite scans over the learned flags

  ghost predicate AllDeclared(codes: seq<string>, courses: map<string, Course>) {
    forall i :: 0 <= i < |codes| ==> codes[i] in courses
  }

  /** The prerequisite loop: every unlearned prerequisite overwrites the
      error, so the one reported is the LAST unlearned one in list order. */
  function PreCheck(pre: seq<string>, courses: map<string, Course>): Option<Error>
    requires AllDeclared(pre, courses)
  {
    if pre == [] then None
    else
      var last := pre[|pre| - 1];
      if !courses[last].learned then Some(PreCourseNotLearned(courses[last].code))
      else
        assert forall i :: 0 <= i < |pre| - 1 ==> pre[..|pre| - 1][i] == pre[i];
        PreCheck(pre[..|pre| - 1], courses)
  }

  /** The check passes exactly when every prerequisite is learned. */
  lemma {:induction false} PreCheckPasses(pre: seq<string>, courses: map<string, Course>)
    requires AllDeclared(pre, courses)
    ensures PreCheck(pre, courses).None? <==> forall i :: 0 <= i < |pre| ==> courses[pre[i]].learned
    decreases |pre|
  {
    if |pre| > 0 && courses[pre[|pre| - 1]].learned {
      var init := pre[..|pre| - 1];
      assert forall i :: 0 <= i < |init| ==> init[i] == pre[i];
      PreCheckPasses(init, courses);
    }
  }

  /** When the check fails it names the prerequisite at `i`, the last
      unlearned one in list order. */
  lemma {:induction false} PreCheckLast(pre: seq<string>, courses: map<string, Course>) returns (i: nat)
    requires AllDeclared(pre, courses)
    ensures PreCheck(pre, courses).Some? ==>
      && i < |pre| && !courses[pre[i]].learned
      && PreCheck(pre, courses) == Some(PreCourseNotLearned(courses[pre[i]].code))
      && forall j :: i < j < |pre| ==> courses[pre[j]].learned
    decreases |pre|
  {
    i := 0;
    if |pre| == 0 {
    } else if !courses[pre[|pre| - 1]].learned {
      i := |pre| - 1;
    } else {
      var init := pre[..|pre| - 1];
      assert forall k :: 0 <= k < |init| ==> init[k] == pre[k];
      i := PreCheckLast(init, courses);
    }
  }

  /** How many entries of a postrequisite list are learned (a course listed
      twice counts twice). */
  function CountLearned(post: seq<string>, courses: map<string, Course>): (n: nat)
    requires AllDeclared(post, courses)
    ensures n <= |post|
  {
    if post == [] then 0
    else
      var init := post[..|post| - 1];
      assert forall i :: 0 <= i < |post| - 1 ==> init[i] == post[i];
      CountLearned(init, courses) + if courses[post[|post| - 1]].learned then 1 else 0
  }

  /** The count is zero exactly when no entry is learned, and the length of
      the list exactly when every entry is. */
  lemma {:induction false} CountLearnedExtremes(post: seq<string>, courses: map<string, Course>)
    requires AllDeclared(post, courses)
    ensures CountLearned(post, courses) == 0 <==> forall i :: 0 <= i < |post| ==> !courses[post[i]].learned
    ensures CountLearned(post, courses) == |post| <==> forall i :: 0 <= i < |post| ==> courses[post[i]].learned
    decreases |post|
  {
    if post != [] {
      var init := post[..|post| - 1];
      assert forall i :: 0 <= i < |post| - 1 ==> init[i] == post[i];
      CountLearnedExtremes(init, courses);
    }
  }

  // ---------------------------------------------------------------------
  // The conflict rule

  /** Whether two uint64 masks share a set bit: their bitwise and is not zero. */
  predicate Overlap(a: nat, b: nat)
    decreases a
  {
    if a == 0 || b == 0 then false
    else (a % 2 == 1 && b % 2 == 1) || Overlap(a / 2, b / 2)
  }

  /** Some weekday from `k` on where both slot masks share a slot. */
  predicate DayOverlap(x: TimeTable, y: TimeTable, k: nat)
    requires k <= 7
    decreases 7 - k
  {
    k < 7 && (Overlap(x[k], y[k]) || DayOverlap(x, y, k + 1))
  }

  /** Two classes conflict when their week masks share a week and, on some
      weekday, their slot masks share a slot. */
  predicate Conflicts(x: Class, y: Class) {
    Overlap(x.weekTable, y.weekTable) && DayOverlap(x.timeTable, y.timeTable, 0)
  }

  lemma {:induction false} DayOverlapMeans(x: TimeTable, y: TimeTable, k: nat)
    requires k <= 7
    ensures DayOverlap(x, y, k) <==> exists d :: k <= d < 7 && Overlap(x[d], y[d])
    decreases 7 - k
  {
    if k < 7 {
      DayOverlapMeans(x, y, k + 1);
      if Overlap(x[k], y[k]) { assert k <= k < 7 && Overlap(x[k], y[k]); }
    }
  }

  lemma {:induction false} OverlapSymmetric(a: nat, b: nat)
    ensures Overlap(a, b) == Overlap(b, a)
    decreases a
  {
    if a != 0 && b != 0 {
      OverlapSymmetric(a / 2, b / 2);
    }
  }

  /** A set bit that both masks have. */
  lemma {:induction false} OverlapHasCommonBit(a: nat, b: nat)
    ensures Overlap(a, b) <==> exists n: nat :: Bit(a, n) && Bit(b, n)
    decreases a
  {
    if a != 0 && b != 0 {
      OverlapHasCommonBit(a / 2, b / 2);
      if Overlap(a, b) {
        if a % 2 == 1 && b % 2 == 1 {
          assert Bit(a, 0) && Bit(b, 0);
          assert exists n: nat :: Bit(a, n) && Bit(b, n);
        } else {
          var n: nat :| Bit(a / 2, n) && Bit(b / 2, n);
          assert Bit(a, n + 1) && Bit(b, n + 1);
          assert exists m: nat :: Bit(a, m) && Bit(b, m);
        }
      } else {
        assert !(a % 2 == 1 && b % 2 == 1) && !Overlap(a / 2, b / 2);
        forall n: nat ensures !(Bit(a, n) && Bit(b, n)) {
          if n == 0 {
            assert Bit(a, n) == (a % 2 == 1) && Bit(b, n) == (b % 2 == 1);
          } else {
            assert Bit(a, n) == Bit(a / 2, n - 1) && Bit(b, n) == Bit(b / 2, n - 1);
            assert !(Bit(a / 2, n - 1) && Bit(b / 2, n - 1));
          }
        }
      }
    } else {
      forall n: nat ensures !(Bit(a, n) && Bit(b, n)) { ZeroHasNoBit(if a == 0 then a else b, n); }
    }
  }

  /** Bit n of x is set. */
  predicate Bit(x: nat, n: nat)
    decreases n
  {
    if n == 0 then x % 2 == 1 else Bit(x / 2, n - 1)
  }

  lemma {:induction false} ZeroHasNoBit(x: nat, n: nat)
    requires x == 0
    ensures !Bit(x, n)
    decreases n
  {
    if n > 0 { ZeroHasNoBit(x / 2, n - 1); }
  }

  /** The conflict rule does not depend on the order of the two classes, so
      pair order only decides which classes the error names first. */
  lemma ConflictsSymmetric(x: Class, y: Class)
    ensures Conflicts(x, y) == Conflicts(y, x)
  {
    OverlapSymmetric(x.weekTable, y.weekTable);
    DayOverlapMeans(x.timeTable, y.timeTable, 0);
    DayOverlapMeans(y.timeTable, x.timeTable, 0);
    forall d | 0 <= d < 7 ensures Overlap(x.timeTable[d], y.timeTable[d]) == Overlap(y.timeTable[d], x.timeTable[d]) {
      OverlapSymmetric(x.timeTable[d], y.timeTable[d]);
    }
  }

  /** Two classes conflict exactly when they share a week bit and, on one
      weekday, a slot bit. */
  lemma ConflictsMeans(x: Class, y: Class)
    ensures Conflicts(x, y) <==>
      (exists n: nat :: Bit(x.weekTable, n) && Bit(y.weekTable, n))
      && exists d, n: nat :: 0 <= d < 7 && Bit(x.timeTable[d], n) && Bit(y.timeTable[d], n)
  {
    OverlapHasCommonBit(x.weekTable, y.weekTable);
    DayOverlapMeans(x.timeTable, y.timeTable, 0);
    if DayOverlap(x.timeTable, y.timeTable, 0) {
      var d :| 0 <= d < 7 && Overlap(x.timeTable[d], y.timeTable[d]);
      OverlapHasCommonBit(x.timeTable[d], y.timeTable[d]);
      var n: nat :| Bit(x.timeTable[d], n) && Bit(y.timeTable[d], n);
    }
    if exists d, n: nat :: 0 <= d < 7 && Bit(x.timeTable[d], n) && Bit(y.timeTable[d], n) {
      var d, n: nat :| 0 <= d < 7 && Bit(x.timeTable[d], n) && Bit(y.timeTable[d], n);
      OverlapHasCommonBit(x.timeTable[d], y.timeTable[d]);
      assert exists m: nat :: Bit(x.timeTable[d], m) && Bit(y.timeTable[d], m);
      assert 0 <= d < 7 && Overlap(x.timeTable[d], y.timeTable[d]);
    }
  }

  datatype Pair = Pair(i: nat, j: nat)

  /** Pair (a, b) is reached by the scan started at row i, column j. */
  ghost predicate Pending(i: nat, j: nat, a: nat, b: nat) {
    a > i || (a == i && b >= j)
  }

  /** Pair (a, b) comes before pair p in the scan order (rows first). */
  ghost predicate Before(a: nat, b: nat, p: Pair) {
    a < p.i || (a == p.i && b < p.j)
  }

  /** The scan over all pairs of classes in loop order (each class with every
      later one), resumed at row i, column j. */
  function ScanPairs(cs: seq<Class>, i: nat, j: nat): (r: Option<Pair>)
    requires i < j
    ensures r.Some? ==> i <= r.value.i < r.value.j < |cs| && Pending(i, j, r.value.i, r.value.j)
                        && Conflicts(cs[r.value.i], cs[r.value.j])
    decreases |cs| - i, |cs| - j
  {
    if i >= |cs| then None
    else if j >= |cs| then ScanPairs(cs, i + 1, i + 2)
    else if Conflicts(cs[i], cs[j]) then Some(Pair(i, j))
    else ScanPairs(cs, i, j + 1)
  }

  /** No pair the scan passes over conflicts. */
  lemma {:induction false} ScanPairsSkips(cs: seq<Class>, i: nat, j: nat)
    requires i < j
    ensures var r := ScanPairs(cs, i, j);
      && (r.Some? ==> forall a, b :: 0 <= a < b < |cs| && Pending(i, j, a, b) && Before(a, b, r.value)
                        ==> !Conflicts(cs[a], cs[b]))
      && (r.None? ==> forall a, b :: 0 <= a < b < |cs| && Pending(i, j, a, b) ==> !Conflicts(cs[a], cs[b]))
    decreases |cs| - i, |cs| - j
  {
    if i >= |cs| {
    } else if j >= |cs| {
      ScanPairsSkips(cs, i + 1, i + 2);
      forall a, b | 0 <= a < b < |cs| && Pending(i, j, a, b) ensures Pending(i + 1, i + 2, a, b) {
      }
    } else if !Conflicts(cs[i], cs[j]) {
      ScanPairsSkips(cs, i, j + 1);
      forall a, b | 0 <= a < b < |cs| && Pending(i, j, a, b) && !(a == i && b == j)
        ensures Pending(i, j + 1, a, b) {
      }
    }
  }

  /** The first conflicting pair i < j of a term's classes, rows first. */
  function FirstConflict(cs: seq<Class>): Option<Pair> {
    ScanPairs(cs, 0, 1)
  }

  /** FirstConflict finds a pair exactly when two of the classes conflict,
      and the pair it finds is the first in scan order. */
  lemma FirstConflictIsFirst(cs: seq<Class>)
    ensures var r := FirstConflict(cs);
      && (r.None? <==> forall a, b :: 0 <= a < b < |cs| ==> !Conflicts(cs[a], cs[b]))
      && (r.Some? ==> r.value.i < r.value.j < |cs| && Conflicts(cs[r.value.i], cs[r.value.j])
                      && forall a, b :: 0 <= a < b < |cs| && Before(a, b, r.value) ==> !Conflicts(cs[a], cs[b]))
  {
    var r := FirstConflict(cs);
    ScanPairsSkips(cs, 0, 1);
    if r.Some? {
      assert Pending(0, 1, r.value.i, r.value.j);
      forall a, b | 0 <= a < b < |cs| && Before(a, b, r.value) ensures !Conflicts(cs[a], cs[b]) {
        assert Pending(0, 1, a, b);
      }
    } else {
      forall a, b | 0 <= a < b < |cs| ensures !Conflicts(cs[a], cs[b]) {
        assert Pending(0, 1, a, b);
      }
    }
  }

  // ---------------------------------------------------------------------
  // Marking a term's courses learned

  ghost predicate Taken(cs: seq<Class>, c: string) {
    exists i :: 0 <= i < |cs| && cs[i].courseCode == c
  }

  /** Marks the course of every class taken in the term as learned. */
  function MarkLearned(cat: Catalog, cs: seq<Class>): (r: Catalog)
    requires forall i :: 0 <= i < |cs| ==> cs[i].courseCode in cat.courses
    ensures r.classes == cat.classes && r.courses.Keys == cat.courses.Keys
    ensures forall c :: c in cat.courses ==>
      r.courses[c] == cat.courses[c].(learned := cat.courses[c].learned || Taken(cs, c))
    decreases |cs|
  {
    if cs == [] then cat
    else
      var init := cs[..|cs| - 1];
      var c := cs[|cs| - 1].courseCode;
      var r := MarkLearned(cat, init);
      assert forall c :: Taken(cs, c) <==> Taken(init, c) || c == cs[|cs| - 1].courseCode by {
        forall c | Taken(cs, c) ensures Taken(init, c) || c == cs[|cs| - 1].courseCode {
          var i :| 0 <= i < |cs| && cs[i].courseCode == c;
          if i < |cs| - 1 { assert init[i] == cs[i]; }
        }
        forall c | Taken(init, c) ensures Taken(cs, c) {
          var i :| 0 <= i < |init| && init[i].courseCode == c;
          assert cs[i] == init[i];
        }
      }
      r.(courses := r.courses[c := r.courses[c].(learned := true)])
  }

  /** Marking changes only `learned` flags, so it keeps the graph well
      formed and resolved. */
  lemma MarkLearnedWellFormed(cat: Catalog, cs: seq<Class>)
    requires forall i :: 0 <= i < |cs| ==> cs[i].courseCode in cat.courses
    ensures WellFormed(cat) ==> WellFormed(MarkLearned(cat, cs))
    ensures Resolved(cat) ==> Resolved(MarkLearned(cat, cs))
  {
    var r := MarkLearned(cat, cs);
    forall c | c in r.courses
      ensures r.courses[c].code == cat.courses[c].code && r.courses[c].classes == cat.courses[c].classes
      ensures r.courses[c].preCourses == cat.courses[c].preCourses && r.courses[c].postCourses == cat.courses[c].postCourses
    {
    }
  }

  // ---------------------------------------------------------------------
  // Replaying one term

  /** Where the class loop of one term is: cursor, counters, the pending
      error, the classes taken so far, and whether it returned. */
  datatype TermState = TermState(pos: nat, res: Counters, err: Option<Error>, current: seq<Class>, halted: bool)

  /** The counters after admitting a class of `course`. */
  function Admit(res: Counters, course: Course, courses: map<string, Course>): Counters
    requires AllDeclared(course.postCourses, courses)
  {
    Counters(
      Wrap(res.compulsoryCount + 1),
      Wrap(res.postCoursesCount + CountLearned(course.postCourses, courses)),
      if course.weight > 0 then Wrap(res.optionalScore + course.weight) else res.optionalScore)
  }

  /** One pass of the class loop in term `t` (the remaining term count). */
  function PlanClass(slice: seq<string>, pos: nat, cat: Catalog, t: nat, res: Counters, current: seq<Class>): TermState
    requires Resolved(cat)
  {
    var courseCode := StringAt(slice, pos);
    if courseCode.err.Some? then TermState(courseCode.pos, res, courseCode.err, current, true) else
    var classCode := StringAt(slice, courseCode.pos);
    if classCode.err.Some? then TermState(classCode.pos, res, classCode.err, current, true) else
    var key := Key(courseCode.value, classCode.value);
    if key !in cat.classes then TermState(classCode.pos, res, Some(ClassNotExists(key)), current, true) else
    var cls := cat.classes[key];
    var course := cat.courses[cls.courseCode];
    if course.term != t % 2 then TermState(classCode.pos, res, Some(TermIncorrect(courseCode.value)), current, true) else
    if course.learned then TermState(classCode.pos, res, Some(AlreadyLearned(courseCode.value)), current, true) else
    TermState(classCode.pos, Admit(res, course, cat.courses), PreCheck(course.preCourses, cat.courses), current + [cls], false)
  }

  /** The class loop of one term, `count` records from `pos` on. */
  function TermClasses(slice: seq<string>, pos: nat, count: nat, cat: Catalog, t: nat,
                       res: Counters, current: seq<Class>, err: Option<Error>): TermState
    requires Resolved(cat)
    decreases count
  {
    if count == 0 then TermState(pos, res, err, current, false)
    else
      var st := PlanClass(slice, pos, cat, t, res, current);
      if st.halted then st else TermClasses(slice, st.pos, count - 1, cat, t, st.res, st.current, st.err)
  }

  /** What ParseOutput returns, with the graph and cursor it leaves. */
  datatype Outcome = Outcome(res: Counters, err: Option<Error>, cat: Catalog, pos: nat)

  /** How one term ends: the plan stops with an outcome, or the next term
      starts from this cursor, graph, counters and pending error. */
  datatype Step = Stop(out: Outcome) | Next(pos: nat, cat: Catalog, res: Counters, err: Option<Error>)

  /** One pass of the term loop with counter `t`. It starts by reading the
      class count, which replaces whatever error the previous term left
      pending. A class error or a conflict stops the plan; otherwise the
      term's courses become learned. */
  function PlayTerm(slice: seq<string>, pos: nat, t: nat, cat: Catalog, res: Counters): (s: Step)
    requires Resolved(cat)
    ensures s.Next? ==> Resolved(s.cat)
  {
    var count := UintAt(slice, pos);
    if count.err.Some? then Stop(Outcome(res, count.err, cat, count.pos)) else
    var st := TermClasses(slice, count.pos, count.value, cat, t, res, [], None);
    if st.halted then Stop(Outcome(st.res, st.err, cat, st.pos)) else
    var conflict := FirstConflict(st.current);
    if conflict.Some? then
      var x, y := st.current[conflict.value.i], st.current[conflict.value.j];
      Stop(Outcome(st.res, Some(ClassesConflict(x.courseCode, x.code, y.courseCode, y.code)), cat, st.pos))
    else
      TermClassesFrame(slice, count.pos, count.value, cat, t, res, [], None);
      assert st.current[0..] == st.current;
      MarkLearnedWellFormed(cat, st.current);
      Next(st.pos, MarkLearned(cat, st.current), st.res, st.err)
  }

  /** The term loop, `t` terms left. With no term left the pending error of
      the last class read is what ParseOutput returns. */
  function PlayTerms(slice: seq<string>, pos: nat, t: nat, cat: Catalog, res: Counters, err: Option<Error>): Outcome
    requires Resolved(cat)
    decreases t
  {
    if t == 0 then Outcome(res, err, cat, pos)
    else
      match PlayTerm(slice, pos, t, cat, res)
      case Stop(out) => out
      case Next(pos', cat', res', err') => PlayTerms(slice, pos', t - 1, cat', res', err')
  }

  /** ParseOutput's result on a token list. */
  function ParseOutputSpec(slice: seq<string>, cat: Catalog, termsLimit: nat): Outcome
    requires Resolved(cat)
  {
    PlayTerms(slice, 0, termsLimit, cat, NoCounters, None)
  }

  // ---------------------------------------------------------------------
  // What the class loop admits

  /** Every class a term admits is an indexed class of a declared course. */
  ghost predicate Indexed(cat: Catalog, cs: seq<Class>) {
    forall i :: 0 <= i < |cs| ==> cs[i] in cat.classes.Values && cs[i].courseCode in cat.courses
  }

  /** Every admitted class belongs to a course of the term's parity that was
      not learned when the term began. */
  ghost predicate Admissible(cat: Catalog, t: nat, cs: seq<Class>) {
    Indexed(cat, cs)
    && forall i :: 0 <= i < |cs| ==>
      cat.courses[cs[i].courseCode].term == t % 2 && !cat.courses[cs[i].courseCode].learned
  }

  /** One turn of a term's class loop. */
  lemma TermClassesStep(slice: seq<string>, pos: nat, count: nat, cat: Catalog, t: nat,
                        res: Counters, current: seq<Class>, err: Option<Error>)
    requires Resolved(cat) && count > 0
    ensures var st := PlanClass(slice, pos, cat, t, res, current);
      TermClasses(slice, pos, count, cat, t, res, current, err)
        == if st.halted then st else TermClasses(slice, st.pos, count - 1, cat, t, st.res, st.current, st.err)
  {
  }

  /** The same step, seen from the record's result. */
  lemma TermClassesNext(slice: seq<string>, pos: nat, count: nat, cat: Catalog, t: nat,
                        res: Counters, current: seq<Class>, err: Option<Error>, st: TermState, left: nat)
    requires Resolved(cat) && count > 0 && left == count - 1
    requires st == PlanClass(slice, pos, cat, t, res, current)
    ensures TermClasses(slice, pos, count, cat, t, res, current, err)
         == if st.halted then st else TermClasses(slice, st.pos, left, cat, t, st.res, st.current, st.err)
  {
    if st.halted {
      assert TermClasses(slice, pos, count, cat, t, res, current, err) == st;
    } else {
      assert TermClasses(slice, pos, count, cat, t, res, current, err)
          == TermClasses(slice, st.pos, left, cat, t, st.res, st.current, st.err);
    }
  }

  /** The prerequisite error of an admitted class. */
  ghost function PendingOf(cat: Catalog, cls: Class): Option<Error>
    requires Resolved(cat) && cls.courseCode in cat.courses
  {
    PreCheck(cat.courses[cls.courseCode].preCourses, cat.courses)
  }

  /** A class record is admitted exactly when both codes are read, the
      composite key is indexed, its course has the term's parity and is not
      yet learned; an indexed class is refused first for its parity, then
      for being learned, and an admitted one is appended and carries its
      course's prerequisite check as the pending error. */
  lemma PlanClassVerdict(slice: seq<string>, pos: nat, cat: Catalog, t: nat, res: Counters, current: seq<Class>)
    requires Resolved(cat)
    ensures var st := PlanClass(slice, pos, cat, t, res, current);
      var courseCode := StringAt(slice, pos);
      var classCode := StringAt(slice, courseCode.pos);
      var key := Key(courseCode.value, classCode.value);
      var read := courseCode.err.None? && classCode.err.None?;
      && (!st.halted <==>
            read && key in cat.classes
            && cat.courses[cat.classes[key].courseCode].term == t % 2
            && !cat.courses[cat.classes[key].courseCode].learned)
      && (read && key !in cat.classes ==> st.err == Some(ClassNotExists(key)))
      && (read && key in cat.classes && cat.courses[cat.classes[key].courseCode].term != t % 2 ==>
            st.err == Some(TermIncorrect(courseCode.value)))
      && (read && key in cat.classes && cat.courses[cat.classes[key].courseCode].term == t % 2
            && cat.courses[cat.classes[key].courseCode].learned ==>
            st.err == Some(AlreadyLearned(courseCode.value)))
      && (!st.halted ==>
            && st.current == current + [cat.classes[key]]
            && st.err == PendingOf(cat, cat.classes[key])
            && st.pos == pos + 2)
  {
  }

  /** Once a term's classes are marked, a later record naming any class of
      one of those courses is refused: for its parity, or as already
      learned. */
  lemma RetakeRejected(slice: seq<string>, pos: nat, cat: Catalog, cs: seq<Class>, t: nat,
                       res: Counters, current: seq<Class>)
    requires Resolved(cat)
    requires forall i :: 0 <= i < |cs| ==> cs[i].courseCode in cat.courses
    ensures Resolved(MarkLearned(cat, cs))
    ensures var st := PlanClass(slice, pos, MarkLearned(cat, cs), t, res, current);
      var courseCode := StringAt(slice, pos);
      var classCode := StringAt(slice, courseCode.pos);
      var key := Key(courseCode.value, classCode.value);
      courseCode.err.None? && classCode.err.None? && key in cat.classes && Taken(cs, cat.classes[key].courseCode) ==>
        st.halted && (st.err == Some(TermIncorrect(courseCode.value)) || st.err == Some(AlreadyLearned(courseCode.value)))
  {
    MarkLearnedWellFormed(cat, cs);
    var marked := MarkLearned(cat, cs);
    var courseCode := StringAt(slice, pos);
    var classCode := StringAt(slice, courseCode.pos);
    var key := Key(courseCode.value, classCode.value);
    if courseCode.err.None? && classCode.err.None? && key in cat.classes && Taken(cs, cat.classes[key].courseCode) {
      var c := cat.classes[key].courseCode;
      assert marked.classes[key] == cat.classes[key];
      assert marked.courses[c].learned;
      PlanClassVerdict(slice, pos, marked, t, res, current);
    }
  }

  /** What a term's class loop promises from its starting point: it only
      appends admissible classes; when it runs its count down it has admitted
      exactly `count` classes, counted each, and the error it carries out is
      the prerequisite check of the LAST class admitted: every earlier
      prerequisite error was overwritten by the next read. */
  ghost predicate TermFrame(cat: Catalog, t: nat, res: Counters, current: seq<Class>, err: Option<Error>,
                            count: nat, st: TermState)
    requires Resolved(cat)
  {
    && |current| <= |st.current| && st.current[..|current|] == current
    && Admissible(cat, t, st.current[|current|..])
    && (st.halted ==> st.err.Some?)
    && (!st.halted ==>
          && |st.current| == |current| + count
          && st.res.compulsoryCount == Wrap(res.compulsoryCount + count)
          && st.err == if count == 0 then err else PendingOf(cat, st.current[|st.current| - 1]))
  }

  lemma AdmissibleAppend(cat: Catalog, t: nat, a: seq<Class>, b: seq<Class>)
    requires Admissible(cat, t, a) && Admissible(cat, t, b)
    ensures Admissible(cat, t, a + b)
  {
    forall i | 0 <= i < |a + b|
      ensures (a + b)[i] == if i < |a| then a[i] else b[i - |a|]
    {
    }
  }

  /** A class record keeps the term's frame for one record. */
  lemma PlanClassFrame(slice: seq<string>, pos: nat, cat: Catalog, t: nat, res: Counters, current: seq<Class>, err: Option<Error>)
    requires Resolved(cat)
    ensures var st := PlanClass(slice, pos, cat, t, res, current);
      && TermFrame(cat, t, res, current, err, 1, st)
      && (st.halted ==> st.res == res && st.current == current)
  {
    var st := PlanClass(slice, pos, cat, t, res, current);
    if !st.halted {
      var cls := st.current[|current|];
      assert st.current[|current|..] == [cls];
    } else {
      assert st.current[|current|..] == [];
    }
  }

  lemma TermFrameTrans(cat: Catalog, t: nat, res: Counters, current: seq<Class>, err: Option<Error>,
                       mid: TermState, n: nat, st: TermState)
    requires Resolved(cat)
    requires !mid.halted
    requires TermFrame(cat, t, res, current, err, 1, mid)
    requires TermFrame(cat, t, mid.res, mid.current, mid.err, n, st)
    ensures TermFrame(cat, t, res, current, err, n + 1, st)
  {
    assert st.current[|current|..] == mid.current[|current|..] + st.current[|mid.current|..];
    AdmissibleAppend(cat, t, mid.current[|current|..], st.current[|mid.current|..]);
    if !st.halted {
      WrapAdd(res.compulsoryCount + 1, n);
      assert st.res.compulsoryCount == Wrap(Wrap(res.compulsoryCount + 1) + n);
      if n == 0 {
        assert st.current == mid.current;
      }
    }
  }

  /** One record followed by the rest of the loop keeps the frame. */
  lemma TermFrameCompose(cat: Catalog, t: nat, res: Counters, current: seq<Class>, err: Option<Error>,
                         count: nat, st: TermState, rest: TermState, whole: TermState)
    requires Resolved(cat) && count > 0
    requires TermFrame(cat, t, res, current, err, 1, st)
    requires !st.halted ==> TermFrame(cat, t, st.res, st.current, st.err, count - 1, rest)
    requires whole == if st.halted then st else rest
    ensures TermFrame(cat, t, res, current, err, count, whole)
  {
    if !st.halted {
      TermFrameTrans(cat, t, res, current, err, st, count - 1, rest);
    }
  }

  /** A term's class loop keeps its frame. */
  lemma {:induction false} TermClassesFrame(slice: seq<string>, pos: nat, count: nat, cat: Catalog, t: nat,
                                            res: Counters, current: seq<Class>, err: Option<Error>)
    requires Resolved(cat)
    ensures TermFrame(cat, t, res, current, err, count, TermClasses(slice, pos, count, cat, t, res, current, err))
    decreases count
  {
    if count == 0 {
      assert current[..|current|] == current && current[|current|..] == [];
    } else {
      var st := PlanClass(slice, pos, cat, t, res, current);
      var left := count - 1;
      PlanClassFrame(slice, pos, cat, t, res, current, err);
      TermClassesStep(slice, pos, count, cat, t, res, current, err);
      if !st.halted {
        TermClassesFrame(slice, st.pos, left, cat, t, st.res, st.current, st.err);
      }
      TermFrameCompose(cat, t, res, current, err, count, st,
                       TermClasses(slice, st.pos, left, cat, t, st.res, st.current, st.err),
                       TermClasses(slice, pos, count, cat, t, res, current, err));
    }
  }

  /** Each admitted class record is two tokens. */
  lemma {:induction false} TermClassesPos(slice: seq<string>, pos: nat, count: nat, cat: Catalog, t: nat,
                                          res: Counters, current: seq<Class>, err: Option<Error>)
    requires Resolved(cat)
    ensures var st := TermClasses(slice, pos, count, cat, t, res, current, err);
      !st.halted ==> st.pos == pos + 2 * count
    decreases count
  {
    if count > 0 {
      var st := PlanClass(slice, pos, cat, t, res, current);
      var left := count - 1;
      TermClassesNext(slice, pos, count, cat, t, res, current, err, st, left);
      if !st.halted {
        assert st.pos == pos + 2;
        TermClassesPos(slice, st.pos, left, cat, t, st.res, st.current, st.err);
      }
    }
  }

  // ---------------------------------------------------------------------
  // What a term and the whole replay promise

  /** `b` is `a` with some courses newly learned and nothing else changed. */
  ghost predicate LearnedOnly(a: Catalog, b: Catalog) {
    && b.classes == a.classes
    && b.courses.Keys == a.courses.Keys
    && forall c :: c in a.courses ==>
         && b.courses[c] == a.courses[c].(learned := b.courses[c].learned)
         && (a.courses[c].learned ==> b.courses[c].learned)
  }

  lemma LearnedOnlyTrans(a: Catalog, b: Catalog, c: Catalog)
    requires LearnedOnly(a, b) && LearnedOnly(b, c)
    ensures LearnedOnly(a, c)
  {
  }

  /** A term that stops returns the error it met, which is never the
      pending prerequisite error, and changes no learned flag. */
  lemma PlayTermStop(slice: seq<string>, pos: nat, t: nat, cat: Catalog, res: Counters)
    requires Resolved(cat)
    ensures var s := PlayTerm(slice, pos, t, cat, res);
      s.Stop? ==> s.out.cat == cat && s.out.err.Some? && !s.out.err.value.PreCourseNotLearned?
  {
    var count := UintAt(slice, pos);
    if count.err.None? {
      TermClassesErrors(slice, count.pos, count.value, cat, t, res, [], None);
    }
  }

  /** Marking sets learned flags and nothing else. */
  lemma MarkLearnedOnly(cat: Catalog, cs: seq<Class>)
    requires forall i :: 0 <= i < |cs| ==> cs[i].courseCode in cat.courses
    ensures LearnedOnly(cat, MarkLearned(cat, cs))
  {
  }

  /** What a term's class loop hands back, started on an empty list: every
      class it appended is of a declared course, and when it does not halt
      it admitted exactly `count` classes, read two tokens for each, counted
      each, and carries the prerequisite check of the last one. */
  lemma TermClassesWent(slice: seq<string>, pos: nat, count: nat, cat: Catalog, t: nat, res: Counters, st: TermState)
    requires Resolved(cat)
    requires st == TermClasses(slice, pos, count, cat, t, res, [], None)
    ensures forall i :: 0 <= i < |st.current| ==> st.current[i].courseCode in cat.courses
    ensures !st.halted ==>
      && Admissible(cat, t, st.current)
      && |st.current| == count
      && st.pos == pos + 2 * count
      && st.res.compulsoryCount == Wrap(res.compulsoryCount + count)
      && st.err == (if |st.current| == 0 then None else PendingOf(cat, st.current[|st.current| - 1]))
  {
    TermClassesFrame(slice, pos, count, cat, t, res, [], None);
    TermClassesPos(slice, pos, count, cat, t, res, [], None);
    assert st.current[0..] == st.current;
  }

  /** How a term ends, read off its count token and its class loop: it goes
      through exactly when the count parses, the class loop does not halt
      and no two classes conflict, and then it marks the classes it took. */
  lemma PlayTermCases(slice: seq<string>, pos: nat, t: nat, cat: Catalog, res: Counters, st: TermState)
    requires Resolved(cat)
    requires st == TermClasses(slice, UintAt(slice, pos).pos, UintAt(slice, pos).value, cat, t, res, [], None)
    requires forall i :: 0 <= i < |st.current| ==> st.current[i].courseCode in cat.courses
    ensures var s := PlayTerm(slice, pos, t, cat, res);
      && (s.Next? <==> UintAt(slice, pos).err.None? && !st.halted && FirstConflict(st.current).None?)
      && (s.Next? ==> s == Next(st.pos, MarkLearned(cat, st.current), st.res, st.err))
  {
    var count := UintAt(slice, pos);
    if count.err.None? && !st.halted && FirstConflict(st.current).None? {
      assert PlayTerm(slice, pos, t, cat, res) == Next(st.pos, MarkLearned(cat, st.current), st.res, st.err);
    } else {
      assert PlayTerm(slice, pos, t, cat, res).Stop?;
    }
  }

  /** A term that goes through admitted as many classes as its count token
      `n` says: it hands on the cursor after its records, the counters with each
      class counted, and the graph with only learned flags set. */
  lemma PlayTermNext(slice: seq<string>, pos: nat, t: nat, cat: Catalog, res: Counters, n: nat)
    requires Resolved(cat) && n == UintAt(slice, pos).value
    ensures var s := PlayTerm(slice, pos, t, cat, res);
      s.Next? ==>
        && s.pos == pos + 1 + 2 * n
        && s.res.compulsoryCount == Wrap(res.compulsoryCount + n)
        && LearnedOnly(cat, s.cat)
  {
    var st := TermClasses(slice, UintAt(slice, pos).pos, n, cat, t, res, [], None);
    TermClassesWent(slice, UintAt(slice, pos).pos, n, cat, t, res, st);
    PlayTermCases(slice, pos, t, cat, res, st);
    MarkLearnedOnly(cat, st.current);
  }

  /** What a term that went through from cursor `pos` promises, having
      admitted the list of classes `cs`: each of a course with the term's
      parity that was not learned when the term began, no two of them in
      conflict; exactly their courses are marked learned; it read one count
      and two tokens per class, and hands on the prerequisite check of its
      last class (none if it took no class). */
  ghost predicate TermTook(s: Step, cat: Catalog, t: nat, pos: nat, cs: seq<Class>)
    requires Resolved(cat)
  {
    s.Next? ==>
      && Admissible(cat, t, cs)
      && (forall a, b :: 0 <= a < b < |cs| ==> !Conflicts(cs[a], cs[b]))
      && s.cat == MarkLearned(cat, cs)
      && s.pos == pos + 1 + 2 * |cs|
      && s.err == (if |cs| == 0 then None else PendingOf(cat, cs[|cs| - 1]))
  }

  /** A term that goes through admitted some list of classes, as TermTook says. */
  lemma PlayTermMeans(slice: seq<string>, pos: nat, t: nat, cat: Catalog, res: Counters) returns (cs: seq<Class>)
    requires Resolved(cat)
    ensures TermTook(PlayTerm(slice, pos, t, cat, res), cat, t, pos, cs)
  {
    var count := UintAt(slice, pos);
    var st := TermClasses(slice, count.pos, count.value, cat, t, res, [], None);
    TermClassesWent(slice, count.pos, count.value, cat, t, res, st);
    PlayTermCases(slice, pos, t, cat, res, st);
    TermTookParts(PlayTerm(slice, pos, t, cat, res), cat, t, pos, count.pos, st);
    cs := st.current;
  }

  /** TermTook from the parts of a term: a step that goes through is the
      class loop's state `st`, which did not halt and has no conflict, with
      the courses marked, after a count read at `pos`. */
  lemma TermTookParts(s: Step, cat: Catalog, t: nat, pos: nat, countPos: nat, st: TermState)
    requires Resolved(cat)
    requires forall i :: 0 <= i < |st.current| ==> st.current[i].courseCode in cat.courses
    requires s.Next? ==>
      && countPos == pos + 1 && !st.halted && FirstConflict(st.current).None?
      && s == Next(st.pos, MarkLearned(cat, st.current), st.res, st.err)
    requires !st.halted ==>
      && Admissible(cat, t, st.current)
      && st.pos == countPos + 2 * |st.current|
      && st.err == (if |st.current| == 0 then None else PendingOf(cat, st.current[|st.current| - 1]))
    ensures TermTook(s, cat, t, pos, st.current)
  {
    FirstConflictIsFirst(st.current);
  }

  /** A record that ends the class loop carries a read error or a class
      error, never the pending prerequisite error. */
  lemma {:induction false} TermClassesErrors(slice: seq<string>, pos: nat, count: nat, cat: Catalog, t: nat,
                                             res: Counters, current: seq<Class>, err: Option<Error>)
    requires Resolved(cat)
    ensures var st := TermClasses(slice, pos, count, cat, t, res, current, err);
      st.halted ==> st.err.Some? && !st.err.value.PreCourseNotLearned?
    decreases count
  {
    if count > 0 {
      var st := PlanClass(slice, pos, cat, t, res, current);
      var left := count - 1;
      TermClassesNext(slice, pos, count, cat, t, res, current, err, st, left);
      if !st.halted {
        TermClassesErrors(slice, st.pos, left, cat, t, st.res, st.current, st.err);
      }
    }
  }

  /** One turn of the term loop. */
  lemma PlayTermsStep(slice: seq<string>, pos: nat, t: nat, cat: Catalog, res: Counters, err: Option<Error>, left: nat)
    requires Resolved(cat) && t > 0 && left == t - 1
    ensures var s := PlayTerm(slice, pos, t, cat, res);
      PlayTerms(slice, pos, t, cat, res, err)
        == if s.Stop? then s.out else PlayTerms(slice, s.pos, left, s.cat, s.res, s.err)
  {
    var s := PlayTerm(slice, pos, t, cat, res);
    if s.Stop? {
      assert PlayTerms(slice, pos, t, cat, res, err) == s.out;
    } else {
      assert PlayTerms(slice, pos, t, cat, res, err) == PlayTerms(slice, s.pos, left, s.cat, s.res, s.err);
    }
  }

  /** ParseOutput only ever sets learned flags: the class index, the course
      codes and every other course field come out unchanged. */
  lemma {:induction false} PlayTermsLearnedOnly(slice: seq<string>, pos: nat, t: nat, cat: Catalog,
                                                res: Counters, err: Option<Error>)
    requires Resolved(cat)
    ensures LearnedOnly(cat, PlayTerms(slice, pos, t, cat, res, err).cat)
    decreases t
  {
    if t > 0 {
      var s := PlayTerm(slice, pos, t, cat, res);
      var left := t - 1;
      PlayTermsStep(slice, pos, t, cat, res, err, left);
      PlayTermStop(slice, pos, t, cat, res);
      PlayTermNext(slice, pos, t, cat, res, UintAt(slice, pos).value);
      if s.Next? {
        PlayTermsLearnedOnly(slice, s.pos, left, s.cat, s.res, s.err);
        LearnedOnlyTrans(cat, s.cat, PlayTerms(slice, s.pos, left, s.cat, s.res, s.err).cat);
      }
    }
  }

  /** A replay that ended with no error, or with only a pending
      prerequisite error, after `t` terms admitting `n` classes in all: the
      cursor moved one count token per term and two tokens per class, and
      the compulsory counter counted each class, modulo 2^64. */
  ghost predicate Completed(o: Outcome, pos: nat, t: nat, res: Counters, n: nat) {
    (o.err.None? || o.err.value.PreCourseNotLearned?) ==>
      && o.pos == pos + t + 2 * n
      && o.res.compulsoryCount == Wrap(res.compulsoryCount + n)
  }

  /** One term that went through, followed by the rest of the replay. */
  lemma CompletedCompose(pos: nat, t: nat, res: Counters, s: Step, o: Outcome, left: nat, k: nat, rest: nat, n: nat)
    requires t > 0 && left == t - 1 && s.Next? && n == k + rest
    requires s.pos == pos + 1 + 2 * k && s.res.compulsoryCount == Wrap(res.compulsoryCount + k)
    requires Completed(o, s.pos, left, s.res, rest)
    ensures Completed(o, pos, t, res, n)
  {
    WrapAdd(res.compulsoryCount + k, rest);
  }

  /** Every replay that ends with no error, or with only a pending
      prerequisite error, went through all of its `t` terms; `n` is the
      number of classes they admitted. */
  lemma {:induction false} PlayTermsCompleted(slice: seq<string>, pos: nat, t: nat, cat: Catalog,
                                              res: Counters, err: Option<Error>) returns (n: nat)
    requires Resolved(cat)
    ensures Completed(PlayTerms(slice, pos, t, cat, res, err), pos, t, res, n)
    decreases t
  {
    n := 0;
    if t == 0 {
      assert res.compulsoryCount == Wrap(res.compulsoryCount + n);
    } else {
      var s := PlayTerm(slice, pos, t, cat, res);
      var left := t - 1;
      PlayTermsStep(slice, pos, t, cat, res, err, left);
      if s.Stop? {
        PlayTermStop(slice, pos, t, cat, res);
      } else {
        var k: nat := UintAt(slice, pos).value;
        PlayTermNext(slice, pos, t, cat, res, k);
        var rest := PlayTermsCompleted(slice, s.pos, left, s.cat, s.res, s.err);
        n := k + rest;
        CompletedCompose(pos, t, res, s, PlayTerms(slice, s.pos, left, s.cat, s.res, s.err), left, k, rest, n);
      }
    }
  }

  // ---------------------------------------------------------------------
  // The loops as the source runs them

  /** Walks the prerequisite list; every unlearned prerequisite overwrites the
      error and the walk goes on. */
  method CheckPreCourses(pre: seq<string>, courses: map<string, Course>) returns (err: Option<Error>)
    requires AllDeclared(pre, courses)
    ensures err == PreCheck(pre, courses)
  {
    err := None;
    var i := 0;
    while i < |pre|
      invariant 0 <= i <= |pre|
      invariant err == PreCheck(pre[..i], courses)
    {
      assert pre[..i + 1][..i] == pre[..i];
      if !courses[pre[i]].learned {
        err := Some(PreCourseNotLearned(courses[pre[i]].code));
      }
      i := i + 1;
    }
    assert pre[..i] == pre;
  }

  /** One post-course visited: the counter is incremented exactly when the
      count of learned post-courses grows. */
  lemma CountStep(n: Uint64, n0: nat, before: nat, after: nat, learned: bool)
    requires n == Wrap(n0 + before)
    requires after == before + if learned then 1 else 0
    ensures (if learned then Inc(n) else n) == Wrap(n0 + after)
  {
    IncWrap(n0 + before);
  }

  lemma CountLearnedStep(post: seq<string>, courses: map<string, Course>, i: nat, j: nat)
    requires AllDeclared(post, courses) && i < |post| && j == i + 1
    ensures AllDeclared(post[..i], courses) && AllDeclared(post[..j], courses)
    ensures CountLearned(post[..j], courses)
         == CountLearned(post[..i], courses) + if courses[post[i]].learned then 1 else 0
  {
    assert post[..j][..i] == post[..i];
  }

  /** Walks the postrequisite list and adds one to a uint64 counter for each
      learned postrequisite. */
  method CountLearnedPosts(post: seq<string>, courses: map<string, Course>, n0: Uint64) returns (n: Uint64)
    requires AllDeclared(post, courses)
    ensures n == Wrap(n0 + CountLearned(post, courses))
  {
    n := n0;
    var i := 0;
    assert n0 == Wrap(n0 + CountLearned(post[..0], courses));
    while i < |post|
      invariant 0 <= i <= |post|
      invariant n == Wrap(n0 + CountLearned(post[..i], courses))
    {
      var j := i + 1;
      CountLearnedStep(post, courses, i, j);
      CountStep(n, n0, CountLearned(post[..i], courses), CountLearned(post[..j], courses), courses[post[i]].learned);
      if courses[post[i]].learned {
        n := Inc(n);
      }
      i := j;
    }
    assert post[..i] == post;
  }

  /** The clash test: the week masks, then each of the seven days in turn. */
  method CheckConflict(x: Class, y: Class) returns (b: bool)
    ensures b == Conflicts(x, y)
  {
    if !Overlap(x.weekTable, y.weekTable) {
      return false;
    }
    var k := 0;
    while k < 7
      invariant 0 <= k <= 7
      invariant DayOverlap(x.timeTable, y.timeTable, 0) == DayOverlap(x.timeTable, y.timeTable, k)
    {
      if Overlap(x.timeTable[k], y.timeTable[k]) {
        return true;
      }
      k := k + 1;
    }
    return false;
  }

  /** The two nested pair loops: each class against every later one, stopping
      at the first pair that clashes. */
  method FindConflict(cs: seq<Class>) returns (p: Option<Pair>)
    ensures p == FirstConflict(cs)
  {
    var i := 0;
    while i < |cs|
      invariant FirstConflict(cs) == ScanPairs(cs, i, i + 1)
      decreases |cs| - i
    {
      var j := i + 1;
      while j < |cs|
        invariant i < j
        invariant FirstConflict(cs) == ScanPairs(cs, i, j)
        decreases |cs| - j
      {
        var c := CheckConflict(cs[i], cs[j]);
        if c {
          return Some(Pair(i, j));
        }
        j := j + 1;
      }
      i := i + 1;
    }
    return None;
  }

  /** The marking loop: sets the learned flag of each taken class's course in the graph. */
  method MarkTerm(g: Graph, cs: seq<Class>)
    requires forall i :: 0 <= i < |cs| ==> cs[i].courseCode in g.courses
    modifies g
    ensures g.Snapshot() == MarkLearned(old(g.Snapshot()), cs)
  {
    var i := 0;
    while i < |cs|
      invariant 0 <= i <= |cs|
      invariant g.Snapshot() == MarkLearned(old(g.Snapshot()), cs[..i])
    {
      assert cs[..i + 1][..i] == cs[..i];
      var c := cs[i].courseCode;
      g.courses := g.courses[c := g.courses[c].(learned := true)];
      i := i + 1;
    }
    assert cs[..i] == cs;
  }

  /** One pass of the class loop: read and resolve a class, check its term
      and its course, and count it. */
  method ReadPlanClass(r: Reader, g: Graph, t: nat, res: Counters, current: seq<Class>)
    returns (res': Counters, err: Option<Error>, current': seq<Class>, halted: bool)
    requires Resolved(g.Snapshot())
    modifies r
    ensures TermState(r.pos, res', err, current', halted) == PlanClass(r.slice, old(r.pos), g.Snapshot(), t, res, current)
  {
    res', current', halted := res, current, true;
    var courseCode, classCode;
    courseCode, err := r.GetString();
    if err.Some? { return; }
    classCode, err := r.GetString();
    if err.Some? { return; }
    var key := Key(courseCode, classCode);
    if key !in g.classes {
      err := Some(ClassNotExists(key));
      return;
    }
    var cls := g.classes[key];
    var course := g.courses[cls.courseCode];
    if course.term != t % 2 {
      err := Some(TermIncorrect(courseCode));
      return;
    }
    if course.learned {
      err := Some(AlreadyLearned(courseCode));
      return;
    }
    res', err := AdmitClass(course, g.courses, res);
    current' := current + [cls];
    halted := false;
  }

  /** The counting part of the class loop for an accepted class. */
  method AdmitClass(course: Course, courses: map<string, Course>, res: Counters) returns (res': Counters, err: Option<Error>)
    requires AllDeclared(course.preCourses, courses) && AllDeclared(course.postCourses, courses)
    ensures res' == Admit(res, course, courses)
    ensures err == PreCheck(course.preCourses, courses)
  {
    var score := res.optionalScore;
    if course.weight > 0 {
      score := Wrap(score + course.weight);
    }
    err := CheckPreCourses(course.preCourses, courses);
    var posts := CountLearnedPosts(course.postCourses, courses, res.postCoursesCount);
    res' := Counters(Wrap(res.compulsoryCount + 1), posts, score);
  }

  /** The class loop of one term, run while classes remain to be read. */
  method ReadTermClasses(r: Reader, g: Graph, t: nat, count: nat, res0: Counters)
    returns (res: Counters, err: Option<Error>, current: seq<Class>, halted: bool)
    requires Resolved(g.Snapshot())
    modifies r
    ensures TermState(r.pos, res, err, current, halted)
         == TermClasses(r.slice, old(r.pos), count, g.Snapshot(), t, res0, [], None)
  {
    res, err, current, halted := res0, None, [], false;
    var classesCount := count;
    while classesCount > 0
      invariant TermClasses(r.slice, old(r.pos), count, g.Snapshot(), t, res0, [], None)
             == TermClasses(r.slice, r.pos, classesCount, g.Snapshot(), t, res, current, err)
      decreases classesCount
    {
      ghost var pos0, res1, current1, err1, count1 := r.pos, res, current, err, classesCount;
      res, err, current, halted := ReadPlanClass(r, g, t, res, current);
      classesCount := classesCount - 1;
      TermClassesNext(r.slice, pos0, count1, g.Snapshot(), t, res1, current1, err1,
                      TermState(r.pos, res, err, current, halted), classesCount);
      if halted { return; }
    }
  }

  /** One pass of the term loop: read the class count, run the class loop,
      look for a conflicting pair, and mark the term's courses learned. */
  method ReadTerm(r: Reader, g: Graph, t: nat, res0: Counters)
    returns (res: Counters, err: Option<Error>, stop: bool)
    requires Resolved(g.Snapshot())
    modifies r, g
    ensures PlayTerm(r.slice, old(r.pos), t, old(g.Snapshot()), res0)
         == if stop then Stop(Outcome(res, err, g.Snapshot(), r.pos)) else Next(r.pos, g.Snapshot(), res, err)
  {
    ghost var cat := g.Snapshot();
    res, stop := res0, true;
    var classesCount;
    classesCount, err := r.GetUint();
    if err.Some? { return; }
    ghost var start := r.pos;
    var current, halted;
    res, err, current, halted := ReadTermClasses(r, g, t, classesCount, res);
    if halted { return; }
    var conflict := FindConflict(current);
    if conflict.Some? {
      var x, y := current[conflict.value.i], current[conflict.value.j];
      err := Some(ClassesConflict(x.courseCode, x.code, y.courseCode, y.code));
      return;
    }
    TermClassesFrame(r.slice, start, classesCount, cat, t, res0, [], None);
    assert current[0..] == current;
    MarkTerm(g, current);
    stop := false;
  }

  /** ParseOutput. `creditsLimit` is passed in and never consulted. */
  method ParseOutput(r: Reader, g: Graph, creditsLimit: nat, termsLimit: nat) returns (res: Counters, err: Option<Error>)
    requires Resolved(g.Snapshot())
    modifies r, g
    ensures Outcome(res, err, g.Snapshot(), r.pos)
         == PlayTerms(r.slice, old(r.pos), termsLimit, old(g.Snapshot()), NoCounters, None)
  {
    res, err := NoCounters, None;
    var t := termsLimit;
    while t > 0
      invariant Resolved(g.Snapshot())
      invariant PlayTerms(r.slice, old(r.pos), termsLimit, old(g.Snapshot()), NoCounters, None)
             == PlayTerms(r.slice, r.pos, t, g.Snapshot(), res, err)
      decreases t
    {
      var stop;
      res, err, stop := ReadTerm(r, g, t, res);
      if stop { return; }
      t := t - 1;
    }
  }
}
