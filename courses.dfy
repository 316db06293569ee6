/** The course/class graph: `Course` and `Class` records, the global class
    index keyed by "course-code class-code", and the object that holds both
    maps while the catalog is built and the plan is replayed. */
module Courses {
  import opened Strings
  import opened Strconv

  /** `[7]uint64`: one time-slot bitmask per weekday. */
  type TimeTable = s: seq<Uint64> | |s| == 7 witness [0, 0, 0, 0, 0, 0, 0]

  /** A class section. `Class.Course` is a pointer in the source; here it is
      the code of the owning course, looked up in the course map. */
  datatype Class = Class(courseCode: string, code: string, timeTable: TimeTable, weekTable: Uint64)

  /** A course. The edge lists hold course codes in place of pointers. */
  datatype Course = Course(
    code: string,
    term: nat,
    credits: nat,
    weight: nat,
    learned: bool,
    classes: map<string, Class>,
    preCourses: seq<string>,
    postCourses: seq<string>)

  /** The course map (every `*Course` the class index reaches) and the class index. */
  datatype Catalog = Catalog(courses: map<string, Course>, classes: map<string, Class>)

  const EmptyCatalog := Catalog(map[], map[])

  /** The composite key of a class: its course code, one blank, its class code. */
  function Key(courseCode: string, classCode: string): string {
    courseCode + " " + classCode
  }

  /** Tokens carry no blank, so a composite key names one (course, class) pair. */
  lemma KeyInjective(a: string, b: string, c: string, d: string)
    requires NoSpace(a) && NoSpace(c)
    requires Key(a, b) == Key(c, d)
    ensures a == c && b == d
  {
    assert Key(a, b)[|a|] == ' ' && Key(c, d)[|c|] == ' ';
    if |a| == |c| {
      assert a == Key(a, b)[..|a|] && c == Key(c, d)[..|c|];
      assert b == Key(a, b)[|a| + 1..] && d == Key(c, d)[|c| + 1..];
    }
  }

  /** Every course is stored under its own code. */
  ghost predicate CodesMatch(courses: map<string, Course>) {
    forall c :: c in courses ==> courses[c].code == c
  }

  /** Every prerequisite and postrequisite edge leads to a declared course. */
  ghost predicate EdgesResolve(courses: map<string, Course>) {
    (forall c, i :: c in courses && 0 <= i < |courses[c].preCourses| ==> courses[c].preCourses[i] in courses)
    && (forall c, i :: c in courses && 0 <= i < |courses[c].postCourses| ==> courses[c].postCourses[i] in courses)
  }

  /** Every indexed class sits under "course class", belongs to a declared
      course, and is the class that course lists under its class code. */
  ghost predicate ClassesIndexed(cat: Catalog) {
    forall k :: k in cat.classes ==>
      k == Key(cat.classes[k].courseCode, cat.classes[k].code)
      && cat.classes[k].courseCode in cat.courses
      && cat.classes[k].code in cat.courses[cat.classes[k].courseCode].classes
      && cat.courses[cat.classes[k].courseCode].classes[cat.classes[k].code] == cat.classes[k]
  }

  /** Every class a course lists is in the index, under "course class". */
  ghost predicate CourseClassesIndexed(cat: Catalog) {
    forall c, x :: c in cat.courses && x in cat.courses[c].classes ==>
      Key(c, x) in cat.classes && cat.classes[Key(c, x)] == cat.courses[c].classes[x]
  }

  ghost predicate WellFormed(cat: Catalog) {
    CodesMatch(cat.courses) && EdgesResolve(cat.courses) && ClassesIndexed(cat) && CourseClassesIndexed(cat)
  }

  /** What replaying a plan relies on: every indexed class's course is
      declared and every edge leads to a declared course (the source's
      pointers are never nil). */
  ghost predicate Resolved(cat: Catalog) {
    (forall k :: k in cat.classes ==> cat.classes[k].courseCode in cat.courses)
    && EdgesResolve(cat.courses)
  }

  lemma WellFormedResolved(cat: Catalog)
    requires WellFormed(cat)
    ensures Resolved(cat)
  {
  }

  ghost predicate NoneLearned(cat: Catalog) {
    forall c :: c in cat.courses ==> !cat.courses[c].learned
  }

  /** The graph shared by the builder and the validator. */
  class Graph {
    var courses: map<string, Course>
    var classes: map<string, Class>

    constructor ()
      ensures courses == map[] && classes == map[]
    {
      courses, classes := map[], map[];
    }

    function Snapshot(): Catalog
      reads this
    {
      Catalog(courses, classes)
    }
  }
}
