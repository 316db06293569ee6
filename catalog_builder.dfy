/** ParseInput: read six header counts, then the course records, the class
    records, the prerequisite pairs and the postrequisite pairs, filling the
    course map and the class index in place. */
module CatalogBuilder {
  import opened Errors
  import opened Strings
  import opened Strconv
  import opened TokenReader
  import opened Courses

  /** How one record loop of ParseInput ended: it ran its count down, it met a
      repeated course code (which returns with no error), or it failed. */
  datatype Stop = Continue | DuplicateCourse | Fail(error: Error)

  datatype Phase = Phase(stop: Stop, cat: Catalog, pos: nat)

  /** The error ParseInput returns for a loop outcome. */
  function ErrorOf(s: Stop): Option<Error> {
    if s.Fail? then Some(s.error) else None
  }

  /** What ParseInput returns, with the cursor position it leaves and the way
      its loops ended. */
  datatype Parsed = Parsed(cat: Catalog, creditsLimit: nat, termsLimit: nat, stop: Stop, pos: nat)

  function NewCourse(code: string, term: nat, credits: nat, weight: nat): Course {
    Course(code, term, credits, weight, false, map[], [], [])
  }

  /** One course record: code, term, credits, weight. A code already
      declared stops the loop with no error; otherwise Continue carries the
      catalog with the new course added. */
  function CourseRecord(slice: seq<string>, pos: nat, cat: Catalog): Phase {
    var code := StringAt(slice, pos);
    if code.err.Some? then Phase(Fail(code.err.value), cat, code.pos) else
    var term := UintAt(slice, code.pos);
    if term.err.Some? then Phase(Fail(term.err.value), cat, term.pos) else
    var credits := UintAt(slice, term.pos);
    if credits.err.Some? then Phase(Fail(credits.err.value), cat, credits.pos) else
    var weight := UintAt(slice, credits.pos);
    if weight.err.Some? then Phase(Fail(weight.err.value), cat, weight.pos) else
    if code.value in cat.courses then Phase(DuplicateCourse, cat, weight.pos)
    else
      var course := NewCourse(code.value, term.value, credits.value, weight.value);
      Phase(Continue, cat.(courses := cat.courses[code.value := course]), weight.pos)
  }

  /** The course-record loop, `coursesCount` records from `pos` on. */
  function CoursesLoop(slice: seq<string>, pos: nat, count: nat, cat: Catalog): Phase
    decreases count
  {
    if count == 0 then Phase(Continue, cat, pos)
    else
      var ph := CourseRecord(slice, pos, cat);
      if !ph.stop.Continue? then ph else CoursesLoop(slice, ph.pos, count - 1, ph.cat)
  }

  /** The `GetUint` calls that fill a class's time table: `acc` holds the
      days read so far. */
  function ReadTimes(slice: seq<string>, pos: nat, acc: seq<Uint64>): (r: Read<seq<Uint64>>)
    requires |acc| <= 7
    ensures r.err.None? ==> |r.value| == 7
    ensures r.err.Some? ==> IsReadError(r.err.value)
    decreases 7 - |acc|
  {
    if |acc| == 7 then Read(acc, None, pos)
    else
      var v := UintAt(slice, pos);
      if v.err.Some? then Read(acc, v.err, v.pos)
      else ReadTimes(slice, v.pos, acc + [v.value])
  }

  /** Add class `cls` to the index under `key` and to its course's own map. */
  function AddClass(cat: Catalog, key: string, cls: Class): Catalog
    requires cls.courseCode in cat.courses
  {
    var course := cat.courses[cls.courseCode];
    Catalog(cat.courses[cls.courseCode := course.(classes := course.classes[cls.code := cls])],
            cat.classes[key := cls])
  }

  /** One class record: owning course code, class code, seven day masks,
      week mask; Continue carries the catalog with the class added. */
  function ClassRecord(slice: seq<string>, pos: nat, cat: Catalog): Phase {
    var courseCode := StringAt(slice, pos);
    if courseCode.err.Some? then Phase(Fail(courseCode.err.value), cat, courseCode.pos) else
    if courseCode.value !in cat.courses then Phase(Fail(CourseNotExists(courseCode.value)), cat, courseCode.pos) else
    var code := StringAt(slice, courseCode.pos);
    if code.err.Some? then Phase(Fail(code.err.value), cat, code.pos) else
    var times := ReadTimes(slice, code.pos, []);
    if times.err.Some? then Phase(Fail(times.err.value), cat, times.pos) else
    var week := UintAt(slice, times.pos);
    if week.err.Some? then Phase(Fail(week.err.value), cat, week.pos) else
    var key := Key(courseCode.value, code.value);
    if key in cat.classes then Phase(Fail(ClassExists(key)), cat, week.pos)
    else Phase(Continue, AddClass(cat, key, Class(courseCode.value, code.value, times.value, week.value)), week.pos)
  }

  /** The class-record loop. */
  function ClassesLoop(slice: seq<string>, pos: nat, count: nat, cat: Catalog): Phase
    decreases count
  {
    if count == 0 then Phase(Continue, cat, pos)
    else
      var ph := ClassRecord(slice, pos, cat);
      if !ph.stop.Continue? then ph else ClassesLoop(slice, ph.pos, count - 1, ph.cat)
  }

  /** Appends the prerequisite `p` to the prerequisite list of course `c`. */
  function AddPreCourse(courses: map<string, Course>, c: string, p: string): (r: map<string, Course>)
    requires c in courses
    ensures r.Keys == courses.Keys
    ensures r[c] == courses[c].(preCourses := courses[c].preCourses + [p])
    ensures forall k :: k in courses && k != c ==> r[k] == courses[k]
  {
    courses[c := courses[c].(preCourses := courses[c].preCourses + [p])]
  }

  /** Records a postrequisite pair as the source does: the list written is
      the POST course's, and it becomes the source course's list with the
      source course appended; the source course's own list keeps
      its value (unless both codes are the same course). */
  function AddPostCourse(courses: map<string, Course>, c: string, p: string): (r: map<string, Course>)
    requires c in courses && p in courses
    ensures r.Keys == courses.Keys
    ensures r[p] == courses[p].(postCourses := courses[c].postCourses + [c])
    ensures c != p ==> r[c] == courses[c]
    ensures forall k :: k in courses && k != p ==> r[k] == courses[k]
  {
    courses[p := courses[p].(postCourses := courses[c].postCourses + [c])]
  }

  /** One prerequisite pair: both codes are read, then both must be declared. */
  function PreRecord(slice: seq<string>, pos: nat, cat: Catalog): Phase {
    var c := StringAt(slice, pos);
    if c.err.Some? then Phase(Fail(c.err.value), cat, c.pos) else
    var p := StringAt(slice, c.pos);
    if p.err.Some? then Phase(Fail(p.err.value), cat, p.pos) else
    if c.value !in cat.courses then Phase(Fail(CourseNotExists(c.value)), cat, p.pos) else
    if p.value !in cat.courses then Phase(Fail(PreCourseNotExists(p.value)), cat, p.pos) else
    Phase(Continue, cat.(courses := AddPreCourse(cat.courses, c.value, p.value)), p.pos)
  }

  /** The prerequisite-pair loop. */
  function PreLoop(slice: seq<string>, pos: nat, count: nat, cat: Catalog): Phase
    decreases count
  {
    if count == 0 then Phase(Continue, cat, pos)
    else
      var ph := PreRecord(slice, pos, cat);
      if !ph.stop.Continue? then ph else PreLoop(slice, ph.pos, count - 1, ph.cat)
  }

  /** One postrequisite pair: both codes are read, then both must be declared. */
  function PostRecord(slice: seq<string>, pos: nat, cat: Catalog): Phase {
    var c := StringAt(slice, pos);
    if c.err.Some? then Phase(Fail(c.err.value), cat, c.pos) else
    var p := StringAt(slice, c.pos);
    if p.err.Some? then Phase(Fail(p.err.value), cat, p.pos) else
    if c.value !in cat.courses then Phase(Fail(CourseNotExists(c.value)), cat, p.pos) else
    if p.value !in cat.courses then Phase(Fail(PostCourseNotExists(p.value)), cat, p.pos) else
    Phase(Continue, cat.(courses := AddPostCourse(cat.courses, c.value, p.value)), p.pos)
  }

  /** The postrequisite-pair loop. */
  function PostLoop(slice: seq<string>, pos: nat, count: nat, cat: Catalog): Phase
    decreases count
  {
    if count == 0 then Phase(Continue, cat, pos)
    else
      var ph := PostRecord(slice, pos, cat);
      if !ph.stop.Continue? then ph else PostLoop(slice, ph.pos, count - 1, ph.cat)
  }

  /** The four record loops of ParseInput, run one after the other from the
      empty catalog while each runs its count down. */
  function RunLoops(slice: seq<string>, pos: nat, coursesCount: nat, classesCount: nat,
                    preCoursesCount: nat, postCoursesCount: nat): Phase
  {
    var ph1 := CoursesLoop(slice, pos, coursesCount, EmptyCatalog);
    if !ph1.stop.Continue? then ph1 else
    var ph2 := ClassesLoop(slice, ph1.pos, classesCount, ph1.cat);
    if !ph2.stop.Continue? then ph2 else
    var ph3 := PreLoop(slice, ph2.pos, preCoursesCount, ph2.cat);
    if !ph3.stop.Continue? then ph3 else
    PostLoop(slice, ph3.pos, postCoursesCount, ph3.cat)
  }

  /** ParseInput on the token list `slice` with the cursor at `pos`. */
  function ParseInputSpec(slice: seq<string>, pos: nat): Parsed {
    var courses := UintAt(slice, pos);
    if courses.err.Some? then Parsed(EmptyCatalog, 0, 0, Fail(courses.err.value), courses.pos) else
    var classes := UintAt(slice, courses.pos);
    if classes.err.Some? then Parsed(EmptyCatalog, 0, 0, Fail(classes.err.value), classes.pos) else
    var pres := UintAt(slice, classes.pos);
    if pres.err.Some? then Parsed(EmptyCatalog, 0, 0, Fail(pres.err.value), pres.pos) else
    var posts := UintAt(slice, pres.pos);
    if posts.err.Some? then Parsed(EmptyCatalog, 0, 0, Fail(posts.err.value), posts.pos) else
    var credits := UintAt(slice, posts.pos);
    if credits.err.Some? then Parsed(EmptyCatalog, credits.value, 0, Fail(credits.err.value), credits.pos) else
    var terms := UintAt(slice, credits.pos);
    if terms.err.Some? then Parsed(EmptyCatalog, credits.value, terms.value, Fail(terms.err.value), terms.pos) else
    var ph := RunLoops(slice, terms.pos, courses.value, classes.value, pres.value, posts.value);
    Parsed(ph.cat, credits.value, terms.value, ph.stop, ph.pos)
  }

  /** The first loop of ParseInput (course records). */
  method ReadCourses(r: Reader, g: Graph, count: nat) returns (stop: Stop)
    modifies r, g
    ensures Phase(stop, g.Snapshot(), r.pos) == CoursesLoop(r.slice, old(r.pos), count, old(g.Snapshot()))
  {
    var coursesCount := count;
    while coursesCount > 0
      invariant CoursesLoop(r.slice, old(r.pos), count, old(g.Snapshot()))
             == CoursesLoop(r.slice, r.pos, coursesCount, g.Snapshot())
      decreases coursesCount
    {
      var code, term, credits, weight, err;
      code, err := r.GetString();
      if err.Some? { return Fail(err.value); }
      term, err := r.GetUint();
      if err.Some? { return Fail(err.value); }
      credits, err := r.GetUint();
      if err.Some? { return Fail(err.value); }
      weight, err := r.GetUint();
      if err.Some? { return Fail(err.value); }
      if code in g.courses { return DuplicateCourse; }
      g.courses := g.courses[code := NewCourse(code, term, credits, weight)];
      coursesCount := coursesCount - 1;
    }
    return Continue;
  }

  /** The second loop of ParseInput (class records). */
  method ReadClasses(r: Reader, g: Graph, count: nat) returns (stop: Stop)
    modifies r, g
    ensures Phase(stop, g.Snapshot(), r.pos) == ClassesLoop(r.slice, old(r.pos), count, old(g.Snapshot()))
  {
    var classesCount := count;
    while classesCount > 0
      invariant ClassesLoop(r.slice, old(r.pos), count, old(g.Snapshot()))
             == ClassesLoop(r.slice, r.pos, classesCount, g.Snapshot())
      decreases classesCount
    {
      stop := ReadClass(r, g, classesCount);
      if !stop.Continue? { return; }
      classesCount := classesCount - 1;
    }
    return Continue;
  }

  /** One pass of the class-record loop's body. */
  method ReadClass(r: Reader, g: Graph, ghost remaining: nat) returns (stop: Stop)
    requires remaining > 0
    modifies r, g
    ensures ClassesLoop(r.slice, old(r.pos), remaining, old(g.Snapshot()))
         == if stop.Continue? then ClassesLoop(r.slice, r.pos, remaining - 1, g.Snapshot())
            else Phase(stop, g.Snapshot(), r.pos)
  {
    var courseCode, code, err;
    courseCode, err := r.GetString();
    if err.Some? { return Fail(err.value); }
    if courseCode !in g.courses { return Fail(CourseNotExists(courseCode)); }
    code, err := r.GetString();
    if err.Some? { return Fail(err.value); }
    var times, week;
    times, err := ReadTimeTable(r);
    if err.Some? { return Fail(err.value); }
    week, err := r.GetUint();
    if err.Some? { return Fail(err.value); }
    var key := Key(courseCode, code);
    if key in g.classes { return Fail(ClassExists(key)); }
    var cls := Class(courseCode, code, times, week);
    var course := g.courses[courseCode];
    g.courses := g.courses[courseCode := course.(classes := course.classes[code := cls])];
    g.classes := g.classes[key := cls];
    return Continue;
  }

  /** Reads the seven day masks of a class, one uint64 per day, stopping at
      the first read that fails. */
  method ReadTimeTable(r: Reader) returns (times: seq<Uint64>, err: Option<Error>)
    modifies r
    ensures Read(times, err, r.pos) == ReadTimes(r.slice, old(r.pos), [])
  {
    times := [];
    var i := 0;
    while i < 7
      invariant 0 <= i <= 7 && |times| == i
      invariant ReadTimes(r.slice, old(r.pos), []) == ReadTimes(r.slice, r.pos, times)
    {
      var v;
      v, err := r.GetUint();
      if err.Some? { return; }
      times := times + [v];
      i := i + 1;
    }
    err := None;
  }

  /** The third loop of ParseInput (prerequisite pairs). */
  method ReadPreCourses(r: Reader, g: Graph, count: nat) returns (stop: Stop)
    modifies r, g
    ensures Phase(stop, g.Snapshot(), r.pos) == PreLoop(r.slice, old(r.pos), count, old(g.Snapshot()))
  {
    var preCoursesCount := count;
    while preCoursesCount > 0
      invariant PreLoop(r.slice, old(r.pos), count, old(g.Snapshot()))
             == PreLoop(r.slice, r.pos, preCoursesCount, g.Snapshot())
      decreases preCoursesCount
    {
      var courseCode, preCourseCode, err;
      courseCode, err := r.GetString();
      if err.Some? { return Fail(err.value); }
      preCourseCode, err := r.GetString();
      if err.Some? { return Fail(err.value); }
      if courseCode !in g.courses { return Fail(CourseNotExists(courseCode)); }
      if preCourseCode !in g.courses { return Fail(PreCourseNotExists(preCourseCode)); }
      var course := g.courses[courseCode];
      g.courses := g.courses[courseCode := course.(preCourses := course.preCourses + [preCourseCode])];
      preCoursesCount := preCoursesCount - 1;
    }
    return Continue;
  }

  /** The fourth loop of ParseInput (postrequisite pairs). */
  method ReadPostCourses(r: Reader, g: Graph, count: nat) returns (stop: Stop)
    modifies r, g
    ensures Phase(stop, g.Snapshot(), r.pos) == PostLoop(r.slice, old(r.pos), count, old(g.Snapshot()))
  {
    var postCoursesCount := count;
    while postCoursesCount > 0
      invariant PostLoop(r.slice, old(r.pos), count, old(g.Snapshot()))
             == PostLoop(r.slice, r.pos, postCoursesCount, g.Snapshot())
      decreases postCoursesCount
    {
      var courseCode, postCourseCode, err;
      courseCode, err := r.GetString();
      if err.Some? { return Fail(err.value); }
      postCourseCode, err := r.GetString();
      if err.Some? { return Fail(err.value); }
      if courseCode !in g.courses { return Fail(CourseNotExists(courseCode)); }
      if postCourseCode !in g.courses { return Fail(PostCourseNotExists(postCourseCode)); }
      var course, postCourse := g.courses[courseCode], g.courses[postCourseCode];
      g.courses := g.courses[postCourseCode := postCourse.(postCourses := course.postCourses + [courseCode])];
      postCoursesCount := postCoursesCount - 1;
    }
    return Continue;
  }

  /** ParseInput. The graph it returns is filled in place up to the point
      where it stopped; a repeated course code stops it with no error. */
  method ParseInput(r: Reader) returns (g: Graph, creditsLimit: nat, termsLimit: nat, err: Option<Error>)
    modifies r
    ensures fresh(g)
    ensures var o := ParseInputSpec(r.slice, old(r.pos));
      g.Snapshot() == o.cat && creditsLimit == o.creditsLimit && termsLimit == o.termsLimit
      && err == ErrorOf(o.stop) && r.pos == o.pos
  {
    g := new Graph();
    creditsLimit, termsLimit := 0, 0;
    var coursesCount, classesCount, preCoursesCount, postCoursesCount;
    coursesCount, err := r.GetUint();
    if err.Some? { return; }
    classesCount, err := r.GetUint();
    if err.Some? { return; }
    preCoursesCount, err := r.GetUint();
    if err.Some? { return; }
    postCoursesCount, err := r.GetUint();
    if err.Some? { return; }
    creditsLimit, err := r.GetUint();
    if err.Some? { return; }
    termsLimit, err := r.GetUint();
    if err.Some? { return; }
    var stop := ReadCourses(r, g, coursesCount);
    if !stop.Continue? { return g, creditsLimit, termsLimit, ErrorOf(stop); }
    stop := ReadClasses(r, g, classesCount);
    if !stop.Continue? { return g, creditsLimit, termsLimit, ErrorOf(stop); }
    stop := ReadPreCourses(r, g, preCoursesCount);
    if !stop.Continue? { return g, creditsLimit, termsLimit, ErrorOf(stop); }
    stop := ReadPostCourses(r, g, postCoursesCount);
    err := ErrorOf(stop);
  }

  // ---------------------------------------------------------------------
  // Properties of the builder

  /** A course as a course record leaves it: stored under its own code,
      unlearned, with no class and no edge. */
  ghost predicate Blank(course: Course, c: string) {
    course.code == c && !course.learned && course.classes == map[]
    && course.preCourses == [] && course.postCourses == []
  }

  /** What the course loop promises about the phase `r` it ends in, from the
      catalog `cat` it started on, `count` records to go: it keeps the class
      index and every course it was given, each course it adds is blank, a
      run that goes through adds exactly `count` courses, and a failure is a
      read error. */
  ghost predicate CoursesFacts(cat: Catalog, r: Phase, count: nat) {
    && r.cat.classes == cat.classes
    && (forall c :: c in cat.courses ==> c in r.cat.courses && r.cat.courses[c] == cat.courses[c])
    && (forall c :: c in r.cat.courses && c !in cat.courses ==> Blank(r.cat.courses[c], c))
    && (r.stop.Continue? ==> |r.cat.courses| == |cat.courses| + count)
    && (r.stop.Fail? ==> IsReadError(r.stop.error))
  }

  /** The course loop adds fresh, unlearned, edge-free courses under their
      own codes, never replaces a course (a repeated code stops the loop
      with no error), and leaves the class index alone. */
  lemma {:induction false} CoursesLoopFacts(slice: seq<string>, pos: nat, count: nat, cat: Catalog)
    ensures CoursesFacts(cat, CoursesLoop(slice, pos, count, cat), count)
    decreases count
  {
    if count == 0 {
      CoursesFactsStop(cat, CoursesLoop(slice, pos, count, cat), count);
    } else {
      var ph := CourseRecord(slice, pos, cat);
      var left := count - 1;
      CourseRecordFacts(slice, pos, cat);
      if ph.stop.Continue? {
        CoursesLoopFacts(slice, ph.pos, left, ph.cat);
      }
      CoursesFactsCompose(cat, count, ph, CoursesLoop(slice, ph.pos, left, ph.cat), CoursesLoop(slice, pos, count, cat));
    }
  }

  /** One course record adds one blank course under a code not yet declared,
      or stops on the catalog it was given: on a read error, or on a repeat
      right after the record's four fields. */
  lemma CourseRecordFacts(slice: seq<string>, pos: nat, cat: Catalog)
    ensures var ph := CourseRecord(slice, pos, cat);
      && CoursesFacts(cat, ph, 1)
      && (!ph.stop.Continue? ==> ph.cat == cat)
      && RepeatAt(slice, pos, ph)
      && pos <= ph.pos
  {
    var ph := CourseRecord(slice, pos, cat);
    var code := StringAt(slice, pos);
    var term := UintAt(slice, code.pos);
    var credits := UintAt(slice, term.pos);
    var weight := UintAt(slice, credits.pos);
    if code.err.Some? || term.err.Some? || credits.err.Some? || weight.err.Some? {
      assert ph.stop.Fail? && ph.cat == cat && IsReadError(ph.stop.error);
    } else if code.value in cat.courses {
      assert ph == Phase(DuplicateCourse, cat, weight.pos);
      assert weight.pos == pos + 4 && slice[pos] == code.value;
    } else {
      var course := NewCourse(code.value, term.value, credits.value, weight.value);
      assert ph == Phase(Continue, cat.(courses := cat.courses[code.value := course]), weight.pos);
      CoursesFactsAdd(cat, code.value, course, ph);
    }
  }

  /** A phase that goes on with one blank course added under a new code keeps
      the promises of one record. */
  lemma CoursesFactsAdd(cat: Catalog, code: string, course: Course, ph: Phase)
    requires code !in cat.courses && Blank(course, code)
    requires ph.stop.Continue? && ph.cat == cat.(courses := cat.courses[code := course])
    ensures CoursesFacts(cat, ph, 1)
  {
    assert |ph.cat.courses| == |cat.courses| + 1;
  }

  /** A loop that stops where it is, on the catalog it was given, and goes
      through only with no record left, keeps the loop's promises. */
  lemma CoursesFactsStop(cat: Catalog, r: Phase, count: nat)
    requires r.cat == cat
    requires r.stop.Continue? ==> count == 0
    requires r.stop.Fail? ==> IsReadError(r.stop.error)
    ensures CoursesFacts(cat, r, count)
  {
  }

  /** One record followed by the rest of the loop keeps the loop's promises. */
  lemma CoursesFactsCompose(cat: Catalog, count: nat, ph: Phase, rest: Phase, whole: Phase)
    requires count > 0
    requires CoursesFacts(cat, ph, 1)
    requires ph.stop.Continue? ==> CoursesFacts(ph.cat, rest, count - 1)
    requires whole == if ph.stop.Continue? then rest else ph
    ensures CoursesFacts(cat, whole, count)
  {
    if ph.stop.Continue? {
      forall c | c in rest.cat.courses && c !in cat.courses
        ensures Blank(rest.cat.courses[c], c)
      {
        if c in ph.cat.courses {
          assert rest.cat.courses[c] == ph.cat.courses[c];
        }
      }
    }
  }

  /** Adding a class under a key not yet used keeps the graph well formed. */
  lemma AddClassWellFormed(cat: Catalog, cls: Class)
    requires WellFormed(cat)
    requires cls.courseCode in cat.courses
    requires Key(cls.courseCode, cls.code) !in cat.classes
    ensures WellFormed(AddClass(cat, Key(cls.courseCode, cls.code), cls))
  {
    var key := Key(cls.courseCode, cls.code);
    AddClassCourses(cat, key, cls);
    AddClassIndexed(cat, cls);
    AddClassCourseIndexed(cat, cls);
  }

  /** Adding a class keeps every course's code and edges. */
  lemma AddClassCourses(cat: Catalog, key: string, cls: Class)
    requires CodesMatch(cat.courses) && EdgesResolve(cat.courses)
    requires cls.courseCode in cat.courses
    ensures var r := AddClass(cat, key, cls);
      CodesMatch(r.courses) && EdgesResolve(r.courses)
  {
    var r := AddClass(cat, key, cls);
    assert r.courses.Keys == cat.courses.Keys;
    forall c | c in r.courses
      ensures r.courses[c].code == cat.courses[c].code
      ensures r.courses[c].preCourses == cat.courses[c].preCourses
      ensures r.courses[c].postCourses == cat.courses[c].postCourses
    {
    }
  }

  /** After adding a class under its own key, every indexed class still
      sits in its course's class map. */
  lemma AddClassIndexed(cat: Catalog, cls: Class)
    requires ClassesIndexed(cat)
    requires cls.courseCode in cat.courses
    requires Key(cls.courseCode, cls.code) !in cat.classes
    ensures ClassesIndexed(AddClass(cat, Key(cls.courseCode, cls.code), cls))
  {
    var key := Key(cls.courseCode, cls.code);
    var r := AddClass(cat, key, cls);
    forall k | k in r.classes
      ensures k == Key(r.classes[k].courseCode, r.classes[k].code)
      ensures r.classes[k].courseCode in r.courses
      ensures r.classes[k].code in r.courses[r.classes[k].courseCode].classes
      ensures r.courses[r.classes[k].courseCode].classes[r.classes[k].code] == r.classes[k]
    {
      if k != key {
        var old_ := cat.classes[k];
        assert r.classes[k] == old_;
        assert k == Key(old_.courseCode, old_.code);
        if old_.courseCode == cls.courseCode {
          assert old_.code != cls.code;
        }
      }
    }
  }

  /** After adding a class, every class a course lists is still indexed. */
  lemma AddClassCourseIndexed(cat: Catalog, cls: Class)
    requires CourseClassesIndexed(cat)
    requires cls.courseCode in cat.courses
    requires Key(cls.courseCode, cls.code) !in cat.classes
    ensures CourseClassesIndexed(AddClass(cat, Key(cls.courseCode, cls.code), cls))
  {
    var key := Key(cls.courseCode, cls.code);
    var r := AddClass(cat, key, cls);
    forall c, x | c in r.courses && x in r.courses[c].classes
      ensures Key(c, x) in r.classes && r.classes[Key(c, x)] == r.courses[c].classes[x]
    {
      if c != cls.courseCode || x != cls.code {
        assert x in cat.courses[c].classes;
        assert Key(c, x) in cat.classes;
      }
    }
  }

  /** Adding a class touches only the owning course's class map and keeps
      every indexed class; under a fresh key the index grows by one. */
  lemma AddClassFrame(cat: Catalog, key: string, cls: Class)
    requires cls.courseCode in cat.courses
    requires key !in cat.classes
    ensures var r := AddClass(cat, key, cls);
      && r.courses.Keys == cat.courses.Keys
      && (forall c :: c in cat.courses ==> r.courses[c] == cat.courses[c].(classes := r.courses[c].classes))
      && (forall k :: k in cat.classes ==> k in r.classes && r.classes[k] == cat.classes[k])
      && |r.classes| == |cat.classes| + 1
  {
  }

  /** The token at `at` is a uint64 numeral of value `v`. */
  ghost predicate ParsesTo(slice: seq<string>, at: nat, v: nat) {
    at < |slice| && ParseUint(slice[at]) == (v, None)
  }

  /** What a time-table read `r` from `pos`, after the days `acc`, did: it
      kept `acc` and appended, one per day, the value of each next token; it
      has seven days exactly when no read failed, and then it read
      `7 - |acc|` tokens; a failure carries the error and cursor of the first
      read that failed. */
  ghost predicate TimesRead(slice: seq<string>, pos: nat, acc: seq<Uint64>, r: Read<seq<Uint64>>) {
    && |acc| <= |r.value| <= 7 && r.value[..|acc|] == acc
    && (forall i :: |acc| <= i < |r.value| ==> ParsesTo(slice, pos + i - |acc|, r.value[i]))
    && (r.err.None? <==> |r.value| == 7)
    && (r.err.None? ==> r.pos == pos + 7 - |acc|)
    && (r.err.Some? ==> var u := UintAt(slice, pos + |r.value| - |acc|); r.err == u.err && r.pos == u.pos)
  }

  /** One day read, then the rest of the read. */
  lemma TimesReadCompose(slice: seq<string>, pos: nat, acc: seq<Uint64>, v: Uint64, r: Read<seq<Uint64>>)
    requires |acc| < 7 && ParsesTo(slice, pos, v)
    requires TimesRead(slice, pos + 1, acc + [v], r)
    ensures TimesRead(slice, pos, acc, r)
  {
    var next := acc + [v];
    assert r.value[..|next|] == next;
    assert r.value[..|acc|] == next[..|acc|] == acc;
    assert r.value[|acc|] == next[|acc|] == v;
  }

  /** The time-table read is TimesRead of what it returns. */
  lemma {:induction false} ReadTimesMeans(slice: seq<string>, pos: nat, acc: seq<Uint64>)
    requires |acc| <= 7
    ensures TimesRead(slice, pos, acc, ReadTimes(slice, pos, acc))
    decreases 7 - |acc|
  {
    if |acc| < 7 {
      var v := UintAt(slice, pos);
      if v.err.None? {
        ReadTimesMeans(slice, v.pos, acc + [v.value]);
        TimesReadCompose(slice, pos, acc, v.value, ReadTimes(slice, v.pos, acc + [v.value]));
      }
    }
  }

  /** A class record that goes through adds the class it read, under its
      composite key, and names a declared course and a key not yet used. */
  lemma ClassRecordAdds(slice: seq<string>, pos: nat, cat: Catalog)
    ensures var ph := ClassRecord(slice, pos, cat);
      var courseCode := StringAt(slice, pos);
      var code := StringAt(slice, courseCode.pos);
      var times := ReadTimes(slice, code.pos, []);
      var week := UintAt(slice, times.pos);
      ph.stop.Continue? ==>
        && |times.value| == 7
        && courseCode.value in cat.courses
        && Key(courseCode.value, code.value) !in cat.classes
        && ph.cat == AddClass(cat, Key(courseCode.value, code.value), Class(courseCode.value, code.value, times.value, week.value))
  {
  }

  /** A class record that goes through read eleven tokens: the two codes,
      then the seven day masks and the week mask it filed, each the value
      of its token. */
  lemma ClassRecordTokens(slice: seq<string>, pos: nat, cat: Catalog)
    ensures var ph := ClassRecord(slice, pos, cat);
      ph.stop.Continue? ==>
        && pos + 10 <= |slice| && ph.pos == pos + 10
        && var cls := ph.cat.classes[Key(slice[pos], slice[pos + 1])];
        && cls.courseCode == slice[pos] && cls.code == slice[pos + 1]
        && (forall d :: 0 <= d < 7 ==> ParsesTo(slice, pos + 2 + d, cls.timeTable[d]))
        && ParsesTo(slice, pos + 9, cls.weekTable)
  {
    var ph := ClassRecord(slice, pos, cat);
    if ph.stop.Continue? {
      var courseCode := StringAt(slice, pos);
      var code := StringAt(slice, courseCode.pos);
      ReadTimesMeans(slice, code.pos, []);
      var times := ReadTimes(slice, code.pos, []);
      var week := UintAt(slice, times.pos);
      assert ph.cat == AddClass(cat, Key(courseCode.value, code.value), Class(courseCode.value, code.value, times.value, week.value));
    }
  }

  /** How one class record ends: a failed read stops it with the read's
      error; an undeclared course code stops it with CourseNotExists right
      after that code is read; a composite key already indexed stops it with
      ClassExists after the whole record is read; otherwise it goes through.
      A failure leaves the catalog as it was. */
  lemma ClassRecordVerdict(slice: seq<string>, pos: nat, cat: Catalog)
    ensures var ph := ClassRecord(slice, pos, cat);
      var courseCode := StringAt(slice, pos);
      var code := StringAt(slice, courseCode.pos);
      var times := ReadTimes(slice, code.pos, []);
      var week := UintAt(slice, times.pos);
      var key := Key(courseCode.value, code.value);
      var read := code.err.None? && times.err.None? && week.err.None?;
      && (courseCode.err.Some? ==> ph == Phase(Fail(courseCode.err.value), cat, courseCode.pos))
      && (courseCode.err.None? && courseCode.value !in cat.courses ==>
            ph == Phase(Fail(CourseNotExists(courseCode.value)), cat, courseCode.pos))
      && (courseCode.err.None? && courseCode.value in cat.courses && !read ==>
            ph.stop.Fail? && IsReadError(ph.stop.error) && ph.cat == cat)
      && (courseCode.err.None? && courseCode.value in cat.courses && read && key in cat.classes ==>
            ph == Phase(Fail(ClassExists(key)), cat, week.pos))
      && (ph.stop.Continue? <==> courseCode.err.None? && courseCode.value in cat.courses && read && key !in cat.classes)
  {
  }

  /** What the class loop promises about the phase `r` it ends in, from the
      catalog `cat` it started on, after `count` records went through: it
      never replaces an indexed class and touches the courses only in their
      class maps; a failure names an undeclared course or an already indexed
      key. */
  ghost predicate ClassesFrame(cat: Catalog, r: Phase, count: nat) {
    && r.cat.courses.Keys == cat.courses.Keys
    && (forall c :: c in cat.courses ==> r.cat.courses[c] == cat.courses[c].(classes := r.cat.courses[c].classes))
    && (forall k :: k in cat.classes ==> k in r.cat.classes && r.cat.classes[k] == cat.classes[k])
    && (r.stop.Continue? ==> |r.cat.classes| == |cat.classes| + count)
    && !r.stop.DuplicateCourse?
    && (r.stop.Fail? ==> IsReadError(r.stop.error) || r.stop.error.CourseNotExists? || r.stop.error.ClassExists?)
    && (r.stop.Fail? && r.stop.error.CourseNotExists? ==> r.stop.error.code !in r.cat.courses)
    && (r.stop.Fail? && r.stop.error.ClassExists? ==> r.stop.error.key in r.cat.classes)
  }

  /** One class record either fails, naming an undeclared course or an
      already indexed key and changing nothing, or files exactly one new class
      under a fresh key. */
  lemma ClassRecordFrame(slice: seq<string>, pos: nat, cat: Catalog)
    ensures var ph := ClassRecord(slice, pos, cat);
      ClassesFrame(cat, ph, 1) && (ph.stop.Fail? ==> ph.cat == cat)
  {
    ClassRecordAdds(slice, pos, cat);
    var ph := ClassRecord(slice, pos, cat);
    if ph.stop.Continue? {
      var courseCode := StringAt(slice, pos);
      var code := StringAt(slice, courseCode.pos);
      var times := ReadTimes(slice, code.pos, []);
      var week := UintAt(slice, times.pos);
      var cls := Class(courseCode.value, code.value, times.value, week.value);
      AddClassFrame(cat, Key(cls.courseCode, cls.code), cls);
    }
  }

  lemma ClassesFrameTrans(a: Catalog, ph: Phase, r: Phase, n: nat)
    requires ph.stop.Continue?
    requires ClassesFrame(a, ph, 1) && ClassesFrame(ph.cat, r, n)
    ensures ClassesFrame(a, r, n + 1)
  {
  }

  /** A class record keeps the graph well formed. */
  lemma ClassRecordWellFormed(slice: seq<string>, pos: nat, cat: Catalog)
    requires WellFormed(cat)
    ensures WellFormed(ClassRecord(slice, pos, cat).cat)
  {
    ClassRecordAdds(slice, pos, cat);
    var ph := ClassRecord(slice, pos, cat);
    if ph.stop.Continue? {
      var courseCode := StringAt(slice, pos);
      var code := StringAt(slice, courseCode.pos);
      var times := ReadTimes(slice, code.pos, []);
      var week := UintAt(slice, times.pos);
      AddClassWellFormed(cat, Class(courseCode.value, code.value, times.value, week.value));
    }
  }

  /** One turn of the class loop. */
  lemma ClassesLoopStep(slice: seq<string>, pos: nat, count: nat, cat: Catalog, left: nat)
    requires count > 0 && left == count - 1
    ensures var ph := ClassRecord(slice, pos, cat);
      ClassesLoop(slice, pos, count, cat)
        == if ph.stop.Continue? then ClassesLoop(slice, ph.pos, left, ph.cat) else ph
  {
    var ph := ClassRecord(slice, pos, cat);
    if ph.stop.Continue? {
      assert ClassesLoop(slice, pos, count, cat) == ClassesLoop(slice, ph.pos, left, ph.cat);
    } else {
      assert ClassesLoop(slice, pos, count, cat) == ph;
    }
  }

  /** One record followed by the rest of the loop keeps the frame. */
  lemma ClassesFrameCompose(cat: Catalog, count: nat, ph: Phase, rest: Phase, whole: Phase)
    requires count > 0
    requires ClassesFrame(cat, ph, 1)
    requires ph.stop.Continue? ==> ClassesFrame(ph.cat, rest, count - 1)
    requires whole == if ph.stop.Continue? then rest else ph
    ensures ClassesFrame(cat, whole, count)
  {
    if ph.stop.Continue? {
      ClassesFrameTrans(cat, ph, rest, count - 1);
    }
  }

  /** The class loop never replaces an indexed class and touches the courses
      only in their class maps; a failure names an undeclared course or an
      already indexed key. */
  lemma {:induction false} ClassesLoopFrame(slice: seq<string>, pos: nat, count: nat, cat: Catalog)
    ensures ClassesFrame(cat, ClassesLoop(slice, pos, count, cat), count)
    decreases count
  {
    if count > 0 {
      var ph := ClassRecord(slice, pos, cat);
      var left := count - 1;
      ClassRecordFrame(slice, pos, cat);
      ClassesLoopStep(slice, pos, count, cat, left);
      if ph.stop.Continue? {
        ClassesLoopFrame(slice, ph.pos, left, ph.cat);
      }
      ClassesFrameCompose(cat, count, ph, ClassesLoop(slice, ph.pos, left, ph.cat), ClassesLoop(slice, pos, count, cat));
    }
  }

  /** The class loop keeps the graph well formed. */
  lemma {:induction false} ClassesLoopWellFormed(slice: seq<string>, pos: nat, count: nat, cat: Catalog)
    requires WellFormed(cat)
    ensures WellFormed(ClassesLoop(slice, pos, count, cat).cat)
    decreases count
  {
    if count > 0 {
      var ph := ClassRecord(slice, pos, cat);
      var left := count - 1;
      ClassRecordWellFormed(slice, pos, cat);
      ClassesLoopStep(slice, pos, count, cat, left);
      if ph.stop.Continue? {
        ClassesLoopWellFormed(slice, ph.pos, left, ph.cat);
      }
    }
  }

  /** A prerequisite edge between declared courses keeps the graph well formed. */
  lemma AddPreCourseWellFormed(cat: Catalog, c: string, p: string)
    requires WellFormed(cat) && c in cat.courses && p in cat.courses
    ensures WellFormed(cat.(courses := AddPreCourse(cat.courses, c, p)))
  {
    var next := cat.(courses := AddPreCourse(cat.courses, c, p));
    forall k, i | k in next.courses && 0 <= i < |next.courses[k].preCourses|
      ensures next.courses[k].preCourses[i] in next.courses
    {
      if k == c && i == |cat.courses[k].preCourses| {
      } else {
        assert next.courses[k].preCourses[i] == cat.courses[k].preCourses[i];
      }
    }
  }

  /** A postrequisite edge between declared courses keeps the graph well formed. */
  lemma AddPostCourseWellFormed(cat: Catalog, c: string, p: string)
    requires WellFormed(cat) && c in cat.courses && p in cat.courses
    ensures WellFormed(cat.(courses := AddPostCourse(cat.courses, c, p)))
  {
    var next := cat.(courses := AddPostCourse(cat.courses, c, p));
    forall k, i | k in next.courses && 0 <= i < |next.courses[k].postCourses|
      ensures next.courses[k].postCourses[i] in next.courses
    {
      if k == p {
        var src := cat.courses[c].postCourses;
        if i < |src| { assert next.courses[k].postCourses[i] == src[i]; }
      } else {
        assert next.courses[k].postCourses[i] == cat.courses[k].postCourses[i];
      }
    }
  }

  /** How one prerequisite pair ends: a failed read stops it with the
      read's error; then an undeclared course code stops it with
      CourseNotExists, and a declared course with an undeclared prerequisite
      with PreCourseNotExists; two declared codes append the prerequisite to
      the course's list. */
  lemma PreRecordVerdict(slice: seq<string>, pos: nat, cat: Catalog)
    ensures var ph := PreRecord(slice, pos, cat);
      var c := StringAt(slice, pos);
      var p := StringAt(slice, c.pos);
      && (c.err.Some? ==> ph == Phase(Fail(c.err.value), cat, c.pos))
      && (c.err.None? && p.err.Some? ==> ph == Phase(Fail(p.err.value), cat, p.pos))
      && (c.err.None? && p.err.None? && c.value !in cat.courses ==>
            ph == Phase(Fail(CourseNotExists(c.value)), cat, p.pos))
      && (c.err.None? && p.err.None? && c.value in cat.courses && p.value !in cat.courses ==>
            ph == Phase(Fail(PreCourseNotExists(p.value)), cat, p.pos))
      && (c.err.None? && p.err.None? && c.value in cat.courses && p.value in cat.courses ==>
            ph == Phase(Continue, cat.(courses := AddPreCourse(cat.courses, c.value, p.value)), p.pos))
  {
  }

  /** How one postrequisite pair ends: as a prerequisite pair, with
      PostCourseNotExists for an undeclared second code; two declared codes
      rewrite the postrequisite course's list. */
  lemma PostRecordVerdict(slice: seq<string>, pos: nat, cat: Catalog)
    ensures var ph := PostRecord(slice, pos, cat);
      var c := StringAt(slice, pos);
      var p := StringAt(slice, c.pos);
      && (c.err.Some? ==> ph == Phase(Fail(c.err.value), cat, c.pos))
      && (c.err.None? && p.err.Some? ==> ph == Phase(Fail(p.err.value), cat, p.pos))
      && (c.err.None? && p.err.None? && c.value !in cat.courses ==>
            ph == Phase(Fail(CourseNotExists(c.value)), cat, p.pos))
      && (c.err.None? && p.err.None? && c.value in cat.courses && p.value !in cat.courses ==>
            ph == Phase(Fail(PostCourseNotExists(p.value)), cat, p.pos))
      && (c.err.None? && p.err.None? && c.value in cat.courses && p.value in cat.courses ==>
            ph == Phase(Continue, cat.(courses := AddPostCourse(cat.courses, c.value, p.value)), p.pos))
  {
  }

  /** The `count` pairs from `pos` on are all present and every code in
      them is in `declared`. */
  ghost predicate PairsDeclared(slice: seq<string>, pos: nat, count: nat, declared: set<string>) {
    && (count > 0 ==> pos + 2 * count <= |slice|)
    && forall i :: pos <= i < pos + 2 * count ==> slice[i] in declared
  }

  /** An edge loop over `count` pairs from `pos` ends with Continue exactly
      when every pair is present and names two declared codes, and then it
      has read all of them. */
  ghost predicate PairsWent(slice: seq<string>, pos: nat, count: nat, declared: set<string>, r: Phase) {
    && (r.stop.Continue? <==> PairsDeclared(slice, pos, count, declared))
    && (r.stop.Continue? ==> r.pos == pos + 2 * count)
  }

  /** The first pair and the rest. */
  lemma PairsSplit(slice: seq<string>, pos: nat, count: nat, declared: set<string>)
    requires count > 0
    ensures PairsDeclared(slice, pos, count, declared)
        <==> PairsDeclared(slice, pos, 1, declared) && PairsDeclared(slice, pos + 2, count - 1, declared)
  {
    if PairsDeclared(slice, pos, count, declared) {
      forall i | pos + 2 <= i < pos + 2 + 2 * (count - 1)
        ensures slice[i] in declared
      {
        assert pos <= i < pos + 2 * count;
      }
    }
    if PairsDeclared(slice, pos, 1, declared) && PairsDeclared(slice, pos + 2, count - 1, declared) {
      forall i | pos <= i < pos + 2 * count
        ensures slice[i] in declared
      {
        if i >= pos + 2 {
          assert pos + 2 <= i < pos + 2 + 2 * (count - 1);
        }
      }
    }
  }

  /** One pair, then the rest of the loop over the same declared codes. */
  lemma PairsCompose(slice: seq<string>, pos: nat, count: nat, declared: set<string>,
                     ph: Phase, rest: Phase, whole: Phase)
    requires count > 0
    requires ph.stop.Continue? <==> PairsDeclared(slice, pos, 1, declared)
    requires ph.stop.Continue? ==> ph.pos == pos + 2 && PairsWent(slice, ph.pos, count - 1, declared, rest)
    requires whole == if ph.stop.Continue? then rest else ph
    ensures PairsWent(slice, pos, count, declared, whole)
  {
    PairsSplit(slice, pos, count, declared);
  }

  /** One prerequisite pair goes through exactly when both codes are present
      and declared; it then reads two tokens and keeps the declared codes. */
  lemma PreRecordGoes(slice: seq<string>, pos: nat, cat: Catalog)
    ensures var ph := PreRecord(slice, pos, cat);
      && (ph.stop.Continue? <==> PairsDeclared(slice, pos, 1, cat.courses.Keys))
      && (ph.stop.Continue? ==> ph.pos == pos + 2 && ph.cat.courses.Keys == cat.courses.Keys)
  {
    PreRecordVerdict(slice, pos, cat);
  }

  /** The prerequisite loop runs to the end exactly when every pair it reads
      names two declared courses; an undeclared code in any pair stops it. */
  lemma {:induction false} PreLoopGoesThrough(slice: seq<string>, pos: nat, count: nat, cat: Catalog)
    ensures PairsWent(slice, pos, count, cat.courses.Keys, PreLoop(slice, pos, count, cat))
    decreases count
  {
    if count > 0 {
      var ph := PreRecord(slice, pos, cat);
      var left := count - 1;
      PreRecordGoes(slice, pos, cat);
      if ph.stop.Continue? {
        PreLoopGoesThrough(slice, ph.pos, left, ph.cat);
      }
      PairsCompose(slice, pos, count, cat.courses.Keys, ph, PreLoop(slice, ph.pos, left, ph.cat), PreLoop(slice, pos, count, cat));
    }
  }

  /** One postrequisite pair goes through exactly when both codes are
      present and declared; it then reads two tokens and keeps the declared
      codes. */
  lemma PostRecordGoes(slice: seq<string>, pos: nat, cat: Catalog)
    ensures var ph := PostRecord(slice, pos, cat);
      && (ph.stop.Continue? <==> PairsDeclared(slice, pos, 1, cat.courses.Keys))
      && (ph.stop.Continue? ==> ph.pos == pos + 2 && ph.cat.courses.Keys == cat.courses.Keys)
  {
    PostRecordVerdict(slice, pos, cat);
  }

  /** The postrequisite loop runs to the end exactly when every pair it
      reads names two declared courses; an undeclared code in any pair stops it. */
  lemma {:induction false} PostLoopGoesThrough(slice: seq<string>, pos: nat, count: nat, cat: Catalog)
    ensures PairsWent(slice, pos, count, cat.courses.Keys, PostLoop(slice, pos, count, cat))
    decreases count
  {
    if count > 0 {
      var ph := PostRecord(slice, pos, cat);
      var left := count - 1;
      PostRecordGoes(slice, pos, cat);
      if ph.stop.Continue? {
        PostLoopGoesThrough(slice, ph.pos, left, ph.cat);
      }
      PairsCompose(slice, pos, count, cat.courses.Keys, ph, PostLoop(slice, ph.pos, left, ph.cat), PostLoop(slice, pos, count, cat));
    }
  }

  /** What the prerequisite loop promises about the phase `r` it ends in,
      from the catalog `cat` it started on: it only extends prerequisite
      lists, and a failure is a read error or names a code that is not
      declared. */
  ghost predicate PreFrame(cat: Catalog, r: Phase) {
    && r.cat.classes == cat.classes
    && r.cat.courses.Keys == cat.courses.Keys
    && (forall c :: c in cat.courses ==>
          && r.cat.courses[c] == cat.courses[c].(preCourses := r.cat.courses[c].preCourses)
          && cat.courses[c].preCourses <= r.cat.courses[c].preCourses)
    && !r.stop.DuplicateCourse?
    && (r.stop.Fail? ==> IsReadError(r.stop.error) || r.stop.error.CourseNotExists? || r.stop.error.PreCourseNotExists?)
    && (r.stop.Fail? && (r.stop.error.CourseNotExists? || r.stop.error.PreCourseNotExists?) ==> r.stop.error.code !in cat.courses)
  }

  /** One prerequisite pair either fails and changes nothing or appends one
      code to one declared course's prerequisite list. */
  lemma PreRecordFrame(slice: seq<string>, pos: nat, cat: Catalog)
    ensures var ph := PreRecord(slice, pos, cat);
      PreFrame(cat, ph) && (!ph.stop.Continue? ==> ph.cat == cat)
  {
  }

  /** One pair followed by the rest of the loop keeps the frame. */
  lemma PreFrameCompose(cat: Catalog, ph: Phase, rest: Phase, whole: Phase)
    requires PreFrame(cat, ph)
    requires ph.stop.Continue? ==> PreFrame(ph.cat, rest)
    requires whole == if ph.stop.Continue? then rest else ph
    ensures PreFrame(cat, whole)
  {
    if ph.stop.Continue? {
      forall c | c in cat.courses
        ensures whole.cat.courses[c] == cat.courses[c].(preCourses := whole.cat.courses[c].preCourses)
        ensures cat.courses[c].preCourses <= whole.cat.courses[c].preCourses
      {
        assert c in ph.cat.courses;
      }
    }
  }

  /** The prerequisite loop only extends prerequisite lists; it fails only on
      a read or on a code that is not declared. */
  lemma {:induction false} PreLoopFrame(slice: seq<string>, pos: nat, count: nat, cat: Catalog)
    ensures PreFrame(cat, PreLoop(slice, pos, count, cat))
    decreases count
  {
    if count > 0 {
      var ph := PreRecord(slice, pos, cat);
      var left := count - 1;
      PreRecordFrame(slice, pos, cat);
      if ph.stop.Continue? {
        PreLoopFrame(slice, ph.pos, left, ph.cat);
      }
      PreFrameCompose(cat, ph, PreLoop(slice, ph.pos, left, ph.cat), PreLoop(slice, pos, count, cat));
    }
  }

  /** A prerequisite pair keeps the graph well formed. */
  lemma PreRecordWellFormed(slice: seq<string>, pos: nat, cat: Catalog)
    requires WellFormed(cat)
    ensures WellFormed(PreRecord(slice, pos, cat).cat)
  {
    var c := StringAt(slice, pos);
    var p := StringAt(slice, c.pos);
    if c.err.None? && p.err.None? && c.value in cat.courses && p.value in cat.courses {
      AddPreCourseWellFormed(cat, c.value, p.value);
    }
  }

  /** Every prerequisite edge the loop adds joins two declared courses. */
  lemma {:induction false} PreLoopWellFormed(slice: seq<string>, pos: nat, count: nat, cat: Catalog)
    requires WellFormed(cat)
    ensures WellFormed(PreLoop(slice, pos, count, cat).cat)
    decreases count
  {
    if count > 0 {
      var ph := PreRecord(slice, pos, cat);
      PreRecordWellFormed(slice, pos, cat);
      if ph.stop.Continue? {
        PreLoopWellFormed(slice, ph.pos, count - 1, ph.cat);
      }
    }
  }

  /** What the postrequisite loop promises about the phase `r` it ends in,
      from the catalog `cat` it started on: it rewrites postrequisite lists
      only, and a failure is a read error or names a code that is not
      declared. */
  ghost predicate PostFrame(cat: Catalog, r: Phase) {
    && r.cat.classes == cat.classes
    && r.cat.courses.Keys == cat.courses.Keys
    && (forall c :: c in cat.courses ==>
          r.cat.courses[c] == cat.courses[c].(postCourses := r.cat.courses[c].postCourses))
    && !r.stop.DuplicateCourse?
    && (r.stop.Fail? ==> IsReadError(r.stop.error) || r.stop.error.CourseNotExists? || r.stop.error.PostCourseNotExists?)
    && (r.stop.Fail? && (r.stop.error.CourseNotExists? || r.stop.error.PostCourseNotExists?) ==> r.stop.error.code !in cat.courses)
  }

  /** One postrequisite pair either fails and changes nothing or rewrites
      one declared course's postrequisite list. */
  lemma PostRecordFrame(slice: seq<string>, pos: nat, cat: Catalog)
    ensures var ph := PostRecord(slice, pos, cat);
      PostFrame(cat, ph) && (!ph.stop.Continue? ==> ph.cat == cat)
  {
  }

  /** One pair followed by the rest of the loop keeps the frame. */
  lemma PostFrameCompose(cat: Catalog, ph: Phase, rest: Phase, whole: Phase)
    requires PostFrame(cat, ph)
    requires ph.stop.Continue? ==> PostFrame(ph.cat, rest)
    requires whole == if ph.stop.Continue? then rest else ph
    ensures PostFrame(cat, whole)
  {
    if ph.stop.Continue? {
      forall c | c in cat.courses
        ensures whole.cat.courses[c] == cat.courses[c].(postCourses := whole.cat.courses[c].postCourses)
      {
        assert c in ph.cat.courses;
      }
    }
  }

  /** The postrequisite loop rewrites postrequisite lists only; it fails only
      on a read or on a code that is not declared. */
  lemma {:induction false} PostLoopFrame(slice: seq<string>, pos: nat, count: nat, cat: Catalog)
    ensures PostFrame(cat, PostLoop(slice, pos, count, cat))
    decreases count
  {
    if count > 0 {
      var ph := PostRecord(slice, pos, cat);
      var left := count - 1;
      PostRecordFrame(slice, pos, cat);
      if ph.stop.Continue? {
        PostLoopFrame(slice, ph.pos, left, ph.cat);
      }
      PostFrameCompose(cat, ph, PostLoop(slice, ph.pos, left, ph.cat), PostLoop(slice, pos, count, cat));
    }
  }

  /** A postrequisite pair keeps the graph well formed. */
  lemma PostRecordWellFormed(slice: seq<string>, pos: nat, cat: Catalog)
    requires WellFormed(cat)
    ensures WellFormed(PostRecord(slice, pos, cat).cat)
  {
    var c := StringAt(slice, pos);
    var p := StringAt(slice, c.pos);
    if c.err.None? && p.err.None? && c.value in cat.courses && p.value in cat.courses {
      AddPostCourseWellFormed(cat, c.value, p.value);
    }
  }

  /** Every postrequisite edge the loop writes joins two declared courses. */
  lemma {:induction false} PostLoopWellFormed(slice: seq<string>, pos: nat, count: nat, cat: Catalog)
    requires WellFormed(cat)
    ensures WellFormed(PostLoop(slice, pos, count, cat).cat)
    decreases count
  {
    if count > 0 {
      var ph := PostRecord(slice, pos, cat);
      PostRecordWellFormed(slice, pos, cat);
      if ph.stop.Continue? {
        PostLoopWellFormed(slice, ph.pos, count - 1, ph.cat);
      }
    }
  }

  /** The course loop, started on the empty catalog, yields a well-formed
      graph in which no course is learned. */
  lemma CoursesLoopWellFormed(slice: seq<string>, pos: nat, count: nat)
    ensures WellFormed(CoursesLoop(slice, pos, count, EmptyCatalog).cat)
    ensures NoneLearned(CoursesLoop(slice, pos, count, EmptyCatalog).cat)
  {
    CoursesLoopFacts(slice, pos, count, EmptyCatalog);
  }

  /** The edge loops and the class loop leave every course's `learned` flag alone. */
  lemma LaterLoopsKeepNoneLearned(slice: seq<string>, pos: nat, count: nat, cat: Catalog)
    requires WellFormed(cat) && NoneLearned(cat)
    ensures NoneLearned(ClassesLoop(slice, pos, count, cat).cat)
    ensures NoneLearned(PreLoop(slice, pos, count, cat).cat)
    ensures NoneLearned(PostLoop(slice, pos, count, cat).cat)
  {
    ClassesLoopFrame(slice, pos, count, cat);
    PreLoopFrame(slice, pos, count, cat);
    PostLoopFrame(slice, pos, count, cat);
    var r := ClassesLoop(slice, pos, count, cat).cat;
    forall c | c in r.courses ensures !r.courses[c].learned {
      assert r.courses[c] == cat.courses[c].(classes := r.courses[c].classes);
    }
  }

  lemma SameKeysSameSize(a: map<string, Course>, b: map<string, Course>)
    requires a.Keys == b.Keys
    ensures |a| == |b|
  {
    assert |a| == |a.Keys| && |b| == |b.Keys|;
  }

  /** The course loop fails only on a read. */
  lemma CoursesLoopErrors(slice: seq<string>, pos: nat, count: nat, cat: Catalog)
    ensures var r := CoursesLoop(slice, pos, count, cat);
      r.stop.Fail? ==> IsReadError(r.stop.error)
  {
    CoursesLoopFacts(slice, pos, count, cat);
  }

  /** A stop `r` on a repeat, of loops started at `pos`, comes right after
      the four fields of a record whose code is already declared. */
  ghost predicate RepeatAt(slice: seq<string>, pos: nat, r: Phase) {
    r.stop.DuplicateCourse? ==> pos + 4 <= r.pos <= |slice| && slice[r.pos - 4] in r.cat.courses
  }

  /** The course loop stops on a repeat right after reading the four fields
      of a record whose code is already declared. */
  lemma {:induction false} CoursesLoopDuplicate(slice: seq<string>, pos: nat, count: nat, cat: Catalog)
    ensures RepeatAt(slice, pos, CoursesLoop(slice, pos, count, cat))
    decreases count
  {
    if count > 0 {
      var ph := CourseRecord(slice, pos, cat);
      CourseRecordFacts(slice, pos, cat);
      if ph.stop.Continue? {
        CoursesLoopDuplicate(slice, ph.pos, count - 1, ph.cat);
      }
    }
  }

  /** The graph the record loops leave, even when one of them fails, is well
      formed and has no course learned. */
  lemma RunLoopsWellFormed(slice: seq<string>, pos: nat, a: nat, b: nat, c: nat, d: nat)
    ensures WellFormed(RunLoops(slice, pos, a, b, c, d).cat)
    ensures NoneLearned(RunLoops(slice, pos, a, b, c, d).cat)
  {
    var ph1 := CoursesLoop(slice, pos, a, EmptyCatalog);
    CoursesLoopWellFormed(slice, pos, a);
    var ph2 := ClassesLoop(slice, ph1.pos, b, ph1.cat);
    ClassesLoopWellFormed(slice, ph1.pos, b, ph1.cat);
    LaterLoopsKeepNoneLearned(slice, ph1.pos, b, ph1.cat);
    var ph3 := PreLoop(slice, ph2.pos, c, ph2.cat);
    PreLoopWellFormed(slice, ph2.pos, c, ph2.cat);
    LaterLoopsKeepNoneLearned(slice, ph2.pos, c, ph2.cat);
    PostLoopWellFormed(slice, ph3.pos, d, ph3.cat);
    LaterLoopsKeepNoneLearned(slice, ph3.pos, d, ph3.cat);
  }

  /** Whatever ParseInput returns, even after an error, is a well-formed graph
      with no course learned: names resolve, and the class index and the
      courses' own class maps agree. */
  lemma ParseInputWellFormed(slice: seq<string>, pos: nat)
    ensures WellFormed(ParseInputSpec(slice, pos).cat)
    ensures NoneLearned(ParseInputSpec(slice, pos).cat)
  {
    var courses := UintAt(slice, pos);
    var classes := UintAt(slice, courses.pos);
    var pres := UintAt(slice, classes.pos);
    var posts := UintAt(slice, pres.pos);
    var credits := UintAt(slice, posts.pos);
    var terms := UintAt(slice, credits.pos);
    RunLoopsWellFormed(slice, terms.pos, courses.value, classes.value, pres.value, posts.value);
  }

  /** When the record loops all run their counts down, the course map holds
      exactly `a` courses and the index exactly `b` classes. */
  lemma RunLoopsCounts(slice: seq<string>, pos: nat, a: nat, b: nat, c: nat, d: nat)
    ensures var ph := RunLoops(slice, pos, a, b, c, d);
      ph.stop.Continue? ==> |ph.cat.courses| == a && |ph.cat.classes| == b
  {
    var ph1 := CoursesLoop(slice, pos, a, EmptyCatalog);
    CoursesLoopFacts(slice, pos, a, EmptyCatalog);
    CoursesLoopWellFormed(slice, pos, a);
    var ph2 := ClassesLoop(slice, ph1.pos, b, ph1.cat);
    ClassesLoopFrame(slice, ph1.pos, b, ph1.cat);
    var ph3 := PreLoop(slice, ph2.pos, c, ph2.cat);
    PreLoopFrame(slice, ph2.pos, c, ph2.cat);
    var ph4 := PostLoop(slice, ph3.pos, d, ph3.cat);
    PostLoopFrame(slice, ph3.pos, d, ph3.cat);
    if RunLoops(slice, pos, a, b, c, d).stop.Continue? {
      SameKeysSameSize(ph1.cat.courses, ph2.cat.courses);
      SameKeysSameSize(ph2.cat.courses, ph3.cat.courses);
      SameKeysSameSize(ph3.cat.courses, ph4.cat.courses);
    }
  }

  /** When ParseInput runs to the end, the course map has exactly as many
      courses as the first header count says and the index exactly as many
      classes as the second (each record was new, or the loop would have
      stopped). */
  lemma ParseInputCounts(slice: seq<string>, pos: nat)
    ensures var o := ParseInputSpec(slice, pos);
      o.stop.Continue? ==>
        && |o.cat.courses| == UintAt(slice, pos).value
        && |o.cat.classes| == UintAt(slice, pos + 1).value
  {
    var courses := UintAt(slice, pos);
    var classes := UintAt(slice, courses.pos);
    var pres := UintAt(slice, classes.pos);
    var posts := UintAt(slice, pres.pos);
    var credits := UintAt(slice, posts.pos);
    var terms := UintAt(slice, credits.pos);
    RunLoopsCounts(slice, terms.pos, courses.value, classes.value, pres.value, posts.value);
  }

  /** The loops' errors that name something name it correctly. */
  lemma RunLoopsErrors(slice: seq<string>, pos: nat, a: nat, b: nat, c: nat, d: nat)
    ensures var ph := RunLoops(slice, pos, a, b, c, d);
      && (ph.stop.Fail? && ph.stop.error.CourseNotExists? ==> ph.stop.error.code !in ph.cat.courses)
      && (ph.stop.Fail? && ph.stop.error.PreCourseNotExists? ==> ph.stop.error.code !in ph.cat.courses)
      && (ph.stop.Fail? && ph.stop.error.PostCourseNotExists? ==> ph.stop.error.code !in ph.cat.courses)
      && (ph.stop.Fail? && ph.stop.error.ClassExists? ==> ph.stop.error.key in ph.cat.classes)
  {
    var ph1 := CoursesLoop(slice, pos, a, EmptyCatalog);
    if !ph1.stop.Continue? {
      CoursesLoopErrors(slice, pos, a, EmptyCatalog);
      return;
    }
    var ph2 := ClassesLoop(slice, ph1.pos, b, ph1.cat);
    if !ph2.stop.Continue? {
      ClassesLoopFrame(slice, ph1.pos, b, ph1.cat);
      return;
    }
    var ph3 := PreLoop(slice, ph2.pos, c, ph2.cat);
    if !ph3.stop.Continue? {
      PreLoopFrame(slice, ph2.pos, c, ph2.cat);
      return;
    }
    PostLoopFrame(slice, ph3.pos, d, ph3.cat);
  }

  /** The errors ParseInput reports that name something name it correctly:
      an undeclared course is absent from the returned course map, a
      repeated class key is present in the returned index. */
  lemma ParseInputErrors(slice: seq<string>, pos: nat)
    ensures var o := ParseInputSpec(slice, pos);
      && (o.stop.Fail? && o.stop.error.CourseNotExists? ==> o.stop.error.code !in o.cat.courses)
      && (o.stop.Fail? && o.stop.error.PreCourseNotExists? ==> o.stop.error.code !in o.cat.courses)
      && (o.stop.Fail? && o.stop.error.PostCourseNotExists? ==> o.stop.error.code !in o.cat.courses)
      && (o.stop.Fail? && o.stop.error.ClassExists? ==> o.stop.error.key in o.cat.classes)
  {
    var courses := UintAt(slice, pos);
    var classes := UintAt(slice, courses.pos);
    var pres := UintAt(slice, classes.pos);
    var posts := UintAt(slice, pres.pos);
    var credits := UintAt(slice, posts.pos);
    var terms := UintAt(slice, credits.pos);
    RunLoopsErrors(slice, terms.pos, courses.value, classes.value, pres.value, posts.value);
  }

  /** What a stop on a repeated course code leaves, for loops started at
      `pos`: only the courses declared before it, no class and no edge, and
      the cursor right after a record whose code is already declared. */
  ghost predicate DuplicateBlank(slice: seq<string>, pos: nat, ph: Phase) {
    && (ph.stop.DuplicateCourse? ==>
          && ph.cat.classes == map[]
          && (forall k :: k in ph.cat.courses ==>
                ph.cat.courses[k].preCourses == [] && ph.cat.courses[k].postCourses == []))
    && RepeatAt(slice, pos, ph)
  }

  /** A repeated course code stops the loops with no error, as DuplicateBlank says. */
  lemma RunLoopsDuplicate(slice: seq<string>, pos: nat, a: nat, b: nat, c: nat, d: nat)
    ensures DuplicateBlank(slice, pos, RunLoops(slice, pos, a, b, c, d))
  {
    DuplicateFromCourses(slice, pos, a, b, c, d);
    CoursesLoopBlank(slice, pos, a);
  }

  /** The course loop on the empty catalog stops on a repeat as DuplicateBlank says. */
  lemma CoursesLoopBlank(slice: seq<string>, pos: nat, count: nat)
    ensures DuplicateBlank(slice, pos, CoursesLoop(slice, pos, count, EmptyCatalog))
  {
    CoursesLoopFacts(slice, pos, count, EmptyCatalog);
    CoursesLoopDuplicate(slice, pos, count, EmptyCatalog);
    BlankDuplicate(slice, pos, count, CoursesLoop(slice, pos, count, EmptyCatalog));
  }

  /** A duplicate stop of the course loop run on the empty catalog has no
      class and no edge. */
  lemma BlankDuplicate(slice: seq<string>, pos: nat, count: nat, r: Phase)
    requires CoursesFacts(EmptyCatalog, r, count)
    requires RepeatAt(slice, pos, r)
    ensures DuplicateBlank(slice, pos, r)
  {
    if r.stop.DuplicateCourse? {
      forall k | k in r.cat.courses
        ensures r.cat.courses[k].preCourses == [] && r.cat.courses[k].postCourses == []
      {
        assert Blank(r.cat.courses[k], k);
      }
    }
  }

  /** Only the course loop stops on a repeated course code. */
  lemma DuplicateFromCourses(slice: seq<string>, pos: nat, a: nat, b: nat, c: nat, d: nat)
    ensures var ph := RunLoops(slice, pos, a, b, c, d);
      ph.stop.DuplicateCourse? ==> ph == CoursesLoop(slice, pos, a, EmptyCatalog)
  {
    var ph1 := CoursesLoop(slice, pos, a, EmptyCatalog);
    if !ph1.stop.Continue? { return; }
    var ph2 := ClassesLoop(slice, ph1.pos, b, ph1.cat);
    ClassesLoopFrame(slice, ph1.pos, b, ph1.cat);
    if !ph2.stop.Continue? { return; }
    var ph3 := PreLoop(slice, ph2.pos, c, ph2.cat);
    PreLoopFrame(slice, ph2.pos, c, ph2.cat);
    if !ph3.stop.Continue? { return; }
    PostLoopFrame(slice, ph3.pos, d, ph3.cat);
  }

  /** A repeated course code makes ParseInput return no error, with only the
      courses declared before it, no class and no edge; and a run that
      returns no error either finished or met such a repeat. */
  lemma ParseInputDuplicateCourse(slice: seq<string>, pos: nat)
    ensures var o := ParseInputSpec(slice, pos);
      o.stop.DuplicateCourse? ==>
        && o.cat.classes == map[]
            && (forall k :: k in o.cat.courses ==>
                  o.cat.courses[k].preCourses == [] && o.cat.courses[k].postCourses == [])
            && pos + 10 <= o.pos <= |slice| && slice[o.pos - 4] in o.cat.courses
  {
    var courses := UintAt(slice, pos);
    var classes := UintAt(slice, courses.pos);
    var pres := UintAt(slice, classes.pos);
    var posts := UintAt(slice, pres.pos);
    var credits := UintAt(slice, posts.pos);
    var terms := UintAt(slice, credits.pos);
    RunLoopsDuplicate(slice, terms.pos, courses.value, classes.value, pres.value, posts.value);
  }
}
