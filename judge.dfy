/** The judge's verdict for one request: the course catalog is built from the
    input text, the student's plan is replayed from the output text, and the
    outcome becomes a status with the three counters and a comment. */
module Judge {
  import opened Errors
  import opened Strings
  import opened Strconv
  import opened TokenReader
  import opened Courses
  import opened CatalogBuilder
  import opened PlanValidator

  /** The comment of a verdict: "accepted", or the text of the error that
      decided it (the error itself stands for its text here). */
  datatype Comment = Accepted | Reason(error: Error)

  /** `JudgeResult`: the counters are zero unless the plan was accepted. */
  datatype JudgeResult = JudgeResult(
    compulsoryCount: Uint64,
    postCoursesCount: Uint64,
    optionalScore: Uint64,
    status: nat,
    comment: Comment)

  const InputError: nat := 3
  const OutputError: nat := 2
  const AcceptedStatus: nat := 1

  /** The graph and limits ParseInput builds from the input text. */
  function Catalogue(inputData: string): (p: Parsed)
    ensures WellFormed(p.cat) && Resolved(p.cat) && NoneLearned(p.cat)
  {
    var p := ParseInputSpec(Fields(inputData), 0);
    ParseInputWellFormed(Fields(inputData), 0);
    WellFormedResolved(p.cat);
    p
  }

  /** How the plan in the output text replays against that graph. */
  function Replay(inputData: string, outputData: string): Outcome {
    var p := Catalogue(inputData);
    ParseOutputSpec(Fields(outputData), p.cat, p.termsLimit)
  }

  /** The verdict HandleRequest reports for the two texts. An input error
      decides status 3 before the plan is looked at; an error from the replay
      (a read error, a class error, a conflict, or a prerequisite error left
      pending by the last class read) gives status 2; otherwise the plan is
      accepted with the replay's counters. */
  function JudgeSpec(inputData: string, outputData: string): (j: JudgeResult)
    ensures j.status in {AcceptedStatus, OutputError, InputError}
    ensures j.status == InputError <==> ErrorOf(Catalogue(inputData).stop).Some?
    ensures j.status == OutputError <==>
              ErrorOf(Catalogue(inputData).stop).None? && Replay(inputData, outputData).err.Some?
    ensures j.status == AcceptedStatus <==> j.comment == Accepted
    ensures j.status == InputError ==> j.comment == Reason(ErrorOf(Catalogue(inputData).stop).value)
    ensures j.status == OutputError ==> j.comment == Reason(Replay(inputData, outputData).err.value)
    ensures j.status != AcceptedStatus ==>
              j.compulsoryCount == 0 && j.postCoursesCount == 0 && j.optionalScore == 0
    ensures j.status == AcceptedStatus ==>
              var res := Replay(inputData, outputData).res;
              j.compulsoryCount == res.compulsoryCount && j.postCoursesCount == res.postCoursesCount
              && j.optionalScore == res.optionalScore
  {
    var p := Catalogue(inputData);
    var e := ErrorOf(p.stop);
    if e.Some? then JudgeResult(0, 0, 0, InputError, Reason(e.value)) else
    var o := Replay(inputData, outputData);
    if o.err.Some? then JudgeResult(0, 0, 0, OutputError, Reason(o.err.value))
    else JudgeResult(o.res.compulsoryCount, o.res.postCoursesCount, o.res.optionalScore, AcceptedStatus, Accepted)
  }

  /** A replay that ends with no error, or only with the prerequisite error
      its last class left pending, read every term: one class-count token
      per term and two tokens per class, `n` classes in all; its compulsory
      count is `n` modulo 2^64. */
  lemma JudgeCompleted(inputData: string, outputData: string) returns (n: nat)
    ensures var o := Replay(inputData, outputData);
      (o.err.None? || o.err.value.PreCourseNotLearned?) ==>
        && o.pos == Catalogue(inputData).termsLimit + 2 * n
        && o.res.compulsoryCount == Wrap(n)
  {
    var p := Catalogue(inputData);
    n := PlayTermsCompleted(Fields(outputData), 0, p.termsLimit, p.cat, NoCounters, None);
    CompletedFromStart(Replay(inputData, outputData), p.termsLimit, n);
  }

  /** A replay that started at the first token with zeroed counters. */
  lemma CompletedFromStart(o: Outcome, t: nat, n: nat)
    requires Completed(o, 0, t, NoCounters, n)
    ensures (o.err.None? || o.err.value.PreCourseNotLearned?) ==>
              o.pos == t + 2 * n && o.res.compulsoryCount == Wrap(n)
  {
  }

  /** Replaying a plan changes only learned flags: the catalog the replay
      ends with has the input's class index and the same courses. */
  lemma JudgeKeepsCatalog(inputData: string, outputData: string)
    ensures LearnedOnly(Catalogue(inputData).cat, Replay(inputData, outputData).cat)
  {
    var p := Catalogue(inputData);
    PlayTermsLearnedOnly(Fields(outputData), 0, p.termsLimit, p.cat, NoCounters, None);
  }

  /** HandleRequest from the decoded request body on: two readers, ParseInput
      on the input, ParseOutput on the output with the graph it built. */
  method HandleRequest(inputData: string, outputData: string) returns (j: JudgeResult)
    ensures j == JudgeSpec(inputData, outputData)
  {
    var inputReader := new Reader(inputData);
    var outputReader := new Reader(outputData);
    var g, creditsLimit, termsLimit, err := ParseInput(inputReader);
    if err.Some? {
      return JudgeResult(0, 0, 0, InputError, Reason(err.value));
    }
    // The graph ParseInput left is the well-formed catalogue of the input.
    ghost var p := Catalogue(inputData);
    var res, outErr := ParseOutput(outputReader, g, creditsLimit, termsLimit);
    if outErr.Some? {
      return JudgeResult(0, 0, 0, OutputError, Reason(outErr.value));
    }
    j := JudgeResult(res.compulsoryCount, res.postCoursesCount, res.optionalScore, AcceptedStatus, Accepted);
  }
}
