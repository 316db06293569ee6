/** Shared result plumbing: Go's `error` values become an `Option<Error>`,
    one variant per distinct failure the judge can report. The exact
    message text of `fmt.Errorf` is not modelled, only what each message
    names. */
module Errors {

  datatype Option<+T> = None | Some(value: T)

  datatype Error =
    /** "reader out of range: %d", carrying the number of tokens */
    | OutOfRange(length: nat)
    /** strconv.ErrSyntax for the token `num` */
    | SyntaxError(num: string)
    /** strconv.ErrRange for the token `num` */
    | RangeError(num: string)
    /** a class or an edge names a course that was never declared */
    | CourseNotExists(code: string)
    | PreCourseNotExists(code: string)
    | PostCourseNotExists(code: string)
    /** a composite class key "course class" declared twice */
    | ClassExists(key: string)
    /** the plan names a composite class key the catalog lacks */
    | ClassNotExists(key: string)
    | TermIncorrect(courseCode: string)
    | AlreadyLearned(courseCode: string)
    | PreCourseNotLearned(code: string)
    | ClassesConflict(courseX: string, classX: string, courseY: string, classY: string)

  /** The failures a read of the token cursor itself can report. */
  predicate IsReadError(e: Error) {
    e.OutOfRange? || e.SyntaxError? || e.RangeError?
  }
}
