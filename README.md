# Course-enrolment judge, modelled in Dafny

The judge takes two whitespace-separated token texts and returns a verdict:
- a course catalog, the "input";
- a multi-term enrolment plan, the "output".

`ParseInput` builds the catalog as a graph:
- courses with a term parity, credits, a weight and a learned flag;
- classes with seven weekday slot masks and a week mask, indexed by the composite key `"course class"`;
- prerequisite and postrequisite edges.

`ParseOutput` replays the plan term by term. The term counter counts down from `termsLimit` to 1. For each term it does four things:
1. It resolves every class the term names.
2. It checks the course's parity against the counter and the learned flag.
3. It accumulates three uint64 counters.
4. It searches the term's classes for the first pair whose masks clash.

Only after all of that does it mark the term's courses learned. `HandleRequest` then maps the two stages to a status:
- 3 for a catalog error;
- 2 for a plan error;
- 1, "accepted", with the counters.

The model follows the code as written, including its odd corners:
- A repeated course code stops `ParseInput` with no error. Only the courses read so far are kept, with no class or edge.
- A postrequisite pair writes onto the *postrequisite* course. Its list becomes the other course's list plus that course.
- An unlearned prerequisite only assigns the error variable; the class loop goes on. Every later read resets that variable. So a prerequisite error reaches the caller only when it is the check of the last class of the last term, and that term has no clashing pair.
- `creditsLimit` is read but never consulted.
- `Learned` is a plain flag.
- The three counters wrap modulo 2^64.

Where the system's written specification disagrees with `main.go`, the model follows `main.go`:
- Duplicate course codes: the specification calls them a fatal error; the code returns no error.
- Credits: the specification describes a per-term credit ceiling; the code has no credit check.
- Learned courses: the specification describes a learned-at-term marker, and a postrequisite counted only when it was learned in the following term. The code keeps a boolean and counts every learned postrequisite.
- Unmet prerequisites: the specification says one stops the plan; in the code it does not.

Its end-to-end example (one term, two courses of parity 0) is refused by the code with a term-parity error. The reason: the single term has counter 1, and `1 & 1` is 1. `Scenario` replays that plan against the catalog the example describes. With parity 1 the plan is accepted with counters (2, 0, 5).

Structure, one module per component:

| module | file | models |
|---|---|---|
| `Errors` | errors.dfy | the error values, one variant per distinct failure |
| `Strings` | strings.dfy | `strings.Fields` |
| `Strconv` | strconv.dfy | `strconv.ParseUint` / `ParseInt`, base 10, 64 bits |
| `TokenReader` | reader.dfy | the `Reader` class: a token list and a mutable cursor |
| `Courses` | courses.dfy | `Course`, `Class`, the composite key, the `Graph` object holding both maps, well-formedness |
| `CatalogBuilder` | catalog_builder.dfy | `ParseInput`: four countdown loops as methods on the graph, each proved against a spec function |
| `PlanValidator` | plan_validator.dfy | `ParseOutput`: the term loop, the class loop, the pair loop and the marking loop, each proved against a spec function |
| `Judge` | judge.dfy | the status selection of `HandleRequest` |
| `Scenario` | scenario.dfy | the one-term example, replayed on a concrete catalog |

Each loop of the source is a `while` loop in a method. The loop invariant ties the remaining computation of a spec function to the current state. The lemmas then prove the source's promises about those spec functions.

Pointers become codes:
- A `Class` stores its course's code.
- Edge lists are sequences of course codes.
- The graph holds every course, so marking a class's course learned is an update of the course map.

## Model

| member | source | states |
|---|---|---|
| Strings.Fields | main.go:21 | every field is non-empty and free of white space |
| Strings.FieldsKeepText | main.go:21 | the fields, concatenated, are exactly the non-space characters of the text, in order |
| Strings.FieldsOfJoin | main.go:21 | splitting tokens written out with blanks between them gives back the same tokens |
| Strconv.ScanDecimal | main.go:36 | the digit scan succeeds exactly for all-digit text whose value fits in uint64, with that value; an all-digit numeral beyond the range overflows |
| Strconv.ParseUint | main.go:36 | no error exactly for a non-empty all-digit numeral ≤ 2^64-1, returning its value; otherwise (0, syntax error) or (2^64-1, range error) on the token |
| Strconv.ParseInt | main.go:27 | no error exactly for an optional sign followed by a non-empty all-digit numeral whose signed value lies in [-2^63, 2^63-1], returning that value (so "-0" is 0); a syntax error, on the whole token, returns 0; an all-digit token beyond the int64 range is a range error returning 2^63-1, or -2^63 when it starts with '-'; any error is one of these two, and the value always lies in the int64 range |
| Strconv.ParseUintOfDecimal | main.go:36 | the numeral of any uint64 value parses back to that value with no error |
| Strconv.ParseIntOfDecimal | main.go:27 | the signed numeral of any int64 value parses back to it with no error |
| Strconv.ParseIntPlusSign | main.go:27 | a leading '+' is accepted and ignored |
| Strconv.ParseIntBareSign | main.go:27 | a lone sign is a syntax error with value 0 |
| TokenReader.StringAt | main.go:43-50 | a failed string read is a read error |
| TokenReader.UintAt | main.go:34-41 | within the tokens: the cursor moves one on and the result is ParseUint of the token, even when that fails; past the end: the out-of-range error with the token count, cursor unchanged; the value never exceeds 2^64-1 |
| TokenReader.IntAt | main.go:25-32 | as UintAt, with ParseInt |
| TokenReader.ReaderCursor | main.go:25-50 | all three reads move the cursor by exactly one while a token is left and not at all past the end, where each reports out of range with the token count |
| TokenReader.Reader.constructor | main.go:19-23 | the reader holds the fields of the text, each a proper token, with the cursor at 0 |
| TokenReader.Reader.GetInt | main.go:25-32 | value, error and new cursor are exactly IntAt at the old cursor |
| TokenReader.Reader.GetUint | main.go:34-41 | value, error and new cursor are exactly UintAt at the old cursor |
| TokenReader.Reader.GetString | main.go:43-50 | value, error and new cursor are exactly StringAt at the old cursor |
| Courses.KeyInjective | main.go:149 | the composite key of space-free codes determines both codes |
| Courses.Graph.constructor | main.go:71-72 | both maps start empty |
| CatalogBuilder.CourseRecord | main.go:98-120 | definition of one course record: code, term, credits and weight are read in order, a failed read stops with its error, a declared code stops with no error, otherwise a blank course is stored under its code |
| CatalogBuilder.CoursesLoop | main.go:97-121 | definition of the course loop: records one after another while the count runs down, up to the first that does not go through |
| CatalogBuilder.ClassRecord | main.go:123-156 | definition of one class record: course code, checked at once against the course map, class code, seven day masks, week mask, then the composite-key check and the filing |
| CatalogBuilder.ClassesLoop | main.go:122-157 | definition of the class loop, as CoursesLoop over class records |
| CatalogBuilder.PreRecord | main.go:159-179 | definition of one prerequisite pair: both codes read, the course checked, then the prerequisite, then the append |
| CatalogBuilder.PreLoop | main.go:158-180 | definition of the prerequisite loop over pairs |
| CatalogBuilder.PostRecord | main.go:182-202 | definition of one postrequisite pair: both codes read, the course checked, then the postrequisite, then the write |
| CatalogBuilder.PostLoop | main.go:181-203 | definition of the postrequisite loop over pairs |
| CatalogBuilder.RunLoops | main.go:97-203 | definition of the four loops in sequence from the empty catalog, each starting only when the previous one ran down |
| CatalogBuilder.ParseInputSpec | main.go:70-205 | definition of ParseInput on a token list: six header counts, any failed header read ending it at once, then RunLoops |
| CatalogBuilder.ReadTimes | main.go:139-144 | a time table that reads through has seven masks; a failure is a read error |
| CatalogBuilder.ReadTimesMeans | main.go:139-144 | the time-table read keeps the days already read and appends, one per day, the value of each next token; it has seven days and reads 7 - \|acc\| tokens exactly when no read fails; a failure stops at the first token that does not parse or is missing, with that read's error and cursor |
| CatalogBuilder.AddPreCourse | main.go:178 | the course's prerequisite list gains the prerequisite at its end; no other course changes |
| CatalogBuilder.AddPostCourse | main.go:201 | the postrequisite course's list becomes the source course's list plus the source course; the source course is unchanged unless both are the same course; no other course changes |
| CatalogBuilder.ReadCourses | main.go:97-121 | the course-record loop leaves the graph, cursor and stop reason given by its spec function |
| CatalogBuilder.ReadClasses | main.go:122-157 | the class-record loop leaves the graph, cursor and stop reason given by its spec function |
| CatalogBuilder.ReadClass | main.go:123-156 | one record, then the rest of the loop, is the whole remaining loop |
| CatalogBuilder.ReadTimeTable | main.go:139-144 | the seven-day loop returns what its spec function reads |
| CatalogBuilder.ReadPreCourses | main.go:158-180 | the prerequisite-pair loop matches its spec function |
| CatalogBuilder.ReadPostCourses | main.go:181-203 | the postrequisite-pair loop matches its spec function |
| CatalogBuilder.ParseInput | main.go:70-205 | the graph, the two limits, the error and the cursor are those of ParseInputSpec on the reader's tokens |
| CatalogBuilder.CoursesLoopFacts | main.go:97-121 | the course loop keeps every course and the class index; each course it adds is stored under its own code, unlearned, with no class or edge; a full run adds exactly `count` courses, and a failure is a read error |
| CatalogBuilder.AddClassWellFormed | main.go:149-155 | filing a class under its fresh composite key keeps the graph well formed |
| CatalogBuilder.AddClassFrame | main.go:154-155 | filing a class changes only the owning course's class map, keeps every indexed class, and grows the index by one |
| CatalogBuilder.ClassRecordAdds | main.go:123-155 | a record that goes through named a declared course and an unused key, read seven masks, and filed exactly the class it read |
| CatalogBuilder.ClassRecordTokens | main.go:123-155 | a record that goes through spans ten tokens: the class filed under the key of the first two has those codes, the next seven token values as day masks and the tenth token's value as week mask |
| CatalogBuilder.ClassRecordVerdict | main.go:123-156 | a failed read stops the record with that read's error; an undeclared course code stops it with CourseNotExists right after that code is read; a composite key already indexed stops it with ClassExists after the whole record; it goes through exactly when all reads succeed, the course is declared and the key is fresh; a failure leaves the catalog unchanged |
| CatalogBuilder.ClassRecordFrame | main.go:123-156 | a failing record changes nothing and names an undeclared course, a used key, or a read error |
| CatalogBuilder.ClassRecordWellFormed | main.go:123-156 | a class record keeps the graph well formed |
| CatalogBuilder.ClassesLoopFrame | main.go:122-157 | the class loop never replaces an indexed class, touches courses only in their class maps, adds exactly `count` classes when it runs down, and its errors name an undeclared course or an indexed key |
| CatalogBuilder.ClassesLoopWellFormed | main.go:122-157 | the class loop keeps the graph well formed |
| CatalogBuilder.AddPreCourseWellFormed | main.go:168-178 | a prerequisite edge between declared courses keeps the graph well formed |
| CatalogBuilder.AddPostCourseWellFormed | main.go:191-201 | a postrequisite write between declared courses keeps the graph well formed |
| CatalogBuilder.PreLoopFrame | main.go:158-180 | the prerequisite loop only extends prerequisite lists; it fails only on a read or on an undeclared code, which it names |
| CatalogBuilder.PreLoopWellFormed | main.go:158-180 | the prerequisite loop keeps the graph well formed |
| CatalogBuilder.PreRecordVerdict | main.go:159-179 | a failed read stops the pair with its error; an undeclared course code gives CourseNotExists; a declared course with an undeclared prerequisite gives PreCourseNotExists; two declared codes append the prerequisite to the course's list; a failure leaves the catalog unchanged |
| CatalogBuilder.PreLoopGoesThrough | main.go:158-180 | the prerequisite loop ends without error exactly when all its pairs are present and every code in them is declared, and then it has read two tokens per pair; any undeclared code stops it |
| CatalogBuilder.PostLoopFrame | main.go:181-203 | the postrequisite loop rewrites only postrequisite lists; it fails only on a read or on an undeclared code, which it names |
| CatalogBuilder.PostLoopWellFormed | main.go:181-203 | the postrequisite loop keeps the graph well formed |
| CatalogBuilder.PostRecordVerdict | main.go:182-202 | a failed read stops the pair with its error; an undeclared course code gives CourseNotExists; a declared course with an undeclared postrequisite gives PostCourseNotExists; two declared codes rewrite the postrequisite course's list; a failure leaves the catalog unchanged |
| CatalogBuilder.PostLoopGoesThrough | main.go:181-203 | the postrequisite loop ends without error exactly when all its pairs are present and every code in them is declared, and then it has read two tokens per pair; any undeclared code stops it |
| CatalogBuilder.CoursesLoopWellFormed | main.go:97-121 | from the empty graph the course loop yields a well-formed graph with no course learned |
| CatalogBuilder.LaterLoopsKeepNoneLearned | main.go:122-203 | the class and edge loops never set a learned flag |
| CatalogBuilder.CoursesLoopErrors | main.go:97-114 | the course loop fails only on a read |
| CatalogBuilder.CoursesLoopDuplicate | main.go:115-117 | a repeat stops the loop right after the four fields of a record whose code is already declared |
| CatalogBuilder.ParseInputWellFormed | main.go:70-205 | whatever ParseInput returns, even after an error, is well formed: each class is under its own composite key, its course is declared and lists that same class; every edge resolves; no course is learned |
| CatalogBuilder.ParseInputCounts | main.go:73-157 | a full run holds exactly as many courses and classes as the first two header counts say |
| CatalogBuilder.ParseInputErrors | main.go:129-199 | an unknown-course error names a code absent from the course map; a repeated-class error names a key present in the index; that such a code or key does cause the error is stated by the record verdicts and GoesThrough lemmas |
| CatalogBuilder.ParseInputDuplicateCourse | main.go:115-117 | after a repeated course code the index is empty and no course has an edge; the cursor lies at least ten tokens in, just past a record whose code is already declared |
| PlanValidator.Wrap | main.go:254-268 | uint64 arithmetic: a value within range is itself |
| PlanValidator.Inc | main.go:264-268 | `++` on a uint64 adds one and wraps to 0 past 2^64-1 |
| PlanValidator.PreCheck | main.go:257-261 | definition of the prerequisite scan: the error of the last unlearned prerequisite in list order, none if all are learned |
| PlanValidator.Overlap | main.go:275-277 | definition of the mask test, bit by bit from the lowest: the two masks have a set bit in common |
| PlanValidator.DayOverlap | main.go:276-277 | definition of the weekday loop: some day from k on has overlapping slot masks |
| PlanValidator.Conflicts | main.go:275-286 | definition of a clash: the week masks overlap and so do the slot masks of some weekday |
| PlanValidator.FirstConflict | main.go:271-288 | definition of the pair scan: the first clashing pair i < j in loop order, if any |
| PlanValidator.Admit | main.go:254-268 | definition of the counter updates for an admitted class: weight when positive, learned postrequisites, one compulsory class, each modulo 2^64 |
| PlanValidator.PlanClass | main.go:230-269 | definition of one class record of a term: two codes, key lookup, parity, learned flag, then admission with the prerequisite check pending |
| PlanValidator.TermClasses | main.go:229-270 | definition of a term's class loop: class records while the count runs down, up to the first that halts |
| PlanValidator.PlayTerms | main.go:222-293 | definition of the term loop: terms while the counter runs down, the plan ending at the first term that stops, otherwise with the last pending error |
| PlanValidator.ParseOutputSpec | main.go:213-295 | definition of ParseOutput on a token list: PlayTerms from the first token with zero counters |
| PlanValidator.PreCheckPasses | main.go:257-261 | the prerequisite scan reports nothing exactly when every prerequisite is learned |
| PlanValidator.PreCheckLast | main.go:257-261 | a failing prerequisite scan names the last unlearned prerequisite in list order |
| PlanValidator.CountLearned | main.go:262-266 | at most one count per listed postrequisite |
| PlanValidator.CountLearnedExtremes | main.go:262-266 | the count is 0 exactly when no listed postrequisite is learned, and the list length exactly when all are |
| PlanValidator.DayOverlapMeans | main.go:276-277 | the weekday loop finds a clash exactly when some remaining weekday's slot masks overlap |
| PlanValidator.OverlapSymmetric | main.go:275 | mask overlap is symmetric |
| PlanValidator.OverlapHasCommonBit | main.go:275-277 | `a & b != 0` exactly when the masks share a set bit |
| PlanValidator.ConflictsSymmetric | main.go:275-277 | the clash test is symmetric |
| PlanValidator.ConflictsMeans | main.go:275-277 | two classes clash exactly when their week masks share a bit and, on some weekday, their slot masks share a bit |
| PlanValidator.ScanPairs | main.go:271-288 | a pair the scan reports lies ahead of the starting pair, in range, and clashes |
| PlanValidator.ScanPairsSkips | main.go:271-288 | every pair the scan passes before its report, or every remaining pair when it reports none, does not clash |
| PlanValidator.FirstConflictIsFirst | main.go:271-288 | no pair is reported exactly when no two classes clash; a reported pair (i, j), i < j, clashes and every pair before it in loop order does not |
| PlanValidator.MarkLearned | main.go:289-291 | marking sets learned exactly on the courses of the given classes, keeps every other flag and field, and keeps the index |
| PlanValidator.MarkLearnedWellFormed | main.go:289-291 | marking keeps the graph well formed and its edges resolved |
| PlanValidator.PlayTerm | main.go:222-293 | a term that goes through leaves a graph whose pointers still resolve |
| PlanValidator.PlanClassVerdict | main.go:230-267 | a class record is admitted exactly when both codes read, the key is indexed, the course has the term's parity and is unlearned; an unindexed key, a wrong parity and a learned course each fail with their own error, in that order; an admitted class is appended, with its course's prerequisite check pending |
| PlanValidator.RetakeRejected | main.go:246-291 | after a term's courses are marked, any later record naming a class of one of them fails, for parity or as already learned |
| PlanValidator.TermClassesWent | main.go:229-270 | a class loop that runs down admitted exactly `count` classes, each of the term's parity and unlearned; it read two tokens per class, counted each class once modulo 2^64, and carries out the prerequisite check of the last class admitted |
| PlanValidator.TermClassesErrors | main.go:229-270 | a class loop that stops carries a read or class error, never the prerequisite error |
| PlanValidator.PlayTermStop | main.go:222-288 | a term that stops leaves every learned flag alone, and its error is never the prerequisite error |
| PlanValidator.MarkLearnedOnly | main.go:289-291 | marking changes learned flags only, and only from false to true |
| PlanValidator.PlayTermCases | main.go:224-291 | a term goes through exactly when its count reads, its class loop runs down and no pair clashes; it then marks exactly those classes' courses |
| PlanValidator.PlayTermNext | main.go:222-292 | a term with `n` classes that goes through moves the cursor 1 + 2n tokens, adds n to the compulsory counter modulo 2^64, and changes learned flags only |
| PlanValidator.PlayTermMeans | main.go:222-292 | a term that goes through admitted classes `cs` of its parity, none learned before and no two clashing; it marks exactly their courses, moves the cursor 1 + 2·\|cs\| tokens, and leaves as pending error the prerequisite check of the last of them (none for an empty term) |
| PlanValidator.PlayTermsLearnedOnly | main.go:213-295 | ParseOutput changes nothing in the graph except learned flags, which only go from false to true |
| PlanValidator.PlayTermsCompleted | main.go:222-293 | a replay that ends with no error, or with only the pending prerequisite error, ran through all `t` terms: it read t + 2n tokens for its n classes and its compulsory count grew by n modulo 2^64 |
| PlanValidator.CheckPreCourses | main.go:257-261 | the prerequisite loop returns PreCheck |
| PlanValidator.CountLearnedPosts | main.go:262-266 | the postrequisite loop adds the number of learned postrequisites to the counter, modulo 2^64 |
| PlanValidator.CheckConflict | main.go:275-286 | the week test plus the weekday loop decide Conflicts |
| PlanValidator.FindConflict | main.go:271-288 | the double loop over pairs returns FirstConflict |
| PlanValidator.MarkTerm | main.go:289-291 | the marking loop leaves the graph MarkLearned of the old graph |
| PlanValidator.ReadPlanClass | main.go:230-268 | one class record of the loop leaves the state PlanClass gives |
| PlanValidator.AdmitClass | main.go:254-268 | an admitted class's counters and pending error: the weight, when positive, the learned-postrequisite count and one compulsory class, each modulo 2^64; the error is the prerequisite check |
| PlanValidator.ReadTermClasses | main.go:229-270 | the class loop of one term leaves the state TermClasses gives |
| PlanValidator.ReadTerm | main.go:223-292 | one pass of the term loop matches PlayTerm |
| PlanValidator.ParseOutput | main.go:213-295 | the counters, the error, the final graph and the cursor are those of PlayTerms from the graph ParseInput left, with zeroed counters and no error |
| Judge.Catalogue | main.go:417-419 | the graph ParseInput builds from the input text is well formed, resolved and has nothing learned |
| Judge.Replay | main.go:426 | definition of the replay: ParseOutput on the output tokens against the catalogue of the input |
| Judge.JudgeSpec | main.go:419-440 | the status is 1, 2 or 3; it is 3 exactly when ParseInput fails, and the comment is that error; it is 2 exactly when ParseInput succeeds and ParseOutput fails, and the comment is that error; it is 1 exactly when the comment is "accepted", and then the counters are ParseOutput's; otherwise the counters are zero |
| Judge.JudgeCompleted | main.go:222-293 | a replay ending without error, or with only the pending prerequisite error, read one count token per term and two tokens per class, and its compulsory count is the number of classes modulo 2^64 |
| Judge.JudgeKeepsCatalog | main.go:426 | replaying the plan leaves the catalog's index and courses as built, except for learned flags |
| Judge.HandleRequest | main.go:417-440 | two readers, ParseInput, then ParseOutput on the graph it built: the verdict is JudgeSpec of the two texts |
| Scenario.EvenRefused | main.go:222-249 | the one-term plan taking a parity-0 course fails with the term error naming that course |
| Scenario.OddClassesAdmitted | main.go:229-270 | with parity-1 courses the term's class loop admits both classes in order, counting 2 compulsory classes and the weight 5 |
| Scenario.NoClash | main.go:271-288 | two classes on different slots of the same day and week do not clash |
| Scenario.OddAccepted | main.go:213-295 | the parity-1 replay ends with no error, counters (2, 0, 5) and all five plan tokens read |

## Left out

- HTTP transport is not modelled (main.go:297-415). This covers the trigger event, base64 and JSON decoding of the request body, and the response structures. The texts reach `HandleRequest` already decoded.
- The response helpers are not modelled (main.go:339-389). That covers `Ok`, `BadRequest` and `InternalServerError`, which write through a nil result. The verdict is returned as a value.
- `fc.Start` is not modelled (main.go:443-445), nor the `fmt.Println` log line (main.go:428). Both are process and console I/O.
- Error message text is not modelled. Each `fmt.Errorf` and strconv error is a variant of `Error` that carries the codes, key or token it names.
- `strings.Fields` splits on the `unicode.IsSpace` set over Unicode characters. Invalid UTF-8 in the texts is not modelled.
- Slice aliasing is not modelled for the `append` at main.go:201. Edge lists are values, so a later append to one course's list never shows through another course's list that shares its backing array.
- Pointers are not modelled. Classes refer to courses by code, and the `course == nil` checks cannot fire, because the maps never hold nil.
- `termsLimit&1` is `t % 2`, and `&` on masks is "share a set bit". These agree with Go's operators on unsigned values.
- `creditsLimit` is passed to `ParseOutput` and never read, as in the source. There is no credit check.
- `JudgeResult.Status` is a `nat` that holds only 1, 2 or 3.
- `Scenario` starts from the catalog value that its example's input text describes. Parsing that text is not carried out on the concrete tokens.
- PlayTermsCompleted: states the whole-plan compulsory count only. The optional score and the postrequisite count are stated per admitted class (`Admit`, `AdmitClass`) and not summed over the plan.
- PlayTermMeans: does not state the compulsory counter. PlayTermNext states it for the same term.
- ParseInputErrors: states which code or key an error names. That an undeclared code or an indexed key causes the error is stated one record at a time (ClassRecordVerdict, PreRecordVerdict, PostRecordVerdict) and, for the edge loops, over the whole loop (PreLoopGoesThrough, PostLoopGoesThrough); for the class loop it is not restated over the whole input.
