# learncoding: verified model of the evaluator, the storage facade and the lesson viewer

This project models the sequential logic of a small Python-learning web application in Dafny and proves
properties of that logic. There are four parts.

- **The mock code evaluator** behind `POST /api/execute-python` (`Evaluator.dfy`). No Python is run.
  - Each lesson type (`variables`, `functions`, `conditionals`, `loops`, `lists`) has a chain of substring tests with canned answers.
  - Every other type takes a default branch. That branch echoes the argument of the first `print(...)` on one line, with its quotes removed.
  - The model is one function with the handler's exact branch order, constants and fall-throughs.
  - Its partner is a reference rule table (`RuleFor`, `TableEvaluate`) and a lemma that the two agree.
  - The regular expression `/print\((.*?)\)/` is stated by its meaning (`IsMatch`, the leftmost match), and the extraction is proved to find exactly that match.
- **The storage facade** `DatabaseStorage` (`Schema.dfy`, `Storage.dfy`, `Query.dfy`).
  - It is a class over in-memory tables: one `seq` of rows per table and one counter per serial id.
  - `updateProgress` (keyed on user and chapter) and `upsertUser` (keyed on id) are specified by functions on the table contents. Lemmas state the key invariants they keep.
  - The appending methods state the row they add and the new counter. They append with no duplicate check.
  - Each `references(...)` column of shared/schema.ts is a foreign key. A write whose key names no parent row is refused and returns `None`, and the invariant `RefsValid` says every stored key names an existing row.
  - The queries are filter-then-sort. Each is specified by the multiset of rows it returns and by its ordering.
- **The code editor** (`CodeEditor.dfy`).
  - The Tab key splices four spaces over the selection and puts the cursor after them.
  - The gutter shows one number per `split('\n')` piece.
- **The lesson viewer page** (`PythonLessons.dfy`).
  - The page state (lesson index, editor code, selected answer, hint and completion flags) is a class. Its handlers are methods.
  - The requests the page would post (lesson completion, run code) are returned values.
  - JavaScript `parseInt` and `Number.prototype.toString` are modelled, so that quiz grading can be proved.

Shared pieces: `Wrappers.dfy` (an `Option` type) and `Text.dfy` (substring containment and character counts).

Behaviour of note, as the code has it:
- Some evaluator branches assign nothing. They answer the initial `output = ""`, `success = true`:
  - `functions` with `def ` and `return` but no `def greet(`;
  - `loops` with `for ` but no `range(`;
  - `lists` with `[` but not both `]` and `append`.
- An output that echoes `print(Error: x)` succeeds, even though it starts with `Error: `.
- `getUserProgress` and `getUserQuizAttempts` test the optional id by truthiness, so an id of `0` means "no filter".
- `updateProgress` looks a row up by `chapterId = progress.chapterId`. When the request has no chapter id, the comparison is with NULL and matches nothing, so a new row is inserted every time.
  - An update that leaves `completed` out keeps the stored `completed` but clears `completedAt`.
- `submitQuizAttempt` stores whatever `isCorrect` the client sent. The server route does not compare the answer with the quiz (server/routes.ts:197-201).
- `issueCertificate` appends without checking for an existing certificate of the same user and course.
- A refused insert still uses up its serial id, since PostgreSQL does not roll a sequence back. A refused update of an existing progress row uses none.

## Model

| member | source | states |
|---|---|---|
| Evaluator.Evaluate | server/routes.ts:234-310 | a failed answer always has an output starting with `Error: ` and an empty explanation; every lesson type outside the five named ones succeeds with an empty explanation and a quote-free output |
| Evaluator.VariablesRules | server/routes.ts:243-256 | success iff the code holds `name = "`, `age = ` and `print(`, with the canned output and explanation; otherwise the error names the first missing item in the order name, age, print |
| Evaluator.DefGreetHasDef | server/routes.ts:258-261 | code holding `def greet(` holds `def `, so the missing-`def` error cannot follow a `def greet(` |
| Evaluator.FunctionsRules | server/routes.ts:238-267 | success with non-empty output iff the code holds `def greet(` and `return`; no `def ` gives the define-a-function error; `def ` without `return` gives the return error; `def ` and `return` without `def greet(` leaves the initial empty, successful answer |
| Evaluator.ConditionalsRules | server/routes.ts:268-278 | success iff the code holds `if ` and `else`; otherwise the error names `if` when there is no `if `, else the missing `else` |
| Evaluator.LoopsRules | server/routes.ts:279-286 | success iff the code holds `for `; with `range(` the canned loop output; no `for ` gives the for-loop error; `for ` without `range(` leaves the initial empty, successful answer |
| Evaluator.ListsRules | server/routes.ts:287-294 | success iff the code holds `[`; with `]` and `append` the canned list output; no `[` gives the bracket error; otherwise the initial empty, successful answer |
| Evaluator.GeneralRules | server/routes.ts:295-308 | the default branch always succeeds with an empty explanation; no `print(` gives the fixed "Code executed successfully" message; `print(` but no match gives `Hello, World!`; otherwise the output is the leftmost match's argument with its quotes removed |
| Evaluator.OtherTypesAreGeneral | server/routes.ts:243-295 | branch selection is exact string equality: every type other than the five behaves exactly as `general` |
| Evaluator.ExpectedOutputIgnored | server/routes.ts:236-308 | `expectedOutput` never affects the answer |
| Evaluator.RuleFor | server/routes.ts:243-294 | the reference table has a rule exactly for the five named lesson types |
| Evaluator.EvaluateFollowsTable | server/routes.ts:243-308 | the handler's chain equals the table reading: all required substrings give the canned answer, otherwise the first failing check's error, otherwise the initial answer |
| Evaluator.CloseParen | server/routes.ts:299 | finds the first `)` after the argument start, and finds none iff a line terminator or the end comes first |
| Evaluator.FindPrintCall | server/routes.ts:299 | returns the leftmost `print(` that has a closing `)` on the same line, with that `)`; `None` iff there is no such match |
| Evaluator.MatchEndUnique | server/routes.ts:299 | a match start determines its end: the lazy group stops at the first `)` |
| Evaluator.StripQuotes | server/routes.ts:301 | the result holds no `'` or `"`, holds only characters of its input, and is no longer than it |
| Evaluator.StripQuotesConcat | server/routes.ts:301 | removing quotes distributes over concatenation |
| Evaluator.StripQuotesKeepsQuoteFree | server/routes.ts:301 | text without quotes is left unchanged |
| Evaluator.StripQuotesIdempotent | server/routes.ts:301 | removing quotes twice is removing them once |
| Evaluator.GeneralOutput | server/routes.ts:297-307 | every output of the default branch is quote-free |
| Evaluator.NoPrintMessageQuoteFree | server/routes.ts:306 | the fixed no-print message holds no quote character |
| CodeEditor.Substring | client/src/components/CodeEditor.tsx:37 | JavaScript `substring`: for in-range bounds the slice between them, in either argument order, never longer than the string |
| CodeEditor.HandleKeyDown | client/src/components/CodeEditor.tsx:32-47 | every key other than Tab changes nothing; Tab puts the cursor at `start + 4` |
| CodeEditor.TabSplice | client/src/components/CodeEditor.tsx:33-44 | for a selection `start <= end` within the value, the new value is `value[..start] + "    " + value[end..]`, whose length is the old length minus `end - start` plus 4; the prefix is kept, the four spaces sit at `[start, start + 4)`, the suffix moves by `4 - (end - start)`, and the cursor lies within the new value |
| CodeEditor.Split | client/src/components/CodeEditor.tsx:64 | `split('\n')` gives at least one piece, none holding a line break |
| CodeEditor.JoinSplit | client/src/components/CodeEditor.tsx:64 | joining the pieces with `'\n'` gives the value back |
| CodeEditor.SplitCount | client/src/components/CodeEditor.tsx:64 | there is one more piece than there are `'\n'` |
| CodeEditor.LineNumbers | client/src/components/CodeEditor.tsx:64-68 | the gutter shows `1, 2, …`, one number per line: the count of `'\n'` plus one |
| CodeEditor.TabLineNumbers | client/src/components/CodeEditor.tsx:32-68 | Tab removes from the gutter exactly the line breaks the selection held |
| Query.Filter | server/storage.ts:92 | `where`: each row occurs in the result as often as in the table if it passes the condition, and not at all otherwise |
| Query.SortBy | server/storage.ts:88 | `orderBy`: the result is a permutation of the input, in non-decreasing key order |
| Storage.IdFilter | server/storage.ts:126 | an optional id filters iff it is present and non-zero (JavaScript truthiness) |
| Storage.UserIndex | server/storage.ts:66-68 | the first row with the id, or none iff no row has it |
| Storage.UpsertUserKeepsKeys | server/storage.ts:71-84 | an accepted upsert keeps ids and non-null emails unique; afterwards exactly one user has the id, carries every field the input gives, and has `updatedAt` set to now |
| Storage.UpsertUserRow | server/storage.ts:71-84 | an existing user keeps its `createdAt` and every field the input leaves out (email, first and last name, profile image URL, `xp`, `level`, `streakDays`), and no other row changes; a new user is appended with `createdAt` now and the column defaults for `xp`, `level` and `streakDays` |
| Storage.UpsertUserKeepsUserIds | server/storage.ts:71-84 | an upsert removes no user id and leaves the input's id in the table, so rows that reference users stay valid |
| Storage.ProgressIndex | server/storage.ts:142-150 | the first row with the caller's user id and the request's chapter id; an absent chapter id matches no row |
| Storage.UpsertProgressShape | server/storage.ts:141-166 | with a matching row, the first one is overwritten in place, keeping its id and `createdAt`, and the row count is unchanged; otherwise exactly one row with the next serial id is appended; no other row changes |
| Storage.WrittenProgressFields | server/storage.ts:155-162 | the written row belongs to the caller and the requested chapter, and to the requested course when the request names one; its `completedAt` is set (to now) iff the request says `completed: true`, so `completed: false` clears it |
| Storage.UpsertProgressKeepsKeysUnique | server/storage.ts:141-166 | if at most one row existed per (user, chapter), that still holds afterwards |
| Storage.RepeatedUpsertProgress | server/storage.ts:141-166 | a second call for the same user and chapter adds no row |
| Storage.Storage.constructor | server/storage.ts:220 | the facade starts with empty tables and every serial sequence at 1 |
| Storage.Storage.GetUser | server/storage.ts:66-69 | a user with the id from the table, or none iff no user has it |
| Storage.Storage.UpsertUser | server/storage.ts:71-84 | the table becomes the upsert of the input; the returned user is the one `getUser` then finds and carries the input's fields; a write that would duplicate an email is refused and changes nothing |
| Storage.Storage.GetCourses | server/storage.ts:87-89 | every course, each as often as stored, ordered by title |
| Storage.Storage.GetCoursesByTrack | server/storage.ts:91-93 | exactly the courses on the track, ordered by title |
| Storage.Storage.GetCourse | server/storage.ts:95-98 | a course with the id from the table, or none iff no course has it |
| Storage.Storage.CreateCourse | server/storage.ts:100-103 | appends the course with the next serial id, the input's fields and the `totalChapters` default |
| Storage.Storage.GetChaptersByCourse | server/storage.ts:106-112 | exactly the course's chapters, in non-decreasing `orderIndex` |
| Storage.Storage.GetChapter | server/storage.ts:114-117 | a chapter with the id from the table, or none iff no chapter has it |
| Storage.Storage.CreateChapter | server/storage.ts:119-122 | appends the chapter with the next serial id and the input's fields; refused, leaving the table as it was, iff its course id names no course (the foreign key at shared/schema.ts:55); the id is used up either way |
| Storage.Storage.GetUserProgress | server/storage.ts:125-139 | exactly the user's rows, narrowed to the course only when the course id is truthy, newest first |
| Storage.Storage.UpdateProgress | server/storage.ts:141-166 | the table becomes the (user, chapter) upsert of the request and the written row is returned; the write is refused, leaving the table as it was, iff that row names an unknown user, course or chapter (shared/schema.ts:90-92); the serial counter advances exactly when no row matched, refused or not |
| Storage.Storage.GetQuiz | server/storage.ts:173-176 | a quiz with the id from the table, or none iff no quiz has it |
| Storage.Storage.CreateQuiz | server/storage.ts:178-181 | appends the quiz with the next serial id and the input's fields |
| Storage.Storage.SubmitQuizAttempt | server/storage.ts:184-187 | appends the attempt with no duplicate check, with the client's `isCorrect`, the next serial id and the time now; refused, leaving the table as it was, iff the user or the quiz does not exist (shared/schema.ts:113-114); the id is used up either way |
| Storage.Storage.GetUserQuizAttempts | server/storage.ts:189-203 | exactly the user's attempts, narrowed to the quiz only when the quiz id is truthy, newest first |
| Storage.Storage.IssueCertificate | server/storage.ts:206-209 | appends a certificate even when the user already holds one for the course; refused, leaving the table as it was, iff the user or the course does not exist (shared/schema.ts:122-123); the id is used up either way |
| Storage.Storage.GetUserCertificates | server/storage.ts:211-217 | exactly the user's certificates, newest first |
| PythonLessons.NextIndex | client/src/pages/PythonLessons.tsx:219-223 | the index moves one on unless it is the last lesson, where it stays; it stays below the lesson count |
| PythonLessons.PrevIndex | client/src/pages/PythonLessons.tsx:225-229 | the index moves one back unless it is 0, where it stays |
| PythonLessons.FindProgress | client/src/pages/PythonLessons.tsx:188 | the first progress entry with the lesson's id, as `find` returns it, or none iff no entry has that id |
| PythonLessons.IsLessonCompleted | client/src/pages/PythonLessons.tsx:188-189 | `isCurrentLessonCompleted`: the local flag alone makes the lesson completed, and with no progress entry for the lesson only the flag counts |
| PythonLessons.IsLessonCompletedIff | client/src/pages/PythonLessons.tsx:188-189 | a lesson counts as completed iff the first progress entry with its id is completed or the local flag is set |
| PythonLessons.EvaluatorType | client/src/pages/PythonLessons.tsx:201-206 | `code_exercise` maps to evaluator type `variables`, every other lesson type to `general` |
| PythonLessons.RunCodeOutcome | client/src/pages/PythonLessons.tsx:201-206 | running code on a lesson that is not a code exercise always succeeds; on a code exercise it succeeds iff the code holds `name = "`, `age = ` and `print(` |
| PythonLessons.CompletionRequestFor | client/src/pages/PythonLessons.tsx:209-217 | the request names the lesson and says `completed = true`, and carries the editor code exactly for code exercises |
| PythonLessons.CodeOnLessonChange | client/src/pages/PythonLessons.tsx:192-195 | any lesson other than a code exercise with starter code leaves the editor as it was; for one with starter code the editor gets a non-empty text that is the starter code or the stored last attempt, and is the stored last attempt whenever that is non-empty |
| PythonLessons.CodeOnLessonChangeIdempotent | client/src/pages/PythonLessons.tsx:192-199 | running the lesson effect a second time on the same lesson and progress entry changes nothing more |
| PythonLessons.CodeOnLessonChangeIgnoresEditor | client/src/pages/PythonLessons.tsx:192-195 | for a code exercise with starter code, what was in the editor before does not affect the code the effect sets |
| PythonLessons.ParseInt | client/src/pages/PythonLessons.tsx:234 | `parseInt(answer)` with no radix: a string that is empty after its leading white space gives NaN (`None`); `ParseIntNaN` and `ParseIntReads` state the rest |
| PythonLessons.ParseIntNaN | client/src/pages/PythonLessons.tsx:234 | NaN exactly when no digit of the chosen radix follows the leading white space, the sign and an optional `0x`; a negative result only after a `-` |
| PythonLessons.ParseIntReads | client/src/pages/PythonLessons.tsx:234 | for any string made of white space, at most one sign, an optional `0x` or `0X`, a non-empty run of digits and a rest that does not continue the run, the result is the run's value (radix 16 after the prefix, 10 otherwise), negated after `-` |
| PythonLessons.NatToString | client/src/pages/PythonLessons.tsx:425-434 | `index.toString()` for an option index: non-empty, decimal digits only, and a leading `0` only for 0 itself |
| PythonLessons.IsCorrectAnswer | client/src/pages/PythonLessons.tsx:234 | `parseInt(answer) === correctAnswer`: with no stored answer, or a blank answer, never correct; a correct answer parses to the stored one |
| PythonLessons.ParseIntToString | client/src/pages/PythonLessons.tsx:234 | `parseInt` reads back the decimal digits `toString` writes for every non-negative integer |
| PythonLessons.OptionGrading | client/src/pages/PythonLessons.tsx:231-235 | the option buttons carry `index.toString()`, so choosing option `i` is graded correct iff the stored answer is `i` |
| PythonLessons.LessonViewer.constructor | client/src/pages/PythonLessons.tsx:50-54 | the page starts on the first lesson with empty answer, hint hidden and not completed, after the lesson effect has set the editor code |
| PythonLessons.LessonViewer.LessonChanged | client/src/pages/PythonLessons.tsx:192-199 | the lesson effect sets the editor code as `CodeOnLessonChange` says and clears the completion flag, the selected answer and the hint |
| PythonLessons.LessonViewer.NextLesson | client/src/pages/PythonLessons.tsx:219-223 | keeps the index below the lesson count; on the last lesson nothing changes; otherwise the index moves one on, the flags are cleared and the editor code is what `CodeOnLessonChange` gives for the new lesson |
| PythonLessons.LessonViewer.PrevLesson | client/src/pages/PythonLessons.tsx:225-229 | on the first lesson nothing changes; otherwise the index moves one back, the flags are cleared and the editor code is what `CodeOnLessonChange` gives for the new lesson |
| PythonLessons.LessonViewer.SelectLesson | client/src/pages/PythonLessons.tsx:278-286 | a lesson tab sets the index to that lesson, which is in range; when the lesson changed, the flags are cleared and the editor code is what `CodeOnLessonChange` gives for it; otherwise nothing changes |
| PythonLessons.LessonViewer.QuizAnswer | client/src/pages/PythonLessons.tsx:231-249 | the answer is selected; a completion request is sent iff the lesson is a quiz and `parseInt(answer)` equals the stored answer |
| PythonLessons.LessonViewer.CompleteLesson | client/src/pages/PythonLessons.tsx:209-217 | the request names the current lesson and says `completed = true`, and carries the editor code exactly for code exercises |
| PythonLessons.LessonViewer.RunCode | client/src/pages/PythonLessons.tsx:201-207 | sends the editor code, with evaluator type `variables` exactly for code exercises and `general` otherwise |
| PythonLessons.LessonViewer.CompletionSucceeded | client/src/pages/PythonLessons.tsx:137-140 | a successful completion request sets the local completion flag |
| PythonLessons.LessonViewer.ToggleHint | client/src/pages/PythonLessons.tsx:396 | the hint button flips the hint visibility |
| PythonLessons.LessonViewer.EditCode | client/src/pages/PythonLessons.tsx:367-368 | typing replaces the editor code |
| PythonLessons.LessonViewer.ProgressRefetched | client/src/pages/PythonLessons.tsx:188-199 | new progress data reruns the lesson effect exactly when the current lesson's progress entry changed |

## Left out

- Everything in server/routes.ts outside the execute-python handler: HTTP status codes, route-parameter parsing, request validation, the `try/catch` that answers 500, the seeding handler, and authentication (its module is not part of this model).
- Storage methods that server/routes.ts calls but server/storage.ts does not define (lessons and lesson progress). They have no body to model.
- `getQuizzesByChapter` (server/storage.ts:169-171): it filters on a column the quizzes table does not have.
- Storage.Storage.CreateQuiz: the foreign key `quizzes.lessonId` (shared/schema.ts:100) is not checked, because the lessons table is not part of this model; a quiz naming an unknown lesson is appended.
- The database driver: each call is one atomic step on in-memory tables. The read-then-write race in `updateProgress` under concurrent requests is not modelled.
- `new Date()` and column `defaultNow()`: the time is a `now` parameter with an abstract clock value.
- Explicit JSON `null` in insert records: an `Option` field distinguishes only "key absent" from "value given".
- Database collation: titles are ordered by code point, as a binary collation orders them.
- The order of rows with equal sort keys: the query contracts do not fix it, and neither does SQL.
- PythonLessons.ParseInt: it reads all the digits exactly; `parseInt`'s rounding of numbers beyond 2^53 is not modelled. NaN is `None`.
- Record ids and route ids are unbounded integers; NaN and fractional ids are not representable.
- Strings are sequences of code points. JavaScript `substring`, `selectionStart` and `includes` count UTF-16 code units, so text outside the Basic Multilingual Plane (and lone surrogates) is not modelled.
- Rendering, toasts, `setTimeout` redirects, query invalidation, the seeding of an empty course, and the floating-point progress percentage.
- The editor's `useEffect` that copies the value into the DOM. The cursor is modelled as the position `handleKeyDown` sets.
- The viewer starts once lessons are loaded. Its lesson effect is declared after the page's early returns, so React's fixed hook order is broken when the page first moves from the loading screen to the lessons. The model does not capture that runtime failure.
- The lessons list is fixed for the life of a `LessonViewer`. Progress data can change (`ProgressRefetched`). That method compares entries by value, as the query cache's structural sharing keeps an unchanged entry that stays at the same position; it does not model identity, so an unchanged entry that moves, which gets a new identity, reruns the effect in the page but not in the model.
- A missing progress list (query still loading) is modelled as an empty list. Its `find` gives the same result.
- The viewer's handlers return the completion and run-code requests. Sending them over HTTP, and the evaluator's answer reaching the page, are not modelled beyond `RunCodeOutcome`.
- The Complete Lesson button renders only while the lesson is not completed; `CompleteLesson` does not require that, since the handler itself does not check.
