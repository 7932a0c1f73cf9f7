/** The rows of the relational tables (shared/schema.ts) and the insert records the storage
    facade accepts. A nullable column is an `Option`. In an insert record, `None` means the key
    is absent from the object: an insert then stores the column's default (or NULL), an update
    leaves the column as it was. Timestamps are values of an abstract clock, passed in by the
    caller in place of `new Date()` and `defaultNow()`. */
module Schema {
  import opened Wrappers

  type Timestamp = nat

  /** `users`: the id comes from the identity provider; `email` is unique when not NULL. */
  datatype User = User(
    id: string,
    email: Option<string>,
    firstName: Option<string>,
    lastName: Option<string>,
    profileImageUrl: Option<string>,
    xp: int,
    level: int,
    streakDays: int,
    createdAt: Timestamp,
    updatedAt: Timestamp)

  /** `UpsertUser`: everything but the two timestamps; only `id` is always present. */
  datatype UpsertUser = UpsertUser(
    id: string,
    email: Option<string>,
    firstName: Option<string>,
    lastName: Option<string>,
    profileImageUrl: Option<string>,
    xp: Option<int>,
    level: Option<int>,
    streakDays: Option<int>)

  const DefaultXp := 0
  const DefaultLevel := 1
  const DefaultStreakDays := 0

  /** `courses`; `id` is a serial. */
  datatype Course = Course(
    id: nat,
    title: string,
    description: Option<string>,
    track: string,
    language: Option<string>,
    difficulty: string,
    totalChapters: int,
    createdAt: Timestamp)

  datatype InsertCourse = InsertCourse(
    title: string,
    description: Option<string>,
    track: string,
    language: Option<string>,
    difficulty: string,
    totalChapters: Option<int>)

  const DefaultTotalChapters := 0

  /** `chapters`, ordered within a course by `orderIndex`. */
  datatype Chapter = Chapter(
    id: nat,
    courseId: Option<int>,
    title: string,
    content: Option<string>,
    codeExample: Option<string>,
    exercise: Option<string>,
    orderIndex: int,
    createdAt: Timestamp)

  datatype InsertChapter = InsertChapter(
    courseId: Option<int>,
    title: string,
    content: Option<string>,
    codeExample: Option<string>,
    exercise: Option<string>,
    orderIndex: int)

  /** `user_progress`: one user's progress on one chapter. */
  datatype Progress = Progress(
    id: nat,
    userId: Option<string>,
    courseId: Option<int>,
    chapterId: Option<int>,
    completed: bool,
    completedAt: Option<Timestamp>,
    createdAt: Timestamp)

  /** `InsertUserProgress` as the progress route builds it: `userId` is always the caller's.
      Any `completedAt` the caller sends is overwritten by `updateProgress`, so it is not kept. */
  datatype InsertProgress = InsertProgress(
    userId: string,
    courseId: Option<int>,
    chapterId: Option<int>,
    completed: Option<bool>)

  const DefaultCompleted := false

  /** `quizzes`; `options` and `hints` are JSON arrays of strings. */
  datatype Quiz = Quiz(
    id: nat,
    lessonId: Option<int>,
    questionType: string,
    question: string,
    codeSnippet: Option<string>,
    options: Option<seq<string>>,
    correctAnswer: string,
    explanation: Option<string>,
    hints: Option<seq<string>>,
    createdAt: Timestamp)

  datatype InsertQuiz = InsertQuiz(
    lessonId: Option<int>,
    questionType: string,
    question: string,
    codeSnippet: Option<string>,
    options: Option<seq<string>>,
    correctAnswer: string,
    explanation: Option<string>,
    hints: Option<seq<string>>)

  /** `user_quiz_attempts`: one submitted answer. `isCorrect` is whatever the client sent. */
  datatype QuizAttempt = QuizAttempt(
    id: nat,
    userId: Option<string>,
    quizId: Option<int>,
    selectedAnswer: int,
    isCorrect: bool,
    attemptedAt: Timestamp)

  datatype InsertQuizAttempt = InsertQuizAttempt(
    userId: string,
    quizId: Option<int>,
    selectedAnswer: int,
    isCorrect: bool)

  /** `certificates`: nothing makes `(userId, courseId)` unique. */
  datatype Certificate = Certificate(
    id: nat,
    userId: Option<string>,
    courseId: Option<int>,
    issuedAt: Timestamp)

  datatype InsertCertificate = InsertCertificate(
    userId: string,
    courseId: Option<int>)
}
