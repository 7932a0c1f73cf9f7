/** The storage facade `DatabaseStorage` (server/storage.ts) over in-memory tables. Each table is a
    sequence of rows in insertion order; each serial id column is a counter. The two upserts are
    specified by functions on the table contents, and the queries are filter-then-sort. */
module Storage {
  import opened Wrappers
  import opened Schema
  import opened Query

  /** JavaScript's `if (id)` on an optional number: an absent id and `0` both mean "no filter". */
  function IdFilter(id: Option<int>): (r: Option<int>)
    ensures r.Some? <==> id.Some? && id.value != 0
    ensures r.Some? ==> r == id
  {
    if id.Some? && id.value != 0 then id else None
  }

  /** A serial id column: ids are positive, below the next value of the sequence, and increase
      in table order (so they are distinct). */
  ghost predicate Serial<T>(s: seq<T>, id: T -> nat, next: nat) {
    && (forall i :: 0 <= i < |s| ==> 1 <= id(s[i]) < next)
    && (forall i, j :: 0 <= i < j < |s| ==> id(s[i]) < id(s[j]))
  }

  lemma SerialAppend<T>(s: seq<T>, id: T -> nat, next: nat, x: T)
    requires Serial(s, id, next) && 1 <= next && id(x) == next
    ensures Serial(s + [x], id, next + 1)
  {
  }

  lemma SerialUpdate<T>(s: seq<T>, id: T -> nat, next: nat, i: nat, x: T)
    requires Serial(s, id, next) && i < |s| && id(x) == id(s[i])
    ensures Serial(s[i := x], id, next)
  {
  }

  /** Code points compared in order: titles are sorted as by a binary collation. */
  function TitleKey(title: string): (key: seq<int>)
    ensures |key| == |title|
  {
    seq(|title|, i requires 0 <= i < |title| => title[i] as int)
  }

  predicate TitleLe(a: string, b: string) {
    LexLe(TitleKey(a), TitleKey(b))
  }

  // ----- users: upsertUser -----

  function UserIndex(users: seq<User>, id: string): (r: Option<nat>)
    ensures r.Some? ==> r.value < |users| && users[r.value].id == id
    ensures r.Some? ==> forall k :: 0 <= k < r.value ==> users[k].id != id
    ensures r.None? ==> forall k :: 0 <= k < |users| ==> users[k].id != id
  {
    FirstWhere(users, (u: User) => u.id == id)
  }

  /** The primary key `id` and the unique column `email` (NULLs excepted). */
  ghost predicate UsersValid(users: seq<User>) {
    && (forall i, j :: 0 <= i < j < |users| ==> users[i].id != users[j].id)
    && (forall i, j :: 0 <= i < j < |users| && users[i].email.Some? ==> users[i].email != users[j].email)
  }

  /** The write would give `email` to a second user: the database rejects it. */
  predicate EmailConflict(users: seq<User>, data: UpsertUser) {
    data.email.Some? && exists k :: 0 <= k < |users| && users[k].id != data.id && users[k].email == data.email
  }

  /** The row `insert(users).values(data)` creates. */
  function NewUser(data: UpsertUser, now: Timestamp): User {
    User(data.id, data.email, data.firstName, data.lastName, data.profileImageUrl,
         data.xp.GetOr(DefaultXp), data.level.GetOr(DefaultLevel), data.streakDays.GetOr(DefaultStreakDays),
         now, now)
  }

  function Given<T>(given: Option<T>, current: Option<T>): Option<T> {
    if given.Some? then given else current
  }

  /** The row `onConflictDoUpdate({ set: { ...data, updatedAt } })` leaves: the keys `data` holds are
      overwritten, the others and `createdAt` are kept. */
  function MergedUser(u: User, data: UpsertUser, now: Timestamp): User {
    u.(email := Given(data.email, u.email),
       firstName := Given(data.firstName, u.firstName),
       lastName := Given(data.lastName, u.lastName),
       profileImageUrl := Given(data.profileImageUrl, u.profileImageUrl),
       xp := data.xp.GetOr(u.xp),
       level := data.level.GetOr(u.level),
       streakDays := data.streakDays.GetOr(u.streakDays),
       updatedAt := now)
  }

  function UpsertUserRows(users: seq<User>, data: UpsertUser, now: Timestamp): seq<User> {
    match UserIndex(users, data.id)
    case Some(i) => users[i := MergedUser(users[i], data, now)]
    case None => users + [NewUser(data, now)]
  }

  /** `u` carries every field that `data` gives. */
  predicate Reflects(u: User, data: UpsertUser) {
    && u.id == data.id
    && (data.email.Some? ==> u.email == data.email)
    && (data.firstName.Some? ==> u.firstName == data.firstName)
    && (data.lastName.Some? ==> u.lastName == data.lastName)
    && (data.profileImageUrl.Some? ==> u.profileImageUrl == data.profileImageUrl)
    && (data.xp.Some? ==> u.xp == data.xp.value)
    && (data.level.Some? ==> u.level == data.level.value)
    && (data.streakDays.Some? ==> u.streakDays == data.streakDays.value)
  }

  /** After an accepted upsert exactly one user has the id, it carries the given fields, and the
      keys stay unique. */
  lemma UpsertUserKeepsKeys(users: seq<User>, data: UpsertUser, now: Timestamp)
    requires UsersValid(users) && !EmailConflict(users, data)
    ensures var r := UpsertUserRows(users, data, now);
      && UsersValid(r)
      && UserIndex(r, data.id).Some?
      && Reflects(r[UserIndex(r, data.id).value], data)
      && r[UserIndex(r, data.id).value].updatedAt == now
      && forall k :: 0 <= k < |r| && k != UserIndex(r, data.id).value ==> r[k].id != data.id
  {
    var r := UpsertUserRows(users, data, now);
    match UserIndex(users, data.id)
    case Some(i) =>
      assert r == users[i := MergedUser(users[i], data, now)];
      assert r[i].id == data.id;
      assert forall k :: 0 <= k < i ==> r[k] == users[k];
      assert UserIndex(r, data.id) == Some(i);
    case None =>
      assert r == users + [NewUser(data, now)];
      assert r[|users|].id == data.id;
      assert UserIndex(r, data.id) == Some(|users|);
  }

  /** An upsert only touches the row with the id: a first login inserts it with the column
      defaults, a later one keeps its `createdAt` and every field `data` leaves out. */
  lemma UpsertUserRow(users: seq<User>, data: UpsertUser, now: Timestamp)
    ensures var r := UpsertUserRows(users, data, now);
      match UserIndex(users, data.id)
      case Some(i) =>
        && |r| == |users| && r[i].createdAt == users[i].createdAt
        && (data.email.None? ==> r[i].email == users[i].email)
        && (data.firstName.None? ==> r[i].firstName == users[i].firstName)
        && (data.lastName.None? ==> r[i].lastName == users[i].lastName)
        && (data.profileImageUrl.None? ==> r[i].profileImageUrl == users[i].profileImageUrl)
        && (data.xp.None? ==> r[i].xp == users[i].xp)
        && (data.level.None? ==> r[i].level == users[i].level)
        && (data.streakDays.None? ==> r[i].streakDays == users[i].streakDays)
        && forall k :: 0 <= k < |users| && k != i ==> r[k] == users[k]
      case None =>
        && r[..|users|] == users && |r| == |users| + 1
        && r[|users|].createdAt == now
        && r[|users|].xp == (if data.xp.Some? then data.xp.value else DefaultXp)
        && r[|users|].level == (if data.level.Some? then data.level.value else DefaultLevel)
        && r[|users|].streakDays == (if data.streakDays.Some? then data.streakDays.value else DefaultStreakDays)
  {
  }

  // ----- progress: updateProgress -----

  /** The lookup `userId = progress.userId AND chapterId = progress.chapterId`; an absent
      chapter id compares as NULL and matches nothing. */
  predicate KeyMatches(p: Progress, userId: string, chapterId: Option<int>) {
    chapterId.Some? && p.userId == Some(userId) && p.chapterId == chapterId
  }

  function ProgressIndex(rows: seq<Progress>, userId: string, chapterId: Option<int>): (r: Option<nat>)
    ensures r.Some? ==> r.value < |rows| && KeyMatches(rows[r.value], userId, chapterId)
    ensures r.Some? ==> forall k :: 0 <= k < r.value ==> !KeyMatches(rows[k], userId, chapterId)
    ensures r.None? ==> forall k :: 0 <= k < |rows| ==> !KeyMatches(rows[k], userId, chapterId)
  {
    FirstWhere(rows, (p: Progress) => KeyMatches(p, userId, chapterId))
  }

  /** `completedAt: progress.completed ? new Date() : null`. */
  function CompletedAt(input: InsertProgress, now: Timestamp): Option<Timestamp> {
    if input.completed == Some(true) then Some(now) else None
  }

  /** `update(userProgress).set({ ...progress, completedAt })` on the found row. */
  function UpdatedProgress(row: Progress, input: InsertProgress, now: Timestamp): Progress {
    row.(userId := Some(input.userId),
         courseId := if input.courseId.Some? then input.courseId else row.courseId,
         chapterId := if input.chapterId.Some? then input.chapterId else row.chapterId,
         completed := input.completed.GetOr(row.completed),
         completedAt := CompletedAt(input, now))
  }

  /** `insert(userProgress).values({ ...progress, completedAt })`. */
  function NewProgress(input: InsertProgress, now: Timestamp, id: nat): Progress {
    Progress(id, Some(input.userId), input.courseId, input.chapterId,
             input.completed.GetOr(DefaultCompleted), CompletedAt(input, now), now)
  }

  /** The row `updateProgress` writes and returns; `freshId` is the next serial value. */
  function WrittenProgress(rows: seq<Progress>, input: InsertProgress, now: Timestamp, freshId: nat): Progress {
    match ProgressIndex(rows, input.userId, input.chapterId)
    case Some(i) => UpdatedProgress(rows[i], input, now)
    case None => NewProgress(input, now, freshId)
  }

  /** The progress table after `updateProgress`. */
  function UpsertProgressRows(rows: seq<Progress>, input: InsertProgress, now: Timestamp, freshId: nat): seq<Progress> {
    match ProgressIndex(rows, input.userId, input.chapterId)
    case Some(i) => rows[i := WrittenProgress(rows, input, now, freshId)]
    case None => rows + [WrittenProgress(rows, input, now, freshId)]
  }

  /** With a matching row, the first one is overwritten in place, keeping its id and creation
      time; otherwise exactly one row is appended. No other row changes. */
  lemma UpsertProgressShape(rows: seq<Progress>, input: InsertProgress, now: Timestamp, freshId: nat)
    ensures var r := UpsertProgressRows(rows, input, now, freshId);
      var w := WrittenProgress(rows, input, now, freshId);
      match ProgressIndex(rows, input.userId, input.chapterId)
      case Some(i) =>
        && |r| == |rows| && r[i] == w
        && w.id == rows[i].id && w.createdAt == rows[i].createdAt
        && forall k :: 0 <= k < |rows| && k != i ==> r[k] == rows[k]
      case None =>
        && |r| == |rows| + 1 && r[..|rows|] == rows && r[|rows|] == w
        && w.id == freshId && w.createdAt == now
  {
    var r := UpsertProgressRows(rows, input, now, freshId);
    if ProgressIndex(rows, input.userId, input.chapterId).None? {
      assert r[..|rows|] == rows;
    }
  }

  /** The written row is the caller's, on the requested chapter, and has a completion time
      exactly when the request says `completed: true`; any other request clears it. */
  lemma WrittenProgressFields(rows: seq<Progress>, input: InsertProgress, now: Timestamp, freshId: nat)
    ensures var w := WrittenProgress(rows, input, now, freshId);
      && w.userId == Some(input.userId)
      && w.chapterId == input.chapterId
      && (input.courseId.Some? ==> w.courseId == input.courseId)
      && (w.completedAt.Some? <==> input.completed == Some(true))
      && (w.completedAt.Some? ==> w.completedAt == Some(now))
      && (input.completed.Some? ==> w.completed == input.completed.value)
  {
  }

  /** At most one row per (user, chapter), for the rows that have both. */
  ghost predicate ProgressKeysUnique(rows: seq<Progress>) {
    forall i, j :: 0 <= i < j < |rows| && rows[i].userId.Some? && rows[i].chapterId.Some? ==>
      !(rows[i].userId == rows[j].userId && rows[i].chapterId == rows[j].chapterId)
  }

  /** Sequential calls never create a second row for a (user, chapter). */
  lemma UpsertProgressKeepsKeysUnique(rows: seq<Progress>, input: InsertProgress, now: Timestamp, freshId: nat)
    requires ProgressKeysUnique(rows)
    ensures ProgressKeysUnique(UpsertProgressRows(rows, input, now, freshId))
  {
    var r := UpsertProgressRows(rows, input, now, freshId);
    var w := WrittenProgress(rows, input, now, freshId);
    match ProgressIndex(rows, input.userId, input.chapterId)
    case Some(i) =>
      assert w.userId == rows[i].userId && w.chapterId == rows[i].chapterId;
      assert r == rows[i := w];
    case None =>
      assert r == rows + [w];
      forall i | 0 <= i < |rows| && rows[i].userId.Some? && rows[i].chapterId.Some?
        ensures !(rows[i].userId == w.userId && rows[i].chapterId == w.chapterId)
      {
        assert !KeyMatches(rows[i], input.userId, input.chapterId);
      }
  }

  /** Completing the same chapter twice leaves one row for it: the second call finds the row the
      first one wrote and updates it. */
  lemma RepeatedUpsertProgress(rows: seq<Progress>, input: InsertProgress, t1: Timestamp, t2: Timestamp, id1: nat, id2: nat)
    requires input.chapterId.Some?
    ensures var once := UpsertProgressRows(rows, input, t1, id1);
      |UpsertProgressRows(once, input, t2, id2)| == |once|
  {
    var once := UpsertProgressRows(rows, input, t1, id1);
    UpsertProgressShape(rows, input, t1, id1);
    WrittenProgressFields(rows, input, t1, id1);
    var k := match ProgressIndex(rows, input.userId, input.chapterId)
             case Some(i) => i
             case None => |rows|;
    assert KeyMatches(once[k], input.userId, input.chapterId);
    assert ProgressIndex(once, input.userId, input.chapterId).Some?;
  }

  /** The rows `getUserProgress(userId, courseId)` selects: the user's, and the course's only
      when `courseId` is truthy. */
  predicate SelectsProgress(p: Progress, userId: string, courseId: Option<int>) {
    p.userId == Some(userId) && (IdFilter(courseId).None? || p.courseId == courseId)
  }

  /** The rows `getUserQuizAttempts(userId, quizId)` selects. */
  predicate SelectsAttempt(a: QuizAttempt, userId: string, quizId: Option<int>) {
    a.userId == Some(userId) && (IdFilter(quizId).None? || a.quizId == quizId)
  }

  // ----- foreign keys -----

  function UserIds(users: seq<User>): set<string> {
    set u | u in users :: u.id
  }

  function CourseIds(courses: seq<Course>): set<int> {
    set c | c in courses :: c.id as int
  }

  function ChapterIds(chapters: seq<Chapter>): set<int> {
    set c | c in chapters :: c.id as int
  }

  function QuizIds(quizzes: seq<Quiz>): set<int> {
    set q | q in quizzes :: q.id as int
  }

  /** A `references(...)` column: NULL, or the key of an existing parent row. */
  predicate Refers<K>(key: Option<K>, keys: set<K>) {
    key.None? || key.value in keys
  }

  predicate ChapterRefsOk(c: Chapter, courses: seq<Course>) {
    Refers(c.courseId, CourseIds(courses))
  }

  predicate ProgressRefsOk(p: Progress, users: seq<User>, courses: seq<Course>, chapters: seq<Chapter>) {
    Refers(p.userId, UserIds(users)) && Refers(p.courseId, CourseIds(courses)) && Refers(p.chapterId, ChapterIds(chapters))
  }

  predicate AttemptRefsOk(a: QuizAttempt, users: seq<User>, quizzes: seq<Quiz>) {
    Refers(a.userId, UserIds(users)) && Refers(a.quizId, QuizIds(quizzes))
  }

  predicate CertificateRefsOk(c: Certificate, users: seq<User>, courses: seq<Course>) {
    Refers(c.userId, UserIds(users)) && Refers(c.courseId, CourseIds(courses))
  }

  /** Upserting a user never removes a user id: a referencing row stays valid. */
  lemma UpsertUserKeepsUserIds(users: seq<User>, data: UpsertUser, now: Timestamp)
    ensures UserIds(users) <= UserIds(UpsertUserRows(users, data, now))
    ensures data.id in UserIds(UpsertUserRows(users, data, now))
  {
    var r := UpsertUserRows(users, data, now);
    match UserIndex(users, data.id)
    case Some(i) =>
      forall id | id in UserIds(users)
        ensures id in UserIds(r)
      {
        var k :| 0 <= k < |users| && users[k].id == id;
        assert r[k].id == id;
      }
      assert r[i].id == data.id;
    case None =>
      forall id | id in UserIds(users)
        ensures id in UserIds(r)
      {
        var k :| 0 <= k < |users| && users[k].id == id;
        assert r[k] == users[k];
      }
      assert r[|users|].id == data.id;
  }

  // ----- the facade -----

  class Storage {
    var users: seq<User>
    var courses: seq<Course>
    var chapters: seq<Chapter>
    var progress: seq<Progress>
    var quizzes: seq<Quiz>
    var attempts: seq<QuizAttempt>
    var certificates: seq<Certificate>

    /** The next value of each serial sequence. */
    var nextCourseId: nat
    var nextChapterId: nat
    var nextProgressId: nat
    var nextQuizId: nat
    var nextAttemptId: nat
    var nextCertificateId: nat

    ghost predicate Valid()
      reads this
    {
      && UsersValid(users)
      && 1 <= nextCourseId && 1 <= nextChapterId && 1 <= nextProgressId
      && 1 <= nextQuizId && 1 <= nextAttemptId && 1 <= nextCertificateId
      && Serial(courses, (c: Course) => c.id, nextCourseId)
      && Serial(chapters, (c: Chapter) => c.id, nextChapterId)
      && Serial(progress, (p: Progress) => p.id, nextProgressId)
      && Serial(quizzes, (q: Quiz) => q.id, nextQuizId)
      && Serial(attempts, (a: QuizAttempt) => a.id, nextAttemptId)
      && Serial(certificates, (c: Certificate) => c.id, nextCertificateId)
      && RefsValid()
    }

    /** Every foreign key names an existing row. */
    ghost predicate RefsValid()
      reads this
    {
      && (forall c :: c in chapters ==> ChapterRefsOk(c, courses))
      && (forall p :: p in progress ==> ProgressRefsOk(p, users, courses, chapters))
      && (forall a :: a in attempts ==> AttemptRefsOk(a, users, quizzes))
      && (forall c :: c in certificates ==> CertificateRefsOk(c, users, courses))
    }

    constructor ()
      ensures Valid()
      ensures users == [] && courses == [] && chapters == [] && progress == []
      ensures quizzes == [] && attempts == [] && certificates == []
      ensures nextCourseId == 1 && nextChapterId == 1 && nextProgressId == 1
      ensures nextQuizId == 1 && nextAttemptId == 1 && nextCertificateId == 1
    {
      users, courses, chapters, progress := [], [], [], [];
      quizzes, attempts, certificates := [], [], [];
      nextCourseId, nextChapterId, nextProgressId := 1, 1, 1;
      nextQuizId, nextAttemptId, nextCertificateId := 1, 1, 1;
    }

    // --- users ---

    /** `getUser`: the first user with the id, if any. */
    function GetUser(id: string): (r: Option<User>)
      reads this
      ensures r.Some? ==> r.value in users && r.value.id == id
      ensures r.None? <==> forall k :: 0 <= k < |users| ==> users[k].id != id
    {
      match UserIndex(users, id)
      case Some(i) => Some(users[i])
      case None => None
    }

    /** `upsertUser`: insert, or overwrite the row with the same id; `None` when the unique email
        constraint rejects the write, which then changes nothing. */
    method UpsertUser(data: UpsertUser, now: Timestamp) returns (r: Option<User>)
      requires Valid()
      modifies this`users
      ensures Valid()
      ensures r.None? <==> EmailConflict(old(users), data)
      ensures r.None? ==> users == old(users)
      ensures r.Some? ==> users == UpsertUserRows(old(users), data, now)
      ensures r.Some? ==> GetUser(data.id) == r && Reflects(r.value, data)
    {
      if EmailConflict(users, data) {
        return None;
      }
      UpsertUserKeepsKeys(users, data, now);
      UpsertUserKeepsUserIds(users, data, now);
      var found := UserIndex(users, data.id);
      var row: User;
      if found.Some? {
        row := MergedUser(users[found.value], data, now);
        users := users[found.value := row];
      } else {
        row := NewUser(data, now);
        users := users + [row];
      }
      assert UserIds(old(users)) <= UserIds(users);
      r := Some(row);
    }

    // --- courses ---

    /** `getCourses`: every course, ordered by title. */
    function GetCourses(): (r: seq<Course>)
      reads this
      ensures multiset(r) == multiset(courses)
      ensures forall i, j :: 0 <= i < j < |r| ==> TitleLe(r[i].title, r[j].title)
    {
      SortBy(courses, (c: Course) => TitleKey(c.title))
    }

    /** `getCoursesByTrack`: the courses on `track`, ordered by title. */
    function GetCoursesByTrack(track: string): (r: seq<Course>)
      reads this
      ensures forall c :: multiset(r)[c] == if c.track == track then multiset(courses)[c] else 0
      ensures forall i, j :: 0 <= i < j < |r| ==> TitleLe(r[i].title, r[j].title)
    {
      SortBy(Filter(courses, (c: Course) => c.track == track), (c: Course) => TitleKey(c.title))
    }

    /** `getCourse`. */
    function GetCourse(id: int): (r: Option<Course>)
      reads this
      ensures r.Some? ==> r.value in courses && r.value.id == id
      ensures r.None? <==> forall k :: 0 <= k < |courses| ==> courses[k].id != id
    {
      match FirstWhere(courses, (c: Course) => c.id == id)
      case Some(i) => Some(courses[i])
      case None => None
    }

    /** `createCourse`: appends the course with the next id and the column defaults. */
    method CreateCourse(data: InsertCourse, now: Timestamp) returns (course: Course)
      requires Valid()
      modifies this`courses, this`nextCourseId
      ensures Valid()
      ensures course == Course(old(nextCourseId), data.title, data.description, data.track, data.language,
                               data.difficulty, data.totalChapters.GetOr(DefaultTotalChapters), now)
      ensures courses == old(courses) + [course] && nextCourseId == old(nextCourseId) + 1
    {
      course := Course(nextCourseId, data.title, data.description, data.track, data.language,
                       data.difficulty, data.totalChapters.GetOr(DefaultTotalChapters), now);
      SerialAppend(courses, (c: Course) => c.id, nextCourseId, course);
      assert CourseIds(courses) <= CourseIds(courses + [course]);
      courses := courses + [course];
      nextCourseId := nextCourseId + 1;
    }

    // --- chapters ---

    /** `getChaptersByCourse`: that course's chapters, by non-decreasing `orderIndex`. */
    function GetChaptersByCourse(courseId: int): (r: seq<Chapter>)
      reads this
      ensures forall c :: multiset(r)[c] == if c.courseId == Some(courseId) then multiset(chapters)[c] else 0
      ensures forall i, j :: 0 <= i < j < |r| ==> r[i].orderIndex <= r[j].orderIndex
    {
      var key := (c: Chapter) => [c.orderIndex];
      var r := SortBy(Filter(chapters, (c: Chapter) => c.courseId == Some(courseId)), key);
      SortedBySingle(r, key, (c: Chapter) => c.orderIndex);
      r
    }

    /** `getChapter`. */
    function GetChapter(id: int): (r: Option<Chapter>)
      reads this
      ensures r.Some? ==> r.value in chapters && r.value.id == id
      ensures r.None? <==> forall k :: 0 <= k < |chapters| ==> chapters[k].id != id
    {
      match FirstWhere(chapters, (c: Chapter) => c.id == id)
      case Some(i) => Some(chapters[i])
      case None => None
    }

    /** `createChapter`: appends the chapter with the next id; `None` when `courseId` names no
        course, which leaves the table as it was but still uses up the id. */
    method CreateChapter(data: InsertChapter, now: Timestamp) returns (chapter: Option<Chapter>)
      requires Valid()
      modifies this`chapters, this`nextChapterId
      ensures Valid()
      ensures chapter.None? <==> !Refers(data.courseId, CourseIds(courses))
      ensures chapter.None? ==> chapters == old(chapters)
      ensures chapter.Some? ==> chapter.value == Chapter(old(nextChapterId), data.courseId, data.title, data.content,
                                                         data.codeExample, data.exercise, data.orderIndex, now)
      ensures chapter.Some? ==> chapters == old(chapters) + [chapter.value]
      ensures nextChapterId == old(nextChapterId) + 1
    {
      var row := Chapter(nextChapterId, data.courseId, data.title, data.content, data.codeExample,
                         data.exercise, data.orderIndex, now);
      SerialAppend(chapters, (c: Chapter) => c.id, nextChapterId, row);
      nextChapterId := nextChapterId + 1;
      if !ChapterRefsOk(row, courses) {
        return None;
      }
      assert ChapterIds(chapters) <= ChapterIds(chapters + [row]);
      chapters := chapters + [row];
      chapter := Some(row);
    }

    // --- progress ---

    /** `getUserProgress`: the user's rows, narrowed to the course only when `courseId` is
        truthy, newest first. */
    function GetUserProgress(userId: string, courseId: Option<int>): (r: seq<Progress>)
      reads this
      ensures forall p :: multiset(r)[p] == if SelectsProgress(p, userId, courseId) then multiset(progress)[p] else 0
      ensures forall i, j :: 0 <= i < j < |r| ==> r[i].createdAt >= r[j].createdAt
    {
      var course := IdFilter(courseId);
      var key := (p: Progress) => [-(p.createdAt as int)];
      var r := SortBy(Filter(progress, (p: Progress) => p.userId == Some(userId) && (course.None? || p.courseId == course)), key);
      SortedBySingle(r, key, (p: Progress) => -(p.createdAt as int));
      r
    }

    /** `updateProgress`: the upsert keyed on (user, chapter); `None` when the row it would write
        names an unknown user, course or chapter, which leaves the table as it was. Only the
        insert path draws a new id, and it does so even when the insert is refused. */
    method UpdateProgress(input: InsertProgress, now: Timestamp) returns (row: Option<Progress>)
      requires Valid()
      modifies this`progress, this`nextProgressId
      ensures Valid()
      ensures row.None? <==>
        !ProgressRefsOk(WrittenProgress(old(progress), input, now, old(nextProgressId)), users, courses, chapters)
      ensures row.None? ==> progress == old(progress)
      ensures row.Some? ==> progress == UpsertProgressRows(old(progress), input, now, old(nextProgressId))
      ensures row.Some? ==> row.value == WrittenProgress(old(progress), input, now, old(nextProgressId))
      ensures nextProgressId ==
        old(nextProgressId) + if ProgressIndex(old(progress), input.userId, input.chapterId).None? then 1 else 0
    {
      UpsertProgressShape(progress, input, now, nextProgressId);
      var found := ProgressIndex(progress, input.userId, input.chapterId);
      if found.Some? {
        var w := UpdatedProgress(progress[found.value], input, now);
        if !ProgressRefsOk(w, users, courses, chapters) {
          return None;
        }
        SerialUpdate(progress, (p: Progress) => p.id, nextProgressId, found.value, w);
        progress := progress[found.value := w];
        row := Some(w);
      } else {
        var w := NewProgress(input, now, nextProgressId);
        SerialAppend(progress, (p: Progress) => p.id, nextProgressId, w);
        nextProgressId := nextProgressId + 1;
        if !ProgressRefsOk(w, users, courses, chapters) {
          return None;
        }
        progress := progress + [w];
        row := Some(w);
      }
    }

    // --- quizzes ---

    /** `getQuiz`. */
    function GetQuiz(id: int): (r: Option<Quiz>)
      reads this
      ensures r.Some? ==> r.value in quizzes && r.value.id == id
      ensures r.None? <==> forall k :: 0 <= k < |quizzes| ==> quizzes[k].id != id
    {
      match FirstWhere(quizzes, (q: Quiz) => q.id == id)
      case Some(i) => Some(quizzes[i])
      case None => None
    }

    /** `createQuiz`. */
    method CreateQuiz(data: InsertQuiz, now: Timestamp) returns (quiz: Quiz)
      requires Valid()
      modifies this`quizzes, this`nextQuizId
      ensures Valid()
      ensures quiz == Quiz(old(nextQuizId), data.lessonId, data.questionType, data.question, data.codeSnippet,
                           data.options, data.correctAnswer, data.explanation, data.hints, now)
      ensures quizzes == old(quizzes) + [quiz] && nextQuizId == old(nextQuizId) + 1
    {
      quiz := Quiz(nextQuizId, data.lessonId, data.questionType, data.question, data.codeSnippet,
                   data.options, data.correctAnswer, data.explanation, data.hints, now);
      SerialAppend(quizzes, (q: Quiz) => q.id, nextQuizId, quiz);
      assert QuizIds(quizzes) <= QuizIds(quizzes + [quiz]);
      quizzes := quizzes + [quiz];
      nextQuizId := nextQuizId + 1;
    }

    // --- quiz attempts ---

    /** `submitQuizAttempt`: appends with no duplicate check, whatever the answer; `None` when
        the user or the quiz does not exist, which leaves the table as it was but uses up the id. */
    method SubmitQuizAttempt(data: InsertQuizAttempt, now: Timestamp) returns (attempt: Option<QuizAttempt>)
      requires Valid()
      modifies this`attempts, this`nextAttemptId
      ensures Valid()
      ensures attempt.None? <==> !(data.userId in UserIds(users) && Refers(data.quizId, QuizIds(quizzes)))
      ensures attempt.None? ==> attempts == old(attempts)
      ensures attempt.Some? ==> attempt.value == QuizAttempt(old(nextAttemptId), Some(data.userId), data.quizId,
                                                             data.selectedAnswer, data.isCorrect, now)
      ensures attempt.Some? ==> attempts == old(attempts) + [attempt.value]
      ensures nextAttemptId == old(nextAttemptId) + 1
    {
      var row := QuizAttempt(nextAttemptId, Some(data.userId), data.quizId, data.selectedAnswer, data.isCorrect, now);
      SerialAppend(attempts, (a: QuizAttempt) => a.id, nextAttemptId, row);
      nextAttemptId := nextAttemptId + 1;
      if !AttemptRefsOk(row, users, quizzes) {
        return None;
      }
      attempts := attempts + [row];
      attempt := Some(row);
    }

    /** `getUserQuizAttempts`: the user's attempts, narrowed to the quiz only when `quizId` is
        truthy, newest first. */
    function GetUserQuizAttempts(userId: string, quizId: Option<int>): (r: seq<QuizAttempt>)
      reads this
      ensures forall a :: multiset(r)[a] == if SelectsAttempt(a, userId, quizId) then multiset(attempts)[a] else 0
      ensures forall i, j :: 0 <= i < j < |r| ==> r[i].attemptedAt >= r[j].attemptedAt
    {
      var quiz := IdFilter(quizId);
      var key := (a: QuizAttempt) => [-(a.attemptedAt as int)];
      var r := SortBy(Filter(attempts, (a: QuizAttempt) => a.userId == Some(userId) && (quiz.None? || a.quizId == quiz)), key);
      SortedBySingle(r, key, (a: QuizAttempt) => -(a.attemptedAt as int));
      r
    }

    // --- certificates ---

    /** `issueCertificate`: appends with no duplicate check, even when the user already holds one
        for the course; `None` when the user or the course does not exist, which leaves the table
        as it was but uses up the id. */
    method IssueCertificate(data: InsertCertificate, now: Timestamp) returns (certificate: Option<Certificate>)
      requires Valid()
      modifies this`certificates, this`nextCertificateId
      ensures Valid()
      ensures certificate.None? <==> !(data.userId in UserIds(users) && Refers(data.courseId, CourseIds(courses)))
      ensures certificate.None? ==> certificates == old(certificates)
      ensures certificate.Some? ==> certificate.value == Certificate(old(nextCertificateId), Some(data.userId),
                                                                     data.courseId, now)
      ensures certificate.Some? ==> certificates == old(certificates) + [certificate.value]
      ensures nextCertificateId == old(nextCertificateId) + 1
    {
      var row := Certificate(nextCertificateId, Some(data.userId), data.courseId, now);
      SerialAppend(certificates, (c: Certificate) => c.id, nextCertificateId, row);
      nextCertificateId := nextCertificateId + 1;
      if !CertificateRefsOk(row, users, courses) {
        return None;
      }
      certificates := certificates + [row];
      certificate := Some(row);
    }

    /** `getUserCertificates`: the user's certificates, newest first. */
    function GetUserCertificates(userId: string): (r: seq<Certificate>)
      reads this
      ensures forall c :: multiset(r)[c] == if c.userId == Some(userId) then multiset(certificates)[c] else 0
      ensures forall i, j :: 0 <= i < j < |r| ==> r[i].issuedAt >= r[j].issuedAt
    {
      var key := (c: Certificate) => [-(c.issuedAt as int)];
      var r := SortBy(Filter(certificates, (c: Certificate) => c.userId == Some(userId)), key);
      SortedBySingle(r, key, (c: Certificate) => -(c.issuedAt as int));
      r
    }
  }
}
