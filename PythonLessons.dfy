/** The lesson viewer page (client/src/pages/PythonLessons.tsx): which lesson is shown, the
    editor, quiz and hint state, and the requests its handlers send. The requests are returned
    to the caller instead of being posted. */
module PythonLessons {
  import opened Wrappers
  import Query
  import Evaluator
  import Text

  /** The fields of a lesson's JSON `content` that the page reads; a field that is missing or
      of another JSON type is `None`. */
  datatype LessonContent = LessonContent(
    starterCode: Option<string>,
    correctAnswer: Option<int>,
    explanation: Option<string>)

  /** A lesson as the lessons query returns it; `kind` is the `type` column. */
  datatype Lesson = Lesson(
    id: int,
    chapterId: int,
    title: string,
    kind: string,
    content: LessonContent,
    orderIndex: int,
    xpReward: int)

  datatype LessonProgress = LessonProgress(
    id: int,
    userId: string,
    lessonId: int,
    completed: bool,
    attempts: int,
    lastAttemptCode: Option<string>)

  /** The body of `POST /api/lesson-progress`. */
  datatype CompletionRequest = CompletionRequest(lessonId: int, completed: bool, lastAttemptCode: Option<string>)

  /** The body of `POST /api/execute-python`. */
  datatype RunRequest = RunRequest(code: string, lessonType: string)

  const CodeExercise := "code_exercise"
  const QuizKind := "quiz"

  /** JavaScript truthiness of an optional string: absent and `""` are falsy. */
  predicate Truthy(s: Option<string>) {
    s.Some? && s.value != ""
  }

  // ----- derived values -----

  /** `isLastLesson`. */
  predicate IsLastLesson(index: nat, count: nat) {
    index == count - 1
  }

  /** `handleNextLesson`: one lesson on, unless this is the last one. */
  function NextIndex(index: nat, count: nat): (r: nat)
    requires index < count
    ensures r < count
    ensures r == index <==> IsLastLesson(index, count)
    ensures r != index ==> r == index + 1
  {
    if IsLastLesson(index, count) then index else index + 1
  }

  /** `handlePrevLesson`: one lesson back, unless this is the first one. */
  function PrevIndex(index: nat): (r: nat)
    ensures r <= index
    ensures r == index <==> index == 0
    ensures r != index ==> r == index - 1
  {
    if index > 0 then index - 1 else index
  }

  /** `k` is the first entry for the lesson. */
  predicate FirstFor(progress: seq<LessonProgress>, lessonId: int, k: int) {
    0 <= k < |progress| && progress[k].lessonId == lessonId &&
    forall m :: 0 <= m < k ==> progress[m].lessonId != lessonId
  }

  /** `userProgress?.find(p => p.lessonId === lessonId)`. */
  function FindProgress(progress: seq<LessonProgress>, lessonId: int): (r: Option<LessonProgress>)
    ensures r.Some? ==> r.value in progress && r.value.lessonId == lessonId
    ensures r.Some? ==> exists k :: FirstFor(progress, lessonId, k) && progress[k] == r.value
    ensures r.None? <==> forall k :: 0 <= k < |progress| ==> progress[k].lessonId != lessonId
  {
    match Query.FirstWhere(progress, (p: LessonProgress) => p.lessonId == lessonId)
    case Some(k) => Some(progress[k])
    case None => None
  }

  /** `isCurrentLessonCompleted`. */
  function IsLessonCompleted(progress: seq<LessonProgress>, lessonId: int, lessonCompleted: bool): (r: bool)
    ensures lessonCompleted ==> r
    ensures (forall k :: 0 <= k < |progress| ==> progress[k].lessonId != lessonId) ==> (r <==> lessonCompleted)
  {
    var entry := FindProgress(progress, lessonId);
    (entry.Some? && entry.value.completed) || lessonCompleted
  }

  /** A lesson counts as completed iff its first progress entry says so or the local flag is set;
      later entries for the same lesson are never consulted. */
  lemma IsLessonCompletedIff(progress: seq<LessonProgress>, lessonId: int, lessonCompleted: bool)
    ensures IsLessonCompleted(progress, lessonId, lessonCompleted) <==>
      lessonCompleted ||
      exists k :: FirstFor(progress, lessonId, k) && progress[k].completed
  {
    var found := Query.FirstWhere(progress, (p: LessonProgress) => p.lessonId == lessonId);
    if found.Some? {
      var k := found.value;
      forall k' | FirstFor(progress, lessonId, k')
        ensures k' == k
      {
      }
    }
  }

  /** `handleRunCode`'s `lessonType`. */
  function EvaluatorType(kind: string): (t: string)
    ensures t == "variables" || t == "general"
    ensures t == "variables" <==> kind == CodeExercise
  {
    if kind == CodeExercise then "variables" else "general"
  }

  /** What the server answers to Run Code: code exercises are graded by the variables rules,
      every other lesson by the default branch, which never fails. */
  lemma RunCodeOutcome(kind: string, code: string, expectedOutput: string)
    ensures var r := Evaluator.Evaluate(code, expectedOutput, EvaluatorType(kind));
      && (kind != CodeExercise ==> r.success && r.explanation == "")
      && (kind == CodeExercise ==>
           (r.success <==> Text.Contains(code, "name = \"") && Text.Contains(code, "age = ") && Text.Contains(code, "print(")))
  {
    if kind == CodeExercise {
      Evaluator.VariablesRules(code, expectedOutput);
    }
  }

  /** `handleCompleteLesson`'s request. */
  function CompletionRequestFor(lesson: Lesson, userCode: string): (r: CompletionRequest)
    ensures r.lessonId == lesson.id && r.completed
    ensures r.lastAttemptCode.Some? <==> lesson.kind == CodeExercise
    ensures r.lastAttemptCode.Some? ==> r.lastAttemptCode.value == userCode
  {
    CompletionRequest(lesson.id, true, if lesson.kind == CodeExercise then Some(userCode) else None)
  }

  /** The editor text the per-lesson effect sets: the last attempt if there is a non-empty one,
      else the starter code, and only for code exercises that have starter code. */
  function CodeOnLessonChange(lesson: Lesson, entry: Option<LessonProgress>, userCode: string): (code: string)
    ensures lesson.kind != CodeExercise || !Truthy(lesson.content.starterCode) ==> code == userCode
    ensures HasStarter(lesson) ==> code != ""
    ensures HasStarter(lesson) ==>
      Some(code) == lesson.content.starterCode || (entry.Some? && entry.value.lastAttemptCode == Some(code))
    ensures HasStarter(lesson) && entry.Some? && Truthy(entry.value.lastAttemptCode) ==>
      Some(code) == entry.value.lastAttemptCode
  {
    if lesson.kind == CodeExercise && Truthy(lesson.content.starterCode) then
      if entry.Some? && Truthy(entry.value.lastAttemptCode) then entry.value.lastAttemptCode.value
      else lesson.content.starterCode.value
    else userCode
  }

  /** A code exercise with starter code: the lessons whose editor the effect fills. */
  predicate HasStarter(lesson: Lesson) {
    lesson.kind == CodeExercise && Truthy(lesson.content.starterCode)
  }

  /** Running the effect again with the same progress entry changes nothing. */
  lemma CodeOnLessonChangeIdempotent(lesson: Lesson, entry: Option<LessonProgress>, userCode: string)
    ensures var code := CodeOnLessonChange(lesson, entry, userCode);
      CodeOnLessonChange(lesson, entry, code) == code
  {
  }

  /** Where the effect fills the editor, what was typed before does not matter. */
  lemma CodeOnLessonChangeIgnoresEditor(lesson: Lesson, entry: Option<LessonProgress>, typed1: string, typed2: string)
    requires HasStarter(lesson)
    ensures CodeOnLessonChange(lesson, entry, typed1) == CodeOnLessonChange(lesson, entry, typed2)
  {
  }

  // ----- parseInt and toString -----

  /** The characters `parseInt` skips at the start: ECMAScript's white space and line terminators. */
  predicate IsJsWhiteSpace(c: char) {
    c == '\t' || c == '\U{000B}' || c == '\U{000C}' || c == ' ' || c == '\U{00A0}' || c == '\U{FEFF}' ||
    c == '\n' || c == '\r' || c == '\U{2028}' || c == '\U{2029}' ||
    c == '\U{1680}' || ('\U{2000}' <= c <= '\U{200A}') || c == '\U{202F}' || c == '\U{205F}' || c == '\U{3000}'
  }

  function TrimStart(s: string): (r: string)
    ensures |r| <= |s| && r == s[|s| - |r|..]
    ensures r != [] ==> !IsJsWhiteSpace(r[0])
  {
    if s != [] && IsJsWhiteSpace(s[0]) then TrimStart(s[1..]) else s
  }

  /** The value of `c` as a digit of any radix up to 36, if it is one. */
  function DigitValue(c: char): Option<nat> {
    if '0' <= c <= '9' then Some(c as int - '0' as int)
    else if 'a' <= c <= 'z' then Some(c as int - 'a' as int + 10)
    else if 'A' <= c <= 'Z' then Some(c as int - 'A' as int + 10)
    else None
  }

  predicate IsDigit(c: char, radix: nat) {
    DigitValue(c).Some? && DigitValue(c).value < radix
  }

  /** The longest prefix of radix-`radix` digits. */
  function DigitPrefix(s: string, radix: nat): (r: string)
    ensures r <= s
    ensures forall k :: 0 <= k < |r| ==> IsDigit(r[k], radix)
    ensures |r| < |s| ==> !IsDigit(s[|r|], radix)
  {
    if s != [] && IsDigit(s[0], radix) then [s[0]] + DigitPrefix(s[1..], radix) else []
  }

  /** The number that a run of digits of radix `radix` denotes, most significant first. */
  function DigitsValue(digits: string, radix: nat): nat {
    if digits == [] then 0
    else DigitsValue(digits[..|digits| - 1], radix) * radix + DigitValue(digits[|digits| - 1]).GetOr(0)
  }

  /** A leading `-` or `+`, which `parseInt` consumes. */
  predicate HasSign(t: string) {
    t != [] && (t[0] == '-' || t[0] == '+')
  }

  predicate Negative(t: string) {
    t != [] && t[0] == '-'
  }

  function AfterSign(t: string): string {
    if HasSign(t) then t[1..] else t
  }

  /** A leading `0x` or `0X` selects radix 16; otherwise the radix is 10. */
  predicate HasHexPrefix(u: string) {
    |u| >= 2 && u[0] == '0' && (u[1] == 'x' || u[1] == 'X')
  }

  function Radix(u: string): nat {
    if HasHexPrefix(u) then 16 else 10
  }

  function AfterRadix(u: string): string {
    if HasHexPrefix(u) then u[2..] else u
  }

  /** `parseInt(s)` with no radix: skip leading white space, take one sign, switch to radix 16
      after `0x` or `0X`, and read the longest run of digits; `None` is NaN. */
  function ParseInt(s: string): (r: Option<int>)
    ensures TrimStart(s) == [] ==> r.None?
  {
    var t := TrimStart(s);
    assert t == [] ==> AfterRadix(AfterSign(t)) == [];
    match ParseUnsigned(AfterSign(t))
    case None => None
    case Some(magnitude) => Some(Signed(Negative(t), magnitude))
  }

  function Signed(negative: bool, magnitude: nat): int {
    if negative then -(magnitude as int) else magnitude
  }

  /** What follows the sign: an optional radix prefix, then the longest run of digits. */
  function ParseUnsigned(u: string): Option<nat> {
    var digits := DigitPrefix(AfterRadix(u), Radix(u));
    if digits == [] then None else Some(DigitsValue(digits, Radix(u)))
  }

  function DigitChar(d: nat): (c: char)
    requires d < 10
    ensures DigitValue(c) == Some(d)
  {
    ('0' as int + d) as char
  }

  /** `n.toString()` for a non-negative integer: its decimal digits. */
  function NatToString(n: nat): (s: string)
    ensures s != []
    ensures forall k :: 0 <= k < |s| ==> IsDigit(s[k], 10)
    ensures s[0] == '0' ==> n == 0 && |s| == 1
  {
    if n < 10 then [DigitChar(n)] else NatToString(n / 10) + [DigitChar(n % 10)]
  }

  lemma {:induction false} NatToStringValue(n: nat)
    ensures DigitsValue(NatToString(n), 10) == n
  {
    var s := NatToString(n);
    if n >= 10 {
      NatToStringValue(n / 10);
      assert s[..|s| - 1] == NatToString(n / 10);
    }
  }

  /** `parseInt` reads back what `toString` writes. */
  lemma ParseIntToString(n: nat)
    ensures ParseInt(NatToString(n)) == Some(n)
  {
    var s := NatToString(n);
    assert "" + ("" + ("" + (s + ""))) == s;
    ParseIntReads("", "", "", s, "");
    NatToStringValue(n);
  }

  /** NaN exactly when no digit of the chosen radix follows the white space, the sign and the
      radix prefix; a negative number only after a `-`. */
  lemma ParseIntNaN(s: string)
    ensures var u := AfterSign(TrimStart(s)); var w := AfterRadix(u);
      && (ParseInt(s).None? <==> w == [] || !IsDigit(w[0], Radix(u)))
      && (ParseInt(s).Some? && ParseInt(s).value < 0 ==> Negative(TrimStart(s)))
  {
  }

  predicate AllWhiteSpace(ws: string) {
    forall k :: 0 <= k < |ws| ==> IsJsWhiteSpace(ws[k])
  }

  predicate AllDigits(digits: string, radix: nat) {
    forall k :: 0 <= k < |digits| ==> IsDigit(digits[k], radix)
  }

  /** Leading white space is skipped up to the first other character. */
  lemma {:induction false} TrimStartSkips(ws: string, t: string)
    requires AllWhiteSpace(ws)
    requires t != [] && !IsJsWhiteSpace(t[0])
    ensures TrimStart(ws + t) == t
  {
    if ws != [] {
      assert (ws + t)[0] == ws[0];
      assert (ws + t)[1..] == ws[1..] + t;
      TrimStartSkips(ws[1..], t);
    }
  }

  /** The digit run stops at the first character that is not a digit. */
  lemma {:induction false} DigitPrefixStops(digits: string, rest: string, radix: nat)
    requires AllDigits(digits, radix)
    requires rest == [] || !IsDigit(rest[0], radix)
    ensures DigitPrefix(digits + rest, radix) == digits
  {
    if digits != [] {
      assert (digits + rest)[0] == digits[0];
      assert (digits + rest)[1..] == digits[1..] + rest;
      DigitPrefixStops(digits[1..], rest, radix);
    } else {
      assert digits + rest == rest;
    }
  }

  /** The radix `parseInt` uses after the prefix `prefix`. */
  function PrefixRadix(prefix: string): nat {
    if prefix == "" then 10 else 16
  }

  /** The sign step takes exactly the sign that was written. */
  lemma SignOf(sign: string, body: string)
    requires sign == "" || sign == "-" || sign == "+"
    requires body != [] && body[0] != '-' && body[0] != '+'
    ensures AfterSign(sign + body) == body
    ensures Negative(sign + body) <==> sign == "-"
  {
    if sign != "" {
      assert (sign + body)[1..] == body;
    } else {
      assert sign + body == body;
    }
  }

  /** The radix step takes exactly the prefix that was written. */
  lemma RadixOf(prefix: string, digits: string, rest: string)
    requires prefix == "" || prefix == "0x" || prefix == "0X"
    requires digits != [] && AllDigits(digits, PrefixRadix(prefix))
    requires rest == [] || !IsDigit(rest[0], PrefixRadix(prefix))
    requires prefix == "" && digits == "0" && rest != [] ==> rest[0] != 'x' && rest[0] != 'X'
    ensures Radix(prefix + (digits + rest)) == PrefixRadix(prefix)
    ensures AfterRadix(prefix + (digits + rest)) == digits + rest
  {
    var body := prefix + (digits + rest);
    if prefix == "" {
      assert body == digits + rest;
      if |digits| >= 2 {
        assert body[1] == digits[1];
        assert IsDigit(body[1], 10);
      } else if rest != [] {
        assert body[1] == rest[0];
      }
    } else {
      assert body[..2] == prefix;
      assert body[2..] == digits + rest;
    }
  }

  /** A digit is neither a sign nor white space, and neither is a sign. */
  lemma SignOrDigitNotWhiteSpace(c: char, radix: nat)
    requires c == '-' || c == '+' || IsDigit(c, radix)
    ensures !IsJsWhiteSpace(c)
    ensures IsDigit(c, radix) ==> c != '-' && c != '+'
  {
  }

  /** The text after the white space starts with its sign or its first digit. */
  lemma FirstNonWhiteSpace(sign: string, prefix: string, digits: string, rest: string)
    requires sign == "" || sign == "-" || sign == "+"
    requires prefix == "" || prefix == "0x" || prefix == "0X"
    requires digits != [] && IsDigit(digits[0], PrefixRadix(prefix))
    ensures var body := prefix + (digits + rest);
      && body != [] && body[0] != '-' && body[0] != '+'
      && !IsJsWhiteSpace((sign + body)[0])
  {
    var radix := PrefixRadix(prefix);
    var body := prefix + (digits + rest);
    if prefix == "" {
      assert body[0] == digits[0];
      SignOrDigitNotWhiteSpace(digits[0], radix);
    } else {
      assert body[0] == '0';
      assert IsDigit('0', radix);
    }
    SignOrDigitNotWhiteSpace(body[0], radix);
    if sign == "" {
      assert sign + body == body;
    } else {
      assert (sign + body)[0] == sign[0];
    }
    SignOrDigitNotWhiteSpace((sign + body)[0], radix);
  }

  /** The unsigned part reads the digits after the written prefix. */
  lemma ParseUnsignedOf(prefix: string, digits: string, rest: string)
    requires prefix == "" || prefix == "0x" || prefix == "0X"
    requires digits != [] && AllDigits(digits, PrefixRadix(prefix))
    requires rest == [] || !IsDigit(rest[0], PrefixRadix(prefix))
    requires prefix == "" && digits == "0" && rest != [] ==> rest[0] != 'x' && rest[0] != 'X'
    ensures ParseUnsigned(prefix + (digits + rest)) == Some(DigitsValue(digits, PrefixRadix(prefix)))
  {
    RadixOf(prefix, digits, rest);
    DigitPrefixStops(digits, rest, PrefixRadix(prefix));
  }

  /** `ParseInt` from the results of its steps. */
  lemma ParseIntOfParts(s: string, t: string, body: string, magnitude: nat)
    requires TrimStart(s) == t && AfterSign(t) == body && ParseUnsigned(body) == Some(magnitude)
    ensures ParseInt(s) == Some(Signed(Negative(t), magnitude))
  {
  }

  /** Reading a string laid out as `parseInt` expects it: white space, at most one sign, an
      optional `0x` or `0X`, a non-empty run of digits of the chosen radix, and anything that
      does not continue the run. The result is the signed value of the run. */
  lemma ParseIntReads(ws: string, sign: string, prefix: string, digits: string, rest: string)
    requires AllWhiteSpace(ws)
    requires sign == "" || sign == "-" || sign == "+"
    requires prefix == "" || prefix == "0x" || prefix == "0X"
    requires digits != [] && AllDigits(digits, PrefixRadix(prefix))
    requires rest == [] || !IsDigit(rest[0], PrefixRadix(prefix))
    requires prefix == "" && digits == "0" && rest != [] ==> rest[0] != 'x' && rest[0] != 'X'
    ensures ParseInt(ws + (sign + (prefix + (digits + rest)))) ==
      Some(Signed(sign == "-", DigitsValue(digits, PrefixRadix(prefix))))
  {
    var body := prefix + (digits + rest);
    var t := sign + body;
    assert IsDigit(digits[0], PrefixRadix(prefix));
    FirstNonWhiteSpace(sign, prefix, digits, rest);
    TrimStartSkips(ws, t);
    SignOf(sign, body);
    ParseUnsignedOf(prefix, digits, rest);
    ParseIntOfParts(ws + t, t, body, DigitsValue(digits, PrefixRadix(prefix)));
  }

  /** `parseInt(answer) === content.correctAnswer`: NaN equals nothing. */
  function IsCorrectAnswer(answer: string, correctAnswer: Option<int>): (r: bool)
    ensures correctAnswer.None? ==> !r
    ensures TrimStart(answer) == [] ==> !r
    ensures r ==> ParseInt(answer) == correctAnswer
  {
    ParseInt(answer).Some? && ParseInt(answer) == correctAnswer
  }

  /** The quiz radio buttons carry `index.toString()`: choosing option `i` is graded correct
      exactly when `i` is the stored answer. */
  lemma OptionGrading(i: nat, correctAnswer: Option<int>)
    ensures IsCorrectAnswer(NatToString(i), correctAnswer) <==> correctAnswer == Some(i)
  {
    ParseIntToString(i);
  }

  // ----- the component state -----

  class LessonViewer {
    /** The data of the lessons and lesson-progress queries. */
    var lessons: seq<Lesson>
    var userProgress: seq<LessonProgress>

    var currentLessonIndex: nat
    var userCode: string
    var selectedAnswer: string
    var showHint: bool
    var lessonCompleted: bool

    /** The page renders its handlers only with at least one lesson and an index in range. */
    ghost predicate Valid()
      reads this
    {
      currentLessonIndex < |lessons|
    }

    function CurrentLesson(): Lesson
      reads this
      requires Valid()
    {
      lessons[currentLessonIndex]
    }

    function IsLast(): bool
      reads this
      requires Valid()
    {
      IsLastLesson(currentLessonIndex, |lessons|)
    }

    function IsCurrentLessonCompleted(): bool
      reads this
      requires Valid()
    {
      IsLessonCompleted(userProgress, CurrentLesson().id, lessonCompleted)
    }

    /** The page mounts on the first lesson, and the per-lesson effect runs once. */
    constructor (lessons: seq<Lesson>, userProgress: seq<LessonProgress>)
      requires |lessons| > 0
      ensures Valid()
      ensures this.lessons == lessons && this.userProgress == userProgress && currentLessonIndex == 0
      ensures userCode == CodeOnLessonChange(lessons[0], FindProgress(userProgress, lessons[0].id), "")
      ensures selectedAnswer == "" && !showHint && !lessonCompleted
    {
      this.lessons := lessons;
      this.userProgress := userProgress;
      currentLessonIndex := 0;
      selectedAnswer := "";
      showHint := false;
      lessonCompleted := false;
      userCode := CodeOnLessonChange(lessons[0], FindProgress(userProgress, lessons[0].id), "");
    }

    /** The effect on `[currentLesson, currentLessonProgress]`. */
    method LessonChanged()
      requires Valid()
      modifies this`userCode, this`lessonCompleted, this`selectedAnswer, this`showHint
      ensures userCode == CodeOnLessonChange(CurrentLesson(), FindProgress(userProgress, CurrentLesson().id), old(userCode))
      ensures !lessonCompleted && selectedAnswer == "" && !showHint
    {
      var lesson := lessons[currentLessonIndex];
      userCode := CodeOnLessonChange(lesson, FindProgress(userProgress, lesson.id), userCode);
      lessonCompleted := false;
      selectedAnswer := "";
      showHint := false;
    }

    /** `handleNextLesson`, followed by the effect when the lesson changed. */
    method NextLesson()
      requires Valid()
      modifies this`currentLessonIndex, this`userCode, this`lessonCompleted, this`selectedAnswer, this`showHint
      ensures Valid()
      ensures currentLessonIndex == NextIndex(old(currentLessonIndex), |lessons|)
      ensures old(IsLast()) ==> unchanged(this)
      ensures !old(IsLast()) ==> !lessonCompleted && selectedAnswer == "" && !showHint
      ensures !old(IsLast()) ==> userCode == CodeOnLessonChange(CurrentLesson(), FindProgress(userProgress, CurrentLesson().id), old(userCode))
    {
      if !IsLastLesson(currentLessonIndex, |lessons|) {
        currentLessonIndex := currentLessonIndex + 1;
        LessonChanged();
      }
    }

    /** `handlePrevLesson`, followed by the effect when the lesson changed. */
    method PrevLesson()
      requires Valid()
      modifies this`currentLessonIndex, this`userCode, this`lessonCompleted, this`selectedAnswer, this`showHint
      ensures Valid()
      ensures currentLessonIndex == PrevIndex(old(currentLessonIndex))
      ensures old(currentLessonIndex) == 0 ==> unchanged(this)
      ensures old(currentLessonIndex) > 0 ==> !lessonCompleted && selectedAnswer == "" && !showHint
      ensures old(currentLessonIndex) > 0 ==> userCode == CodeOnLessonChange(CurrentLesson(), FindProgress(userProgress, CurrentLesson().id), old(userCode))
    {
      if currentLessonIndex > 0 {
        currentLessonIndex := currentLessonIndex - 1;
        LessonChanged();
      }
    }

    /** A click on the tab of lesson `index`; the tabs exist only for indices in range. */
    method SelectLesson(index: nat)
      requires Valid() && index < |lessons|
      modifies this`currentLessonIndex, this`userCode, this`lessonCompleted, this`selectedAnswer, this`showHint
      ensures Valid() && currentLessonIndex == index
      ensures index == old(currentLessonIndex) ==> unchanged(this)
      ensures index != old(currentLessonIndex) ==> !lessonCompleted && selectedAnswer == "" && !showHint
      ensures index != old(currentLessonIndex) ==> userCode == CodeOnLessonChange(CurrentLesson(), FindProgress(userProgress, CurrentLesson().id), old(userCode))
    {
      if index != currentLessonIndex {
        currentLessonIndex := index;
        LessonChanged();
      }
    }

    /** `handleQuizAnswer`: the answer is selected; on a quiz lesson a correct answer sends the
        completion request, a wrong one sends nothing. */
    method QuizAnswer(answer: string) returns (request: Option<CompletionRequest>)
      requires Valid()
      modifies this`selectedAnswer
      ensures selectedAnswer == answer
      ensures request.Some? <==> CurrentLesson().kind == QuizKind && IsCorrectAnswer(answer, CurrentLesson().content.correctAnswer)
      ensures request.Some? ==> request.value == CompletionRequestFor(CurrentLesson(), userCode)
    {
      selectedAnswer := answer;
      var lesson := lessons[currentLessonIndex];
      if lesson.kind == QuizKind && IsCorrectAnswer(answer, lesson.content.correctAnswer) {
        request := Some(CompletionRequestFor(lesson, userCode));
      } else {
        request := None;
      }
    }

    /** `handleCompleteLesson`. */
    function CompleteLesson(): (r: CompletionRequest)
      reads this
      requires Valid()
      ensures r.lessonId == CurrentLesson().id && r.completed
      ensures r.lastAttemptCode.Some? <==> CurrentLesson().kind == CodeExercise
      ensures r.lastAttemptCode.Some? ==> r.lastAttemptCode.value == userCode
    {
      CompletionRequestFor(CurrentLesson(), userCode)
    }

    /** `handleRunCode`. */
    function RunCode(): (r: RunRequest)
      reads this
      requires Valid()
      ensures r.code == userCode
      ensures r.lessonType == "variables" || r.lessonType == "general"
      ensures r.lessonType == "variables" <==> CurrentLesson().kind == CodeExercise
    {
      RunRequest(userCode, EvaluatorType(CurrentLesson().kind))
    }

    /** The completion request's `onSuccess`. */
    method CompletionSucceeded()
      modifies this`lessonCompleted
      ensures lessonCompleted
    {
      lessonCompleted := true;
    }

    /** The Show/Hide Hint button. */
    method ToggleHint()
      modifies this`showHint
      ensures showHint == !old(showHint)
    {
      showHint := !showHint;
    }

    /** Typing in the editor. */
    method EditCode(code: string)
      modifies this`userCode
      ensures userCode == code
    {
      userCode := code;
    }

    /** The lesson-progress query delivers new data. The query library keeps an entry that did not
        change, so the effect runs again only when the current lesson's entry changed. */
    method ProgressRefetched(progress: seq<LessonProgress>)
      requires Valid()
      modifies this`userProgress, this`userCode, this`lessonCompleted, this`selectedAnswer, this`showHint
      ensures Valid() && userProgress == progress
      ensures var before := FindProgress(old(userProgress), CurrentLesson().id);
        var after := FindProgress(progress, CurrentLesson().id);
        && (before == after ==> userCode == old(userCode) && lessonCompleted == old(lessonCompleted)
                                && selectedAnswer == old(selectedAnswer) && showHint == old(showHint))
        && (before != after ==> userCode == CodeOnLessonChange(CurrentLesson(), after, old(userCode))
                                && !lessonCompleted && selectedAnswer == "" && !showHint)
    {
      var lesson := lessons[currentLessonIndex];
      var before := FindProgress(userProgress, lesson.id);
      userProgress := progress;
      if FindProgress(progress, lesson.id) != before {
        LessonChanged();
      }
    }
  }
}
