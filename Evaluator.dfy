/** The mock Python evaluator behind `POST /api/execute-python` (server/routes.ts).
    Nothing is executed: the submitted text is checked for fixed substrings, one block of
    rules per lesson type, and a canned answer is returned. */
module Evaluator {
  import opened Wrappers
  import opened Text

  /** The response body `{ output, success, explanation }`. */
  datatype Execution = Execution(output: string, success: bool, explanation: string)

  /** The values the handler starts from: a branch that assigns nothing returns these. */
  const Unset := Execution("", true, "")

  const VariablesOutput := "Alice\n25\nHello, I'm Alice and I'm 25 years old."
  const FunctionsOutput := "Hello, World!\nHello, Alice!\n✓ Excellent! Your function works correctly with different inputs."
  const ConditionalsOutput := "You're an adult!\nYou're a minor.\n✓ Perfect! Your conditional logic handles both cases correctly."
  const LoopsOutput := "0\n1\n2\n3\n4\n✓ Great! You've successfully created a loop that prints numbers."
  const ListsOutput := "['apple', 'banana', 'orange', 'grape']\n✓ Excellent! You've created and modified a list."

  const VariablesExplanation := "Perfect! You've successfully created variables and used them in a formatted string."
  const FunctionsExplanation := "Great job creating a reusable function that accepts parameters!"
  const ConditionalsExplanation := "Excellent use of if/else statements to make decisions in your code!"
  const LoopsExplanation := "Perfect! You understand how to use for loops with range."
  const ListsExplanation := "Great work with list operations!"

  /** Every failure message starts with this. */
  const ErrorPrefix := "Error: "

  const MissingName := ErrorPrefix + "Missing name variable assignment"
  const MissingAge := ErrorPrefix + "Missing age variable assignment"
  const MissingPrint := ErrorPrefix + "Make sure to print your variables"
  const MissingDef := ErrorPrefix + "You need to define a function using 'def'"
  const MissingReturn := ErrorPrefix + "Your function should return a value"
  const MissingIf := ErrorPrefix + "You need to use an 'if' statement"
  const MissingElse := ErrorPrefix + "Don't forget the 'else' case"
  const MissingFor := ErrorPrefix + "You need to use a 'for' loop"
  const MissingBracket := ErrorPrefix + "You need to create a list using square brackets []"

  /** Written in pieces only so that the verifier can check each piece for quotes. */
  const NoPrintMessage := "Code executed" + " successfully" + ". Try adding" + " a print stat" + "ement to see " + "output!"
  const NoMatchMessage := "Hello, World!"

  /** A failed check: `success = false`, the message in `output`, and the explanation left unset. */
  function Failure(message: string): Execution {
    Execution(message, false, "")
  }

  /** The lesson types that have a block of their own; every other string takes the default branch. */
  const RuleTypes: set<string> := {"variables", "functions", "conditionals", "loops", "lists"}

  predicate IsQuote(c: char) { c == '\'' || c == '"' }

  predicate NoQuotes(s: string) { '\'' !in s && '"' !in s }

  /** JavaScript's line terminators: the characters the regular-expression `.` does not match. */
  predicate IsLineTerminator(c: char) {
    c == '\n' || c == '\r' || c == '\U{2028}' || c == '\U{2029}'
  }

  /** `s.replace(/['"]/g, '')`: every single and double quote removed. */
  function StripQuotes(s: string): (r: string)
    ensures NoQuotes(r)
    ensures |r| <= |s|
    ensures forall c :: c in r ==> c in s
  {
    if s == [] then []
    else (if IsQuote(s[0]) then [] else [s[0]]) + StripQuotes(s[1..])
  }

  lemma {:induction false} StripQuotesConcat(a: string, b: string)
    ensures StripQuotes(a + b) == StripQuotes(a) + StripQuotes(b)
  {
    if a == [] {
      assert a + b == b;
    } else {
      var head := if IsQuote(a[0]) then [] else [a[0]];
      assert (a + b)[0] == a[0];
      assert (a + b)[1..] == a[1..] + b;
      assert StripQuotes(a + b) == head + StripQuotes(a[1..] + b);
      StripQuotesConcat(a[1..], b);
      assert StripQuotes(a) == head + StripQuotes(a[1..]);
    }
  }

  /** Text without quotes is left as it is; so stripping twice is stripping once. */
  lemma {:induction false} StripQuotesKeepsQuoteFree(s: string)
    requires NoQuotes(s)
    ensures StripQuotes(s) == s
  {
    if s != [] {
      StripQuotesKeepsQuoteFree(s[1..]);
    }
  }

  lemma StripQuotesIdempotent(s: string)
    ensures StripQuotes(StripQuotes(s)) == StripQuotes(s)
  {
    StripQuotesKeepsQuoteFree(StripQuotes(s));
  }

  /** The lazy group of `/print\((.*?)\)/` started at `k` stops at `j`: `j` holds the first `)`
      from `k` on, and no line terminator comes before it. */
  ghost predicate ClosesAt(code: string, k: nat, j: nat) {
    k <= j < |code| && code[j] == ')' &&
    forall m :: k <= m < j ==> code[m] != ')' && !IsLineTerminator(code[m])
  }

  /** `/print\((.*?)\)/` matches at `i`, capturing `code[i + 6..j]`. */
  ghost predicate IsMatch(code: string, i: nat, j: nat) {
    OccursAt(code, "print(", i) && ClosesAt(code, i + 6, j)
  }

  /** Scanning for the `)` that ends the lazy group started at `k`. */
  function CloseParen(code: string, k: nat): (r: Option<nat>)
    decreases |code| - k
    ensures r.Some? ==> ClosesAt(code, k, r.value)
    ensures r.None? ==> forall j :: !ClosesAt(code, k, j)
  {
    if k >= |code| then None
    else if code[k] == ')' then Some(k)
    else if IsLineTerminator(code[k]) then None
    else
      var r := CloseParen(code, k + 1);
      assert forall j :: ClosesAt(code, k, j) ==> ClosesAt(code, k + 1, j);
      r
  }

  /** `code.match(/print\((.*?)\)/)` searched from index `from`: the leftmost start with a match,
      and where its capture ends. */
  function FindPrintCall(code: string, from: nat): (r: Option<(nat, nat)>)
    decreases |code| - from
    ensures r.Some? ==> from <= r.value.0 && IsMatch(code, r.value.0, r.value.1)
    ensures r.Some? ==> forall i, j :: from <= i < r.value.0 ==> !IsMatch(code, i, j)
    ensures r.None? ==> forall i, j :: from <= i ==> !IsMatch(code, i, j)
  {
    if from + 6 > |code| then None
    else if OccursAt(code, "print(", from) && CloseParen(code, from + 6).Some? then
      Some((from, CloseParen(code, from + 6).value))
    else
      FindPrintCall(code, from + 1)
  }

  /** A start index has at most one match: the lazy group always ends at the first `)`. */
  lemma MatchEndUnique(code: string, i: nat, j1: nat, j2: nat)
    requires IsMatch(code, i, j1) && IsMatch(code, i, j2)
    ensures j1 == j2
  {
  }

  /** The default branch (lines 296-307): the first `print(...)` argument without its quotes,
      "Hello, World!" when `print(` occurs but the pattern does not match, and a fixed hint
      when `print(` does not occur. */
  function GeneralOutput(code: string): (out: string)
    ensures NoQuotes(out)
  {
    if Contains(code, "print(") then
      match FindPrintCall(code, 0)
      case Some((i, j)) => StripQuotes(code[i + 6..j])
      case None => NoMatchMessage
    else
      NoPrintMessageQuoteFree();
      NoPrintMessage
  }

  lemma NoPrintMessageQuoteFree()
    ensures NoQuotes(NoPrintMessage)
  {
    assert NoQuotes("Code executed") && NoQuotes(" successfully") && NoQuotes(". Try adding");
    assert NoQuotes(" a print stat") && NoQuotes("ement to see ") && NoQuotes("output!");
  }

  /** The handler body: the request's `code`, `expectedOutput` and `lessonType`, and the response. */
  function Evaluate(code: string, expectedOutput: string, lessonType: string): (r: Execution)
    ensures !r.success ==> ErrorPrefix <= r.output && r.explanation == ""
    ensures lessonType !in RuleTypes ==> r.success && r.explanation == "" && NoQuotes(r.output)
  {
    if lessonType == "variables" then
      if Contains(code, "name = \"") && Contains(code, "age = ") && Contains(code, "print(") then
        Execution(VariablesOutput, true, VariablesExplanation)
      else if !Contains(code, "name = \"") then Failure(MissingName)
      else if !Contains(code, "age = ") then Failure(MissingAge)
      else Failure(MissingPrint)
    else if lessonType == "functions" then
      if Contains(code, "def greet(") && Contains(code, "return") then
        Execution(FunctionsOutput, true, FunctionsExplanation)
      else if !Contains(code, "def ") then Failure(MissingDef)
      else if !Contains(code, "return") then Failure(MissingReturn)
      else Unset
    else if lessonType == "conditionals" then
      if Contains(code, "if ") && Contains(code, "else") then
        Execution(ConditionalsOutput, true, ConditionalsExplanation)
      else if !Contains(code, "if ") then Failure(MissingIf)
      else Failure(MissingElse)
    else if lessonType == "loops" then
      if Contains(code, "for ") && Contains(code, "range(") then
        Execution(LoopsOutput, true, LoopsExplanation)
      else if !Contains(code, "for ") then Failure(MissingFor)
      else Unset
    else if lessonType == "lists" then
      if Contains(code, "[") && Contains(code, "]") && Contains(code, "append") then
        Execution(ListsOutput, true, ListsExplanation)
      else if !Contains(code, "[") then Failure(MissingBracket)
      else Unset
    else
      Execution(GeneralOutput(code), true, "")
  }

  // ----- What each block promises -----

  lemma VariablesRules(code: string, expectedOutput: string)
    ensures var r := Evaluate(code, expectedOutput, "variables");
      && (r.success <==> Contains(code, "name = \"") && Contains(code, "age = ") && Contains(code, "print("))
      && (r.success ==> r.output == VariablesOutput && r.explanation == VariablesExplanation)
      && (!Contains(code, "name = \"") ==> r == Failure(MissingName))
      && (Contains(code, "name = \"") && !Contains(code, "age = ") ==> r == Failure(MissingAge))
      && (Contains(code, "name = \"") && Contains(code, "age = ") && !Contains(code, "print(") ==> r == Failure(MissingPrint))
  {
  }

  /** Text holding `def greet(` holds `def `. */
  lemma DefGreetHasDef(code: string)
    requires Contains(code, "def greet(")
    ensures Contains(code, "def ")
  {
    var i: nat :| i <= |code| && OccursAt(code, "def greet(", i);
    assert code[i..i + 4] == code[i..i + 10][..4];
    assert OccursAt(code, "def ", i);
  }

  /** Only `def greet(` with `return` succeeds; `def ` and `return` without `def greet(`
      falls through every branch and answers an empty output with `success = true`. */
  lemma FunctionsRules(code: string, expectedOutput: string)
    ensures var r := Evaluate(code, expectedOutput, "functions");
      && (r.success && r.output != "" <==> Contains(code, "def greet(") && Contains(code, "return"))
      && (Contains(code, "def greet(") && Contains(code, "return") ==> r == Execution(FunctionsOutput, true, FunctionsExplanation))
      && (!Contains(code, "def ") ==> r == Failure(MissingDef))
      && (Contains(code, "def ") && !Contains(code, "return") ==> r == Failure(MissingReturn))
      && (Contains(code, "def ") && Contains(code, "return") && !Contains(code, "def greet(") ==> r == Unset)
  {
    if Contains(code, "def greet(") {
      DefGreetHasDef(code);
    }
  }

  lemma ConditionalsRules(code: string, expectedOutput: string)
    ensures var r := Evaluate(code, expectedOutput, "conditionals");
      && (r.success <==> Contains(code, "if ") && Contains(code, "else"))
      && (r.success ==> r.output == ConditionalsOutput && r.explanation == ConditionalsExplanation)
      && (!Contains(code, "if ") ==> r == Failure(MissingIf))
      && (Contains(code, "if ") && !Contains(code, "else") ==> r == Failure(MissingElse))
  {
  }

  /** `for ` without `range(` is not an error: it answers an empty output with `success = true`. */
  lemma LoopsRules(code: string, expectedOutput: string)
    ensures var r := Evaluate(code, expectedOutput, "loops");
      && (r.success <==> Contains(code, "for "))
      && (Contains(code, "for ") && Contains(code, "range(") ==> r == Execution(LoopsOutput, true, LoopsExplanation))
      && (!Contains(code, "for ") ==> r == Failure(MissingFor))
      && (Contains(code, "for ") && !Contains(code, "range(") ==> r == Unset)
  {
  }

  /** A `[` without `]` or `append` is not an error: it answers an empty output with `success = true`. */
  lemma ListsRules(code: string, expectedOutput: string)
    ensures var r := Evaluate(code, expectedOutput, "lists");
      && (r.success <==> Contains(code, "["))
      && (Contains(code, "[") && Contains(code, "]") && Contains(code, "append") ==> r == Execution(ListsOutput, true, ListsExplanation))
      && (!Contains(code, "[") ==> r == Failure(MissingBracket))
      && (Contains(code, "[") && !(Contains(code, "]") && Contains(code, "append")) ==> r == Unset)
  {
  }

  /** The default branch, stated against the regular expression's meaning: the leftmost match
      decides the output, with its quotes removed. */
  lemma GeneralRules(code: string, expectedOutput: string, lessonType: string)
    requires lessonType !in RuleTypes
    ensures var r := Evaluate(code, expectedOutput, lessonType);
      && r.success && r.explanation == ""
      && (!Contains(code, "print(") ==> r.output == NoPrintMessage)
      && (Contains(code, "print(") && (forall i: nat, j: nat :: !IsMatch(code, i, j)) ==> r.output == NoMatchMessage)
      && (forall i: nat, j: nat :: IsMatch(code, i, j) && (forall i': nat, j': nat :: i' < i ==> !IsMatch(code, i', j')) ==>
            r.output == StripQuotes(code[i + 6..j]))
  {
    forall i: nat, j: nat | IsMatch(code, i, j) && (forall i': nat, j': nat :: i' < i ==> !IsMatch(code, i', j'))
      ensures Evaluate(code, expectedOutput, lessonType).output == StripQuotes(code[i + 6..j])
    {
      OccursAtContains(code, "print(", i);
      var (i0, j0) := FindPrintCall(code, 0).value;
      assert i0 == i;
      MatchEndUnique(code, i, j, j0);
    }
  }

  /** Branch selection is exact string equality: any other lesson type behaves like "general". */
  lemma OtherTypesAreGeneral(code: string, expectedOutput: string, lessonType: string)
    requires lessonType !in RuleTypes
    ensures Evaluate(code, expectedOutput, lessonType) == Evaluate(code, expectedOutput, "general")
  {
  }

  /** `expectedOutput` is read from the request but never used. */
  lemma ExpectedOutputIgnored(code: string, e1: string, e2: string, lessonType: string)
    ensures Evaluate(code, e1, lessonType) == Evaluate(code, e2, lessonType)
  {
  }

  // ----- The same evaluator as an explicit rule table -----

  /** A check: when `needle` is absent, fail with `message`. */
  datatype Check = Check(needle: string, message: string)

  /** A block of rules: succeed when every `required` substring is present, otherwise fail with the
      first failing check, otherwise fall through to the unset response. */
  datatype Rule = Rule(required: seq<string>, output: string, explanation: string, checks: seq<Check>)

  function RuleFor(lessonType: string): (r: Option<Rule>)
    ensures r.Some? <==> lessonType in RuleTypes
  {
    if lessonType == "variables" then
      Some(Rule(["name = \"", "age = ", "print("], VariablesOutput, VariablesExplanation,
                [Check("name = \"", MissingName), Check("age = ", MissingAge), Check("print(", MissingPrint)]))
    else if lessonType == "functions" then
      Some(Rule(["def greet(", "return"], FunctionsOutput, FunctionsExplanation,
                [Check("def ", MissingDef), Check("return", MissingReturn)]))
    else if lessonType == "conditionals" then
      Some(Rule(["if ", "else"], ConditionalsOutput, ConditionalsExplanation,
                [Check("if ", MissingIf), Check("else", MissingElse)]))
    else if lessonType == "loops" then
      Some(Rule(["for ", "range("], LoopsOutput, LoopsExplanation, [Check("for ", MissingFor)]))
    else if lessonType == "lists" then
      Some(Rule(["[", "]", "append"], ListsOutput, ListsExplanation, [Check("[", MissingBracket)]))
    else None
  }

  function ContainsAll(code: string, needles: seq<string>): (b: bool)
    ensures b <==> forall k :: 0 <= k < |needles| ==> Contains(code, needles[k])
  {
    if needles == [] then true
    else Contains(code, needles[0]) && ContainsAll(code, needles[1..])
  }

  /** The index of the first check whose needle is absent. */
  function FirstFailing(code: string, checks: seq<Check>): (r: Option<nat>)
    ensures r.Some? ==> r.value < |checks| && !Contains(code, checks[r.value].needle)
    ensures r.Some? ==> forall k :: 0 <= k < r.value ==> Contains(code, checks[k].needle)
    ensures r.None? ==> forall k :: 0 <= k < |checks| ==> Contains(code, checks[k].needle)
  {
    if checks == [] then None
    else if !Contains(code, checks[0].needle) then Some(0)
    else match FirstFailing(code, checks[1..])
      case Some(k) => Some(k + 1)
      case None => None
  }

  function ApplyRule(code: string, rule: Rule): Execution {
    if ContainsAll(code, rule.required) then Execution(rule.output, true, rule.explanation)
    else match FirstFailing(code, rule.checks)
      case Some(k) => Failure(rule.checks[k].message)
      case None => Unset
  }

  function TableEvaluate(code: string, lessonType: string): Execution {
    match RuleFor(lessonType)
    case Some(rule) => ApplyRule(code, rule)
    case None => Execution(GeneralOutput(code), true, "")
  }

  lemma VariablesFollowsTable(code: string, expectedOutput: string)
    ensures Evaluate(code, expectedOutput, "variables") == TableEvaluate(code, "variables")
  {
    var rule := RuleFor("variables").value;
    assert ContainsAll(code, rule.required) <==>
      Contains(code, rule.required[0]) && Contains(code, rule.required[1]) && Contains(code, rule.required[2]);
    assert rule.checks[0].needle == "name = \"" && rule.checks[1].needle == "age = " && rule.checks[2].needle == "print(";
    assert FirstFailing(code, rule.checks) ==
      if !Contains(code, "name = \"") then Some(0) else if !Contains(code, "age = ") then Some(1)
      else if !Contains(code, "print(") then Some(2) else None;
  }

  lemma FunctionsFollowsTable(code: string, expectedOutput: string)
    ensures Evaluate(code, expectedOutput, "functions") == TableEvaluate(code, "functions")
  {
    var rule := RuleFor("functions").value;
    if Contains(code, "def greet(") {
      DefGreetHasDef(code);
    }
    assert ContainsAll(code, rule.required) <==> Contains(code, rule.required[0]) && Contains(code, rule.required[1]);
    assert FirstFailing(code, rule.checks) ==
      if !Contains(code, "def ") then Some(0) else if !Contains(code, "return") then Some(1) else None;
  }

  lemma ConditionalsFollowsTable(code: string, expectedOutput: string)
    ensures Evaluate(code, expectedOutput, "conditionals") == TableEvaluate(code, "conditionals")
  {
    var rule := RuleFor("conditionals").value;
    assert ContainsAll(code, rule.required) <==> Contains(code, rule.required[0]) && Contains(code, rule.required[1]);
    assert FirstFailing(code, rule.checks) ==
      if !Contains(code, "if ") then Some(0) else if !Contains(code, "else") then Some(1) else None;
  }

  lemma LoopsFollowsTable(code: string, expectedOutput: string)
    ensures Evaluate(code, expectedOutput, "loops") == TableEvaluate(code, "loops")
  {
    var rule := RuleFor("loops").value;
    assert ContainsAll(code, rule.required) <==> Contains(code, rule.required[0]) && Contains(code, rule.required[1]);
    assert FirstFailing(code, rule.checks) == if Contains(code, "for ") then None else Some(0);
  }

  lemma ListsFollowsTable(code: string, expectedOutput: string)
    ensures Evaluate(code, expectedOutput, "lists") == TableEvaluate(code, "lists")
  {
    var rule := RuleFor("lists").value;
    assert ContainsAll(code, rule.required) <==>
      Contains(code, rule.required[0]) && Contains(code, rule.required[1]) && Contains(code, rule.required[2]);
    assert FirstFailing(code, rule.checks) == if Contains(code, "[") then None else Some(0);
  }

  /** The if/else chain of the handler is exactly the rule table. */
  lemma EvaluateFollowsTable(code: string, expectedOutput: string, lessonType: string)
    ensures Evaluate(code, expectedOutput, lessonType) == TableEvaluate(code, lessonType)
  {
    if lessonType == "variables" {
      VariablesFollowsTable(code, expectedOutput);
    } else if lessonType == "functions" {
      FunctionsFollowsTable(code, expectedOutput);
    } else if lessonType == "conditionals" {
      ConditionalsFollowsTable(code, expectedOutput);
    } else if lessonType == "loops" {
      LoopsFollowsTable(code, expectedOutput);
    } else if lessonType == "lists" {
      ListsFollowsTable(code, expectedOutput);
    }
  }
}
