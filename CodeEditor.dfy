/** The textarea code editor (client/src/components/CodeEditor.tsx): the Tab key replaces the
    selection with four spaces, and the gutter shows one number per line of the value. */
module CodeEditor {
  import opened Text

  /** What the Tab key inserts. */
  const Indent := "    "

  /** JavaScript's `s.substring(a, b)` for non-negative arguments: both ends are clamped to the
      length, and swapped when the first is the larger. */
  function Substring(s: string, a: nat, b: nat): (r: string)
    ensures a <= b <= |s| ==> r == s[a..b]
    ensures b < a <= |s| ==> r == s[b..a]
    ensures |r| <= |s|
  {
    var lo := if a <= |s| then a else |s|;
    var hi := if b <= |s| then b else |s|;
    if lo <= hi then s[lo..hi] else s[hi..lo]
  }

  /** What a key press does through `handleKeyDown`: nothing, or a new value handed to
      `onChange` together with the collapsed selection set afterwards. */
  datatype KeyEffect = NoChange | Replaced(value: string, cursor: nat)

  /** `handleKeyDown` for the key `key` on `value` with the selection `[start, end)`. */
  function HandleKeyDown(key: string, value: string, start: nat, end: nat): (r: KeyEffect)
    ensures key != "Tab" <==> r == NoChange
    ensures r.Replaced? ==> r.cursor == start + 4
  {
    if key == "Tab" then
      Replaced(Substring(value, 0, start) + Indent + Substring(value, end, |value|), start + 4)
    else NoChange
  }

  /** For a selection inside the value (the only kind a textarea reports), Tab is a splice: the
      text before `start` stays, the selection becomes four spaces, the text from `end` on moves
      by `4 - (end - start)`, and the cursor lands just after the spaces. */
  lemma TabSplice(value: string, start: nat, end: nat)
    requires start <= end <= |value|
    ensures var r := HandleKeyDown("Tab", value, start, end);
      && r.Replaced?
      && r.value == value[..start] + Indent + value[end..]
      && |r.value| == |value| - (end - start) + 4
      && r.value[..start] == value[..start]
      && r.value[start..r.cursor] == Indent
      && (forall k :: end <= k < |value| ==> r.value[k - (end - start) + 4] == value[k])
      && r.cursor <= |r.value|
  {
    var r := HandleKeyDown("Tab", value, start, end);
    assert Substring(value, 0, start) == value[..start];
    assert Substring(value, end, |value|) == value[end..];
    assert r.value == value[..start] + Indent + value[end..];
    forall k | end <= k < |value|
      ensures r.value[k - (end - start) + 4] == value[k]
    {
      assert r.value[k - (end - start) + 4] == value[end..][k - end];
    }
  }

  // ----- The gutter: value.split('\n') -----

  /** `s.split('\n')`: the pieces between line breaks, in order. */
  function Split(s: string): (lines: seq<string>)
    ensures |lines| >= 1
    ensures forall i :: 0 <= i < |lines| ==> '\n' !in lines[i]
  {
    if s == [] then [""]
    else
      var rest := Split(s[1..]);
      if s[0] == '\n' then [""] + rest
      else [[s[0]] + rest[0]] + rest[1..]
  }

  /** `lines.join('\n')`. */
  function Join(lines: seq<string>): string {
    if |lines| == 0 then ""
    else if |lines| == 1 then lines[0]
    else lines[0] + "\n" + Join(lines[1..])
  }

  /** Splitting loses nothing: joining the lines back gives the value. */
  lemma {:induction false} JoinSplit(s: string)
    ensures Join(Split(s)) == s
  {
    if s != [] {
      var rest := Split(s[1..]);
      JoinSplit(s[1..]);
      if s[0] == '\n' {
        assert Split(s) == [""] + rest;
        assert ([""] + rest)[1..] == rest;
        assert Join(Split(s)) == "" + "\n" + Join(rest);
      } else {
        var lines := [[s[0]] + rest[0]] + rest[1..];
        assert Split(s) == lines;
        if |rest| == 1 {
          assert Join(lines) == [s[0]] + rest[0];
        } else {
          assert lines[1..] == rest[1..];
          assert Join(lines) == [s[0]] + rest[0] + "\n" + Join(rest[1..]);
        }
      }
    }
  }

  /** There is one more line than there are line breaks. */
  lemma {:induction false} SplitCount(s: string)
    ensures |Split(s)| == Count(s, '\n') + 1
  {
    if s != [] {
      SplitCount(s[1..]);
    }
  }

  /** The gutter numbers `1, 2, ...`, one per line of `value`. */
  function LineNumbers(value: string): (numbers: seq<nat>)
    ensures |numbers| == Count(value, '\n') + 1
    ensures forall i :: 0 <= i < |numbers| ==> numbers[i] == i + 1
  {
    SplitCount(value);
    seq(|Split(value)|, i => i + 1)
  }

  /** Tab over a selection drops exactly the line breaks the selection held from the gutter. */
  lemma TabLineNumbers(value: string, start: nat, end: nat)
    requires start <= end <= |value|
    ensures var r := HandleKeyDown("Tab", value, start, end);
      |LineNumbers(r.value)| == |LineNumbers(value)| - Count(value[start..end], '\n')
  {
    TabSplice(value, start, end);
    assert value == value[..start] + value[start..end] + value[end..];
    CountConcat(value[..start] + value[start..end], value[end..], '\n');
    CountConcat(value[..start], value[start..end], '\n');
    CountConcat(value[..start] + Indent, value[end..], '\n');
    CountConcat(value[..start], Indent, '\n');
  }
}
