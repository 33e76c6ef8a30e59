/**
 Merging remote secrets into existing dotenv text: values are updated in place, new keys appended,
 everything else kept.
 */
module MergeDotenv {
  import opened Wrappers
  import opened Text
  import opened PlainObjects

  const EXPORT := "export"

  predicate IsNameChar(c: char) {
    'A' <= c <= 'Z' || 'a' <= c <= 'z' || '0' <= c <= '9' || c == '_'
  }

  predicate IsIdentifier(s: string) {
    s != [] && !('0' <= s[0] <= '9') && forall i :: 0 <= i < |s| ==> IsNameChar(s[i])
  }

  predicate OneLine(s: string) {
    forall i :: 0 <= i < |s| ==> !IsLineTerminator(s[i])
  }

  /** Space, then optionally `export` and more space: what may stand before the key. */
  predicate IsHead(head: string) {
    var i := SpaceRun(head);
    i == |head| || (EXPORT <= head[i..] && |head| > i + |EXPORT| && AllSpace(head[i + |EXPORT|..]))
  }

  /** How many spaces the text starts with. */
  function SpaceRun(s: string): (n: nat)
    ensures n <= |s|
  {
    if s != [] && IsSpace(s[0]) then 1 + SpaceRun(s[1..]) else 0
  }

  function NameRun(s: string): (n: nat)
    ensures n <= |s|
  {
    if s != [] && IsNameChar(s[0]) then 1 + NameRun(s[1..]) else 0
  }

  datatype Assignment = Assignment(head: string, key: string, value: string)

  function Write(a: Assignment): string {
    a.head + a.key + ['='] + a.value
  }

  /** How much of the line the head of an assignment takes. */
  function HeadLength(line: string): (n: nat)
    ensures n <= |line|
  {
    var i := SpaceRun(line);
    var rest := line[i..];
    if EXPORT <= rest && |rest| > |EXPORT| && IsSpace(rest[|EXPORT|]) then
      i + |EXPORT| + SpaceRun(rest[|EXPORT|..])
    else i
  }

  /** The assignment pattern as a left-to-right match. */
  function ReadLine(line: string): Option<Assignment> {
    var h := HeadLength(line);
    var body := line[h..];
    var n := NameRun(body);
    if IsIdentifier(body[..n]) && n < |body| && body[n] == '=' && OneLine(body[n + 1..]) then
      Some(Assignment(line[..h], body[..n], body[n + 1..]))
    else None
  }

  lemma {:induction false} SpaceRunIs(s: string, n: nat)
    requires n <= |s| && (forall i :: 0 <= i < n ==> IsSpace(s[i])) && (n < |s| ==> !IsSpace(s[n]))
    ensures SpaceRun(s) == n
  {
    if n > 0 {
      SpaceRunIs(s[1..], n - 1);
    }
  }

  lemma {:induction false} SpaceRunSplits(s: string)
    ensures AllSpace(s[..SpaceRun(s)]) && (SpaceRun(s) < |s| ==> !IsSpace(s[SpaceRun(s)]))
  {
    if s != [] && IsSpace(s[0]) {
      SpaceRunSplits(s[1..]);
      assert s[..SpaceRun(s)] == [s[0]] + s[1..][..SpaceRun(s[1..])];
    }
  }

  lemma {:induction false} NameRunIs(s: string, n: nat)
    requires n <= |s| && (forall i :: 0 <= i < n ==> IsNameChar(s[i])) && (n < |s| ==> !IsNameChar(s[n]))
    ensures NameRun(s) == n
  {
    if n > 0 {
      NameRunIs(s[1..], n - 1);
    }
  }

  lemma HeadOfReadLine(line: string)
    ensures IsHead(line[..HeadLength(line)])
  {
    var i, h := SpaceRun(line), HeadLength(line);
    SpaceRunSplits(line);
    if h > i {
      var tail := line[i..][|EXPORT|..];
      SpaceRunSplits(tail);
      var n := SpaceRun(tail);
      ExportHead(line[..i], tail[..n]);
      assert line[..h] == line[..i] + EXPORT + tail[..n];
    } else {
      SpaceHead(line[..i]);
    }
  }

  lemma SpaceHead(space: string)
    requires AllSpace(space)
    ensures IsHead(space)
  {
    SpaceRunIs(space, |space|);
  }

  lemma ExportHead(space: string, more: string)
    requires AllSpace(space) && AllSpace(more) && more != []
    ensures IsHead(space + EXPORT + more)
  {
    var head := space + EXPORT + more;
    assert head[|space|] == EXPORT[0] && !IsSpace(EXPORT[0]);
    SpaceRunIs(head, |space|);
    assert head[|space|..] == EXPORT + more && head[|space| + |EXPORT|..] == more;
  }

  lemma HeadLengthOf(head: string, body: string)
    requires IsHead(head) && body != [] && !IsSpace(body[0])
    requires !(EXPORT <= body && |body| > |EXPORT| && IsSpace(body[|EXPORT|]))
    ensures HeadLength(head + body) == |head|
  {
    var line := head + body;
    var i := SpaceRun(head);
    SpaceRunSplits(head);
    assert line[..i] == head[..i];
    SpaceRunIs(line, i);
    if i < |head| {
      var rest := line[i..];
      assert rest == head[i..] + body;
      var tail := rest[|EXPORT|..];
      var n := |head| - i - |EXPORT|;
      assert tail[..n] == head[i + |EXPORT|..];
      assert rest[|EXPORT|] == tail[..n][0];
      SpaceRunIs(tail, n);
    } else {
      assert line[i..] == body;
    }
  }

  lemma KeyIsNotExport(key: string, value: string)
    requires IsIdentifier(key)
    ensures var body := key + ['='] + value; !(EXPORT <= body && |body| > |EXPORT| && IsSpace(body[|EXPORT|]))
    ensures !IsSpace(key[0])
  {
    var body := key + ['='] + value;
    assert IsNameChar(key[0]);
    if |key| > |EXPORT| {
      assert IsNameChar(key[|EXPORT|]) && body[|EXPORT|] == key[|EXPORT|];
    } else {
      assert body[|key|] == '=';
      assert forall i :: 0 <= i < |EXPORT| ==> EXPORT[i] != '=';
    }
  }

  /** A written assignment reads back, unless its value does not stay on the line. */
  lemma WrittenReadsBack(a: Assignment)
    requires IsHead(a.head) && IsIdentifier(a.key)
    ensures ReadLine(Write(a)) == if OneLine(a.value) then Some(a) else None
  {
    KeyIsNotExport(a.key, a.value);
    HeadLengthOf(a.head, a.key + ['='] + a.value);
    NameRunIs(a.key + ['='] + a.value, |a.key|);
    WritePieces(a);
  }

  lemma WritePieces(a: Assignment)
    ensures var line, body := Write(a), a.key + ['='] + a.value;
            && line == a.head + body && line[|a.head|..] == body && line[..|a.head|] == a.head
            && body[..|a.key|] == a.key && body[|a.key| + 1..] == a.value
  {
    assert Write(a) == a.head + (a.key + ['='] + a.value);
  }

  lemma ReadLineWrites(line: string)
    requires ReadLine(line).Some?
    ensures var a := ReadLine(line).value; line == Write(a) && IsHead(a.head) && IsIdentifier(a.key) && OneLine(a.value)
  {
    HeadOfReadLine(line);
    var h := HeadLength(line);
    CutAtEquals(line, h, NameRun(line[h..]));
  }

  lemma CutAtEquals(line: string, h: nat, n: nat)
    requires h + n < |line| && line[h..][n] == '='
    ensures line == line[..h] + line[h..][..n] + ['='] + line[h..][n + 1..]
  {
  }

  /** The match is exactly the pattern: head, identifier, equals sign, and a rest without line terminators. */
  lemma ReadLineIff(line: string, a: Assignment)
    ensures ReadLine(line) == Some(a) <==>
            line == Write(a) && IsHead(a.head) && IsIdentifier(a.key) && OneLine(a.value)
  {
    if ReadLine(line) == Some(a) {
      ReadLineWrites(line);
    } else if IsHead(a.head) && IsIdentifier(a.key) && OneLine(a.value) {
      WrittenReadsBack(a);
    }
  }

  // The remote secrets as a plain object.

  /** The text a template literal makes of an inherited property. */
  function InheritedText(key: string): string {
    if key == "__proto__" then "[object Object]"
    else if key == "constructor" then "function Object() { [native code] }"
    else "function " + key + "() { [native code] }"
  }

  /** `in` looks at inherited names too. */
  predicate In(remote: map<string, string>, inherited: set<string>, key: string) {
    key in remote || key in inherited
  }

  function TextOf(remote: map<string, string>, key: string): string {
    if key in remote then remote[key] else InheritedText(key)
  }

  /** The line assigns a key the object answers to. */
  predicate Applies(remote: map<string, string>, inherited: set<string>, line: string) {
    ReadLine(line).Some? && In(remote, inherited, ReadLine(line).value.key)
  }

  /** An inherited property is never strictly equal to text. */
  predicate Updates(remote: map<string, string>, inherited: set<string>, line: string) {
    && Applies(remote, inherited, line)
    && var a := ReadLine(line).value; !(a.key in remote && a.value == remote[a.key])
  }

  function MergeLine(remote: map<string, string>, inherited: set<string>, line: string): string {
    if !Updates(remote, inherited, line) then line
    else
      var a := ReadLine(line).value;
      Write(a.(value := TextOf(remote, a.key)))
  }

  predicate AppliedIn(remote: map<string, string>, inherited: set<string>, lines: seq<string>, key: string) {
    exists i :: 0 <= i < |lines| && Applies(remote, inherited, lines[i]) && ReadLine(lines[i]).value.key == key
  }

  /** Split at line feeds, each with a carriage return before it or not. */
  function SplitLines(text: string): (lines: seq<string>)
    ensures lines != []
  {
    var parts := Split(text, '\n');
    Stripped(parts)
  }

  function StripCr(line: string): string {
    if line != [] && line[|line| - 1] == '\r' then line[..|line| - 1] else line
  }

  function Stripped(parts: seq<string>): (lines: seq<string>)
    ensures |lines| == |parts|
  {
    seq(|parts|, i requires 0 <= i < |parts| => if i + 1 < |parts| then StripCr(parts[i]) else parts[i])
  }

  function WithoutFinalBlank(lines: seq<string>): seq<string> {
    if lines != [] && lines[|lines| - 1] == [] then lines[..|lines| - 1] else lines
  }

  function MergeLines(remote: map<string, string>, inherited: set<string>, lines: seq<string>): (merged: seq<string>)
    ensures |merged| == |lines|
  {
    if lines == [] then []
    else MergeLines(remote, inherited, lines[..|lines| - 1]) + [MergeLine(remote, inherited, lines[|lines| - 1])]
  }

  function UpdateCount(remote: map<string, string>, inherited: set<string>, lines: seq<string>): nat {
    if lines == [] then 0
    else
      var last := |lines| - 1;
      UpdateCount(remote, inherited, lines[..last]) + if Updates(remote, inherited, lines[last]) then 1 else 0
  }

  /** The keys no line assigned, in order. */
  function Missing(remote: map<string, string>, inherited: set<string>, lines: seq<string>,
                   order: seq<string>): seq<string> {
    if order == [] then []
    else
      var last := |order| - 1;
      Missing(remote, inherited, lines, order[..last])
      + if AppliedIn(remote, inherited, lines, order[last]) then [] else [order[last]]
  }

  function Appended(remote: map<string, string>, keys: seq<string>): (lines: seq<string>)
    ensures |lines| == |keys|
  {
    seq(|keys|, i requires 0 <= i < |keys| => keys[i] + ['='] + TextOf(remote, keys[i]))
  }

  datatype Merged = Merged(lines: seq<string>, updated: nat, added: nat)

  /** The output lines and the two counts, from the input lines. */
  function Merge(remote: map<string, string>, inherited: set<string>, order: seq<string>, lines: seq<string>): Merged {
    var missing := Missing(remote, inherited, lines, order);
    Merged(WithoutFinalBlank(MergeLines(remote, inherited, lines)) + Appended(remote, missing),
           UpdateCount(remote, inherited, lines), |missing|)
  }

  method MergeInto(existing: string, remote: map<string, string>, order: seq<string>)
    returns (text: string, updated: nat, added: nat)
    ensures var merged := Merge(remote, INHERITED, order, SplitLines(existing));
            text == Join(merged.lines, '\n') && updated == merged.updated && added == merged.added
  {
    var lines := SplitLines(existing);
    var out, applied, count := UpdateLines(remote, INHERITED, lines);
    if out != [] && out[|out| - 1] == [] {
      out := out[..|out| - 1];
    }
    var appended := AppendMissing(remote, INHERITED, lines, order, applied);
    return Join(out + appended, '\n'), count, |appended|;
  }

  method AppendMissing(remote: map<string, string>, inherited: set<string>, lines: seq<string>, order: seq<string>,
                       applied: set<string>)
    returns (out: seq<string>)
    requires forall key :: key in applied <==> AppliedIn(remote, inherited, lines, key)
    ensures out == Appended(remote, Missing(remote, inherited, lines, order))
  {
    out := [];
    for i := 0 to |order|
      invariant out == Appended(remote, Missing(remote, inherited, lines, order[..i]))
    {
      MissingNext(remote, inherited, lines, order, i);
      AppendedSnoc(remote, Missing(remote, inherited, lines, order[..i]), order[i]);
      if order[i] !in applied {
        out := out + [order[i] + ['='] + TextOf(remote, order[i])];
      }
    }
    assert order[..|order|] == order;
  }

  lemma AppendedSnoc(remote: map<string, string>, keys: seq<string>, key: string)
    ensures Appended(remote, keys + [key]) == Appended(remote, keys) + [key + ['='] + TextOf(remote, key)]
  {
  }

  lemma MissingNext(remote: map<string, string>, inherited: set<string>, lines: seq<string>, order: seq<string>, i: nat)
    requires i < |order|
    ensures var before := Missing(remote, inherited, lines, order[..i]);
            Missing(remote, inherited, lines, order[..i + 1])
            == if AppliedIn(remote, inherited, lines, order[i]) then before else before + [order[i]]
  {
    assert order[..i + 1][..i] == order[..i];
  }

  /** The callback on one line: its replacement, the key it assigns, and whether the value changed. */
  method UpdateLine(remote: map<string, string>, inherited: set<string>, line: string)
    returns (out: string, applied: set<string>, changed: bool)
    ensures out == MergeLine(remote, inherited, line)
    ensures changed <==> Updates(remote, inherited, line)
    ensures applied == if Applies(remote, inherited, line) then {ReadLine(line).value.key} else {}
  {
    var m := ReadLine(line);
    if m.None? || !In(remote, inherited, m.value.key) {
      return line, {}, false;
    }
    if m.value.key in remote && m.value.value == remote[m.value.key] {
      return line, {m.value.key}, false;
    }
    return m.value.head + m.value.key + ['='] + TextOf(remote, m.value.key), {m.value.key}, true;
  }

  /** The line-by-line part: updated lines, the keys seen, and how many lines changed value. */
  method UpdateLines(remote: map<string, string>, inherited: set<string>, lines: seq<string>)
    returns (out: seq<string>, applied: set<string>, updated: nat)
    ensures out == MergeLines(remote, inherited, lines)
    ensures updated == UpdateCount(remote, inherited, lines)
    ensures forall key :: key in applied <==> AppliedIn(remote, inherited, lines, key)
  {
    out, applied, updated := [], {}, 0;
    for i := 0 to |lines|
      invariant out == MergeLines(remote, inherited, lines[..i])
      invariant updated == UpdateCount(remote, inherited, lines[..i])
      invariant forall key :: key in applied <==> AppliedIn(remote, inherited, lines[..i], key)
    {
      var line, keys, changed := UpdateLine(remote, inherited, lines[i]);
      AppliedInNext(remote, inherited, lines, i);
      MergeNext(remote, inherited, lines, i);
      out := out + [line];
      applied := applied + keys;
      updated := updated + if changed then 1 else 0;
    }
    assert lines[..|lines|] == lines;
  }

  lemma MergeNext(remote: map<string, string>, inherited: set<string>, lines: seq<string>, i: nat)
    requires i < |lines|
    ensures MergeLines(remote, inherited, lines[..i + 1])
            == MergeLines(remote, inherited, lines[..i]) + [MergeLine(remote, inherited, lines[i])]
    ensures UpdateCount(remote, inherited, lines[..i + 1])
            == UpdateCount(remote, inherited, lines[..i]) + if Updates(remote, inherited, lines[i]) then 1 else 0
  {
    assert lines[..i + 1][..i] == lines[..i];
  }

  lemma AppliedInNext(remote: map<string, string>, inherited: set<string>, lines: seq<string>, i: nat)
    requires i < |lines|
    ensures forall key :: AppliedIn(remote, inherited, lines[..i + 1], key) <==>
                          || AppliedIn(remote, inherited, lines[..i], key)
                          || (Applies(remote, inherited, lines[i]) && ReadLine(lines[i]).value.key == key)
  {
    var now, before := lines[..i + 1], lines[..i];
    assert now[i] == lines[i] && forall j :: 0 <= j < i ==> now[j] == before[j];
    forall key | AppliedIn(remote, inherited, before, key)
      ensures AppliedIn(remote, inherited, now, key)
    {
      var j :| 0 <= j < |before| && Applies(remote, inherited, before[j]) && ReadLine(before[j]).value.key == key;
      assert now[j] == before[j];
    }
  }

  // What a merge keeps, what it leaves assigned, and when merging again has nothing to do.

  lemma {:induction false} MergeLinesAt(remote: map<string, string>, inherited: set<string>, lines: seq<string>, i: nat)
    requires i < |lines|
    ensures MergeLines(remote, inherited, lines)[i] == MergeLine(remote, inherited, lines[i])
  {
    if i < |lines| - 1 {
      MergeLinesAt(remote, inherited, lines[..|lines| - 1], i);
    }
  }

  /** An assignment the object answers to keeps its head and key and gets the object's text. */
  lemma MergedAssignment(remote: map<string, string>, inherited: set<string>, line: string)
    requires Applies(remote, inherited, line)
    ensures var a := ReadLine(line).value;
            MergeLine(remote, inherited, line) == Write(a.(value := TextOf(remote, a.key)))
  {
    ReadLineWrites(line);
  }

  lemma BlankStaysBlank(remote: map<string, string>, inherited: set<string>, line: string)
    ensures MergeLine(remote, inherited, line) == [] <==> line == []
  {
  }

  lemma FinalBlankCommutes(remote: map<string, string>, inherited: set<string>, lines: seq<string>)
    ensures WithoutFinalBlank(MergeLines(remote, inherited, lines))
            == MergeLines(remote, inherited, WithoutFinalBlank(lines))
  {
    if lines != [] {
      BlankStaysBlank(remote, inherited, lines[|lines| - 1]);
    }
  }

  /**
   Every line of the input, except one final blank, is at its old position: with the object's text if
   it assigns a key the object answers to, as it was otherwise.
   */
  lemma LinesStayInPlace(remote: map<string, string>, inherited: set<string>, order: seq<string>, lines: seq<string>,
                         i: nat)
    requires i < |WithoutFinalBlank(lines)|
    ensures var out := Merge(remote, inherited, order, lines).lines;
            && i < |out|
            && out[i] == if Applies(remote, inherited, lines[i]) then
                 var a := ReadLine(lines[i]).value; Write(a.(value := TextOf(remote, a.key)))
               else lines[i]
  {
    FinalBlankCommutes(remote, inherited, lines);
    MergeLinesAt(remote, inherited, WithoutFinalBlank(lines), i);
    if Applies(remote, inherited, lines[i]) {
      MergedAssignment(remote, inherited, lines[i]);
    }
  }

  /**
   A line that assigns no remote key is kept, except exactly when it assigns a name every object
   inherits: then its value is lost to the text of the inherited property.
   */
  lemma ForeignLineKeptIff(remote: map<string, string>, inherited: set<string>, line: string)
    requires ReadLine(line).Some? ==> ReadLine(line).value.key !in remote
    ensures MergeLine(remote, inherited, line) == line <==>
            ReadLine(line).None? || ReadLine(line).value.key !in inherited
            || ReadLine(line).value.value == InheritedText(ReadLine(line).value.key)
  {
    if Applies(remote, inherited, line) {
      var a := ReadLine(line).value;
      ReadLineWrites(line);
      MergedAssignment(remote, inherited, line);
      var front := a.head + a.key + ['='];
      assert line[|front|..] == a.value;
      assert MergeLine(remote, inherited, line)[|front|..] == InheritedText(a.key);
    }
  }

  /** Even an empty remote costs a line that assigns an inherited name its value. */
  lemma InheritedAssignmentIsLost(inherited: set<string>, key: string, value: string)
    requires key in inherited && IsIdentifier(key) && OneLine(value)
    ensures MergeLine(map[], inherited, key + ['='] + value) == key + ['='] + InheritedText(key)
  {
    var a := Assignment([], key, value);
    assert Write(a) == key + ['='] + value
           && Write(a.(value := InheritedText(key))) == key + ['='] + InheritedText(key);
    WrittenReadsBack(a);
    MergedAssignment(map[], inherited, Write(a));
  }

  lemma ConstructorIsLost()
    ensures MergeLine(map[], INHERITED, "constructor" + ['='] + "x")
            == "constructor" + ['='] + "function Object() { [native code] }"
  {
    InheritedAssignmentIsLost(INHERITED, "constructor", "x");
  }

  /** Remote values stay on one line. */
  predicate OneLineValues(remote: map<string, string>) {
    forall key :: key in remote ==> OneLine(remote[key])
  }

  lemma NameHasNoTerminator(key: string)
    requires IsIdentifier(key)
    ensures OneLine(InheritedText(key))
  {
    var front, back := "function ", "() { [native code] }";
    assert forall i :: 0 <= i < |front| ==> !IsLineTerminator(front[i]);
    assert forall i :: 0 <= i < |back| ==> !IsLineTerminator(back[i]);
    forall i | 0 <= i < |key| ensures !IsLineTerminator(key[i]) {
      assert IsNameChar(key[i]);
    }
    assert OneLine("[object Object]") && OneLine("function Object() { [native code] }");
    OneLineAppend(front, key);
    OneLineAppend(front + key, back);
  }

  lemma OneLineAppend(front: string, back: string)
    requires OneLine(front) && OneLine(back)
    ensures OneLine(front + back)
  {
  }

  lemma AppendedReads(remote: map<string, string>, key: string)
    requires IsIdentifier(key)
    ensures ReadLine(key + ['='] + TextOf(remote, key))
            == if OneLine(TextOf(remote, key)) then Some(Assignment([], key, TextOf(remote, key))) else None
  {
    WrittenReadsBack(Assignment([], key, TextOf(remote, key)));
    WriteWithoutHead(key, TextOf(remote, key));
  }

  lemma WriteWithoutHead(key: string, value: string)
    ensures Write(Assignment([], key, value)) == key + ['='] + value
  {
    assert [] + key == key;
  }

  lemma RewrittenReads(remote: map<string, string>, inherited: set<string>, line: string)
    requires Applies(remote, inherited, line)
    ensures var a := ReadLine(line).value;
            && (a.key !in remote ==> OneLine(TextOf(remote, a.key)))
            && ReadLine(MergeLine(remote, inherited, line))
               == if OneLine(TextOf(remote, a.key)) then Some(a.(value := TextOf(remote, a.key))) else None
  {
    var a := ReadLine(line).value;
    ReadLineWrites(line);
    MergedAssignment(remote, inherited, line);
    if a.key !in remote {
      NameHasNoTerminator(a.key);
    }
    WrittenReadsBack(a.(value := TextOf(remote, a.key)));
  }

  lemma {:induction false} MissingIff(remote: map<string, string>, inherited: set<string>, lines: seq<string>,
                                      order: seq<string>, key: string)
    ensures key in Missing(remote, inherited, lines, order) <==>
            key in order && !AppliedIn(remote, inherited, lines, key)
  {
    if order != [] {
      MissingIff(remote, inherited, lines, order[..|order| - 1], key);
      assert order == order[..|order| - 1] + [order[|order| - 1]];
    }
  }

  /** An output line is either a merged input line or an appended missing key. */
  lemma {:induction false} OutputLine(remote: map<string, string>, inherited: set<string>, order: seq<string>,
                                      lines: seq<string>, i: nat)
    ensures var kept, out := WithoutFinalBlank(lines), Merge(remote, inherited, order, lines).lines;
            var missing := Missing(remote, inherited, lines, order);
            && |out| == |kept| + |missing|
            && if i < |kept| then out[i] == MergeLine(remote, inherited, kept[i])
               else i < |out| ==>
                 && out[i] == missing[i - |kept|] + ['='] + TextOf(remote, missing[i - |kept|])
                 && missing[i - |kept|] in order && !AppliedIn(remote, inherited, lines, missing[i - |kept|])
  {
    FinalBlankCommutes(remote, inherited, lines);
    var kept, missing := WithoutFinalBlank(lines), Missing(remote, inherited, lines, order);
    if i < |kept| {
      MergeLinesAt(remote, inherited, kept, i);
    } else if i < |kept| + |missing| {
      AppendedAt(MergeLines(remote, inherited, kept), Appended(remote, missing), i);
      MissingIff(remote, inherited, lines, order, missing[i - |kept|]);
    }
  }

  lemma AppendedAt(front: seq<string>, back: seq<string>, i: nat)
    requires |front| <= i < |front| + |back|
    ensures (front + back)[i] == back[i - |front|]
  {
  }

  /** An appended line that reads as an assignment of another value to some remote key. */
  predicate Misreads(remote: map<string, string>, key: string) {
    var a := ReadLine(key + ['='] + TextOf(remote, key));
    a.Some? && a.value.key in remote && a.value.value != remote[a.value.key]
  }

  lemma IdentifierIsNotMisread(remote: map<string, string>, key: string)
    requires IsIdentifier(key)
    ensures !Misreads(remote, key)
  {
    AppendedReads(remote, key);
  }

  /** The line assigns no remote key anything but its remote value. */
  predicate RightValue(remote: map<string, string>, line: string) {
    var a := ReadLine(line);
    a.Some? && a.value.key in remote ==> a.value.value == remote[a.value.key]
  }

  predicate AllRight(remote: map<string, string>, lines: seq<string>) {
    forall i :: 0 <= i < |lines| ==> RightValue(remote, lines[i])
  }

  predicate NoneMisread(remote: map<string, string>, keys: seq<string>) {
    forall i :: 0 <= i < |keys| ==> !Misreads(remote, keys[i])
  }

  /**
   No output line assigns a remote key another value, if and only if no appended key is misread; so
   never when the remote keys are identifiers.
   */
  lemma {:induction false} NoOtherValueIff(remote: map<string, string>, inherited: set<string>, order: seq<string>,
                                           lines: seq<string>)
    ensures AllRight(remote, Merge(remote, inherited, order, lines).lines) <==>
            NoneMisread(remote, Missing(remote, inherited, lines, order))
  {
    var kept, out := WithoutFinalBlank(lines), Merge(remote, inherited, order, lines).lines;
    var missing := Missing(remote, inherited, lines, order);
    forall i: nat ensures |out| == |kept| + |missing|
      ensures i < |out| ==> (RightValue(remote, out[i]) <==> i < |kept| || !Misreads(remote, missing[i - |kept|]))
    {
      RightValueIff(remote, inherited, order, lines, i);
    }
    if AllRight(remote, out) {
      forall j | 0 <= j < |missing| ensures !Misreads(remote, missing[j]) {
        assert RightValue(remote, out[|kept| + j]);
      }
    }
  }

  lemma {:induction false} RightValueIff(remote: map<string, string>, inherited: set<string>, order: seq<string>,
                                         lines: seq<string>, i: nat)
    ensures var kept, out := WithoutFinalBlank(lines), Merge(remote, inherited, order, lines).lines;
            var missing := Missing(remote, inherited, lines, order);
            && |out| == |kept| + |missing|
            && (i < |out| ==>
                  (RightValue(remote, out[i]) <==> i < |kept| || !Misreads(remote, missing[i - |kept|])))
  {
    OutputLine(remote, inherited, order, lines, i);
    var kept := WithoutFinalBlank(lines);
    if i < |kept| {
      MergedHasRightValue(remote, inherited, kept[i]);
    }
  }

  lemma MergedHasRightValue(remote: map<string, string>, inherited: set<string>, line: string)
    ensures RightValue(remote, MergeLine(remote, inherited, line))
  {
    if Applies(remote, inherited, line) {
      RewrittenReads(remote, inherited, line);
    }
  }

  /** A remote key that no merge can write down as an assignment. */
  lemma StrangeKeyIsMisread()
    ensures Misreads(map["A" := "1", "A=B" := "2"], "A=B")
  {
    var a := Assignment([], "A", "B=2");
    assert Write(a) == "A=B=2" && "A=B" + ['='] + "2" == "A=B=2";
    WrittenReadsBack(a);
  }

  predicate Assigns(line: string, key: string, value: string) {
    && ReadLine(line).Some?
    && ReadLine(line).value.key == key && ReadLine(line).value.value == value
  }

  lemma AppliedKeyIsAssigned(remote: map<string, string>, inherited: set<string>, order: seq<string>,
                             lines: seq<string>, i: nat)
    requires i < |lines| && Applies(remote, inherited, lines[i])
             && OneLine(TextOf(remote, ReadLine(lines[i]).value.key))
    ensures var out, a := Merge(remote, inherited, order, lines).lines, ReadLine(lines[i]).value;
            && i < |WithoutFinalBlank(lines)| <= |out|
            && Assigns(out[i], a.key, TextOf(remote, a.key))
  {
    AssignmentHasNoFinalCr(lines[i]);
    NonBlankIsKept(lines, i);
    FinalBlankCommutes(remote, inherited, lines);
    OutputLine(remote, inherited, order, lines, i);
    RewrittenReads(remote, inherited, lines[i]);
  }

  lemma NonBlankIsKept(lines: seq<string>, i: nat)
    requires i < |lines| && lines[i] != []
    ensures i < |WithoutFinalBlank(lines)| && WithoutFinalBlank(lines)[i] == lines[i]
  {
  }

  lemma MissingKeyIsAssigned(remote: map<string, string>, inherited: set<string>, order: seq<string>,
                             lines: seq<string>, j: nat)
    requires j < |Missing(remote, inherited, lines, order)|
    requires var key := Missing(remote, inherited, lines, order)[j];
             key in remote && IsIdentifier(key) && OneLine(remote[key])
    ensures var out, key := Merge(remote, inherited, order, lines).lines, Missing(remote, inherited, lines, order)[j];
            var i := |WithoutFinalBlank(lines)| + j;
            && i < |out| && Assigns(out[i], key, remote[key])
            && out[i] == key + ['='] + remote[key]
  {
    FinalBlankCommutes(remote, inherited, lines);
    AppendedReads(remote, Missing(remote, inherited, lines, order)[j]);
  }

  /** Where the output assigns a remote key its value; that line is a single line of text. */
  lemma WhereAssigned(remote: map<string, string>, inherited: set<string>, order: seq<string>, lines: seq<string>,
                      key: string)
    returns (i: nat)
    requires key in remote && key in order && IsIdentifier(key) && OneLine(remote[key])
    ensures var out := Merge(remote, inherited, order, lines).lines;
            && i < |out| && Assigns(out[i], key, remote[key])
            && ((forall j :: 0 <= j < |lines| ==> '\n' !in lines[j]) ==> '\n' !in out[i])
  {
    if AppliedIn(remote, inherited, lines, key) {
      i :| 0 <= i < |lines| && Applies(remote, inherited, lines[i]) && ReadLine(lines[i]).value.key == key;
      AppliedKeyIsAssigned(remote, inherited, order, lines, i);
      if forall j :: 0 <= j < |lines| ==> '\n' !in lines[j] {
        KeptLineHasNoLineFeed(remote, inherited, order, lines, i);
      }
    } else {
      MissingIff(remote, inherited, lines, order, key);
      var missing := Missing(remote, inherited, lines, order);
      var j :| 0 <= j < |missing| && missing[j] == key;
      i := |WithoutFinalBlank(lines)| + j;
      MissingKeyIsAssigned(remote, inherited, order, lines, j);
      AppendedIsOneLine(key, remote[key]);
    }
  }

  lemma AppendedIsOneLine(key: string, value: string)
    requires IsIdentifier(key) && OneLine(value)
    ensures '\n' !in key + ['='] + value
  {
    assert forall i :: 0 <= i < |key| ==> IsNameChar(key[i]);
    assert forall i :: 0 <= i < |value| ==> !IsLineTerminator(value[i]);
  }

  /** A remote key is assigned its remote value by some output line exactly if a line can say so. */
  lemma RemoteKeyIsAssignedIff(remote: map<string, string>, inherited: set<string>, order: seq<string>,
                               lines: seq<string>, key: string)
    requires key in remote && key in order
    ensures var out := Merge(remote, inherited, order, lines).lines;
            (exists i :: 0 <= i < |out| && Assigns(out[i], key, remote[key])) <==>
            IsIdentifier(key) && OneLine(remote[key])
  {
    var out := Merge(remote, inherited, order, lines).lines;
    if IsIdentifier(key) && OneLine(remote[key]) {
      var i := WhereAssigned(remote, inherited, order, lines, key);
    }
    if i :| 0 <= i < |out| && Assigns(out[i], key, remote[key]) {
      ReadLineWrites(out[i]);
    }
  }

  /**
   A kept line that will count as an update when the output is merged again: it assigns an inherited
   name, or it ends in a lone carriage return that the next line break would swallow, uncovering an
   assignment to change.
   */
  predicate Disturbs(remote: map<string, string>, inherited: set<string>, line: string, followed: bool) {
    || (Applies(remote, inherited, line) && ReadLine(line).value.key !in remote)
    || (followed && line != [] && line[|line| - 1] == '\r' && Updates(remote, inherited, StripCr(line)))
  }

  ghost predicate Hits(test: string -> bool, lines: seq<string>) {
    exists line :: line in lines && test(line)
  }

  /** A key whose appended line holds, on one of its lines, an assignment to change. */
  ghost predicate KeyDisturbs(remote: map<string, string>, inherited: set<string>, key: string, followed: bool) {
    Hits(line => Updates(remote, inherited, line), LinesOf(key + ['='] + TextOf(remote, key), followed))
  }

  /** An identifier's line is one line, and says what it should. */
  lemma IdentifierDoesNotDisturb(remote: map<string, string>, inherited: set<string>, key: string, followed: bool)
    requires key in remote && IsIdentifier(key) && OneLine(remote[key])
    ensures !KeyDisturbs(remote, inherited, key, followed)
  {
    var line := key + ['='] + remote[key];
    AppendedReads(remote, key);
    AppendedIsOneLine(key, remote[key]);
    AssignmentHasNoFinalCr(line);
    SingleLine(line, followed);
  }

  lemma AssignmentHasNoFinalCr(line: string)
    requires ReadLine(line).Some?
    ensures line != [] && line[|line| - 1] != '\r' && StripCr(line) == line
  {
    ReadLineWrites(line);
    var a := ReadLine(line).value;
    if a.value != [] {
      assert line[|line| - 1] == a.value[|a.value| - 1];
    }
  }

  /** How a kept line reads when it is split off again. */
  lemma KeptLineReread(remote: map<string, string>, inherited: set<string>, line: string, followed: bool)
    requires OneLineValues(remote)
    ensures var out := MergeLine(remote, inherited, line);
            Updates(remote, inherited, if followed then StripCr(out) else out) <==>
              Disturbs(remote, inherited, line, followed)
  {
    var out := MergeLine(remote, inherited, line);
    if Applies(remote, inherited, line) {
      RewrittenReads(remote, inherited, line);
      AssignmentHasNoFinalCr(line);
      AssignmentHasNoFinalCr(out);
    }
  }

  function CountHits(test: string -> bool, lines: seq<string>): nat {
    if lines == [] then 0
    else CountHits(test, lines[..|lines| - 1]) + if test(lines[|lines| - 1]) then 1 else 0
  }

  lemma {:induction false} UpdateCountIsHits(remote: map<string, string>, inherited: set<string>, lines: seq<string>,
                                             test: string -> bool)
    requires forall line :: test(line) <==> Updates(remote, inherited, line)
    ensures UpdateCount(remote, inherited, lines) == CountHits(test, lines)
  {
    if lines != [] {
      UpdateCountLast(remote, inherited, lines, test(lines[|lines| - 1]));
      UpdateCountIsHits(remote, inherited, lines[..|lines| - 1], test);
    }
  }

  lemma {:induction false} NoHitsIff(test: string -> bool, lines: seq<string>)
    ensures CountHits(test, lines) == 0 <==> !Hits(test, lines)
  {
    if lines != [] {
      var before, last := lines[..|lines| - 1], lines[|lines| - 1];
      NoHitsIff(test, before);
      HitsAppend(test, before, [last]);
      HitsOne(test, last);
      assert lines == before + [last];
    }
  }

  lemma UpdateCountLast(remote: map<string, string>, inherited: set<string>, lines: seq<string>, updates: bool)
    requires lines != [] && (updates <==> Updates(remote, inherited, lines[|lines| - 1]))
    ensures UpdateCount(remote, inherited, lines)
            == UpdateCount(remote, inherited, lines[..|lines| - 1]) + if updates then 1 else 0
  {
  }

  lemma HitsOne(test: string -> bool, line: string)
    ensures Hits(test, [line]) <==> test(line)
  {
    assert line in [line];
  }

  lemma HitsAppend(test: string -> bool, front: seq<string>, back: seq<string>)
    ensures Hits(test, front + back) <==> Hits(test, front) || Hits(test, back)
  {
    assert forall line :: line in front + back <==> line in front || line in back;
  }

  lemma KeptLineHasNoLineFeed(remote: map<string, string>, inherited: set<string>, order: seq<string>,
                              lines: seq<string>, i: nat)
    requires forall j :: 0 <= j < |lines| ==> '\n' !in lines[j]
    requires i < |WithoutFinalBlank(lines)|
    requires Applies(remote, inherited, lines[i]) ==> OneLine(TextOf(remote, ReadLine(lines[i]).value.key))
    ensures var out := Merge(remote, inherited, order, lines).lines; i < |out| && '\n' !in out[i]
  {
    FinalBlankCommutes(remote, inherited, lines);
    OutputLine(remote, inherited, order, lines, i);
    if Applies(remote, inherited, lines[i]) {
      RewrittenReads(remote, inherited, lines[i]);
      WriteHasNoLineFeed(lines[i], MergeLine(remote, inherited, lines[i]));
    }
  }

  lemma WriteHasNoLineFeed(before: string, after: string)
    requires ReadLine(after).Some? && '\n' !in before
    requires ReadLine(after).value.head <= before
    ensures '\n' !in after
  {
    ReadLineWrites(after);
    var a := ReadLine(after).value;
    assert forall i :: 0 <= i < |a.head| ==> a.head[i] == before[i];
    assert forall i :: 0 <= i < |a.key| ==> IsNameChar(a.key[i]);
    assert forall i :: 0 <= i < |a.value| ==> !IsLineTerminator(a.value[i]);
  }

  // Splitting the joined output again.

  function AllStripped(parts: seq<string>): (lines: seq<string>)
    ensures |lines| == |parts|
  {
    seq(|parts|, i requires 0 <= i < |parts| => StripCr(parts[i]))
  }

  /** The lines one output line makes when the text is split again. */
  function LinesOf(line: string, followed: bool): (lines: seq<string>)
    ensures lines != []
  {
    if followed then AllStripped(Split(line, '\n')) else Stripped(Split(line, '\n'))
  }

  function Resplit(out: seq<string>): (lines: seq<string>)
    ensures lines != []
  {
    if out == [] then [[]]
    else if |out| == 1 then LinesOf(out[0], false)
    else LinesOf(out[0], true) + Resplit(out[1..])
  }

  lemma SingleLine(line: string, followed: bool)
    requires '\n' !in line
    ensures LinesOf(line, followed) == [if followed then StripCr(line) else line]
  {
    SplitFirst(line, '\n', []);
  }

  lemma StrippedAppend(front: seq<string>, back: seq<string>)
    requires back != []
    ensures Stripped(front + back) == AllStripped(front) + Stripped(back)
  {
  }

  lemma {:induction false} SplitLinesOfOutput(out: seq<string>)
    ensures SplitLines(Join(out, '\n')) == Resplit(out)
  {
    if |out| > 1 {
      SplitLinesOfOutput(out[1..]);
      SplitAppend(out[0], '\n', Join(out[1..], '\n'));
      StrippedAppend(Split(out[0], '\n'), Split(Join(out[1..], '\n'), '\n'));
    }
  }

  /** Some line that output line `i` makes passes the test. */
  ghost predicate HitAt(test: string -> bool, out: seq<string>, i: nat)
    requires i < |out|
  {
    Hits(test, LinesOf(out[i], i + 1 < |out|))
  }

  lemma {:induction false} ResplitHitsIff(test: string -> bool, out: seq<string>)
    requires out != []
    ensures Hits(test, Resplit(out)) <==> exists i :: 0 <= i < |out| && HitAt(test, out, i)
  {
    if |out| == 1 {
      assert Hits(test, Resplit(out)) <==> HitAt(test, out, 0);
    } else {
      var rest := out[1..];
      HitsAppend(test, LinesOf(out[0], true), Resplit(rest));
      ResplitHitsIff(test, rest);
      assert HitAt(test, out, 0) <==> Hits(test, LinesOf(out[0], true));
      assert forall i :: 0 <= i < |rest| ==> (HitAt(test, rest, i) <==> HitAt(test, out, i + 1));
      if i :| 0 <= i < |out| && HitAt(test, out, i) {
        assert i > 0 ==> HitAt(test, rest, i - 1);
      }
    }
  }

  // What splitting makes of line breaks, told by the text alone.

  /** Lines with a break after each but the last, each break with a carriage return or without. */
  function Mixed(lines: seq<string>, crlf: seq<bool>): string
    requires |lines| == |crlf| + 1
  {
    if crlf == [] then lines[0]
    else lines[0] + (if crlf[0] then ['\r', '\n'] else ['\n']) + Mixed(lines[1..], crlf[1..])
  }

  /**
   Splitting gives back exactly the lines, whatever mixture of breaks joins them, if and only if no line
   that ends in a carriage return is followed by a bare line feed.
   */
  lemma {:induction false} SplitMixedIff(lines: seq<string>, crlf: seq<bool>)
    requires |lines| == |crlf| + 1 && forall i :: 0 <= i < |lines| ==> '\n' !in lines[i]
    ensures SplitLines(Mixed(lines, crlf)) == lines <==>
            forall i :: 0 <= i < |crlf| && lines[i] != [] && lines[i][|lines[i]| - 1] == '\r' ==> crlf[i]
  {
    if crlf == [] {
      SplitFirst(lines[0], '\n', []);
    } else {
      var rest := Mixed(lines[1..], crlf[1..]);
      SplitMixedIff(lines[1..], crlf[1..]);
      MixedFirst(lines[0], crlf[0], rest);
      FirstAndRest(if crlf[0] then lines[0] else StripCr(lines[0]), SplitLines(rest), lines);
      BreaksFirst(lines, crlf);
    }
  }

  lemma FirstAndRest(first: string, rest: seq<string>, lines: seq<string>)
    requires lines != []
    ensures [first] + rest == lines <==> first == lines[0] && rest == lines[1..]
  {
    assert lines == [lines[0]] + lines[1..];
    if [first] + rest == lines {
      assert ([first] + rest)[1..] == rest;
    }
  }

  lemma BreaksFirst(lines: seq<string>, crlf: seq<bool>)
    requires |lines| == |crlf| + 1 && crlf != []
    ensures (forall i :: 0 <= i < |crlf| && lines[i] != [] && lines[i][|lines[i]| - 1] == '\r' ==> crlf[i]) <==>
            && (crlf[0] || StripCr(lines[0]) == lines[0])
            && forall i :: 0 <= i < |crlf[1..]| && lines[1..][i] != [] && lines[1..][i][|lines[1..][i]| - 1] == '\r' ==>
                             crlf[1..][i]
  {
    assert forall i :: 0 <= i < |crlf| - 1 ==> lines[1..][i] == lines[i + 1] && crlf[1..][i] == crlf[i + 1];
    assert forall i :: 0 < i < |crlf| ==> lines[i] == lines[1..][i - 1] && crlf[i] == crlf[1..][i - 1];
  }

  lemma MixedFirst(line: string, crlf: bool, rest: string)
    requires '\n' !in line
    ensures SplitLines(line + (if crlf then ['\r', '\n'] else ['\n']) + rest)
            == [if crlf then line else StripCr(line)] + SplitLines(rest)
  {
    var first := if crlf then line + ['\r'] else line;
    assert line + (if crlf then ['\r', '\n'] else ['\n']) + rest == first + ['\n'] + rest;
    SplitFirst(first, '\n', rest);
    StrippedAppend([first], Split(rest, '\n'));
    assert StripCr(first) == if crlf then line else StripCr(line) by {
      if crlf {
        assert first[..|first| - 1] == line;
      }
    }
    assert AllStripped([first]) == [StripCr(first)];
  }

  /** And every text is such a mixture of the lines it is split into. */
  lemma EveryTextIsMixed(text: string) returns (crlf: seq<bool>)
    ensures |SplitLines(text)| == |crlf| + 1 && Mixed(SplitLines(text), crlf) == text
    ensures forall i :: 0 <= i < |SplitLines(text)| ==> '\n' !in SplitLines(text)[i]
  {
    crlf := StrippedMixes(Split(text, '\n'));
    JoinSplit(text, '\n');
    SplitLinesHaveNoLineFeed(text);
  }

  lemma {:induction false} StrippedMixes(parts: seq<string>) returns (crlf: seq<bool>)
    requires parts != []
    ensures |parts| == |crlf| + 1 && Mixed(Stripped(parts), crlf) == Join(parts, '\n')
  {
    if |parts| == 1 {
      crlf := [];
    } else {
      var rest := StrippedMixes(parts[1..]);
      crlf := [parts[0] != [] && parts[0][|parts[0]| - 1] == '\r'] + rest;
      StrippedAppend(parts[..1], parts[1..]);
      assert parts[..1] + parts[1..] == parts && Stripped(parts)[1..] == Stripped(parts[1..]) && crlf[1..] == rest;
      if crlf[0] {
        assert StripCr(parts[0]) + ['\r', '\n'] == parts[0] + ['\n'];
      }
    }
  }

  /** A file merges alike whatever breaks its lines have: same text, same counts. */
  lemma {:induction false} BreaksDoNotMatter(remote: map<string, string>, inherited: set<string>, order: seq<string>,
                                             lines: seq<string>, crlf: seq<bool>)
    requires |lines| == |crlf| + 1 && forall i :: 0 <= i < |lines| ==> '\n' !in lines[i]
    requires forall i :: 0 <= i < |crlf| && lines[i] != [] ==> lines[i][|lines[i]| - 1] != '\r'
    ensures Merge(remote, inherited, order, SplitLines(Mixed(lines, crlf))) == Merge(remote, inherited, order, lines)
  {
    SplitMixedIff(lines, crlf);
  }

  // Merging again.

  /** The keys that no line can assign. */
  function NotIdentifiers(order: seq<string>): seq<string> {
    if order == [] then []
    else
      var last := order[|order| - 1];
      NotIdentifiers(order[..|order| - 1]) + if IsIdentifier(last) then [] else [last]
  }

  lemma {:induction false} MissingNotIdentifiers(remote: map<string, string>, inherited: set<string>,
                                                 lines: seq<string>, order: seq<string>)
    requires forall key :: key in order ==> (AppliedIn(remote, inherited, lines, key) <==> IsIdentifier(key))
    ensures Missing(remote, inherited, lines, order) == NotIdentifiers(order)
  {
    if order != [] {
      MissingNotIdentifiers(remote, inherited, lines, order[..|order| - 1]);
    }
  }

  lemma AppliedKeyIsIdentifier(remote: map<string, string>, inherited: set<string>, lines: seq<string>, key: string)
    requires AppliedIn(remote, inherited, lines, key)
    ensures IsIdentifier(key)
  {
    var i :| 0 <= i < |lines| && Applies(remote, inherited, lines[i]) && ReadLine(lines[i]).value.key == key;
    ReadLineWrites(lines[i]);
  }

  /** A second merge finds every key that an identifier can name, and only those. */
  lemma SecondMergeFinds(remote: map<string, string>, inherited: set<string>, order: seq<string>, lines: seq<string>,
                         key: string)
    requires OneLineValues(remote) && key in remote && key in order
    requires forall j :: 0 <= j < |lines| ==> '\n' !in lines[j]
    ensures AppliedIn(remote, inherited, Resplit(Merge(remote, inherited, order, lines).lines), key) <==>
            IsIdentifier(key)
  {
    var out := Merge(remote, inherited, order, lines).lines;
    if AppliedIn(remote, inherited, Resplit(out), key) {
      AppliedKeyIsIdentifier(remote, inherited, Resplit(out), key);
    }
    if IsIdentifier(key) {
      var i := WhereAssigned(remote, inherited, order, lines, key);
      AssignmentHasNoFinalCr(out[i]);
      LineIsResplit(out, i);
    }
  }

  lemma LineIsResplit(out: seq<string>, i: nat)
    requires i < |out| && '\n' !in out[i] && StripCr(out[i]) == out[i]
    ensures out[i] in Resplit(out)
  {
    SingleLine(out[i], i + 1 < |out|);
    var test := line => line == out[i];
    HitsOne(test, out[i]);
    assert HitAt(test, out, i);
    ResplitHitsIff(test, out);
  }

  /** Output line `i` will count as an update: as the kept line it comes from, or as an appended key. */
  ghost predicate DisturbsAt(remote: map<string, string>, inherited: set<string>, order: seq<string>,
                             lines: seq<string>, i: nat)
  {
    var kept, missing := WithoutFinalBlank(lines), Missing(remote, inherited, lines, order);
    var followed := i + 1 < |kept| + |missing|;
    if i < |kept| then Disturbs(remote, inherited, kept[i], followed)
    else i - |kept| < |missing| && KeyDisturbs(remote, inherited, missing[i - |kept|], followed)
  }

  lemma {:induction false} AgainIff(remote: map<string, string>, inherited: set<string>, order: seq<string>,
                                    lines: seq<string>, i: nat, test: string -> bool)
    requires OneLineValues(remote) && forall j :: 0 <= j < |lines| ==> '\n' !in lines[j]
    requires test == (line => Updates(remote, inherited, line))
    ensures var out := Merge(remote, inherited, order, lines).lines;
            i < |out| ==> (HitAt(test, out, i) <==> DisturbsAt(remote, inherited, order, lines, i))
  {
    OutputLine(remote, inherited, order, lines, i);
    if i < |WithoutFinalBlank(lines)| {
      KeptAgainIff(remote, inherited, order, lines, i, test);
    }
  }

  lemma KeptAgainIff(remote: map<string, string>, inherited: set<string>, order: seq<string>, lines: seq<string>,
                     i: nat, test: string -> bool)
    requires OneLineValues(remote) && forall j :: 0 <= j < |lines| ==> '\n' !in lines[j]
    requires forall line :: test(line) <==> Updates(remote, inherited, line)
    requires i < |WithoutFinalBlank(lines)|
    ensures var out := Merge(remote, inherited, order, lines).lines;
            i < |out| && (HitAt(test, out, i) <==> Disturbs(remote, inherited, lines[i], i + 1 < |out|))
  {
    var out := Merge(remote, inherited, order, lines).lines;
    AppliedTextIsOneLine(remote, inherited, lines[i]);
    KeptLineHasNoLineFeed(remote, inherited, order, lines, i);
    OutputLine(remote, inherited, order, lines, i);
    var followed := i + 1 < |out|;
    SingleLine(out[i], followed);
    HitsOne(test, if followed then StripCr(out[i]) else out[i]);
    KeptLineReread(remote, inherited, lines[i], followed);
  }

  lemma AppliedTextIsOneLine(remote: map<string, string>, inherited: set<string>, line: string)
    requires OneLineValues(remote)
    ensures Applies(remote, inherited, line) ==> OneLine(TextOf(remote, ReadLine(line).value.key))
  {
    if Applies(remote, inherited, line) {
      RewrittenReads(remote, inherited, line);
    }
  }

  lemma {:induction false} SecondMergeUpdates(remote: map<string, string>, inherited: set<string>, order: seq<string>,
                                              lines: seq<string>)
    requires OneLineValues(remote) && forall j :: 0 <= j < |lines| ==> '\n' !in lines[j]
    ensures var out := Merge(remote, inherited, order, lines).lines;
            UpdateCount(remote, inherited, Resplit(out)) == 0 <==>
            forall i :: 0 <= i < |out| ==> !DisturbsAt(remote, inherited, order, lines, i)
  {
    var out := Merge(remote, inherited, order, lines).lines;
    var test := line => Updates(remote, inherited, line);
    UpdateCountIsHits(remote, inherited, Resplit(out), test);
    NoHitsIff(test, Resplit(out));
    if out == [] {
      BlankIsNotUpdated(remote, inherited);
      HitsOne(test, []);
    } else {
      ResplitHitsIff(test, out);
      forall i | 0 <= i < |out| ensures HitAt(test, out, i) <==> DisturbsAt(remote, inherited, order, lines, i) {
        AgainIff(remote, inherited, order, lines, i, test);
      }
    }
  }

  lemma BlankIsNotUpdated(remote: map<string, string>, inherited: set<string>)
    ensures !Updates(remote, inherited, [])
  {
    assert ReadLine([]).None?;
  }

  /**
   Merging the output again, for remote values of one line and any remote keys: it appends exactly the
   keys that are not identifiers once more, and it reports nothing updated if and only if no kept line
   and no appended key disturbs it. With identifiers for keys only a kept line can.
   */
  lemma MergeAgainIff(remote: map<string, string>, inherited: set<string>, order: seq<string>, existing: string)
    requires OneLineValues(remote) && forall k :: k in order ==> k in remote
    ensures var lines := SplitLines(existing);
            var out := Merge(remote, inherited, order, lines).lines;
            var second := SplitLines(Join(out, '\n'));
            && Missing(remote, inherited, second, order) == NotIdentifiers(order)
            && Merge(remote, inherited, order, second).added == |NotIdentifiers(order)|
            && (Merge(remote, inherited, order, second).updated == 0 <==>
                forall i :: 0 <= i < |out| ==> !DisturbsAt(remote, inherited, order, lines, i))
  {
    var lines := SplitLines(existing);
    var out := Merge(remote, inherited, order, lines).lines;
    SplitLinesHaveNoLineFeed(existing);
    SplitLinesOfOutput(out);
    forall key | key in order ensures AppliedIn(remote, inherited, Resplit(out), key) <==> IsIdentifier(key) {
      SecondMergeFinds(remote, inherited, order, lines, key);
    }
    MissingNotIdentifiers(remote, inherited, Resplit(out), order);
    SecondMergeUpdates(remote, inherited, order, lines);
  }

  lemma {:induction false} NotIdentifiersIff(order: seq<string>, key: string)
    ensures key in NotIdentifiers(order) <==> key in order && !IsIdentifier(key)
  {
    if order != [] {
      NotIdentifiersIff(order[..|order| - 1], key);
      assert order == order[..|order| - 1] + [order[|order| - 1]];
    }
  }

  /** What the second of two merges reports. */
  function MergedAgain(remote: map<string, string>, inherited: set<string>, order: seq<string>,
                       existing: string): Merged {
    var out := Merge(remote, inherited, order, SplitLines(existing)).lines;
    Merge(remote, inherited, order, SplitLines(Join(out, '\n')))
  }

  /** A remote key that is no identifier: the second merge adds something, whatever the file was. */
  lemma {:induction false} StrangeKeyIsAppendedAgain(remote: map<string, string>, order: seq<string>, existing: string,
                                                     key: string)
    requires OneLineValues(remote) && forall k :: k in order ==> k in remote
    requires key in order && !IsIdentifier(key)
    ensures MergedAgain(remote, INHERITED, order, existing).added > 0
  {
    NotIdentifiersIff(order, key);
    MergeAgainIff(remote, INHERITED, order, existing);
  }

  /** For example a key with a hyphen. */
  lemma HyphenIsNoIdentifier(before: string, after: string)
    ensures !IsIdentifier(before + ['-'] + after)
  {
    assert (before + ['-'] + after)[|before|] == '-' && !IsNameChar('-');
  }

  /** An assignment to an inherited name is rewritten, and reported, by every merge. */
  lemma {:induction false} InheritedIsUpdatedAgain(key: string, value: string)
    requires key in INHERITED && IsIdentifier(key) && OneLine(value)
    ensures MergedAgain(map[], INHERITED, [], key + ['='] + value).updated > 0
  {
    var line, remote := key + ['='] + value, map[];
    AppendedIsOneLine(key, value);
    SplitFirst(line, '\n', []);
    var lines := SplitLines(line);
    assert lines == [line] && WithoutFinalBlank(lines) == [line];
    WrittenReadsBack(Assignment([], key, value));
    WriteWithoutHead(key, value);
    FinalBlankCommutes(remote, INHERITED, lines);
    assert DisturbsAt(remote, INHERITED, [], lines, 0);
    MergeAgainIff(remote, INHERITED, [], line);
  }

  /** For example `constructor`. */
  lemma ConstructorIsInherited()
    ensures "constructor" in INHERITED && IsIdentifier("constructor")
  {
  }

  lemma SplitLinesHaveNoLineFeed(text: string)
    ensures forall i :: 0 <= i < |SplitLines(text)| ==> '\n' !in SplitLines(text)[i]
  {
    SplitParts(text, '\n');
  }

  // The pattern and the counts, told by the text alone.

  /** What may stand before the key: space, or space, the word and more space. */
  lemma HeadIff(head: string)
    ensures IsHead(head) <==>
            || AllSpace(head)
            || exists n :: 0 <= n && n + 6 < |head| && AllSpace(head[..n]) && head[n..n + 6] == "export"
                           && AllSpace(head[n + 6..])
  {
    if IsHead(head) {
      var n := SpaceRun(head);
      SpaceRunSplits(head);
      if n == |head| {
        assert head[..n] == head;
      } else {
        assert head[n..][..6] == head[n..n + 6];
      }
    }
    if AllSpace(head) {
      SpaceHead(head);
    }
    if n :| 0 <= n && n + 6 < |head| && AllSpace(head[..n]) && head[n..n + 6] == "export" && AllSpace(head[n + 6..]) {
      ExportHead(head[..n], head[n + 6..]);
      assert head[..n] + EXPORT + head[n + 6..] == head;
    }
  }

  lemma NameCharCodes(c: char)
    ensures IsNameChar(c) <==> var n := c as int; 48 <= n <= 57 || 65 <= n <= 90 || n == 95 || 97 <= n <= 122
    ensures IsIdentifier([c]) <==> IsNameChar(c) && !(48 <= c as int <= 57)
  {
  }

  lemma {:induction false} CountHitsCounts(test: string -> bool, lines: seq<string>)
    ensures CountHits(test, lines) == |set i | 0 <= i < |lines| && test(lines[i]) :: i|
  {
    if lines != [] {
      var n := |lines| - 1;
      CountHitsCounts(test, lines[..n]);
      var before := set i | 0 <= i < n && test(lines[..n][i]) :: i;
      var now := set i | 0 <= i < |lines| && test(lines[i]) :: i;
      assert now == before + if test(lines[n]) then {n} else {};
    }
  }

  /** The count of updates is the number of lines that are updates. */
  lemma UpdateCountCounts(remote: map<string, string>, inherited: set<string>, lines: seq<string>)
    ensures var test := line => Updates(remote, inherited, line);
            UpdateCount(remote, inherited, lines) == |set i | 0 <= i < |lines| && test(lines[i]) :: i|
  {
    var test := line => Updates(remote, inherited, line);
    UpdateCountIsHits(remote, inherited, lines, test);
    CountHitsCounts(test, lines);
  }

  /** A line that comes out changed is an update, and an update of a remote key changes the line. */
  lemma UpdatesChange(remote: map<string, string>, inherited: set<string>, line: string)
    ensures MergeLine(remote, inherited, line) != line ==> Updates(remote, inherited, line)
    ensures Updates(remote, inherited, line) && ReadLine(line).value.key in remote ==>
              MergeLine(remote, inherited, line) != line
  {
    if Updates(remote, inherited, line) && ReadLine(line).value.key in remote {
      var a := ReadLine(line).value;
      ReadLineWrites(line);
      MergedAssignment(remote, inherited, line);
      var front := a.head + a.key + ['='];
      assert line[|front|..] == a.value && MergeLine(remote, inherited, line)[|front|..] == remote[a.key];
    }
  }

  /** One line break at the end of the file goes before anything is appended, and only one. */
  lemma FinalBreakGoes(remote: map<string, string>, inherited: set<string>, order: seq<string>, lines: seq<string>)
    ensures Merge(remote, inherited, order, lines + [[]]).lines
            == MergeLines(remote, inherited, lines) + Appended(remote, Missing(remote, inherited, lines + [[]], order))
    ensures lines != [] && lines[|lines| - 1] != [] ==>
              Merge(remote, inherited, order, lines).lines
              == MergeLines(remote, inherited, lines) + Appended(remote, Missing(remote, inherited, lines, order))
  {
    assert (lines + [[]])[..|lines|] == lines;
    BlankStaysBlank(remote, inherited, []);
    FinalBlankCommutes(remote, inherited, lines + [[]]);
    FinalBlankCommutes(remote, inherited, lines);
  }

  /** What becomes of two more inherited names. */
  lemma ProtoIsLost()
    ensures MergeLine(map[], INHERITED, "__proto__" + ['='] + "x") == "__proto__" + ['='] + "[object Object]"
  {
    InheritedAssignmentIsLost(INHERITED, "__proto__", "x");
  }

  lemma ValueOfIsLost()
    ensures MergeLine(map[], INHERITED, "valueOf" + ['='] + "x")
            == "valueOf" + ['='] + ("function " + "valueOf" + "() { [native code] }")
  {
    InheritedAssignmentIsLost(INHERITED, "valueOf", "x");
  }
}
