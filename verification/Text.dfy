/** The string operations the dotenv code is made of. */
module Text {
  /** What `trim` strips and `\s` matches. */
  predicate IsSpace(c: char) {
    || c == ' ' || c == '\t' || c == '\n' || c == '\r'
    || c == '\U{000B}' || c == '\U{000C}' || c == '\U{00A0}' || c == '\U{FEFF}' || c == '\U{1680}'
    || '\U{2000}' <= c <= '\U{200A}'
    || c == '\U{2028}' || c == '\U{2029}' || c == '\U{202F}' || c == '\U{205F}' || c == '\U{3000}'
  }

  /** What a dot in a pattern does not match. */
  predicate IsLineTerminator(c: char) {
    c == '\n' || c == '\r' || c == '\U{2028}' || c == '\U{2029}'
  }

  function TrimStart(s: string): (t: string)
    ensures |t| <= |s|
  {
    if s != [] && IsSpace(s[0]) then TrimStart(s[1..]) else s
  }

  function TrimEnd(s: string): (t: string)
    ensures |t| <= |s|
  {
    if s != [] && IsSpace(s[|s| - 1]) then TrimEnd(s[..|s| - 1]) else s
  }

  function Trim(s: string): (t: string)
    ensures |t| <= |s|
  {
    TrimStart(TrimEnd(s))
  }

  predicate TrimStable(s: string) {
    s == [] || (!IsSpace(s[0]) && !IsSpace(s[|s| - 1]))
  }

  lemma {:induction false} TrimStartIsSuffix(s: string)
    ensures TrimStart(s) == s[|s| - |TrimStart(s)|..]
    ensures TrimStart(s) != [] ==> !IsSpace(TrimStart(s)[0])
  {
    if s != [] && IsSpace(s[0]) {
      TrimStartIsSuffix(s[1..]);
    }
  }

  lemma {:induction false} TrimEndIsPrefix(s: string)
    ensures TrimEnd(s) <= s
    ensures TrimEnd(s) != [] ==> !IsSpace(TrimEnd(s)[|TrimEnd(s)| - 1])
    ensures TrimEnd(TrimEnd(s)) == TrimEnd(s)
  {
    if s != [] && IsSpace(s[|s| - 1]) {
      TrimEndIsPrefix(s[..|s| - 1]);
    }
  }

  /** Trimming only drops characters, and its result has no space at either end. */
  lemma TrimFacts(s: string)
    ensures TrimStable(Trim(s))
    ensures Trim(s) == s <==> TrimStable(s)
    ensures |Trim(s)| == |s| ==> Trim(s) == s
    ensures Trim(TrimEnd(s)) == Trim(s)
    ensures forall c :: c !in s ==> c !in Trim(s)
  {
    TrimEndIsPrefix(s);
    TrimStartIsSuffix(TrimEnd(s));
    TrimAddsNothing(s);
  }

  lemma TrimAddsNothing(s: string)
    ensures forall c :: c !in s ==> c !in Trim(s)
  {
    TrimEndIsPrefix(s);
    TrimStartIsSuffix(TrimEnd(s));
    assert forall i :: 0 <= i < |Trim(s)| ==> Trim(s)[i] == s[|TrimEnd(s)| - |Trim(s)| + i];
  }

  /** Trailing space goes, whatever stands before the last character that stays. */
  lemma {:induction false} TrimEndKeepsFront(front: string, back: string)
    requires front != [] && !IsSpace(front[|front| - 1])
    ensures TrimEnd(front + back) == front + TrimEnd(back)
  {
    if back == [] {
      assert front + back == front;
    } else if IsSpace(back[|back| - 1]) {
      assert (front + back)[..|front + back| - 1] == front + back[..|back| - 1];
      TrimEndKeepsFront(front, back[..|back| - 1]);
    }
  }

  predicate AllSpace(s: string) {
    forall i :: 0 <= i < |s| ==> IsSpace(s[i])
  }

  lemma {:induction false} TrimStartSkips(space: string, s: string)
    requires AllSpace(space)
    ensures TrimStart(space + s) == TrimStart(s)
  {
    if space == [] {
      assert space + s == s;
    } else {
      assert (space + s)[1..] == space[1..] + s;
      TrimStartSkips(space[1..], s);
    }
  }

  lemma {:induction false} TrimEndSkips(s: string, space: string)
    requires AllSpace(space)
    ensures TrimEnd(s + space) == TrimEnd(s)
  {
    if space == [] {
      assert s + space == s;
    } else {
      assert (s + space)[..|s + space| - 1] == s + space[..|space| - 1];
      TrimEndSkips(s, space[..|space| - 1]);
    }
  }

  /** Trimming takes the space around a text and nothing of the text. */
  lemma TrimPadded(before: string, s: string, after: string)
    requires AllSpace(before) && AllSpace(after) && TrimStable(s)
    ensures Trim(before + s + after) == s
  {
    TrimEndSkips(before + s, after);
    if s == [] {
      assert before + s == [] + before;
      TrimEndSkips([], before);
    } else {
      TrimEndKeepsFront(before + s, []);
      assert (before + s) + [] == before + s;
      TrimStartSkips(before, s);
    }
  }

  lemma TrimKeepsHead(s: string)
    requires s != [] && !IsSpace(s[0])
    ensures Trim(s) != [] && Trim(s)[0] == s[0]
  {
    TrimEndKeepsFront(s[..1], s[1..]);
    assert s[..1] + s[1..] == s;
  }

  /** The first index of `c`, or the length. */
  function IndexOf(s: string, c: char): (i: nat)
    ensures i <= |s|
  {
    if s == [] || s[0] == c then 0 else 1 + IndexOf(s[1..], c)
  }

  lemma {:induction false} IndexOfIsFirst(s: string, c: char)
    ensures c !in s[..IndexOf(s, c)]
    ensures IndexOf(s, c) < |s| ==> s[IndexOf(s, c)] == c
  {
    if s != [] && s[0] != c {
      IndexOfIsFirst(s[1..], c);
      assert s[..IndexOf(s, c)] == [s[0]] + s[1..][..IndexOf(s[1..], c)];
    }
  }

  lemma {:induction false} IndexOfFirst(front: string, c: char, back: string)
    requires c !in front
    ensures IndexOf(front + [c] + back, c) == |front|
  {
    if front != [] {
      assert (front + [c] + back)[1..] == front[1..] + [c] + back;
      IndexOfFirst(front[1..], c, back);
    }
  }

  function Split(s: string, c: char): (parts: seq<string>)
    ensures parts != []
  {
    if s == [] then [[]]
    else
      var rest := Split(s[1..], c);
      if s[0] == c then [[]] + rest else [[s[0]] + rest[0]] + rest[1..]
  }

  /** What one more character in front does to the parts. */
  function Prepend(first: char, c: char, parts: seq<string>): seq<string>
    requires parts != []
  {
    if first == c then [[]] + parts else [[first] + parts[0]] + parts[1..]
  }

  lemma SplitCons(first: char, s: string, c: char)
    ensures Split([first] + s, c) == Prepend(first, c, Split(s, c))
  {
    assert ([first] + s)[1..] == s;
  }

  lemma PrependAppend(first: char, c: char, front: seq<string>, back: seq<string>)
    requires front != []
    ensures Prepend(first, c, front + back) == Prepend(first, c, front) + back
  {
  }

  /** Splitting at a separator splits the two sides. */
  lemma {:induction false} SplitAppend(front: string, c: char, back: string)
    ensures Split(front + [c] + back, c) == Split(front, c) + Split(back, c)
  {
    if front == [] {
      assert front + [c] + back == [c] + back;
      SplitCons(c, back, c);
    } else {
      var first, rest := front[0], front[1..];
      assert front == [first] + rest && front + [c] + back == [first] + (rest + [c] + back);
      SplitCons(first, rest, c);
      SplitCons(first, rest + [c] + back, c);
      SplitAppend(rest, c, back);
      PrependAppend(first, c, Split(rest, c), Split(back, c));
    }
  }

  lemma {:induction false} SplitParts(s: string, c: char)
    ensures forall i :: 0 <= i < |Split(s, c)| ==> c !in Split(s, c)[i]
  {
    if s != [] {
      SplitParts(s[1..], c);
    }
  }

  function Join(parts: seq<string>, c: char): string {
    if parts == [] then []
    else if |parts| == 1 then parts[0]
    else parts[0] + [c] + Join(parts[1..], c)
  }

  lemma {:induction false} SplitFirst(front: string, c: char, back: string)
    requires c !in front
    ensures Split(front, c) == [front]
    ensures Split(front + [c] + back, c) == [front] + Split(back, c)
  {
    if front == [] {
      assert front + [c] + back == [c] + back && ([c] + back)[1..] == back;
    } else {
      assert (front + [c] + back)[1..] == front[1..] + [c] + back;
      SplitFirst(front[1..], c, back);
      assert [front[0]] + front[1..] == front;
    }
  }

  lemma {:induction false} SplitJoin(parts: seq<string>, c: char)
    requires parts != [] && forall i :: 0 <= i < |parts| ==> c !in parts[i]
    ensures Split(Join(parts, c), c) == parts
  {
    if |parts| == 1 {
      SplitFirst(parts[0], c, []);
    } else {
      SplitFirst(parts[0], c, Join(parts[1..], c));
      SplitJoin(parts[1..], c);
    }
  }

  /** And joining undoes splitting. */
  lemma {:induction false} JoinSplit(s: string, c: char)
    ensures Join(Split(s, c), c) == s
  {
    if s != [] {
      var rest := Split(s[1..], c);
      JoinSplit(s[1..], c);
      if s[0] == c {
        assert ([[]] + rest)[1..] == rest && [] + [c] + Join(rest, c) == s;
      } else {
        JoinPrepended(s[0], rest, c);
        assert [s[0]] + s[1..] == s;
      }
    }
  }

  lemma JoinPrepended(first: char, parts: seq<string>, c: char)
    requires parts != []
    ensures Join([[first] + parts[0]] + parts[1..], c) == [first] + Join(parts, c)
  {
    assert ([[first] + parts[0]] + parts[1..])[1..] == parts[1..];
  }

  predicate EndsWith(s: string, suffix: string) {
    |suffix| <= |s| && s[|s| - |suffix|..] == suffix
  }

  predicate OccursAt(s: string, part: string, i: nat) {
    i + |part| <= |s| && s[i..i + |part|] == part
  }

  predicate Contains(s: string, part: string) {
    exists i :: 0 <= i <= |s| && OccursAt(s, part, i)
  }

  function LowerAscii(s: string): string {
    seq(|s|, i requires 0 <= i < |s| => if 'A' <= s[i] <= 'Z' then s[i] + ('a' - 'A') else s[i])
  }

  // The character classes by their codes.

  lemma SpaceCodes(c: char)
    ensures IsSpace(c) <==>
            var n := c as int;
            || n in {9, 10, 11, 12, 13, 32, 160, 5760, 8232, 8233, 8239, 8287, 12288, 65279}
            || 8192 <= n <= 8202
  {
  }

  lemma LineTerminatorCodes(c: char)
    ensures IsLineTerminator(c) <==> c as int in {10, 13, 8232, 8233}
  {
  }

  /** Only the capital letters change, each to the letter 32 codes on. */
  lemma LowerCodes(s: string, i: nat)
    requires i < |s|
    ensures |LowerAscii(s)| == |s|
    ensures LowerAscii(s)[i] as int == (s[i] as int) + if 65 <= s[i] as int <= 90 then 32 else 0
  {
  }
}
