/**
 Reference expansion: every `${KEY}` in a value is replaced by the expanded value of KEY, in passes
 that overwrite the map they read.
 */
module References {
  import opened Wrappers
  import opened Text
  import opened PlainObjects

  /** The marks around a reference, `${` and `}` by default. */
  datatype Marks = Marks(prefix: string, suffix: string)

  /** Some mark is there to be matched; otherwise the pattern matches the empty text everywhere. */
  predicate ValidMarks(d: Marks) {
    d.prefix != [] || d.suffix != []
  }

  /** A value is a sequence of plain characters and references; `inner` stands between the marks. */
  datatype Token = Plain(c: char) | Reference(inner: string)

  /** Where the lazy match of a reference body ends: the first suffix before any line terminator. */
  function Close(s: string, suffix: string): (end: Option<nat>)
    ensures end.Some? ==> end.value + |suffix| <= |s|
  {
    if suffix <= s then Some(0)
    else if s == [] || IsLineTerminator(s[0]) then None
    else
      match Close(s[1..], suffix)
      case Some(end) => Some(end + 1)
      case None => None
  }

  /** The body length of a reference at the head of `s`, if there is one. */
  function Head(d: Marks, s: string): (end: Option<nat>)
    ensures end.Some? ==> d.prefix <= s && |d.prefix| + end.value + |d.suffix| <= |s|
  {
    if d.prefix <= s then Close(s[|d.prefix|..], d.suffix) else None
  }

  /** The leftmost, non-overlapping matches of the pattern, and the characters between them. */
  function Tokenize(d: Marks, s: string): seq<Token>
    decreases |s|
  {
    if !ValidMarks(d) then Everywhere(s)
    else if s == [] then []
    else [FirstToken(d, s)] + Tokenize(d, s[FirstLength(d, s)..])
  }

  /** The empty match before every character and at the end. */
  function Everywhere(s: string): seq<Token> {
    [Reference([])] + if s == [] then [] else [Plain(s[0])] + Everywhere(s[1..])
  }

  function FirstToken(d: Marks, s: string): Token
    requires s != []
  {
    match Head(d, s)
    case Some(end) => Reference(s[|d.prefix|..|d.prefix| + end])
    case None => Plain(s[0])
  }

  function FirstLength(d: Marks, s: string): (n: nat)
    requires ValidMarks(d) && s != []
    ensures 0 < n <= |s|
  {
    match Head(d, s)
    case Some(end) => |d.prefix| + end + |d.suffix|
    case None => 1
  }

  function Raw(d: Marks, token: Token): string {
    match token
    case Plain(c) => [c]
    case Reference(inner) => d.prefix + inner + d.suffix
  }

  function Show(d: Marks, tokens: seq<Token>): string {
    if tokens == [] then [] else Raw(d, tokens[0]) + Show(d, tokens[1..])
  }

  /** Reading loses nothing: the tokens put together are the text. */
  lemma {:induction false} ShowTokenized(d: Marks, s: string)
    ensures Show(d, Tokenize(d, s)) == s
    decreases |s|
  {
    if !ValidMarks(d) {
      ShowEverywhere(d, s);
    } else if s != [] {
      FirstIsRaw(d, s);
      ShowTokenized(d, s[FirstLength(d, s)..]);
    }
  }

  lemma {:induction false} ShowEverywhere(d: Marks, s: string)
    requires !ValidMarks(d)
    ensures Show(d, Everywhere(s)) == s
  {
    assert Raw(d, Reference([])) == [];
    if s == [] {
      assert Everywhere(s)[1..] == [];
    } else {
      ShowEverywhere(d, s[1..]);
      assert Everywhere(s)[1..] == [Plain(s[0])] + Everywhere(s[1..]);
      assert Everywhere(s)[1..][1..] == Everywhere(s[1..]);
    }
  }

  lemma FirstIsRaw(d: Marks, s: string)
    requires ValidMarks(d) && s != []
    ensures s == Raw(d, FirstToken(d, s)) + s[FirstLength(d, s)..]
  {
    if Head(d, s).Some? {
      var end := Head(d, s).value;
      HeadParts(d, s, end);
      RejoinReference(s, |d.prefix|, end, |d.suffix|);
    }
  }

  lemma HeadParts(d: Marks, s: string, end: nat)
    requires Head(d, s) == Some(end)
    ensures s[..|d.prefix|] == d.prefix && s[|d.prefix|..][end..end + |d.suffix|] == d.suffix
  {
    CloseFindsSuffix(s[|d.prefix|..], d.suffix);
  }

  lemma RejoinReference(s: string, p: nat, end: nat, q: nat)
    requires p + end + q <= |s|
    ensures s == s[..p] + s[p..p + end] + s[p..][end..end + q] + s[p + end + q..]
  {
  }

  /** A token that names a key of the map. */
  predicate Refers(values: map<string, string>, token: Token) {
    token.Reference? && Trim(token.inner) in values
  }

  /**
   `resolveOne`: keys on the stack and undefined keys are left as they stand. Each nested call puts one
   more defined key on the stack, so the recursion ends on every map, cyclic ones included.
   */
  function Resolve(d: Marks, values: map<string, string>, tokens: seq<Token>, stack: set<string>): string
    decreases values.Keys - stack, |tokens|
  {
    if tokens == [] then []
    else ResolveToken(d, values, tokens[0], stack) + Resolve(d, values, tokens[1..], stack)
  }

  function ResolveToken(d: Marks, values: map<string, string>, token: Token, stack: set<string>): string
    decreases values.Keys - stack, 0
  {
    if !Refers(values, token) || Trim(token.inner) in stack then Raw(d, token)
    else
      var name := Trim(token.inner);
      assert name in values.Keys - stack && name !in values.Keys - (stack + {name});
      Resolve(d, values, Tokenize(d, values[name]), stack + {name})
  }

  lemma ResolveCons(d: Marks, values: map<string, string>, token: Token, rest: seq<Token>, stack: set<string>)
    ensures Resolve(d, values, [token] + rest, stack)
            == ResolveToken(d, values, token, stack) + Resolve(d, values, rest, stack)
  {
    assert ([token] + rest)[1..] == rest;
  }

  /** Every plain object answers to an inherited name, but not with text, and resolving that throws. */
  predicate Stumbles(values: map<string, string>, inherited: set<string>, token: Token) {
    token.Reference? && Trim(token.inner) !in values && Trim(token.inner) in inherited
  }

  /** Whether resolving the text reaches such a name. */
  predicate Throws(d: Marks, values: map<string, string>, inherited: set<string>, tokens: seq<Token>,
                   stack: set<string>)
    decreases values.Keys - stack, |tokens|
  {
    tokens != []
    && (TokenThrows(d, values, inherited, tokens[0], stack) || Throws(d, values, inherited, tokens[1..], stack))
  }

  predicate TokenThrows(d: Marks, values: map<string, string>, inherited: set<string>, token: Token, stack: set<string>)
    decreases values.Keys - stack, 0
  {
    if token.Plain? || Trim(token.inner) in stack then false
    else if !Refers(values, token) then Stumbles(values, inherited, token)
    else
      var name := Trim(token.inner);
      assert name in values.Keys - stack && name !in values.Keys - (stack + {name});
      Throws(d, values, inherited, Tokenize(d, values[name]), stack + {name})
  }

  /** The text `resolveOne` returns, if it returns. */
  function Outcome(d: Marks, values: map<string, string>, inherited: set<string>, tokens: seq<Token>,
                   stack: set<string>)
    : Option<string>
  {
    if Throws(d, values, inherited, tokens, stack) then None else Some(Resolve(d, values, tokens, stack))
  }

  lemma ThrowsCons(d: Marks, values: map<string, string>, inherited: set<string>, token: Token, rest: seq<Token>,
                   stack: set<string>)
    ensures Throws(d, values, inherited, [token] + rest, stack) <==>
            TokenThrows(d, values, inherited, token, stack) || Throws(d, values, inherited, rest, stack)
  {
    assert ([token] + rest)[1..] == rest;
  }

  /** `resolveOne` as it runs: the text is rebuilt piece by piece, each match replaced on the way. */
  method ResolveOne(d: Marks, values: map<string, string>, inherited: set<string>, value: string, stack: set<string>)
    returns (out: Option<string>)
    ensures out == Outcome(d, values, inherited, Tokenize(d, value), stack)
    decreases values.Keys - stack, 1
  {
    var done := "";
    var tokens := Tokenize(d, value);
    ghost var whole := Resolve(d, values, tokens, stack);
    ghost var throws := Throws(d, values, inherited, tokens, stack);
    for i := 0 to |tokens|
      invariant whole == done + Resolve(d, values, tokens[i..], stack)
      invariant throws <==> Throws(d, values, inherited, tokens[i..], stack)
    {
      ghost var rest := Resolve(d, values, tokens[i + 1..], stack);
      NextToken(d, values, inherited, tokens, stack, i);
      var piece := if tokens[i].Plain? then Some([tokens[i].c]) else None;
      if tokens[i].Reference? {
        piece := ResolveMatch(d, values, inherited, tokens[i].inner, stack);
      }
      if piece.None? {
        return None;
      }
      Regroup(done, piece.value, rest);
      done := done + piece.value;
    }
    assert tokens[|tokens|..] == [] && done + [] == done;
    return Some(done);
  }

  lemma Regroup(a: string, b: string, c: string)
    ensures a + (b + c) == (a + b) + c
  {
  }

  lemma NextToken(d: Marks, values: map<string, string>, inherited: set<string>, tokens: seq<Token>, stack: set<string>,
                  i: nat)
    requires i < |tokens|
    ensures Resolve(d, values, tokens[i..], stack)
            == ResolveToken(d, values, tokens[i], stack) + Resolve(d, values, tokens[i + 1..], stack)
    ensures Throws(d, values, inherited, tokens[i..], stack) <==>
            TokenThrows(d, values, inherited, tokens[i], stack) || Throws(d, values, inherited, tokens[i + 1..], stack)
  {
    assert tokens[i..] == [tokens[i]] + tokens[i + 1..];
    ResolveCons(d, values, tokens[i], tokens[i + 1..], stack);
    ThrowsCons(d, values, inherited, tokens[i], tokens[i + 1..], stack);
  }

  /** The replacement of one match; None if it throws. */
  method ResolveMatch(d: Marks, values: map<string, string>, inherited: set<string>, inner: string, stack: set<string>)
    returns (piece: Option<string>)
    ensures piece == if TokenThrows(d, values, inherited, Reference(inner), stack) then None
                     else Some(ResolveToken(d, values, Reference(inner), stack))
    decreases values.Keys - stack, 0
  {
    var trimmed := Trim(inner);
    if trimmed in stack || (trimmed !in values && trimmed !in inherited) {
      return Some(d.prefix + inner + d.suffix);
    }
    if trimmed !in values {
      return None;
    }
    assert trimmed in values.Keys - stack && trimmed !in values.Keys - (stack + {trimmed});
    piece := ResolveOne(d, values, inherited, values[trimmed], stack + {trimmed});
  }

  /** One pass: each key in turn is resolved from its value at the start of the pass. */
  function Pass(d: Marks, before: map<string, string>, current: map<string, string>, order: seq<string>)
    : (after: map<string, string>)
    requires before.Keys == current.Keys && forall i :: 0 <= i < |order| ==> order[i] in before
    ensures after.Keys == before.Keys
    decreases |order|
  {
    if order == [] then current
    else
      var key := order[0];
      Pass(d, before, current[key := Resolve(d, current, Tokenize(d, before[key]), {key})], order[1..])
  }

  /** Passes until nothing changes, at most `maxDepth` of them. */
  function Passes(d: Marks, values: map<string, string>, order: seq<string>, maxDepth: nat): map<string, string>
    requires forall i :: 0 <= i < |order| ==> order[i] in values
    decreases maxDepth
  {
    if maxDepth == 0 then values
    else
      var after := Pass(d, values, values, order);
      if after == values then values else Passes(d, after, order, maxDepth - 1)
  }

  predicate DistinctKeysOf(order: seq<string>, values: map<string, string>) {
    && (forall i :: 0 <= i < |order| ==> order[i] in values)
    && (forall i, j :: 0 <= i < j < |order| ==> order[i] != order[j])
  }

  /** `order` lists every key of the map once. */
  predicate Enumerates(order: seq<string>, values: map<string, string>) {
    DistinctKeysOf(order, values) && forall key :: key in values ==> key in order
  }

  predicate PassThrows(d: Marks, inherited: set<string>, before: map<string, string>, current: map<string, string>,
                       order: seq<string>)
    requires before.Keys == current.Keys && forall i :: 0 <= i < |order| ==> order[i] in before
    decreases |order|
  {
    && order != []
    && var key := order[0];
       var next := current[key := Resolve(d, current, Tokenize(d, before[key]), {key})];
       || Throws(d, current, inherited, Tokenize(d, before[key]), {key})
       || PassThrows(d, inherited, before, next, order[1..])
  }

  predicate PassesThrow(d: Marks, inherited: set<string>, values: map<string, string>, order: seq<string>,
                        maxDepth: nat)
    requires forall i :: 0 <= i < |order| ==> order[i] in values
    decreases maxDepth
  {
    && maxDepth > 0
    && var after := Pass(d, values, values, order);
       || PassThrows(d, inherited, values, values, order)
       || (after != values && PassesThrow(d, inherited, after, order, maxDepth - 1))
  }

  /** The map `resolveReferences` returns, if it returns. */
  function Resolved(d: Marks, inherited: set<string>, values: map<string, string>, order: seq<string>, maxDepth: nat)
    : Option<map<string, string>>
    requires forall i :: 0 <= i < |order| ==> order[i] in values
  {
    if PassesThrow(d, inherited, values, order, maxDepth) then None else Some(Passes(d, values, order, maxDepth))
  }

  method ResolveReferences(values: map<string, string>, order: seq<string>, d: Marks, maxDepth: nat)
    returns (resolved: Option<map<string, string>>)
    requires Enumerates(order, values)
    ensures resolved == Resolved(d, INHERITED, values, order, maxDepth)
    ensures exists chain :: Tells(d, INHERITED, values, order, maxDepth, chain, resolved)
  {
    ghost var chain := ResolvedIsTold(d, INHERITED, values, order, maxDepth);
    var current := values;
    for i := 0 to maxDepth
      invariant current.Keys == values.Keys
      invariant Resolved(d, INHERITED, current, order, maxDepth - i) == Resolved(d, INHERITED, values, order, maxDepth)
    {
      var after, changed := ResolveAll(d, INHERITED, current, order);
      if after.None? {
        return None;
      }
      current := after.value;
      if !changed {
        break;
      }
    }
    return Some(current);
  }

  /** The inner loop; `changed` says whether any key got a new value. */
  method ResolveAll(d: Marks, inherited: set<string>, before: map<string, string>, order: seq<string>)
    returns (resolved: Option<map<string, string>>, changed: bool)
    requires DistinctKeysOf(order, before)
    ensures resolved == if PassThrows(d, inherited, before, before, order) then None
                        else Some(Pass(d, before, before, order))
    ensures resolved.Some? ==> (changed <==> resolved.value != before)
  {
    var current := before;
    changed := false;
    for j := 0 to |order|
      invariant current.Keys == before.Keys
      invariant Pass(d, before, current, order[j..]) == Pass(d, before, before, order)
      invariant PassThrows(d, inherited, before, current, order[j..]) <==>
                PassThrows(d, inherited, before, before, order)
      invariant forall k :: j <= k < |order| ==> current[order[k]] == before[order[k]]
      invariant !changed <==> current == before
    {
      var key := order[j];
      PassNext(d, inherited, before, current, order, j);
      var next := ResolveOne(d, current, inherited, before[key], {key});
      if next.None? {
        return None, changed;
      }
      ghost var updated := current[key := next.value];
      if next.value != current[key] {
        assert updated[key] != before[key];
        current := current[key := next.value];
        changed := true;
      } else {
        assert updated == current;
      }
    }
    assert order[|order|..] == [];
    resolved := Some(current);
  }

  lemma PassNext(d: Marks, inherited: set<string>, before: map<string, string>, current: map<string, string>,
                 order: seq<string>, j: nat)
    requires before.Keys == current.Keys && j < |order| && forall i :: 0 <= i < |order| ==> order[i] in before
    ensures var tokens := Tokenize(d, before[order[j]]);
            var next := current[order[j] := Resolve(d, current, tokens, {order[j]})];
            && Pass(d, before, current, order[j..]) == Pass(d, before, next, order[j + 1..])
            && (PassThrows(d, inherited, before, current, order[j..]) <==>
                || Throws(d, current, inherited, tokens, {order[j]})
                || PassThrows(d, inherited, before, next, order[j + 1..]))
  {
    assert order[j..] == [order[j]] + order[j + 1..];
    PassCons(d, inherited, before, current, order[j], order[j + 1..]);
  }

  lemma PassCons(d: Marks, inherited: set<string>, before: map<string, string>, current: map<string, string>,
                 key: string, rest: seq<string>)
    requires before.Keys == current.Keys && key in before
    requires forall i :: 0 <= i < |rest| ==> rest[i] in before
    ensures var next := current[key := Resolve(d, current, Tokenize(d, before[key]), {key})];
            && Pass(d, before, current, [key] + rest) == Pass(d, before, next, rest)
            && (PassThrows(d, inherited, before, current, [key] + rest) <==>
                || Throws(d, current, inherited, Tokenize(d, before[key]), {key})
                || PassThrows(d, inherited, before, next, rest))
  {
    assert ([key] + rest)[1..] == rest;
  }

  // Full substitution on acyclic maps.

  /** Along every reference to a defined key the rank goes down. */
  ghost predicate Ranked(d: Marks, values: map<string, string>, rank: string -> nat) {
    forall key :: key in values ==> Below(values, Tokenize(d, values[key]), rank, rank(key))
  }

  predicate Below(values: map<string, string>, tokens: seq<Token>, rank: string -> nat, bound: nat) {
    forall i :: 0 <= i < |tokens| && Refers(values, tokens[i]) ==> rank(Trim(tokens[i].inner)) < bound
  }

  /** Replace every defined reference by its own full substitution; keep everything else. */
  ghost function Substitute(d: Marks, values: map<string, string>, rank: string -> nat, tokens: seq<Token>, bound: nat)
    : seq<Token>
    requires Ranked(d, values, rank) && Below(values, tokens, rank, bound)
    decreases bound, |tokens|
  {
    if tokens == [] then []
    else
      (if Refers(values, tokens[0]) then SubstituteKey(d, values, rank, Trim(tokens[0].inner)) else [tokens[0]])
      + Substitute(d, values, rank, tokens[1..], bound)
  }

  ghost function SubstituteKey(d: Marks, values: map<string, string>, rank: string -> nat, key: string): seq<Token>
    requires Ranked(d, values, rank) && key in values
    decreases rank(key)
  {
    Substitute(d, values, rank, Tokenize(d, values[key]), rank(key))
  }

  ghost function FullySubstituted(d: Marks, values: map<string, string>, rank: string -> nat): map<string, string>
    requires Ranked(d, values, rank)
  {
    map key | key in values :: Show(d, SubstituteKey(d, values, rank, key))
  }

  /** The plain text at the head departs from the prefix before it ends or meets a reference. */
  predicate Departs(prefix: string, tokens: seq<Token>) {
    && prefix != [] && tokens != [] && tokens[0].Plain?
    && (tokens[0].c != prefix[0] || Departs(prefix[1..], tokens[1..]))
  }

  /** No prefix begins in the plain text, so it cannot combine with its neighbours into a reference. */
  predicate PlainIsPlain(d: Marks, tokens: seq<Token>) {
    tokens == [] || ((tokens[0].Plain? ==> Departs(d.prefix, tokens)) && PlainIsPlain(d, tokens[1..]))
  }

  predicate CannotCombine(d: Marks, values: map<string, string>) {
    ValidMarks(d) && forall key :: key in values ==> PlainIsPlain(d, Tokenize(d, values[key]))
  }

  /** A reference body ends at its own suffix. */
  predicate ProperToken(d: Marks, token: Token) {
    token.Reference? ==> Close(token.inner + d.suffix, d.suffix) == Some(|token.inner|)
  }

  predicate Proper(d: Marks, tokens: seq<Token>) {
    forall i :: 0 <= i < |tokens| ==> ProperToken(d, tokens[i])
  }

  predicate NoneRefer(values: map<string, string>, tokens: seq<Token>) {
    forall i :: 0 <= i < |tokens| ==> !Refers(values, tokens[i])
  }

  lemma {:induction false} CloseIgnoresRest(s: string, end: nat, suffix: string, rest: string)
    requires Close(s, suffix) == Some(end)
    ensures Close(s[..end] + suffix + rest, suffix) == Some(end)
  {
    if end == 0 {
      assert s[..0] + suffix + rest == suffix + rest;
    } else {
      CloseIgnoresRest(s[1..], end - 1, suffix, rest);
      CloseFindsSuffix(s, suffix);
      SameStart(s, end, suffix, rest);
      CloseStep(s, s[..end] + suffix + rest, suffix);
    }
  }

  lemma SameStart(s: string, end: nat, suffix: string, rest: string)
    requires 0 < end && end + |suffix| <= |s| && s[end..end + |suffix|] == suffix
    ensures var t := s[..end] + suffix + rest;
            && t[0] == s[0] && t[1..] == s[1..][..end - 1] + suffix + rest
            && (suffix <= s <==> suffix <= t)
  {
    var t := s[..end] + suffix + rest;
    assert t[..end + |suffix|] == s[..end + |suffix|];
    assert s[..|suffix|] == s[..end + |suffix|][..|suffix|] && t[..|suffix|] == t[..end + |suffix|][..|suffix|];
  }

  /** Two texts that start alike close alike, one character on. */
  lemma CloseStep(s: string, t: string, suffix: string)
    requires s != [] && t != [] && s[0] == t[0] && (suffix <= s <==> suffix <= t)
    requires Close(s, suffix).Some? && Close(s, suffix) != Some(0)
    requires Close(t[1..], suffix) == Close(s[1..], suffix)
    ensures Close(t, suffix) == Close(s, suffix)
  {
  }

  lemma {:induction false} CloseFindsSuffix(s: string, suffix: string)
    requires Close(s, suffix).Some?
    ensures var end := Close(s, suffix).value; s[end..end + |suffix|] == suffix
  {
    if !(suffix <= s) {
      CloseFindsSuffix(s[1..], suffix);
    }
  }

  predicate StartsAt(s: string, part: string, i: nat) {
    i + |part| <= |s| && s[i..i + |part|] == part
  }

  /** A reference body ends where the suffix stands for the first time, with no line terminator before. */
  lemma {:induction false} CloseIff(s: string, suffix: string, end: nat)
    ensures Close(s, suffix) == Some(end) <==> FirstStart(s, suffix, end)
  {
    assert suffix <= s <==> StartsAt(s, suffix, 0);
    if !(suffix <= s) && s != [] && end > 0 {
      CloseIff(s[1..], suffix, end - 1);
      FirstStartLater(s, suffix, end);
    }
  }

  predicate FirstStart(s: string, suffix: string, end: nat) {
    && StartsAt(s, suffix, end)
    && forall i :: 0 <= i < end ==> !StartsAt(s, suffix, i) && !IsLineTerminator(s[i])
  }

  lemma FirstStartLater(s: string, suffix: string, end: nat)
    requires s != [] && end > 0 && !StartsAt(s, suffix, 0)
    ensures FirstStart(s, suffix, end) <==> !IsLineTerminator(s[0]) && FirstStart(s[1..], suffix, end - 1)
  {
    StartsLater(s, suffix);
    if end < |s| || StartsAt(s, suffix, end) {
      assert forall i :: 0 <= i < end - 1 && i < |s| - 1 ==> s[1..][i] == s[i + 1];
      if FirstStart(s[1..], suffix, end - 1) {
        forall i | 0 < i < end ensures !StartsAt(s, suffix, i) && !IsLineTerminator(s[i]) {
          assert !StartsAt(s[1..], suffix, i - 1) && s[1..][i - 1] == s[i];
        }
      }
    }
  }

  lemma StartsLater(s: string, part: string)
    requires s != []
    ensures forall i :: 0 <= i < |s| ==> (StartsAt(s[1..], part, i) <==> StartsAt(s, part, i + 1))
  {
    forall i | 0 <= i < |s| ensures StartsAt(s[1..], part, i) <==> StartsAt(s, part, i + 1) {
      if i + 1 + |part| <= |s| {
        assert s[1..][i..i + |part|] == s[i + 1..i + 1 + |part|];
      }
    }
  }

  lemma {:induction false} TokenizeIsProper(d: Marks, s: string)
    requires ValidMarks(d)
    ensures Proper(d, Tokenize(d, s))
    decreases |s|
  {
    if s != [] {
      TokenizeIsProper(d, s[FirstLength(d, s)..]);
      if Head(d, s).Some? {
        HeadIsProper(d, s, Head(d, s).value);
      }
    }
  }

  lemma HeadIsProper(d: Marks, s: string, end: nat)
    requires Head(d, s) == Some(end)
    ensures ProperToken(d, Reference(s[|d.prefix|..|d.prefix| + end]))
  {
    CloseIgnoresRest(s[|d.prefix|..], end, d.suffix, []);
    var inner := s[|d.prefix|..|d.prefix| + end];
    assert inner == s[|d.prefix|..][..end] && inner + d.suffix + [] == inner + d.suffix;
  }

  lemma {:induction false} DepartsFromPrefix(d: Marks, prefix: string, tokens: seq<Token>)
    requires Departs(prefix, tokens)
    ensures !(prefix <= Show(d, tokens))
  {
    var shown := Show(d, tokens);
    if tokens[0].c == prefix[0] {
      DepartsFromPrefix(d, prefix[1..], tokens[1..]);
      assert shown[1..] == Show(d, tokens[1..]);
    }
  }

  /** Text put together from such tokens reads back as the same tokens. */
  lemma {:induction false} RetokenizeShown(d: Marks, tokens: seq<Token>)
    requires ValidMarks(d) && PlainIsPlain(d, tokens) && Proper(d, tokens)
    ensures Tokenize(d, Show(d, tokens)) == tokens
  {
    if tokens != [] {
      var rest := Show(d, tokens[1..]);
      RetokenizeShown(d, tokens[1..]);
      if tokens[0].Plain? {
        DepartsFromPrefix(d, d.prefix, tokens);
      }
      FirstReadsBack(d, tokens[0], rest);
    }
  }

  lemma FirstReadsBack(d: Marks, token: Token, rest: string)
    requires ValidMarks(d) && ProperToken(d, token)
    requires token.Plain? ==> !(d.prefix <= Raw(d, token) + rest)
    ensures Tokenize(d, Raw(d, token) + rest) == [token] + Tokenize(d, rest)
  {
    match token
    case Plain(c) => PlainReadsBack(d, c, rest);
    case Reference(inner) => ReferenceReadsBack(d, inner, rest);
  }

  lemma PlainReadsBack(d: Marks, c: char, rest: string)
    requires ValidMarks(d) && !(d.prefix <= [c] + rest)
    ensures Tokenize(d, [c] + rest) == [Plain(c)] + Tokenize(d, rest)
  {
    assert ([c] + rest)[1..] == rest;
  }

  lemma ReferenceReadsBack(d: Marks, inner: string, rest: string)
    requires ValidMarks(d) && ProperToken(d, Reference(inner))
    ensures Tokenize(d, d.prefix + inner + d.suffix + rest) == [Reference(inner)] + Tokenize(d, rest)
  {
    HeadOfReference(d, inner, rest);
    CutOut(d.prefix, inner, d.suffix, rest);
    ReferenceFirst(d, d.prefix + inner + d.suffix + rest, inner, rest);
  }

  lemma CutOut(prefix: string, inner: string, suffix: string, rest: string)
    ensures var shown := prefix + inner + suffix + rest;
            shown[|prefix|..|prefix| + |inner|] == inner && shown[|prefix| + |inner| + |suffix|..] == rest
  {
  }

  lemma ReferenceFirst(d: Marks, s: string, inner: string, rest: string)
    requires ValidMarks(d) && Head(d, s) == Some(|inner|)
    requires s[|d.prefix|..|d.prefix| + |inner|] == inner && s[|d.prefix| + |inner| + |d.suffix|..] == rest
    ensures Tokenize(d, s) == [Reference(inner)] + Tokenize(d, rest)
  {
    assert s != [] by {
      assert d.prefix <= s;
    }
    TokenizeFirst(d, s);
  }

  lemma TokenizeFirst(d: Marks, s: string)
    requires ValidMarks(d) && s != []
    ensures Tokenize(d, s) == [FirstToken(d, s)] + Tokenize(d, s[FirstLength(d, s)..])
  {
  }

  lemma HeadOfReference(d: Marks, inner: string, rest: string)
    requires ProperToken(d, Reference(inner))
    ensures Head(d, d.prefix + inner + d.suffix + rest) == Some(|inner|)
  {
    CloseIgnoresRest(inner + d.suffix, |inner|, d.suffix, rest);
    assert (inner + d.suffix)[..|inner|] == inner;
    assert d.prefix + inner + d.suffix + rest == d.prefix + (inner + d.suffix + rest);
    HeadAfterPrefix(d, inner + d.suffix + rest);
  }

  lemma HeadAfterPrefix(d: Marks, rest: string)
    ensures Head(d, d.prefix + rest) == Close(rest, d.suffix)
  {
    assert (d.prefix + rest)[|d.prefix|..] == rest;
  }

  lemma {:induction false} DepartsAppend(prefix: string, front: seq<Token>, back: seq<Token>)
    requires Departs(prefix, front)
    ensures Departs(prefix, front + back)
  {
    assert (front + back)[1..] == front[1..] + back;
    if front[0].c == prefix[0] {
      DepartsAppend(prefix[1..], front[1..], back);
    }
  }

  lemma {:induction false} PlainIsPlainAppend(d: Marks, front: seq<Token>, back: seq<Token>)
    requires PlainIsPlain(d, front) && PlainIsPlain(d, back)
    ensures PlainIsPlain(d, front + back)
  {
    if front == [] {
      assert front + back == back;
    } else {
      assert (front + back)[1..] == front[1..] + back;
      PlainIsPlainAppend(d, front[1..], back);
      if front[0].Plain? {
        DepartsAppend(d.prefix, front, back);
      }
    }
  }

  lemma {:induction false} PlainIsPlainHead(d: Marks, token: Token)
    requires token.Reference?
    ensures PlainIsPlain(d, [token])
  {
    assert [token][1..] == [];
  }

  /** What a substitution leaves: no defined reference, and text that reads back as itself. */
  ghost predicate Settled(d: Marks, values: map<string, string>, tokens: seq<Token>) {
    NoneRefer(values, tokens) && Proper(d, tokens) && PlainIsPlain(d, tokens)
  }

  lemma SettledAppend(d: Marks, values: map<string, string>, front: seq<Token>, back: seq<Token>)
    requires Settled(d, values, front) && Settled(d, values, back)
    ensures Settled(d, values, front + back)
  {
    PlainIsPlainAppend(d, front, back);
  }

  lemma {:induction false} KeySettles(d: Marks, values: map<string, string>, rank: string -> nat, key: string)
    requires Ranked(d, values, rank) && CannotCombine(d, values) && key in values
    ensures Settled(d, values, SubstituteKey(d, values, rank, key))
    decreases rank(key), 1, 0
  {
    TokenizeIsProper(d, values[key]);
    SubstitutionSettles(d, values, rank, Tokenize(d, values[key]), rank(key));
  }

  lemma {:induction false} SubstitutionSettles(d: Marks, values: map<string, string>, rank: string -> nat,
                                               tokens: seq<Token>, bound: nat)
    requires Ranked(d, values, rank) && CannotCombine(d, values)
    requires Below(values, tokens, rank, bound) && Proper(d, tokens) && PlainIsPlain(d, tokens)
    ensures Settled(d, values, Substitute(d, values, rank, tokens, bound))
    ensures tokens != [] && tokens[0].Plain? ==> Departs(d.prefix, Substitute(d, values, rank, tokens, bound))
    decreases bound, 0, |tokens|
  {
    if tokens != [] {
      SubstitutionSettles(d, values, rank, tokens[1..], bound);
      var rest := Substitute(d, values, rank, tokens[1..], bound);
      if Refers(values, tokens[0]) {
        var key := Trim(tokens[0].inner);
        KeySettles(d, values, rank, key);
        SettledAppend(d, values, SubstituteKey(d, values, rank, key), rest);
      } else if tokens[0].Reference? {
        PlainIsPlainHead(d, tokens[0]);
        SettledAppend(d, values, [tokens[0]], rest);
      } else {
        PlainHeadDeparts(d, values, rank, d.prefix, tokens, bound);
        assert ([tokens[0]] + rest)[1..] == rest;
      }
    }
  }

  /** Plain text at the head is not touched by substitution, so it still departs from the prefix. */
  lemma {:induction false} PlainHeadDeparts(d: Marks, values: map<string, string>, rank: string -> nat, prefix: string,
                                            tokens: seq<Token>, bound: nat)
    requires Ranked(d, values, rank) && Below(values, tokens, rank, bound)
    requires Departs(prefix, tokens)
    ensures Departs(prefix, Substitute(d, values, rank, tokens, bound))
  {
    var after := Substitute(d, values, rank, tokens, bound);
    assert after == [tokens[0]] + Substitute(d, values, rank, tokens[1..], bound);
    assert after[1..] == Substitute(d, values, rank, tokens[1..], bound);
    if tokens[0].c == prefix[0] {
      PlainHeadDeparts(d, values, rank, prefix[1..], tokens[1..], bound);
    }
  }

  /** Text without defined references resolves to itself, whatever the map and the stack. */
  lemma {:induction false} NothingToResolve(d: Marks, values: map<string, string>, tokens: seq<Token>,
                                            stack: set<string>)
    requires NoneRefer(values, tokens)
    ensures Resolve(d, values, tokens, stack) == Show(d, tokens)
  {
    if tokens != [] {
      NothingToResolve(d, values, tokens[1..], stack);
    }
  }

  /** In the middle of a pass: every value is either still the original or already substituted. */
  ghost predicate PartlyDone(d: Marks, values: map<string, string>, rank: string -> nat, current: map<string, string>)
    requires Ranked(d, values, rank)
  {
    && current.Keys == values.Keys
    && forall key :: key in values ==>
                       current[key] == values[key] || current[key] == Show(d, SubstituteKey(d, values, rank, key))
  }

  lemma {:induction false} ResolveSubstitutes(d: Marks, values: map<string, string>, rank: string -> nat,
                                              current: map<string, string>, tokens: seq<Token>, bound: nat,
                                              stack: set<string>)
    requires Ranked(d, values, rank) && CannotCombine(d, values)
    requires PartlyDone(d, values, rank, current) && Below(values, tokens, rank, bound)
    requires forall key :: key in stack && key in values ==> rank(key) >= bound
    ensures Resolve(d, current, tokens, stack) == Show(d, Substitute(d, values, rank, tokens, bound))
    decreases bound, |tokens|
  {
    if tokens != [] {
      ResolveSubstitutes(d, values, rank, current, tokens[1..], bound, stack);
      var rest := Substitute(d, values, rank, tokens[1..], bound);
      if Refers(values, tokens[0]) {
        var key := Trim(tokens[0].inner);
        var own := SubstituteKey(d, values, rank, key);
        assert key !in stack;
        if current[key] == values[key] {
          ResolveSubstitutes(d, values, rank, current, Tokenize(d, values[key]), rank(key), stack + {key});
        } else {
          KeySettles(d, values, rank, key);
          RetokenizeShown(d, own);
          NothingToResolve(d, current, own, stack + {key});
        }
        ShowAppend(d, own, rest);
      } else {
        ShowAppend(d, [tokens[0]], rest);
        assert Show(d, [tokens[0]]) == Raw(d, tokens[0]);
      }
    }
  }

  lemma {:induction false} ShowAppend(d: Marks, front: seq<Token>, back: seq<Token>)
    ensures Show(d, front + back) == Show(d, front) + Show(d, back)
  {
    if front == [] {
      assert front + back == back;
    } else {
      assert (front + back)[1..] == front[1..] + back;
      ShowAppend(d, front[1..], back);
    }
  }

  lemma {:induction false} PassSubstitutes(d: Marks, values: map<string, string>, rank: string -> nat,
                                           current: map<string, string>, order: seq<string>)
    requires Ranked(d, values, rank) && CannotCombine(d, values)
    requires PartlyDone(d, values, rank, current) && forall i :: 0 <= i < |order| ==> order[i] in values
    requires forall key :: key in values && key !in order ==>
             current[key] == Show(d, SubstituteKey(d, values, rank, key))
    ensures Pass(d, values, current, order) == FullySubstituted(d, values, rank)
    decreases |order|
  {
    if order != [] {
      var key := order[0];
      ResolveSubstitutes(d, values, rank, current, Tokenize(d, values[key]), rank(key), {key});
      PassSubstitutes(d, values, rank, current[key := Show(d, SubstituteKey(d, values, rank, key))], order[1..]);
    }
  }

  /** A pass over fully substituted values changes nothing. */
  lemma {:induction false} PassIsIdle(d: Marks, values: map<string, string>, rank: string -> nat, order: seq<string>)
    requires Ranked(d, values, rank) && CannotCombine(d, values)
    requires forall i :: 0 <= i < |order| ==> order[i] in values
    ensures var full := FullySubstituted(d, values, rank); Pass(d, full, full, order) == full
    decreases |order|
  {
    if order != [] {
      KeyIsIdle(d, values, rank, order[0]);
      PassIsIdle(d, values, rank, order[1..]);
    }
  }

  lemma KeyIsIdle(d: Marks, values: map<string, string>, rank: string -> nat, key: string)
    requires Ranked(d, values, rank) && CannotCombine(d, values) && key in values
    ensures var full := FullySubstituted(d, values, rank);
            full[key := Resolve(d, full, Tokenize(d, full[key]), {key})] == full
  {
    var full, own := FullySubstituted(d, values, rank), SubstituteKey(d, values, rank, key);
    KeySettles(d, values, rank, key);
    RetokenizeShown(d, own);
    NothingToResolve(d, full, own, {key});
  }

  // The passes, one by one.

  /** One pass that neither throws nor leaves everything as it is. */
  predicate Follows(d: Marks, inherited: set<string>, order: seq<string>, before: map<string, string>,
                    after: map<string, string>)
    requires forall i :: 0 <= i < |order| ==> order[i] in before
  {
    !PassThrows(d, inherited, before, before, order) && after == Pass(d, before, before, order) && after != before
  }

  /** The map before the first pass, after it, after the next one, and so on. */
  predicate IsChain(d: Marks, inherited: set<string>, order: seq<string>, chain: seq<map<string, string>>)
    decreases |chain|
  {
    && chain != [] && (forall i :: 0 <= i < |order| ==> order[i] in chain[0])
    && (|chain| > 1 ==>
          Follows(d, inherited, order, chain[0], chain[1]) && IsChain(d, inherited, order, chain[1..]))
  }

  /** With `left` passes left the next one throws, or changes nothing, or there is none. */
  predicate Ends(d: Marks, inherited: set<string>, order: seq<string>, left: nat, last: map<string, string>,
                 result: Option<map<string, string>>)
    requires forall i :: 0 <= i < |order| ==> order[i] in last
  {
    if left > 0 && PassThrows(d, inherited, last, last, order) then result == None
    else result == Some(last) && (left > 0 ==> Pass(d, last, last, order) == last)
  }

  /** `chain` tells the result: it starts with `values`, has at most `maxDepth` passes, and the passes end with it. */
  predicate Tells(d: Marks, inherited: set<string>, values: map<string, string>, order: seq<string>, maxDepth: nat,
                  chain: seq<map<string, string>>, result: Option<map<string, string>>)
  {
    && IsChain(d, inherited, order, chain) && chain[0] == values && |chain| - 1 <= maxDepth
    && (forall i :: 0 <= i < |order| ==> order[i] in chain[|chain| - 1])
    && Ends(d, inherited, order, maxDepth - (|chain| - 1), chain[|chain| - 1], result)
  }

  /** Every map of a chain is a pass over the one before, and differs from it. */
  lemma {:induction false} ChainAt(d: Marks, inherited: set<string>, order: seq<string>,
                                   chain: seq<map<string, string>>, i: nat)
    requires IsChain(d, inherited, order, chain) && i + 1 < |chain|
    ensures forall k :: 0 <= k < |order| ==> order[k] in chain[i]
    ensures Follows(d, inherited, order, chain[i], chain[i + 1])
  {
    if i > 0 {
      ChainAt(d, inherited, order, chain[1..], i - 1);
    }
  }

  /**
   What `resolveReferences` does is told by single passes: it makes them one after the other on the map
   the last one left, until one throws or changes nothing or `maxDepth` have been made.
   */
  lemma {:induction false} ResolvedIsTold(d: Marks, inherited: set<string>, values: map<string, string>,
                                          order: seq<string>, maxDepth: nat)
    returns (chain: seq<map<string, string>>)
    requires forall i :: 0 <= i < |order| ==> order[i] in values
    ensures Tells(d, inherited, values, order, maxDepth, chain, Resolved(d, inherited, values, order, maxDepth))
    decreases maxDepth
  {
    if maxDepth == 0 || PassThrows(d, inherited, values, values, order)
       || Pass(d, values, values, order) == values {
      chain := [values];
    } else {
      var after := Pass(d, values, values, order);
      var rest := ResolvedIsTold(d, inherited, after, order, maxDepth - 1);
      chain := [values] + rest;
      assert chain[1..] == rest && chain[|chain| - 1] == rest[|rest| - 1];
      assert Resolved(d, inherited, values, order, maxDepth) == Resolved(d, inherited, after, order, maxDepth - 1);
    }
  }

  /** There is only one such chain, and it decides the result. */
  lemma {:induction false} ChainDecides(d: Marks, inherited: set<string>, values: map<string, string>,
                                        order: seq<string>, maxDepth: nat, chain: seq<map<string, string>>,
                                        result: Option<map<string, string>>)
    requires forall i :: 0 <= i < |order| ==> order[i] in values
    requires Tells(d, inherited, values, order, maxDepth, chain, result)
    ensures Resolved(d, inherited, values, order, maxDepth) == result
    decreases maxDepth
  {
    if |chain| > 1 {
      assert chain[1..][|chain[1..]| - 1] == chain[|chain| - 1] && chain[1..][0] == chain[1];
      assert chain[1] == Pass(d, values, values, order);
      ChainDecides(d, inherited, chain[1], order, maxDepth - 1, chain[1..], result);
      assert Resolved(d, inherited, values, order, maxDepth) == Resolved(d, inherited, chain[1], order, maxDepth - 1);
    }
  }

  // A map that every pass changes: one value refers to itself, the other to the first.

  /** Space around the name in a reference does not matter. */
  lemma SpacedReferenceResolves(d: Marks, values: map<string, string>, before: string, name: string, after: string,
                                stack: set<string>)
    requires AllSpace(before) && AllSpace(after) && TrimStable(name) && name in values && name !in stack
    ensures ResolveToken(d, values, Reference(before + name + after), stack)
            == Resolve(d, values, Tokenize(d, values[name]), stack + {name})
  {
    TrimPadded(before, name, after);
  }

  /** A pass reads what it has written: here the second key sees the first one's new value. */
  lemma OverwrittenIsRead(d: Marks, lead: seq<Token>, a: string, b: string)
    requires PlainLead(d, lead) && ProperToken(d, Reference(a)) && ProperToken(d, Reference(b))
    requires TrimStable(a) && TrimStable(b) && a != b
    ensures var values := map[a := Show(d, [Reference(b)]), b := Show(d, lead + [Reference(a)])];
            Pass(d, values, values, [a, b])
            == map[a := Show(d, lead + [Reference(a)]), b := Show(d, lead + (lead + [Reference(a)]))]
  {
    var values := map[a := Show(d, [Reference(b)]), b := Show(d, lead + [Reference(a)])];
    var x, y := Show(d, lead + [Reference(a)]), Show(d, lead + (lead + [Reference(a)]));
    FirstReads(d, values, lead, a, b);
    SecondReads(d, values[a := x], lead, a, b);
    PassTwo(d, values, a, b);
    TwoValues(values, a, b, x, y);
  }

  lemma TwoValues(values: map<string, string>, a: string, b: string, x: string, y: string)
    requires values.Keys == {a, b} && a != b
    ensures values[a := x][b := y] == map[a := x, b := y]
  {
  }

  lemma PassTwo(d: Marks, values: map<string, string>, a: string, b: string)
    requires a in values && b in values
    ensures var first := values[a := Resolve(d, values, Tokenize(d, values[a]), {a})];
            Pass(d, values, values, [a, b]) == first[b := Resolve(d, first, Tokenize(d, values[b]), {b})]
  {
    var first := values[a := Resolve(d, values, Tokenize(d, values[a]), {a})];
    assert [a] + [b] == [a, b] && [b] + [] == [b];
    PassCons(d, {}, values, values, a, [b]);
    PassCons(d, {}, values, first, b, []);
  }

  lemma FirstReads(d: Marks, values: map<string, string>, lead: seq<Token>, a: string, b: string)
    requires PlainLead(d, lead) && ProperToken(d, Reference(a)) && ProperToken(d, Reference(b))
    requires TrimStable(a) && TrimStable(b) && a != b
    requires b in values && values[b] == Show(d, lead + [Reference(a)])
    ensures Resolve(d, values, Tokenize(d, Show(d, [Reference(b)])), {a}) == Show(d, lead + [Reference(a)])
  {
    TrimFacts(b);
    PlainThenReads(d, [], Reference(b));
    assert [] + [Reference(b)] == [Reference(b)];
    FirstStays(d, {}, values, lead, a, {a} + {b});
    PlainResolves(d, values, [], Reference(b), {a});
  }

  lemma SecondReads(d: Marks, values: map<string, string>, lead: seq<Token>, a: string, b: string)
    requires PlainLead(d, lead) && ProperToken(d, Reference(a)) && TrimStable(a) && a != b
    requires a in values && values[a] == Show(d, lead + [Reference(a)])
    ensures Resolve(d, values, Tokenize(d, Show(d, lead + [Reference(a)])), {b})
            == Show(d, lead + (lead + [Reference(a)]))
  {
    SecondGrows(d, {}, values, lead, a, b, 1);
    assert Copies(lead, 1) == lead && Copies(lead, 2) + [Reference(a)] == lead + (lead + [Reference(a)]) by {
      assert Copies(lead, 0) == [] && lead + [] == lead;
    }
  }

  /** `n` copies, one after the other. */
  function Copies(lead: seq<Token>, n: nat): seq<Token> {
    if n == 0 then [] else lead + Copies(lead, n - 1)
  }

  predicate PlainLead(d: Marks, lead: seq<Token>) {
    && d.prefix != [] && lead != []
    && forall i :: 0 <= i < |lead| ==> lead[i].Plain? && lead[i].c != d.prefix[0]
  }

  /** `a` is the lead and a reference to `a`; `b` has the lead `n` times before the reference. */
  function Growing(d: Marks, lead: seq<Token>, a: string, b: string, n: nat): map<string, string> {
    map[a := Show(d, lead + [Reference(a)]), b := Show(d, Copies(lead, n) + [Reference(a)])]
  }

  lemma {:induction false} PlainThenReads(d: Marks, lead: seq<Token>, last: Token)
    requires ValidMarks(d) && d.prefix != [] && last.Reference? && ProperToken(d, last)
    requires forall i :: 0 <= i < |lead| ==> lead[i].Plain? && lead[i].c != d.prefix[0]
    ensures PlainIsPlain(d, lead + [last]) && Proper(d, lead + [last])
    ensures Tokenize(d, Show(d, lead + [last])) == lead + [last]
  {
    if lead == [] {
      assert lead + [last] == [last];
      PlainIsPlainHead(d, last);
    } else {
      assert (lead + [last])[1..] == lead[1..] + [last];
      PlainThenReads(d, lead[1..], last);
    }
    RetokenizeShown(d, lead + [last]);
  }

  lemma {:induction false} CopiesArePlain(d: Marks, lead: seq<Token>, n: nat)
    requires PlainLead(d, lead)
    ensures forall i :: 0 <= i < |Copies(lead, n)| ==>
                          Copies(lead, n)[i].Plain? && Copies(lead, n)[i].c != d.prefix[0]
    ensures |Copies(lead, n)| == n * |lead|
  {
    if n > 0 {
      CopiesArePlain(d, lead, n - 1);
    }
  }

  lemma {:induction false} PlainResolves(d: Marks, values: map<string, string>, plain: seq<Token>, last: Token,
                                         stack: set<string>)
    requires forall i :: 0 <= i < |plain| ==> plain[i].Plain?
    ensures Resolve(d, values, plain + [last], stack) == Show(d, plain) + ResolveToken(d, values, last, stack)
    ensures forall inherited :: Throws(d, values, inherited, plain + [last], stack) <==>
                                TokenThrows(d, values, inherited, last, stack)
  {
    if plain == [] {
      assert plain + [last] == [last] && [last][1..] == [];
      assert [] + ResolveToken(d, values, last, stack) == ResolveToken(d, values, last, stack) + [];
    } else {
      assert (plain + [last])[1..] == plain[1..] + [last];
      PlainResolves(d, values, plain[1..], last, stack);
    }
  }

  /** The first value resolves to itself, as its own name is on the stack. */
  lemma FirstStays(d: Marks, inherited: set<string>, values: map<string, string>, lead: seq<Token>, a: string,
                   stack: set<string>)
    requires PlainLead(d, lead) && ProperToken(d, Reference(a)) && TrimStable(a) && a in stack
    ensures var own := lead + [Reference(a)];
            && Tokenize(d, Show(d, own)) == own && Resolve(d, values, own, stack) == Show(d, own)
            && !Throws(d, values, inherited, own, stack)
  {
    var ref := Reference(a);
    TrimFacts(a);
    PlainThenReads(d, lead, ref);
    PlainResolves(d, values, lead, ref, stack);
    ShowAppend(d, lead, [ref]);
    ShowOne(d, ref);
  }

  /** The second value gets the first one for the reference at its end. */
  lemma SecondGrows(d: Marks, inherited: set<string>, values: map<string, string>, lead: seq<Token>, a: string,
                    b: string, n: nat)
    requires PlainLead(d, lead) && ProperToken(d, Reference(a)) && TrimStable(a) && a != b
    requires a in values && values[a] == Show(d, lead + [Reference(a)])
    ensures var text := Copies(lead, n) + [Reference(a)];
            && Tokenize(d, Show(d, text)) == text
            && Resolve(d, values, text, {b}) == Show(d, Copies(lead, n + 1) + [Reference(a)])
            && !Throws(d, values, inherited, text, {b})
  {
    var ref := Reference(a);
    TrimFacts(a);
    CopiesArePlain(d, lead, n);
    PlainThenReads(d, Copies(lead, n), ref);
    PlainResolves(d, values, Copies(lead, n), ref, {b});
    FirstStays(d, inherited, values, lead, a, {b} + {a});
    CopiesGrow(d, lead, ref, n);
  }

  /** One pass puts the lead once more in front. */
  lemma GrowingPass(d: Marks, inherited: set<string>, lead: seq<Token>, a: string, b: string, n: nat)
    requires PlainLead(d, lead) && ProperToken(d, Reference(a)) && TrimStable(a) && a != b
    ensures var values := Growing(d, lead, a, b, n);
            && !PassThrows(d, inherited, values, values, [a, b])
            && Pass(d, values, values, [a, b]) == Growing(d, lead, a, b, n + 1)
  {
    var values := Growing(d, lead, a, b, n);
    FirstStays(d, inherited, values, lead, a, {a});
    SecondGrows(d, inherited, values, lead, a, b, n);
    PassOfTwo(d, inherited, values, a, b);
  }

  lemma CopiesGrow(d: Marks, lead: seq<Token>, last: Token, n: nat)
    ensures Show(d, Copies(lead, n)) + Show(d, lead + [last]) == Show(d, Copies(lead, n + 1) + [last])
  {
    CopiesSnoc(lead, n);
    ShowAppend(d, Copies(lead, n), lead + [last]);
    assert Copies(lead, n) + (lead + [last]) == Copies(lead, n + 1) + [last];
  }

  lemma {:induction false} CopiesSnoc(lead: seq<Token>, n: nat)
    ensures Copies(lead, n + 1) == Copies(lead, n) + lead
  {
    if n == 0 {
      assert lead + [] == [] + lead;
    } else {
      CopiesSnoc(lead, n - 1);
      assert lead + (Copies(lead, n - 1) + lead) == (lead + Copies(lead, n - 1)) + lead;
    }
  }

  /** A pass over two keys whose first value stays. */
  lemma PassOfTwo(d: Marks, inherited: set<string>, values: map<string, string>, a: string, b: string)
    requires values.Keys == {a, b} && a != b
    requires Resolve(d, values, Tokenize(d, values[a]), {a}) == values[a]
    ensures Pass(d, values, values, [a, b]) == values[b := Resolve(d, values, Tokenize(d, values[b]), {b})]
    ensures PassThrows(d, inherited, values, values, [a, b]) <==>
            || Throws(d, values, inherited, Tokenize(d, values[a]), {a})
            || Throws(d, values, inherited, Tokenize(d, values[b]), {b})
  {
    assert [a] + [b] == [a, b] && [b] + [] == [b] && values[a := values[a]] == values;
    PassCons(d, inherited, values, values, a, [b]);
    PassCons(d, inherited, values, values, b, []);
  }

  /** So with `maxDepth` passes the lead stands `maxDepth` times more in front: no pass is left out, none added. */
  lemma {:induction false} EveryPassGrows(d: Marks, inherited: set<string>, lead: seq<Token>, a: string, b: string,
                                          n: nat, maxDepth: nat)
    requires PlainLead(d, lead) && ProperToken(d, Reference(a)) && TrimStable(a) && a != b
    ensures Resolved(d, inherited, Growing(d, lead, a, b, n), [a, b], maxDepth)
            == Some(Growing(d, lead, a, b, n + maxDepth))
    decreases maxDepth
  {
    if maxDepth > 0 {
      GrowingPass(d, inherited, lead, a, b, n);
      EveryPassGrows(d, inherited, lead, a, b, n + 1, maxDepth - 1);
      GrowingGrows(d, lead, a, b, n);
    }
  }

  lemma GrowingGrows(d: Marks, lead: seq<Token>, a: string, b: string, n: nat)
    requires PlainLead(d, lead) && ProperToken(d, Reference(a)) && a != b
    ensures Growing(d, lead, a, b, n + 1) != Growing(d, lead, a, b, n)
  {
    CopiesArePlain(d, lead, n);
    CopiesArePlain(d, lead, n + 1);
    PlainThenReads(d, Copies(lead, n), Reference(a));
    PlainThenReads(d, Copies(lead, n + 1), Reference(a));
    assert |Copies(lead, n + 1)| == |Copies(lead, n)| + |lead|;
    assert Growing(d, lead, a, b, n)[b] == Show(d, Copies(lead, n) + [Reference(a)]);
    assert Growing(d, lead, a, b, n + 1)[b] == Show(d, Copies(lead, n + 1) + [Reference(a)]);
  }

  function PlainText(text: string): (tokens: seq<Token>)
    ensures |tokens| == |text| && forall i :: 0 <= i < |text| ==> tokens[i] == Plain(text[i])
  {
    seq(|text|, i requires 0 <= i < |text| => Plain(text[i]))
  }

  lemma {:induction false} PlainTextShows(d: Marks, text: string)
    ensures Show(d, PlainText(text)) == text
  {
    if text != [] {
      PlainTextShows(d, text[1..]);
      assert PlainText(text)[1..] == PlainText(text[1..]);
      assert [text[0]] + text[1..] == text;
    }
  }

  /** A variable that extends itself, and one that reads it: the extension is put in front in every pass. */
  lemma PathGrows(d: Marks, inherited: set<string>, text: string, a: string, b: string, maxDepth: nat)
    requires d.prefix != [] && text != [] && forall i :: 0 <= i < |text| ==> text[i] != d.prefix[0]
    requires ProperToken(d, Reference(a)) && TrimStable(a) && a != b
    ensures var ref := d.prefix + a + d.suffix;
            && Growing(d, PlainText(text), a, b, 0) == map[a := text + ref, b := ref]
            && Resolved(d, inherited, map[a := text + ref, b := ref], [a, b], maxDepth)
               == Some(Growing(d, PlainText(text), a, b, maxDepth))
  {
    var lead, ref := PlainText(text), Reference(a);
    EveryPassGrows(d, inherited, lead, a, b, 0, maxDepth);
    ShowAppend(d, lead, [ref]);
    ShowOne(d, ref);
    PlainTextShows(d, text);
    assert Copies(lead, 0) + [ref] == [ref];
  }

  /** For example, `x-${A}` for A and `${A}` for B. */
  lemma SelfReferenceGrows(inherited: set<string>, maxDepth: nat)
    ensures var d := Marks("${", "}");
            Resolved(d, inherited, map["A" := "x-" + ("${" + "A" + "}"), "B" := "${" + "A" + "}"], ["A", "B"], maxDepth)
            == Some(Growing(d, PlainText("x-"), "A", "B", maxDepth))
  {
    CloseAfter("A", '}');
    PathGrows(Marks("${", "}"), inherited, "x-", "A", "B", maxDepth);
  }

  // When resolving throws.

  predicate NoneStumble(values: map<string, string>, inherited: set<string>, tokens: seq<Token>) {
    forall i :: 0 <= i < |tokens| ==> !Stumbles(values, inherited, tokens[i])
  }

  /** No value refers to an inherited name that is not a key. */
  predicate OnlyOwnNames(d: Marks, values: map<string, string>, inherited: set<string>) {
    forall key :: key in values ==> NoneStumble(values, inherited, Tokenize(d, values[key]))
  }

  /** On every map: a reference to an inherited name in the text itself throws, wherever it stands. */
  lemma {:induction false} StumbleThrows(d: Marks, values: map<string, string>, inherited: set<string>,
                                         tokens: seq<Token>, stack: set<string>)
    requires !NoneStumble(values, inherited, tokens) && stack <= values.Keys
    ensures Throws(d, values, inherited, tokens, stack)
  {
    if NoneStumble(values, inherited, tokens[1..]) {
      assert Stumbles(values, inherited, tokens[0]) by {
        assert forall i :: 1 <= i < |tokens| ==> tokens[i] == tokens[1..][i - 1];
      }
    } else {
      StumbleThrows(d, values, inherited, tokens[1..], stack);
    }
  }

  /** So the first pass throws on every map with such a value, whatever else the map holds. */
  lemma {:induction false} PassStumbles(d: Marks, inherited: set<string>, before: map<string, string>,
                                        current: map<string, string>, order: seq<string>, key: string)
    requires before.Keys == current.Keys && forall i :: 0 <= i < |order| ==> order[i] in before
    requires key in order && !NoneStumble(before, inherited, Tokenize(d, before[key]))
    ensures PassThrows(d, inherited, before, current, order)
    decreases |order|
  {
    if order[0] == key {
      assert !NoneStumble(current, inherited, Tokenize(d, before[key])) by {
        var tokens := Tokenize(d, before[key]);
        var i :| 0 <= i < |tokens| && Stumbles(before, inherited, tokens[i]);
        assert Stumbles(current, inherited, tokens[i]);
      }
      StumbleThrows(d, current, inherited, Tokenize(d, before[key]), {key});
    } else {
      var next := current[order[0] := Resolve(d, current, Tokenize(d, before[order[0]]), {order[0]})];
      PassStumbles(d, inherited, before, next, order[1..], key);
    }
  }

  /** On every map, cyclic or not: a value that refers to an inherited name makes the whole call throw. */
  lemma AlwaysStumbles(d: Marks, inherited: set<string>, values: map<string, string>, order: seq<string>, maxDepth: nat)
    requires Enumerates(order, values) && maxDepth >= 1
    requires !OnlyOwnNames(d, values, inherited)
    ensures Resolved(d, inherited, values, order, maxDepth) == None
  {
    var key :| key in values && !NoneStumble(values, inherited, Tokenize(d, values[key]));
    PassStumbles(d, inherited, values, values, order, key);
  }

  lemma SameKeysSameReferences(values: map<string, string>, current: map<string, string>, inherited: set<string>,
                               tokens: seq<Token>)
    requires current.Keys == values.Keys
    ensures NoneRefer(current, tokens) <==> NoneRefer(values, tokens)
    ensures NoneStumble(current, inherited, tokens) <==> NoneStumble(values, inherited, tokens)
  {
    assert forall token :: Refers(current, token) <==> Refers(values, token);
    assert forall token :: Stumbles(current, inherited, token) <==> Stumbles(values, inherited, token);
  }

  /** Without such a name in any value nothing is reached that throws. */
  lemma {:induction false} OwnNamesDoNotThrow(d: Marks, values: map<string, string>, inherited: set<string>,
                                              tokens: seq<Token>, stack: set<string>)
    requires OnlyOwnNames(d, values, inherited) && NoneStumble(values, inherited, tokens)
    ensures !Throws(d, values, inherited, tokens, stack)
    decreases values.Keys - stack, |tokens|
  {
    if tokens != [] {
      OwnNamesDoNotThrow(d, values, inherited, tokens[1..], stack);
      assert !Stumbles(values, inherited, tokens[0]);
      if Refers(values, tokens[0]) && Trim(tokens[0].inner) !in stack {
        var name := Trim(tokens[0].inner);
        assert name in values.Keys - stack && name !in values.Keys - (stack + {name});
        OwnNamesDoNotThrow(d, values, inherited, Tokenize(d, values[name]), stack + {name});
      }
    }
  }

  // What a resolved text is made of: the tokens of what was put in, on cyclic maps too.

  function Expand(d: Marks, values: map<string, string>, tokens: seq<Token>, stack: set<string>): seq<Token>
    decreases values.Keys - stack, |tokens|
  {
    if tokens == [] then []
    else ExpandToken(d, values, tokens[0], stack) + Expand(d, values, tokens[1..], stack)
  }

  function ExpandToken(d: Marks, values: map<string, string>, token: Token, stack: set<string>): seq<Token>
    decreases values.Keys - stack, 0
  {
    if !Refers(values, token) || Trim(token.inner) in stack then [token]
    else
      var name := Trim(token.inner);
      assert name in values.Keys - stack && name !in values.Keys - (stack + {name});
      Expand(d, values, Tokenize(d, values[name]), stack + {name})
  }

  lemma {:induction false} ExpandShows(d: Marks, values: map<string, string>, tokens: seq<Token>, stack: set<string>)
    ensures Show(d, Expand(d, values, tokens, stack)) == Resolve(d, values, tokens, stack)
    decreases values.Keys - stack, |tokens|, 1
  {
    if tokens != [] {
      ExpandTokenShows(d, values, tokens[0], stack);
      ExpandShows(d, values, tokens[1..], stack);
      ShowAppend(d, ExpandToken(d, values, tokens[0], stack), Expand(d, values, tokens[1..], stack));
    }
  }

  lemma {:induction false} ExpandTokenShows(d: Marks, values: map<string, string>, token: Token, stack: set<string>)
    ensures Show(d, ExpandToken(d, values, token, stack)) == ResolveToken(d, values, token, stack)
    decreases values.Keys - stack, 0, 0
  {
    if !Refers(values, token) || Trim(token.inner) in stack {
      ShowOne(d, token);
    } else {
      var name := Trim(token.inner);
      assert name in values.Keys - stack && name !in values.Keys - (stack + {name});
      ExpandShows(d, values, Tokenize(d, values[name]), stack + {name});
    }
  }

  lemma ShowOne(d: Marks, token: Token)
    ensures Show(d, [token]) == Raw(d, token)
  {
    assert [token][1..] == [] && Raw(d, token) + [] == Raw(d, token);
  }

  /** Tokens that read back as themselves and hold no inherited name. */
  predicate Sound(d: Marks, values: map<string, string>, inherited: set<string>, tokens: seq<Token>) {
    Proper(d, tokens) && PlainIsPlain(d, tokens) && NoneStumble(values, inherited, tokens)
  }

  ghost predicate SoundMap(d: Marks, values: map<string, string>, inherited: set<string>) {
    forall key :: key in values ==> Sound(d, values, inherited, Tokenize(d, values[key]))
  }

  lemma SoundAppend(d: Marks, values: map<string, string>, inherited: set<string>, front: seq<Token>, back: seq<Token>)
    requires Sound(d, values, inherited, front) && Sound(d, values, inherited, back)
    ensures Sound(d, values, inherited, front + back)
  {
    PlainIsPlainAppend(d, front, back);
  }

  /** Plain text at the head is not touched by expansion, so it still departs from the prefix. */
  lemma {:induction false} ExpandKeepsHead(d: Marks, values: map<string, string>, prefix: string, tokens: seq<Token>,
                                           stack: set<string>)
    requires Departs(prefix, tokens)
    ensures Departs(prefix, Expand(d, values, tokens, stack))
  {
    var after, rest := Expand(d, values, tokens, stack), Expand(d, values, tokens[1..], stack);
    assert ExpandToken(d, values, tokens[0], stack) == [tokens[0]];
    assert after == [tokens[0]] + rest && after[1..] == rest;
    if tokens[0].c == prefix[0] {
      ExpandKeepsHead(d, values, prefix[1..], tokens[1..], stack);
    }
  }

  lemma {:induction false} ExpandIsSound(d: Marks, values: map<string, string>, inherited: set<string>,
                                         tokens: seq<Token>, stack: set<string>)
    requires SoundMap(d, values, inherited) && Sound(d, values, inherited, tokens)
    ensures Sound(d, values, inherited, Expand(d, values, tokens, stack))
    decreases values.Keys - stack, |tokens|
  {
    if tokens != [] {
      var rest := Expand(d, values, tokens[1..], stack);
      ExpandIsSound(d, values, inherited, tokens[1..], stack);
      if Refers(values, tokens[0]) && Trim(tokens[0].inner) !in stack {
        var name := Trim(tokens[0].inner);
        assert name in values.Keys - stack && name !in values.Keys - (stack + {name});
        ExpandIsSound(d, values, inherited, Tokenize(d, values[name]), stack + {name});
        SoundAppend(d, values, inherited, ExpandToken(d, values, tokens[0], stack), rest);
      } else if tokens[0].Reference? {
        PlainIsPlainHead(d, tokens[0]);
        SoundAppend(d, values, inherited, [tokens[0]], rest);
      } else {
        PlainFirstIsSound(d, values, inherited, tokens, stack);
      }
    }
  }

  lemma PlainFirstIsSound(d: Marks, values: map<string, string>, inherited: set<string>, tokens: seq<Token>,
                          stack: set<string>)
    requires tokens != [] && tokens[0].Plain? && Sound(d, values, inherited, tokens)
    requires Sound(d, values, inherited, Expand(d, values, tokens[1..], stack))
    ensures Sound(d, values, inherited, Expand(d, values, tokens, stack))
  {
    var after, rest := Expand(d, values, tokens, stack), Expand(d, values, tokens[1..], stack);
    ExpandKeepsHead(d, values, d.prefix, tokens, stack);
    assert ExpandToken(d, values, tokens[0], stack) == [tokens[0]];
    assert after == [tokens[0]] + rest && after[1..] == rest;
  }

  /** So a resolved text reads back as sound tokens. */
  lemma ResolvedIsSound(d: Marks, values: map<string, string>, inherited: set<string>, tokens: seq<Token>,
                        stack: set<string>)
    requires ValidMarks(d) && SoundMap(d, values, inherited) && Sound(d, values, inherited, tokens)
    ensures Sound(d, values, inherited, Tokenize(d, Resolve(d, values, tokens, stack)))
  {
    ExpandIsSound(d, values, inherited, tokens, stack);
    ExpandShows(d, values, tokens, stack);
    RetokenizeShown(d, Expand(d, values, tokens, stack));
  }

  lemma SetKeepsSound(d: Marks, values: map<string, string>, inherited: set<string>, key: string, value: string)
    requires SoundMap(d, values, inherited) && key in values && Sound(d, values, inherited, Tokenize(d, value))
    ensures SoundMap(d, values[key := value], inherited)
  {
    var next := values[key := value];
    forall k | k in next ensures Sound(d, next, inherited, Tokenize(d, next[k])) {
      assert Sound(d, values, inherited, Tokenize(d, next[k]));
      SameKeysSameReferences(values, next, inherited, Tokenize(d, next[k]));
    }
  }

  lemma {:induction false} PassIsSound(d: Marks, inherited: set<string>, before: map<string, string>,
                                       current: map<string, string>, order: seq<string>)
    requires ValidMarks(d) && before.Keys == current.Keys && forall i :: 0 <= i < |order| ==> order[i] in before
    requires SoundMap(d, before, inherited) && SoundMap(d, current, inherited)
    ensures !PassThrows(d, inherited, before, current, order)
    ensures SoundMap(d, Pass(d, before, current, order), inherited)
    decreases |order|
  {
    if order != [] {
      var key := order[0];
      var tokens := Tokenize(d, before[key]);
      assert Sound(d, before, inherited, tokens);
      SameKeysSameReferences(before, current, inherited, tokens);
      SoundHasOwnNames(d, current, inherited);
      OwnNamesDoNotThrow(d, current, inherited, tokens, {key});
      ResolvedIsSound(d, current, inherited, tokens, {key});
      SetKeepsSound(d, current, inherited, key, Resolve(d, current, tokens, {key}));
      PassIsSound(d, inherited, before, current[key := Resolve(d, current, tokens, {key})], order[1..]);
    }
  }

  lemma SoundHasOwnNames(d: Marks, values: map<string, string>, inherited: set<string>)
    requires SoundMap(d, values, inherited)
    ensures OnlyOwnNames(d, values, inherited)
  {
    forall key | key in values ensures NoneStumble(values, inherited, Tokenize(d, values[key])) {
      assert Sound(d, values, inherited, Tokenize(d, values[key]));
    }
  }

  lemma {:induction false} PassesAreSound(d: Marks, inherited: set<string>, values: map<string, string>,
                                          order: seq<string>, maxDepth: nat)
    requires ValidMarks(d) && forall i :: 0 <= i < |order| ==> order[i] in values
    requires SoundMap(d, values, inherited)
    ensures !PassesThrow(d, inherited, values, order, maxDepth)
    decreases maxDepth
  {
    if maxDepth > 0 {
      PassIsSound(d, inherited, values, values, order);
      PassesAreSound(d, inherited, Pass(d, values, values, order), order, maxDepth - 1);
    }
  }

  /**
   On every map whose plain text cannot combine into references, cyclic or not, the call throws if and
   only if some value refers to a name that is inherited and not a key.
   */
  lemma ThrowsIff(d: Marks, inherited: set<string>, values: map<string, string>, order: seq<string>, maxDepth: nat)
    requires CannotCombine(d, values) && Enumerates(order, values) && maxDepth >= 1
    ensures Resolved(d, inherited, values, order, maxDepth) == None <==> !OnlyOwnNames(d, values, inherited)
  {
    if OnlyOwnNames(d, values, inherited) {
      forall key | key in values ensures Sound(d, values, inherited, Tokenize(d, values[key])) {
        TokenizeIsProper(d, values[key]);
      }
      PassesAreSound(d, inherited, values, order, maxDepth);
    } else {
      AlwaysStumbles(d, inherited, values, order, maxDepth);
    }
  }

  /**
   On an acyclic map whose plain text cannot combine into references, any number of passes from one
   up, whatever the order of the entries, throws if some value refers to a name that is inherited and
   not a key, and otherwise gives every key its full substitution.
   */
  lemma ResolvesFully(d: Marks, values: map<string, string>, inherited: set<string>, rank: string -> nat,
                      order: seq<string>, maxDepth: nat)
    requires Ranked(d, values, rank) && CannotCombine(d, values)
    requires Enumerates(order, values) && maxDepth >= 1
    ensures Resolved(d, inherited, values, order, maxDepth)
            == if OnlyOwnNames(d, values, inherited) then Some(FullySubstituted(d, values, rank)) else None
  {
    ThrowsIff(d, inherited, values, order, maxDepth);
    PassSubstitutes(d, values, rank, values, order);
    PassIsIdle(d, values, rank, order);
    PassesSettle(d, values, FullySubstituted(d, values, rank), order, maxDepth);
  }

  /** A pass that reaches a map on which passes are idle ends the loop there. */
  lemma PassesSettle(d: Marks, values: map<string, string>, full: map<string, string>, order: seq<string>,
                     maxDepth: nat)
    requires full.Keys == values.Keys && forall i :: 0 <= i < |order| ==> order[i] in values
    requires maxDepth >= 1
    requires Pass(d, values, values, order) == full && Pass(d, full, full, order) == full
    ensures Passes(d, values, order, maxDepth) == full
  {
    if full != values && maxDepth > 1 {
      PassesSettle(d, full, full, order, maxDepth - 1);
    }
  }

  /** A map of one value that is a reference to an inherited name. */
  lemma InheritedReferenceThrows(d: Marks, inherited: set<string>, name: string, key: string, maxDepth: nat)
    requires ValidMarks(d) && ProperToken(d, Reference(name)) && TrimStable(name) && name in inherited
    requires key != name && maxDepth >= 1
    ensures Resolved(d, inherited, map[key := d.prefix + name + d.suffix], [key], maxDepth) == None
  {
    var value := d.prefix + name + d.suffix;
    var values := map[key := value];
    TrimFacts(name);
    ReferenceReadsBack(d, name, []);
    assert value + [] == value && Tokenize(d, value)[0] == Reference(name);
    assert Stumbles(values, inherited, Tokenize(d, value)[0]);
    assert key in values && !NoneStumble(values, inherited, Tokenize(d, values[key]));
    assert key in [key];
    PassStumbles(d, inherited, values, values, [key], key);
  }

  lemma {:induction false} CloseAfter(name: string, c: char)
    requires forall i :: 0 <= i < |name| ==> name[i] != c && !IsLineTerminator(name[i])
    ensures Close(name + [c], [c]) == Some(|name|)
  {
    if name == [] {
      assert [c] <= name + [c];
    } else {
      assert (name + [c])[0] == name[0] && (name + [c])[1..] == name[1..] + [c];
      CloseAfter(name[1..], c);
    }
  }

  lemma ConstructorThrows(maxDepth: nat)
    requires maxDepth >= 1
    ensures Resolved(Marks("${", "}"), INHERITED, map["A" := "${" + "constructor" + "}"], ["A"], maxDepth) == None
  {
    CloseAfter("constructor", '}');
    InheritedReferenceThrows(Marks("${", "}"), INHERITED, "constructor", "A", maxDepth);
  }
}
