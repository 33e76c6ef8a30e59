/**
 The IPv6 pattern, an alternation by the number of groups before the `::`, and the text forms of
 section 2.2 of RFC 4291 it stands for.
 */
module IpV6 {
  import opened Text
  import opened Patterns
  import opened IpV4

  const COLON := One(Only(':'))

  /** Groups each with a colon after it, `n` of them; and groups each with a colon before it, `lo` to `hi`. */
  function Heads(segment: Pattern, n: nat): Pattern {
    Times(Then(segment, COLON), n, n)
  }

  function Tails(segment: Pattern, lo: nat, hi: nat): Pattern {
    Times(Then(COLON, segment), lo, hi)
  }

  /** What may follow `n` groups: up to 5 - n groups and a dotted address, up to 7 - n groups, or a colon. */
  function Rest(segment: Pattern, v4: Pattern, n: nat): Pattern
    requires n <= 4
  {
    Or(Then(Tails(segment, 0, 5 - n), Then(COLON, v4)), Or(Tails(segment, 1, 7 - n), COLON))
  }

  /** The same after five groups, where the dotted address leaves no room for groups. */
  function RestOfFive(segment: Pattern, v4: Pattern): Pattern {
    Or(Then(COLON, v4), Or(Tails(segment, 1, 2), COLON))
  }

  /** The eight alternatives, from seven leading groups down to none. */
  function Body(segment: Pattern, v4: Pattern): Pattern {
    Or(Then(Heads(segment, 7), Or(segment, COLON)),
    Or(Then(Heads(segment, 6), Or(v4, Or(Then(COLON, segment), COLON))),
    Or(Then(Heads(segment, 5), RestOfFive(segment, v4)),
    Or(Then(Heads(segment, 4), Rest(segment, v4, 4)),
    Or(Then(Heads(segment, 3), Rest(segment, v4, 3)),
    Or(Then(Heads(segment, 2), Rest(segment, v4, 2)),
    Or(Then(Heads(segment, 1), Rest(segment, v4, 1)),
       Then(COLON, Rest(segment, v4, 0)))))))))
  }

  const V6_SEGMENT := Times(One(Hex), 1, 4)

  const ZONE := Times(Then(One(Only('%')), Many(Alphanumeric)), 0, 1)

  ghost predicate IsIPv6(ip: string) {
    Matches(Then(Body(V6_SEGMENT, V4_DOTTED), ZONE), ip)
  }

  // The text forms.

  predicate IsGroup(g: string) {
    1 <= |g| <= 4 && forall i :: 0 <= i < |g| ==> In(Hex, g[i])
  }

  ghost predicate Groups(gs: seq<string>) {
    forall i :: 0 <= i < |gs| ==> IsGroup(gs[i])
  }

  /** Groups, the last of which may be a dotted IPv4 address. */
  ghost predicate Pieces(ps: seq<string>) {
    ps == [] || (Groups(ps[..|ps| - 1]) && (IsGroup(ps[|ps| - 1]) || IsDottedQuad(ps[|ps| - 1])))
  }

  /** A dotted address stands for two groups. */
  ghost function Width(ps: seq<string>): nat {
    |ps| + if ps != [] && IsDottedQuad(ps[|ps| - 1]) then 1 else 0
  }

  /** Eight groups, or a left and a right part with `::` between them for at least one group. */
  datatype Form = Full(pieces: seq<string>) | Compressed(left: seq<string>, right: seq<string>)

  ghost predicate Valid(f: Form) {
    match f
    case Full(pieces) => Pieces(pieces) && Width(pieces) == 8
    case Compressed(left, right) => Groups(left) && Pieces(right) && |left| + Width(right) <= 7
  }

  function Show(f: Form): string {
    match f
    case Full(pieces) => Join(pieces, ':')
    case Compressed(left, right) => Join(left, ':') + [':', ':'] + Join(right, ':')
  }

  // Joined text against the repetitions of the pattern.

  function Terminated(gs: seq<string>): string {
    if gs == [] then [] else gs[0] + [':'] + Terminated(gs[1..])
  }

  function Preceded(gs: seq<string>): string {
    if gs == [] then [] else [':'] + gs[0] + Preceded(gs[1..])
  }

  /** The text after the colon that ends the left part. */
  function After(right: seq<string>): string {
    if right == [] then [':'] else Preceded(right)
  }

  lemma {:induction false} TerminatedJoins(gs: seq<string>, last: string)
    ensures Terminated(gs) + last == Join(gs + [last], ':')
    ensures gs != [] ==> Terminated(gs) == Join(gs, ':') + [':']
  {
    if gs == [] {
      assert gs + [last] == [last];
    } else {
      TerminatedJoins(gs[1..], last);
      assert (gs + [last])[1..] == gs[1..] + [last];
    }
  }

  lemma {:induction false} PrecededSnoc(gs: seq<string>, last: string)
    ensures Preceded(gs) + ([':'] + last) == Preceded(gs + [last])
  {
    if gs == [] {
      assert gs + [last] == [last] && [last][1..] == [];
    } else {
      PrecededSnoc(gs[1..], last);
      assert (gs + [last])[1..] == gs[1..] + [last];
      Associate([':'] + gs[0], Preceded(gs[1..]), [':'] + last);
    }
  }

  lemma Associate(a: string, b: string, c: string)
    ensures (a + b) + c == a + (b + c)
  {
  }

  lemma {:induction false} PrecededJoins(gs: seq<string>)
    requires gs != []
    ensures Preceded(gs) == [':'] + Join(gs, ':')
  {
    if |gs| > 1 {
      PrecededJoins(gs[1..]);
    } else {
      assert gs[1..] == [];
    }
  }

  lemma CompressedText(left: seq<string>, right: seq<string>)
    ensures Show(Compressed(left, right)) == (if left == [] then [':'] else Terminated(left)) + After(right)
  {
    TerminatedJoins(left, []);
    if right != [] {
      PrecededJoins(right);
    }
  }

  ghost predicate MatchesGroups(segment: Pattern) {
    forall s :: Matches(segment, s) <==> IsGroup(s)
  }

  ghost predicate MatchesQuads(v4: Pattern) {
    forall s :: Matches(v4, s) <==> IsDottedQuad(s)
  }

  lemma {:induction false} TerminatedOf(segment: Pattern, parts: seq<string>) returns (gs: seq<string>)
    requires MatchesGroups(segment) && AllMatch(Then(segment, COLON), parts)
    ensures |gs| == |parts| && Groups(gs) && Concat(parts) == Terminated(gs)
  {
    if parts == [] {
      gs := [];
    } else {
      var s := parts[0];
      var i :| 0 <= i <= |s| && Matches(segment, s[..i]) && Matches(COLON, s[i..]);
      assert s == s[..i] + [':'];
      var rest := TerminatedOf(segment, parts[1..]);
      gs := [s[..i]] + rest;
      assert gs[1..] == rest;
    }
  }

  lemma {:induction false} HeadsTake(segment: Pattern, gs: seq<string>) returns (parts: seq<string>)
    requires MatchesGroups(segment) && Groups(gs)
    ensures |parts| == |gs| && AllMatch(Then(segment, COLON), parts) && Concat(parts) == Terminated(gs)
  {
    if gs == [] {
      parts := [];
    } else {
      var rest := HeadsTake(segment, gs[1..]);
      ThenMatches(segment, COLON, gs[0], [':']);
      parts := [gs[0] + [':']] + rest;
      assert parts[1..] == rest;
    }
  }

  lemma {:induction false} PrecededOf(segment: Pattern, parts: seq<string>) returns (gs: seq<string>)
    requires MatchesGroups(segment) && AllMatch(Then(COLON, segment), parts)
    ensures |gs| == |parts| && Groups(gs) && Concat(parts) == Preceded(gs)
  {
    if parts == [] {
      gs := [];
    } else {
      var s := parts[0];
      OneThenIff(Only(':'), segment, s);
      assert s == [':'] + s[1..];
      var rest := PrecededOf(segment, parts[1..]);
      gs := [s[1..]] + rest;
      assert gs[1..] == rest;
    }
  }

  lemma {:induction false} TailsTake(segment: Pattern, gs: seq<string>) returns (parts: seq<string>)
    requires MatchesGroups(segment) && Groups(gs)
    ensures |parts| == |gs| && AllMatch(Then(COLON, segment), parts) && Concat(parts) == Preceded(gs)
  {
    if gs == [] {
      parts := [];
    } else {
      var rest := TailsTake(segment, gs[1..]);
      ThenMatches(COLON, segment, [':'], gs[0]);
      parts := [[':'] + gs[0]] + rest;
      assert parts[1..] == rest;
    }
  }

  lemma HeadsIff(segment: Pattern, n: nat, s: string)
    requires MatchesGroups(segment)
    ensures Matches(Heads(segment, n), s) <==> exists gs :: |gs| == n && Groups(gs) && Terminated(gs) == s
  {
    if Matches(Heads(segment, n), s) {
      var parts := RepeatsGives(Then(segment, COLON), n, n, s);
      var gs := TerminatedOf(segment, parts);
    }
    if gs :| |gs| == n && Groups(gs) && Terminated(gs) == s {
      var parts := HeadsTake(segment, gs);
      RepeatsTakes(Then(segment, COLON), n, n, parts);
    }
  }

  lemma TailsIff(segment: Pattern, lo: nat, hi: nat, s: string)
    requires MatchesGroups(segment) && lo <= hi
    ensures Matches(Tails(segment, lo, hi), s) <==> exists gs :: lo <= |gs| <= hi && Groups(gs) && Preceded(gs) == s
  {
    if Matches(Tails(segment, lo, hi), s) {
      var parts := RepeatsGives(Then(COLON, segment), lo, hi, s);
      var gs := PrecededOf(segment, parts);
    }
    if gs :| lo <= |gs| <= hi && Groups(gs) && Preceded(gs) == s {
      var parts := TailsTake(segment, gs);
      RepeatsTakes(Then(COLON, segment), lo, hi, parts);
    }
  }

  // What may follow the left part.

  ghost predicate ValidRight(right: seq<string>, room: nat) {
    Pieces(right) && Width(right) <= room
  }

  ghost predicate IsRight(s: string, room: nat) {
    exists right :: ValidRight(right, room) && After(right) == s
  }

  ghost predicate MatchesRights(p: Pattern, room: nat) {
    forall s :: Matches(p, s) <==> IsRight(s, room)
  }

  lemma QuadHasDot(s: string)
    requires IsDottedQuad(s)
    ensures '.' in s
  {
    var a: nat, b: nat, c: nat, d: nat :| a < 256 && b < 256 && c < 256 && d < 256 && s == Dotted(a, b, c, d);
    assert s[|Decimal(a)|] == '.';
  }

  lemma GroupIsNotQuad(g: string)
    requires IsGroup(g)
    ensures !IsDottedQuad(g)
  {
    assert forall i :: 0 <= i < |g| ==> In(Hex, g[i]) && g[i] != '.';
    assert '.' !in g;
    if IsDottedQuad(g) {
      QuadHasDot(g);
      assert false;
    }
  }

  lemma PrecededOne(piece: string)
    ensures Preceded([piece]) == [':'] + piece
  {
    assert [piece][1..] == [];
  }

  lemma GroupsAreRight(gs: seq<string>, room: nat)
    requires Groups(gs) && |gs| <= room
    ensures ValidRight(gs, room)
  {
    if gs != [] {
      GroupIsNotQuad(gs[|gs| - 1]);
    }
  }

  lemma QuadEndsRight(gs: seq<string>, quad: string, room: nat)
    requires Groups(gs) && IsDottedQuad(quad) && |gs| + 2 <= room
    ensures ValidRight(gs + [quad], room) && After(gs + [quad]) == Preceded(gs) + ([':'] + quad)
  {
    assert (gs + [quad])[..|gs|] == gs;
    PrecededSnoc(gs, quad);
  }

  /** A right part is empty, or groups, or groups and a dotted address. */
  lemma RightCases(right: seq<string>, room: nat)
    requires ValidRight(right, room) && right != []
    ensures var n := |right| - 1;
            if IsDottedQuad(right[n]) then Groups(right[..n]) && n + 2 <= room && right == right[..n] + [right[n]]
            else Groups(right) && |right| <= room
  {
  }

  lemma RestTakes(segment: Pattern, v4: Pattern, n: nat, s: string)
    requires n <= 4
    requires Matches(Then(Tails(segment, 0, 5 - n), Then(COLON, v4)), s) || Matches(Tails(segment, 1, 7 - n), s)
             || Matches(COLON, s)
    ensures Matches(Rest(segment, v4, n), s)
  {
  }

  lemma RestTakesQuad(segment: Pattern, v4: Pattern, n: nat, right: seq<string>, k: nat)
    requires MatchesGroups(segment) && MatchesQuads(v4) && n <= 4
    requires k + 1 == |right| && Groups(right[..k]) && k + 2 <= 7 - n && IsDottedQuad(right[k])
    ensures Matches(Rest(segment, v4, n), After(right))
  {
    var gs, quad := right[..k], right[k];
    assert right == gs + [quad];
    QuadEndsRight(gs, quad, 7 - n);
    assert Matches(v4, quad);
    QuadTailTakes(segment, v4, 5 - n, gs, quad);
    RestTakes(segment, v4, n, After(right));
  }

  lemma RestMatchesRight(segment: Pattern, v4: Pattern, n: nat, right: seq<string>)
    requires MatchesGroups(segment) && MatchesQuads(v4) && n <= 4
    requires ValidRight(right, 7 - n)
    ensures Matches(Rest(segment, v4, n), After(right))
  {
    if right == [] {
      assert Matches(COLON, [':']);
      RestTakes(segment, v4, n, [':']);
    } else {
      RightCases(right, 7 - n);
      if IsDottedQuad(right[|right| - 1]) {
        RestTakesQuad(segment, v4, n, right, |right| - 1);
      } else {
        TailTakes(segment, 7 - n, right);
        RestTakes(segment, v4, n, After(right));
      }
    }
  }

  lemma TailTakes(segment: Pattern, hi: nat, gs: seq<string>)
    requires MatchesGroups(segment) && Groups(gs) && 1 <= |gs| <= hi
    ensures Matches(Tails(segment, 1, hi), After(gs))
  {
    TailsIff(segment, 1, hi, Preceded(gs));
  }

  lemma RightOfRest(segment: Pattern, v4: Pattern, n: nat, s: string)
    requires MatchesGroups(segment) && MatchesQuads(v4) && n <= 4
    requires Matches(Rest(segment, v4, n), s)
    ensures IsRight(s, 7 - n)
  {
    if Matches(COLON, s) || Matches(Tails(segment, 1, 7 - n), s) {
      RightWithoutQuad(segment, 7 - n, s);
    } else {
      QuadTail(segment, v4, 5 - n, s);
    }
  }

  lemma QuadTailTakes(segment: Pattern, v4: Pattern, hi: nat, gs: seq<string>, quad: string)
    requires MatchesGroups(segment) && Groups(gs) && |gs| <= hi && Matches(v4, quad)
    ensures Matches(Then(Tails(segment, 0, hi), Then(COLON, v4)), Preceded(gs) + ([':'] + quad))
  {
    TailsIff(segment, 0, hi, Preceded(gs));
    ThenMatches(COLON, v4, [':'], quad);
    ThenMatches(Tails(segment, 0, hi), Then(COLON, v4), Preceded(gs), [':'] + quad);
  }

  lemma QuadTailGives(segment: Pattern, v4: Pattern, hi: nat, s: string) returns (gs: seq<string>, quad: string)
    requires MatchesGroups(segment)
    requires Matches(Then(Tails(segment, 0, hi), Then(COLON, v4)), s)
    ensures Groups(gs) && |gs| <= hi && Matches(v4, quad) && s == Preceded(gs) + ([':'] + quad)
  {
    var front, back := ThenGives(Tails(segment, 0, hi), Then(COLON, v4), s);
    TailsIff(segment, 0, hi, front);
    gs :| 0 <= |gs| <= hi && Groups(gs) && Preceded(gs) == front;
    OneThenIff(Only(':'), v4, back);
    quad := back[1..];
    assert back == [':'] + quad;
  }

  lemma QuadTail(segment: Pattern, v4: Pattern, hi: nat, s: string)
    requires MatchesGroups(segment) && MatchesQuads(v4)
    requires Matches(Then(Tails(segment, 0, hi), Then(COLON, v4)), s)
    ensures IsRight(s, hi + 2)
  {
    var gs, quad := QuadTailGives(segment, v4, hi, s);
    QuadEndsRight(gs, quad, hi + 2);
  }

  lemma RestIff(segment: Pattern, v4: Pattern, n: nat)
    requires MatchesGroups(segment) && MatchesQuads(v4) && n <= 4
    ensures MatchesRights(Rest(segment, v4, n), 7 - n)
  {
    forall s ensures Matches(Rest(segment, v4, n), s) <==> IsRight(s, 7 - n) {
      if Matches(Rest(segment, v4, n), s) {
        RightOfRest(segment, v4, n, s);
      }
      if right :| ValidRight(right, 7 - n) && After(right) == s {
        RestMatchesRight(segment, v4, n, right);
      }
    }
  }

  lemma RestOfFiveIff(segment: Pattern, v4: Pattern)
    requires MatchesGroups(segment) && MatchesQuads(v4)
    ensures MatchesRights(RestOfFive(segment, v4), 2)
  {
    var p := RestOfFive(segment, v4);
    forall s ensures Matches(p, s) <==> IsRight(s, 2) {
      if Matches(p, s) {
        RightOfFive(segment, v4, s);
      }
      if IsRight(s, 2) {
        FiveMatchesRight(segment, v4, s);
      }
    }
  }

  lemma RightOfFive(segment: Pattern, v4: Pattern, s: string)
    requires MatchesGroups(segment) && MatchesQuads(v4)
    requires Matches(RestOfFive(segment, v4), s)
    ensures IsRight(s, 2)
  {
    if Matches(COLON, s) || Matches(Tails(segment, 1, 2), s) {
      RightWithoutQuad(segment, 2, s);
    } else {
      LoneQuad(v4, s);
    }
  }

  lemma RightWithoutQuad(segment: Pattern, hi: nat, s: string)
    requires MatchesGroups(segment) && hi >= 1
    requires Matches(COLON, s) || Matches(Tails(segment, 1, hi), s)
    ensures IsRight(s, hi)
  {
    if Matches(COLON, s) {
      assert ValidRight([], hi) && After([]) == s;
    } else {
      TailsIff(segment, 1, hi, s);
      var gs :| 1 <= |gs| <= hi && Groups(gs) && Preceded(gs) == s;
      GroupsAreRight(gs, hi);
      assert After(gs) == s;
    }
  }

  lemma LoneQuad(v4: Pattern, s: string)
    requires MatchesQuads(v4) && Matches(Then(COLON, v4), s)
    ensures IsRight(s, 2)
  {
    OneThenIff(Only(':'), v4, s);
    QuadEndsRight([], s[1..], 2);
    assert Preceded([]) + ([':'] + s[1..]) == s;
  }

  lemma FiveMatchesRight(segment: Pattern, v4: Pattern, s: string)
    requires MatchesGroups(segment) && MatchesQuads(v4)
    requires IsRight(s, 2)
    ensures Matches(RestOfFive(segment, v4), s)
  {
    var right :| ValidRight(right, 2) && After(right) == s;
    if right != [] {
      RightCases(right, 2);
      if IsDottedQuad(right[|right| - 1]) {
        assert right == [right[0]];
        LoneQuadTakes(v4, right[0]);
      } else {
        TailTakes(segment, 2, right);
      }
    }
  }

  lemma LoneQuadTakes(v4: Pattern, quad: string)
    requires Matches(v4, quad)
    ensures Matches(Then(COLON, v4), Preceded([quad]))
  {
    PrecededOne(quad);
    ThenMatches(COLON, v4, [':'], quad);
  }

  /** With six or seven groups before it, only one group or none is left for the right part. */
  lemma NarrowRightsIff(segment: Pattern)
    requires MatchesGroups(segment)
    ensures MatchesRights(Or(Then(COLON, segment), COLON), 1) && MatchesRights(COLON, 0)
  {
    forall s ensures IsRight(s, 0) <==> s == [':'] {
      assert ValidRight([], 0) && After([]) == [':'];
    }
    forall s ensures IsRight(s, 1) <==> s == [':'] || (s != [] && s[0] == ':' && IsGroup(s[1..])) {
      NarrowRight(s);
    }
    forall s ensures Matches(Or(Then(COLON, segment), COLON), s) <==> IsRight(s, 1) {
      OneThenIff(Only(':'), segment, s);
      assert |s| == 1 && s[0] == ':' ==> s == [':'];
    }
    forall s ensures Matches(COLON, s) <==> IsRight(s, 0) {
      assert |s| == 1 && s[0] == ':' ==> s == [':'];
    }
  }

  lemma NarrowRight(s: string)
    ensures IsRight(s, 1) <==> s == [':'] || (s != [] && s[0] == ':' && IsGroup(s[1..]))
  {
    if right :| ValidRight(right, 1) && After(right) == s {
      if right != [] {
        RightCases(right, 1);
        assert right == [right[0]];
        PrecededOne(right[0]);
      }
    }
    if s == [':'] {
      assert ValidRight([], 1) && After([]) == s;
    }
    if s != [] && s[0] == ':' && IsGroup(s[1..]) {
      GroupsAreRight([s[1..]], 1);
      PrecededOne(s[1..]);
      assert After([s[1..]]) == s;
    }
  }

  // The whole alternation.

  ghost predicate IsTextForm(s: string) {
    exists f :: Valid(f) && Show(f) == s
  }

  /** A form with `n` groups before the `::`. */
  ghost predicate IsCompressed(s: string, n: nat) {
    exists left, right :: |left| == n && Valid(Compressed(left, right)) && Show(Compressed(left, right)) == s
  }

  ghost predicate IsFull(s: string) {
    exists pieces :: Valid(Full(pieces)) && Show(Full(pieces)) == s
  }

  lemma OrIff(a: Pattern, b: Pattern, s: string)
    ensures Matches(Or(a, b), s) <==> Matches(a, s) || Matches(b, s)
  {
  }

  lemma ThenOrIff(first: Pattern, a: Pattern, b: Pattern, s: string)
    ensures Matches(Then(first, Or(a, b)), s) <==> Matches(Then(first, a), s) || Matches(Then(first, b), s)
  {
  }

  lemma CompressedGives(segment: Pattern, rest: Pattern, n: nat, s: string)
    requires MatchesGroups(segment) && 1 <= n <= 7 && MatchesRights(rest, 7 - n)
    requires Matches(Then(Heads(segment, n), rest), s)
    ensures IsCompressed(s, n)
  {
    var front, back := ThenGives(Heads(segment, n), rest, s);
    HeadsIff(segment, n, front);
    var left :| |left| == n && Groups(left) && Terminated(left) == front;
    var right :| ValidRight(right, 7 - n) && After(right) == back;
    CompressedText(left, right);
    assert Valid(Compressed(left, right));
  }

  lemma CompressedTakes(segment: Pattern, rest: Pattern, left: seq<string>, right: seq<string>)
    requires MatchesGroups(segment) && 1 <= |left| <= 7 && MatchesRights(rest, 7 - |left|)
    requires Valid(Compressed(left, right))
    ensures Matches(Then(Heads(segment, |left|), rest), Show(Compressed(left, right)))
  {
    CompressedText(left, right);
    HeadsIff(segment, |left|, Terminated(left));
    assert ValidRight(right, 7 - |left|);
    ThenMatches(Heads(segment, |left|), rest, Terminated(left), After(right));
  }

  lemma CompressedIff(segment: Pattern, rest: Pattern, n: nat, s: string)
    requires MatchesGroups(segment) && 1 <= n <= 7 && MatchesRights(rest, 7 - n)
    ensures Matches(Then(Heads(segment, n), rest), s) <==> IsCompressed(s, n)
  {
    if Matches(Then(Heads(segment, n), rest), s) {
      CompressedGives(segment, rest, n, s);
    }
    if left, right :| |left| == n && Valid(Compressed(left, right)) && Show(Compressed(left, right)) == s {
      CompressedTakes(segment, rest, left, right);
    }
  }

  lemma LeadingColonsGive(rest: Pattern, tail: string)
    requires MatchesRights(rest, 7) && Matches(rest, tail)
    ensures IsCompressed([':'] + tail, 0)
  {
    var right :| ValidRight(right, 7) && After(right) == tail;
    CompressedText([], right);
    assert Valid(Compressed([], right));
  }

  lemma LeadingColonsTake(rest: Pattern, right: seq<string>)
    requires MatchesRights(rest, 7) && Valid(Compressed([], right))
    ensures Matches(Then(COLON, rest), Show(Compressed([], right)))
  {
    CompressedText([], right);
    assert ValidRight(right, 7);
    ThenMatches(COLON, rest, [':'], After(right));
  }

  lemma LeadingColonsIff(rest: Pattern, s: string)
    requires MatchesRights(rest, 7)
    ensures Matches(Then(COLON, rest), s) <==> IsCompressed(s, 0)
  {
    if Matches(Then(COLON, rest), s) {
      var front, back := ThenGives(COLON, rest, s);
      assert front == [':'];
      LeadingColonsGive(rest, back);
    }
    if left, right :| |left| == 0 && Valid(Compressed(left, right)) && Show(Compressed(left, right)) == s {
      LeadingColonsTake(rest, right);
    }
  }

  ghost predicate IsFullEnding(last: Pattern, n: nat, s: string) {
    exists gs, piece :: |gs| == n && Groups(gs) && Matches(last, piece) && Join(gs + [piece], ':') == s
  }

  lemma FullIff(segment: Pattern, last: Pattern, n: nat, s: string)
    requires MatchesGroups(segment)
    ensures Matches(Then(Heads(segment, n), last), s) <==> IsFullEnding(last, n, s)
  {
    if Matches(Then(Heads(segment, n), last), s) {
      var front, back := ThenGives(Heads(segment, n), last, s);
      HeadsIff(segment, n, front);
      var gs :| |gs| == n && Groups(gs) && Terminated(gs) == front;
      TerminatedJoins(gs, back);
    }
    if gs, piece :| |gs| == n && Groups(gs) && Matches(last, piece) && Join(gs + [piece], ':') == s {
      TerminatedJoins(gs, piece);
      HeadsIff(segment, n, Terminated(gs));
      ThenMatches(Heads(segment, n), last, Terminated(gs), piece);
    }
  }

  lemma FullEnds(segment: Pattern, v4: Pattern, pieces: seq<string>)
    requires MatchesGroups(segment) && MatchesQuads(v4) && Valid(Full(pieces))
    ensures IsFullEnding(segment, 7, Join(pieces, ':')) || IsFullEnding(v4, 6, Join(pieces, ':'))
  {
    var n := |pieces| - 1;
    assert pieces == pieces[..n] + [pieces[n]];
    if IsDottedQuad(pieces[n]) {
      assert Matches(v4, pieces[n]);
    } else {
      assert Matches(segment, pieces[n]);
    }
  }

  lemma EndingIsFull(last: Pattern, n: nat, s: string)
    requires IsFullEnding(last, n, s)
    requires (n == 7 && MatchesGroups(last)) || (n == 6 && MatchesQuads(last))
    ensures IsFull(s)
  {
    var gs, piece :| |gs| == n && Groups(gs) && Matches(last, piece) && Join(gs + [piece], ':') == s;
    if n == 7 {
      assert IsGroup(piece);
      GroupIsNotQuad(piece);
    } else {
      assert IsDottedQuad(piece);
    }
    FullOf(gs, piece);
  }

  lemma FullCases(segment: Pattern, v4: Pattern, s: string)
    requires MatchesGroups(segment) && MatchesQuads(v4)
    ensures IsFull(s) <==> IsFullEnding(segment, 7, s) || IsFullEnding(v4, 6, s)
  {
    if pieces :| Valid(Full(pieces)) && Show(Full(pieces)) == s {
      FullEnds(segment, v4, pieces);
    }
    if IsFullEnding(segment, 7, s) {
      EndingIsFull(segment, 7, s);
    }
    if IsFullEnding(v4, 6, s) {
      EndingIsFull(v4, 6, s);
    }
  }

  lemma FullOf(gs: seq<string>, piece: string)
    requires Groups(gs) && (IsGroup(piece) || IsDottedQuad(piece))
    requires |gs| + 1 + (if IsDottedQuad(piece) then 1 else 0) == 8
    ensures Valid(Full(gs + [piece])) && Show(Full(gs + [piece])) == Join(gs + [piece], ':')
  {
    assert (gs + [piece])[..|gs|] == gs;
  }

  lemma BodyCases(segment: Pattern, v4: Pattern, s: string)
    ensures Matches(Body(segment, v4), s) <==>
            || Matches(Then(Heads(segment, 7), segment), s)
            || Matches(Then(Heads(segment, 7), COLON), s)
            || Matches(Then(Heads(segment, 6), v4), s)
            || Matches(Then(Heads(segment, 6), Or(Then(COLON, segment), COLON)), s)
            || Matches(Then(Heads(segment, 5), RestOfFive(segment, v4)), s)
            || Matches(Then(Heads(segment, 4), Rest(segment, v4, 4)), s)
            || Matches(Then(Heads(segment, 3), Rest(segment, v4, 3)), s)
            || Matches(Then(Heads(segment, 2), Rest(segment, v4, 2)), s)
            || Matches(Then(Heads(segment, 1), Rest(segment, v4, 1)), s)
            || Matches(Then(COLON, Rest(segment, v4, 0)), s)
  {
    var p7 := Then(Heads(segment, 7), Or(segment, COLON));
    var p6 := Then(Heads(segment, 6), Or(v4, Or(Then(COLON, segment), COLON)));
    var p5, p4 := Then(Heads(segment, 5), RestOfFive(segment, v4)), Then(Heads(segment, 4), Rest(segment, v4, 4));
    var p3, p2 := Then(Heads(segment, 3), Rest(segment, v4, 3)), Then(Heads(segment, 2), Rest(segment, v4, 2));
    var p1, p0 := Then(Heads(segment, 1), Rest(segment, v4, 1)), Then(COLON, Rest(segment, v4, 0));
    ThenOrIff(Heads(segment, 7), segment, COLON, s);
    ThenOrIff(Heads(segment, 6), v4, Or(Then(COLON, segment), COLON), s);
    OrIff(p1, p0, s);
    OrIff(p2, Or(p1, p0), s);
    OrIff(p3, Or(p2, Or(p1, p0)), s);
    OrIff(p4, Or(p3, Or(p2, Or(p1, p0))), s);
    OrIff(p5, Or(p4, Or(p3, Or(p2, Or(p1, p0)))), s);
    OrIff(p6, Or(p5, Or(p4, Or(p3, Or(p2, Or(p1, p0))))), s);
    OrIff(p7, Or(p6, Or(p5, Or(p4, Or(p3, Or(p2, Or(p1, p0)))))), s);
  }

  lemma FormCases(s: string)
    ensures IsTextForm(s) <==> IsFull(s) || exists n :: 0 <= n <= 7 && IsCompressed(s, n)
  {
    if f :| Valid(f) && Show(f) == s {
      match f
      case Full(pieces) => assert IsFull(s);
      case Compressed(left, right) => assert IsCompressed(s, |left|);
    }
    if n: nat :| 0 <= n <= 7 && IsCompressed(s, n) {
      var left, right :| |left| == n && Valid(Compressed(left, right)) && Show(Compressed(left, right)) == s;
    }
  }

  lemma BodyIff(segment: Pattern, v4: Pattern, s: string)
    requires MatchesGroups(segment) && MatchesQuads(v4)
    ensures Matches(Body(segment, v4), s) <==> IsTextForm(s)
  {
    BodyCases(segment, v4, s);
    FullIff(segment, segment, 7, s);
    FullIff(segment, v4, 6, s);
    FullCases(segment, v4, s);
    NarrowRightsIff(segment);
    CompressedIff(segment, COLON, 7, s);
    CompressedIff(segment, Or(Then(COLON, segment), COLON), 6, s);
    RestOfFiveIff(segment, v4);
    CompressedIff(segment, RestOfFive(segment, v4), 5, s);
    RestIff(segment, v4, 4);
    CompressedIff(segment, Rest(segment, v4, 4), 4, s);
    RestIff(segment, v4, 3);
    CompressedIff(segment, Rest(segment, v4, 3), 3, s);
    RestIff(segment, v4, 2);
    CompressedIff(segment, Rest(segment, v4, 2), 2, s);
    RestIff(segment, v4, 1);
    CompressedIff(segment, Rest(segment, v4, 1), 1, s);
    RestIff(segment, v4, 0);
    LeadingColonsIff(Rest(segment, v4, 0), s);
    FormCases(s);
  }
}
