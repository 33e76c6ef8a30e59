/** What an accepted IPv6 text stands for: one form, one list of eight groups. */
module IpV6Groups {
  import opened Text
  import opened Patterns
  import opened IpV4
  import opened IpV6

  // The two building blocks and the zone.

  lemma {:induction false} SingleCharacters(k: Class, parts: seq<string>)
    requires AllMatch(One(k), parts)
    ensures |Concat(parts)| == |parts| && forall i :: 0 <= i < |parts| ==> In(k, Concat(parts)[i])
  {
    if parts != [] {
      assert Matches(One(k), parts[0]);
      SingleCharacters(k, parts[1..]);
    }
  }

  lemma {:induction false} CharactersOf(k: Class, s: string) returns (parts: seq<string>)
    requires forall i :: 0 <= i < |s| ==> In(k, s[i])
    ensures |parts| == |s| && AllMatch(One(k), parts) && Concat(parts) == s
  {
    if s == [] {
      parts := [];
    } else {
      var rest := CharactersOf(k, s[1..]);
      parts := [s[..1]] + rest;
      assert parts[1..] == rest && s[..1] + s[1..] == s;
    }
  }

  lemma SegmentIsGroup(s: string)
    ensures Matches(V6_SEGMENT, s) <==> IsGroup(s)
  {
    if Matches(V6_SEGMENT, s) {
      var parts := RepeatsGives(One(Hex), 1, 4, s);
      SingleCharacters(Hex, parts);
    }
    if IsGroup(s) {
      var parts := CharactersOf(Hex, s);
      RepeatsTakes(One(Hex), 1, 4, parts);
    }
  }

  /** Nothing, or a percent sign and at least one letter or digit. */
  predicate IsZone(z: string) {
    z == [] || (z[0] == '%' && |z| > 1 && forall i :: 1 <= i < |z| ==> In(Alphanumeric, z[i]))
  }

  lemma ZoneNameIff(z: string)
    ensures Matches(Then(One(Only('%')), Many(Alphanumeric)), z) <==> z != [] && IsZone(z)
  {
    OneThenIff(Only('%'), Many(Alphanumeric), z);
    assert z != [] ==> forall i :: 1 <= i < |z| ==> z[i] == z[1..][i - 1];
  }

  lemma ZoneIff(z: string)
    ensures Matches(ZONE, z) <==> IsZone(z)
  {
    var name := Then(One(Only('%')), Many(Alphanumeric));
    if Matches(ZONE, z) {
      var parts := RepeatsGives(name, 0, 1, z);
      if parts != [] {
        assert parts[1..] == [] && z == parts[0];
        ZoneNameIff(z);
      }
    }
    if IsZone(z) {
      if z == [] {
        RepeatsTakes(name, 0, 1, []);
      } else {
        ZoneNameIff(z);
        RepeatsTakes(name, 0, 1, [z]);
        assert [z][1..] == [] && Concat([z]) == z;
      }
    }
  }

  ghost predicate IsFormWithZone(ip: string) {
    exists body, zone :: IsTextForm(body) && IsZone(zone) && ip == body + zone
  }

  lemma BodyIsTextForm(s: string)
    ensures Matches(Body(V6_SEGMENT, V4_DOTTED), s) <==> IsTextForm(s)
  {
    var segment, v4 := V6_SEGMENT, V4_DOTTED;
    forall t ensures Matches(segment, t) <==> IsGroup(t) {
      SegmentIsGroup(t);
    }
    forall t ensures Matches(v4, t) <==> IsDottedQuad(t) {
      IsIPv4Iff(t);
    }
    BodyIff(segment, v4, s);
  }

  /** `isIPv6` accepts exactly the text forms, each with an optional zone. */
  lemma IsIPv6Iff(ip: string)
    ensures IsIPv6(ip) <==> IsFormWithZone(ip)
  {
    var body := Body(V6_SEGMENT, V4_DOTTED);
    forall s ensures Matches(body, s) <==> IsTextForm(s) {
      BodyIsTextForm(s);
    }
    WithZoneIff(body, ip);
  }

  lemma WithZoneIff(body: Pattern, ip: string)
    requires forall s :: Matches(body, s) <==> IsTextForm(s)
    ensures Matches(Then(body, ZONE), ip) <==> IsFormWithZone(ip)
  {
    if Matches(Then(body, ZONE), ip) {
      var front, back := ThenGives(body, ZONE, ip);
      ZoneIff(back);
    }
    if front, zone :| IsTextForm(front) && IsZone(zone) && ip == front + zone {
      ZoneIff(zone);
      ThenMatches(body, ZONE, front, zone);
    }
  }

  lemma ZoneShows(body: string, zone: string)
    requires IsZone(zone)
    ensures zone != [] ==> '%' in body + zone
  {
    assert zone != [] ==> (body + zone)[|body|] == '%';
  }

  /** Without a percent sign there is no zone. */
  lemma IsIPv6WithoutZoneIff(ip: string)
    requires '%' !in ip
    ensures IsIPv6(ip) <==> IsTextForm(ip)
  {
    IsIPv6Iff(ip);
    if body, zone :| IsTextForm(body) && IsZone(zone) && ip == body + zone {
      ZoneShows(body, zone);
      assert body + [] == body;
    }
    if IsTextForm(ip) {
      assert ip == ip + [] && IsZone([]);
    }
  }

  // Uniqueness: the colons of the text give the form back.

  function Fields(f: Form): (fields: seq<string>)
    ensures f.Compressed? ==> fields != []
  {
    match f
    case Full(pieces) => pieces
    case Compressed(left, right) => Side(left) + [""] + Side(right)
  }

  function Side(pieces: seq<string>): (side: seq<string>)
    ensures side != []
  {
    if pieces == [] then [""] else pieces
  }

  lemma {:induction false} JoinAppend(front: seq<string>, back: seq<string>, c: char)
    requires front != [] && back != []
    ensures Join(front + back, c) == Join(front, c) + [c] + Join(back, c)
  {
    if |front| == 1 {
      assert (front + back)[1..] == back;
    } else {
      assert (front + back)[1..] == front[1..] + back;
      JoinAppend(front[1..], back, c);
    }
  }

  lemma ShowJoinsFields(f: Form)
    requires Valid(f)
    ensures Show(f) == Join(Fields(f), ':')
  {
    if f.Compressed? {
      var l, r := Side(f.left), Side(f.right);
      JoinAppend(l, [""], ':');
      JoinAppend(l + [""], r, ':');
      assert Join(l, ':') == Join(f.left, ':') && Join(r, ':') == Join(f.right, ':');
    }
  }

  lemma PieceHasNoColon(piece: string)
    requires IsGroup(piece) || IsDottedQuad(piece)
    ensures ':' !in piece && piece != []
  {
    if IsGroup(piece) {
      assert forall i :: 0 <= i < |piece| ==> In(Hex, piece[i]) && piece[i] != ':';
    } else {
      var a: nat, b: nat, c: nat, d: nat :| a < 256 && b < 256 && c < 256 && d < 256 && piece == Dotted(a, b, c, d);
      DottedHasNoColon(a, b, c, d);
    }
  }

  lemma DottedHasNoColon(a: nat, b: nat, c: nat, d: nat)
    ensures ':' !in Dotted(a, b, c, d)
  {
    assert forall n: nat :: ':' !in Decimal(n);
  }

  lemma PiecesHaveNoColon(pieces: seq<string>)
    requires Pieces(pieces)
    ensures forall i :: 0 <= i < |pieces| ==> ':' !in pieces[i] && pieces[i] != []
  {
    forall i | 0 <= i < |pieces| ensures ':' !in pieces[i] && pieces[i] != [] {
      if i < |pieces| - 1 {
        assert pieces[i] == pieces[..|pieces| - 1][i];
      }
      PieceHasNoColon(pieces[i]);
    }
  }

  lemma GroupsArePieces(gs: seq<string>)
    requires Groups(gs)
    ensures Pieces(gs)
  {
  }

  lemma FieldsFromText(f: Form)
    requires Valid(f)
    ensures Split(Show(f), ':') == Fields(f)
  {
    ShowJoinsFields(f);
    match f
    case Full(pieces) =>
      PiecesHaveNoColon(pieces);
      SplitJoin(pieces, ':');
    case Compressed(left, right) =>
      GroupsArePieces(left);
      PiecesHaveNoColon(left);
      PiecesHaveNoColon(right);
      SplitJoin(Fields(f), ':');
  }

  /** The first blank field tells where the left part ends. */
  lemma FieldsTellForm(f: Form, g: Form)
    requires Valid(f) && Valid(g) && Fields(f) == Fields(g)
    ensures f == g
  {
    FieldsWithoutBlank(f);
    FieldsWithoutBlank(g);
    if f.Compressed? && g.Compressed? {
      SidesTellForm(f.left, f.right, g.left, g.right);
    }
  }

  lemma FieldsWithoutBlank(f: Form)
    requires Valid(f)
    ensures f.Full? <==> forall i :: 0 <= i < |Fields(f)| ==> Fields(f)[i] != []
  {
    match f
    case Full(pieces) => PiecesHaveNoColon(pieces);
    case Compressed(left, right) => assert Fields(f)[|Side(left)|] == [];
  }

  lemma SidesTellForm(l1: seq<string>, r1: seq<string>, l2: seq<string>, r2: seq<string>)
    requires Valid(Compressed(l1, r1)) && Valid(Compressed(l2, r2))
    requires Side(l1) + [""] + Side(r1) == Side(l2) + [""] + Side(r2)
    ensures l1 == l2 && r1 == r2
  {
    var fields := Side(l1) + [""] + Side(r1);
    LeftFromFields(l1, r1);
    LeftFromFields(l2, r2);
    assert |l1| == |l2|;
    assert Side(l1) == fields[..|Side(l1)|] && Side(l2) == fields[..|Side(l2)|];
    assert Side(r1) == fields[|Side(l1)| + 1..] && Side(r2) == fields[|Side(l2)| + 1..];
    SideTellsPieces(l1, l2);
    PiecesHaveNoColon(r1);
    PiecesHaveNoColon(r2);
    SideTellsPieces(r1, r2);
  }

  lemma SideTellsPieces(a: seq<string>, b: seq<string>)
    requires Side(a) == Side(b)
    requires || |a| == |b|
             || ((forall i :: 0 <= i < |a| ==> a[i] != []) && (forall i :: 0 <= i < |b| ==> b[i] != []))
    ensures a == b
  {
    assert a == [] ==> Side(a)[0] == [];
    assert b == [] ==> Side(b)[0] == [];
    assert a != [] ==> Side(a)[0] == a[0];
    assert b != [] ==> Side(b)[0] == b[0];
  }

  /** The left part is as long as the fields before the first blank. */
  lemma LeftFromFields(left: seq<string>, right: seq<string>)
    requires Valid(Compressed(left, right))
    ensures IndexOfBlank(Side(left) + [""] + Side(right)) == |left|
  {
    GroupsArePieces(left);
    PiecesHaveNoColon(left);
    FirstBlank(Side(left) + [""] + Side(right), |left|);
  }

  function IndexOfBlank(fields: seq<string>): nat {
    if fields == [] || fields[0] == [] then 0 else 1 + IndexOfBlank(fields[1..])
  }

  lemma {:induction false} FirstBlank(fields: seq<string>, n: nat)
    requires n < |fields| && fields[n] == [] && forall i :: 0 <= i < n ==> fields[i] != []
    ensures IndexOfBlank(fields) == n
  {
    if n > 0 {
      FirstBlank(fields[1..], n - 1);
    }
  }

  /** Two valid forms with the same text are the same form. */
  lemma FormIsUnique(f: Form, g: Form)
    requires Valid(f) && Valid(g) && Show(f) == Show(g)
    ensures f == g
  {
    FieldsFromText(f);
    FieldsFromText(g);
    FieldsTellForm(f, g);
  }

  // The eight groups.

  function HexDigit(c: char): nat
    requires In(Hex, c)
  {
    if c <= '9' then c as int - '0' as int
    else if c >= 'a' then c as int - 'a' as int + 10 else c as int - 'A' as int + 10
  }

  /** The value of a text of hexadecimal digits. */
  function HexValue(g: string): nat
    requires forall i :: 0 <= i < |g| ==> In(Hex, g[i])
  {
    if g == [] then 0 else 16 * HexValue(g[..|g| - 1]) + HexDigit(g[|g| - 1])
  }

  /** The two groups of a dotted address. */
  function QuadValues(quad: string): seq<int> {
    var octets := Split(quad, '.');
    if |octets| == 4 then
      [256 * NumberOf(octets[0]) + NumberOf(octets[1]), 256 * NumberOf(octets[2]) + NumberOf(octets[3])]
    else []
  }

  ghost function PieceValues(piece: string): seq<int> {
    if IsGroup(piece) then [HexValue(piece)] else QuadValues(piece)
  }

  ghost function Values(pieces: seq<string>): seq<int> {
    if pieces == [] then [] else Values(pieces[..|pieces| - 1]) + PieceValues(pieces[|pieces| - 1])
  }

  /** The address: `::` stands for as many zero groups as are missing. */
  ghost function Expand(f: Form): seq<int> {
    match f
    case Full(pieces) => Values(pieces)
    case Compressed(left, right) =>
      var l, r := Values(left), Values(right);
      l + seq(if |l| + |r| <= 8 then 8 - |l| - |r| else 0, _ => 0) + r
  }

  predicate InRange(values: seq<int>) {
    forall i :: 0 <= i < |values| ==> 0 <= values[i] < 0x1_0000
  }

  lemma GroupInRange(g: string)
    requires IsGroup(g)
    ensures HexValue(g) < 0x1_0000
  {
    HexBound(g);
  }

  function Power16(n: nat): nat {
    if n == 0 then 1 else 16 * Power16(n - 1)
  }

  lemma {:induction false} HexBound(g: string)
    requires |g| <= 4 && forall i :: 0 <= i < |g| ==> In(Hex, g[i])
    ensures HexValue(g) < Power16(|g|) <= 0x1_0000
  {
    assert Power16(0) == 1 && Power16(1) == 16 && Power16(2) == 256 && Power16(3) == 4096 && Power16(4) == 65536;
    if g != [] {
      HexBound(g[..|g| - 1]);
    }
  }

  lemma QuadInRange(a: nat, b: nat, c: nat, d: nat)
    requires a < 256 && b < 256 && c < 256 && d < 256
    ensures QuadValues(Dotted(a, b, c, d)) == [256 * a + b, 256 * c + d]
  {
    var parts := [Decimal(a), Decimal(b), Decimal(c), Decimal(d)];
    assert forall n: nat :: '.' !in Decimal(n);
    JoinFour(parts);
    SplitJoin(parts, '.');
    NumberOfDecimal(a);
    NumberOfDecimal(b);
    NumberOfDecimal(c);
    NumberOfDecimal(d);
  }

  lemma JoinFour(parts: seq<string>)
    requires |parts| == 4
    ensures Join(parts, '.') == parts[0] + ['.'] + (parts[1] + ['.'] + (parts[2] + ['.'] + parts[3]))
  {
    assert parts[1..][1..][1..] == [parts[3]];
    assert Join([parts[3]], '.') == parts[3];
    assert Join(parts[1..][1..], '.') == parts[2] + ['.'] + parts[3];
    assert Join(parts[1..], '.') == parts[1] + ['.'] + (parts[2] + ['.'] + parts[3]);
  }

  lemma PieceWidth(piece: string)
    requires IsGroup(piece) || IsDottedQuad(piece)
    ensures |PieceValues(piece)| == (if IsDottedQuad(piece) then 2 else 1) && InRange(PieceValues(piece))
  {
    if IsGroup(piece) {
      GroupIsNotQuad(piece);
      GroupInRange(piece);
    } else {
      var a: nat, b: nat, c: nat, d: nat :| a < 256 && b < 256 && c < 256 && d < 256 && piece == Dotted(a, b, c, d);
      QuadInRange(a, b, c, d);
    }
  }

  lemma {:induction false} GroupValues(gs: seq<string>)
    requires Groups(gs)
    ensures |Values(gs)| == |gs| && InRange(Values(gs))
  {
    if gs != [] {
      GroupValues(gs[..|gs| - 1]);
      GroupIsNotQuad(gs[|gs| - 1]);
      PieceWidth(gs[|gs| - 1]);
    }
  }

  lemma PiecesValues(pieces: seq<string>)
    requires Pieces(pieces)
    ensures |Values(pieces)| == Width(pieces) && InRange(Values(pieces))
  {
    if pieces != [] {
      GroupValues(pieces[..|pieces| - 1]);
      PieceWidth(pieces[|pieces| - 1]);
    }
  }

  lemma ExpandsToEight(f: Form)
    requires Valid(f)
    ensures |Expand(f)| == 8 && InRange(Expand(f))
  {
    match f
    case Full(pieces) => PiecesValues(pieces);
    case Compressed(left, right) =>
      GroupValues(left);
      PiecesValues(right);
  }

  ghost predicate StandsFor(ip: string, groups: seq<int>) {
    exists f :: Valid(f) && Show(f) == ip && Expand(f) == groups
  }

  /** A text without a zone is accepted if and only if it stands for eight 16-bit groups, one list of them only. */
  lemma AcceptedStandsForOneAddress(ip: string)
    requires '%' !in ip
    ensures IsIPv6(ip) <==> exists groups :: StandsFor(ip, groups)
    ensures forall groups :: StandsFor(ip, groups) ==> |groups| == 8 && InRange(groups)
    ensures forall g1, g2 :: StandsFor(ip, g1) && StandsFor(ip, g2) ==> g1 == g2
  {
    IsIPv6WithoutZoneIff(ip);
    if IsIPv6(ip) {
      var f :| Valid(f) && Show(f) == ip;
      assert StandsFor(ip, Expand(f));
    }
    forall groups | StandsFor(ip, groups) ensures |groups| == 8 && InRange(groups) {
      var f :| Valid(f) && Show(f) == ip && Expand(f) == groups;
      ExpandsToEight(f);
    }
    forall g1, g2 | StandsFor(ip, g1) && StandsFor(ip, g2) ensures g1 == g2 {
      var f1 :| Valid(f1) && Show(f1) == ip && Expand(f1) == g1;
      var f2 :| Valid(f2) && Show(f2) == ip && Expand(f2) == g2;
      FormIsUnique(f1, f2);
    }
  }

  // Digits and places, told by the text alone.

  /** The value of a hexadecimal digit is its place in the row of digits, in either case. */
  lemma HexDigitIs(c: char)
    ensures In(Hex, c) <==> c in "0123456789abcdef" || c in "ABCDEF"
    ensures In(Hex, c) ==>
              HexDigit(c) < 16 && (c == "0123456789abcdef"[HexDigit(c)] || c == "0123456789ABCDEF"[HexDigit(c)])
  {
  }

  lemma ZoneCharacters(c: char)
    ensures In(Alphanumeric, c) <==> var n := c as int; 48 <= n <= 57 || 65 <= n <= 90 || 97 <= n <= 122
  {
  }

  /** The left groups come first, the right ones last, and all between them are zero. */
  lemma ExpandPlaces(left: seq<string>, right: seq<string>)
    requires Valid(Compressed(left, right))
    ensures var groups, l, r := Expand(Compressed(left, right)), Values(left), Values(right);
            && |groups| == 8 && |l| + |r| <= 7
            && groups[..|l|] == l && groups[8 - |r|..] == r
            && forall i :: |l| <= i < 8 - |r| ==> groups[i] == 0
  {
    GroupValues(left);
    PiecesValues(right);
  }
}
