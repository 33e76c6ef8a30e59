/** The IPv4 pattern and what it accepts: four canonical decimals from 0 to 255. */
module IpV4 {
  import opened Patterns

  function Char(c: char): Pattern {
    One(Only(c))
  }

  function Digit(lo: char, hi: char): Pattern {
    One(Range(lo, hi))
  }

  // The alternatives by their first digits: from 250, from 200, from 100, and one or two digits.
  const V4_SEGMENT :=
    Or(Then(Char('2'), Then(Char('5'), Digit('0', '5'))),
       Or(Then(Char('2'), Then(Digit('0', '4'), Digit('0', '9'))),
          Or(Then(Char('1'), Then(Digit('0', '9'), Digit('0', '9'))),
             Then(Times(Digit('1', '9'), 0, 1), Digit('0', '9')))))

  function Quad(segment: Pattern): Pattern {
    Then(Times(Then(segment, Char('.')), 3, 3), segment)
  }

  const V4_DOTTED := Quad(V4_SEGMENT)

  ghost predicate IsIPv4(ip: string) {
    Matches(V4_DOTTED, ip)
  }

  function DigitChar(d: nat): char
    requires d < 10
  {
    '0' + (d as char)
  }

  /** Decimal digits without leading zeros. */
  function Decimal(n: nat): (s: string)
    ensures s != [] && forall i :: 0 <= i < |s| ==> '0' <= s[i] <= '9'
  {
    if n < 10 then [DigitChar(n)] else Decimal(n / 10) + [DigitChar(n % 10)]
  }

  function Value(c: char): int {
    c as int - '0' as int
  }

  lemma DecimalDigits(n: nat)
    requires n < 1000
    ensures n < 10 ==> Decimal(n) == [DigitChar(n)]
    ensures 10 <= n < 100 ==> Decimal(n) == [DigitChar(n / 10), DigitChar(n % 10)]
    ensures 100 <= n ==> Decimal(n) == [DigitChar(n / 100), DigitChar(n / 10 % 10), DigitChar(n % 10)]
  {
    if n >= 100 {
      assert n / 10 / 10 == n / 100;
      assert Decimal(n / 10) == [DigitChar(n / 100), DigitChar(n / 10 % 10)];
    }
  }

  /** The segment pattern, spelled out by length and digits. */
  predicate SegmentShape(s: string) {
    || (|s| == 3 && s[0] == '2' && s[1] == '5' && '0' <= s[2] <= '5')
    || (|s| == 3 && s[0] == '2' && '0' <= s[1] <= '4' && '0' <= s[2] <= '9')
    || (|s| == 3 && s[0] == '1' && '0' <= s[1] <= '9' && '0' <= s[2] <= '9')
    || (|s| == 2 && '1' <= s[0] <= '9' && '0' <= s[1] <= '9')
    || (|s| == 1 && '0' <= s[0] <= '9')
  }

  lemma ThreeCharsIff(a: Class, b: Class, c: Class, s: string)
    ensures Matches(Then(One(a), Then(One(b), One(c))), s) <==> |s| == 3 && In(a, s[0]) && In(b, s[1]) && In(c, s[2])
  {
    OneThenIff(a, Then(One(b), One(c)), s);
    if s != [] {
      OneThenIff(b, One(c), s[1..]);
    }
  }

  lemma OptionalDigitIff(leading: Class, last: Class, s: string)
    ensures Matches(Then(Times(One(leading), 0, 1), One(last)), s) <==>
            || (|s| == 2 && In(leading, s[0]) && In(last, s[1]))
            || (|s| == 1 && In(last, s[0]))
  {
    if Matches(Then(Times(One(leading), 0, 1), One(last)), s) {
      var a, b := ThenGives(Times(One(leading), 0, 1), One(last), s);
      OptionalIff(leading, a);
    }
    if |s| == 1 && In(last, s[0]) {
      OptionalIff(leading, []);
      ThenMatches(Times(One(leading), 0, 1), One(last), [], s);
      assert [] + s == s;
    }
    if |s| == 2 && In(leading, s[0]) && In(last, s[1]) {
      OptionalIff(leading, s[..1]);
      ThenMatches(Times(One(leading), 0, 1), One(last), s[..1], s[1..]);
      assert s[..1] + s[1..] == s;
    }
  }

  lemma OptionalIff(k: Class, s: string)
    ensures Matches(Times(One(k), 0, 1), s) <==> s == [] || (|s| == 1 && In(k, s[0]))
  {
    if Matches(Times(One(k), 0, 1), s) {
      var parts := TimesGives(One(k), 0, 1, s);
      assert parts != [] ==> Matches(One(k), parts[0]) && parts[1..] == [] && s == parts[0];
    } else if |s| == 1 && In(k, s[0]) {
      RepeatsTakes(One(k), 0, 1, [s]);
      assert [s][1..] == [] && Concat([s]) == s;
    }
  }

  lemma SegmentShapeIff(s: string)
    ensures Matches(V4_SEGMENT, s) <==> SegmentShape(s)
  {
    ThreeCharsIff(Only('2'), Only('5'), Range('0', '5'), s);
    ThreeCharsIff(Only('2'), Range('0', '4'), Range('0', '9'), s);
    ThreeCharsIff(Only('1'), Range('0', '9'), Range('0', '9'), s);
    OptionalDigitIff(Range('1', '9'), Range('0', '9'), s);
  }

  function NumberOf(s: string): int {
    if s == [] then 0 else 10 * NumberOf(s[..|s| - 1]) + Value(s[|s| - 1])
  }

  lemma {:induction false} NumberOfDecimal(n: nat)
    ensures NumberOf(Decimal(n)) == n
  {
    if n >= 10 {
      NumberOfDecimal(n / 10);
      var front := Decimal(n / 10);
      assert (front + [DigitChar(n % 10)])[..|front|] == front;
    } else {
      assert Decimal(n)[..0] == [];
    }
  }

  lemma ShortNumbers(s: string)
    requires 1 <= |s| <= 3
    ensures |s| == 1 ==> NumberOf(s) == Value(s[0])
    ensures |s| == 2 ==> NumberOf(s) == 10 * Value(s[0]) + Value(s[1])
    ensures |s| == 3 ==> NumberOf(s) == 100 * Value(s[0]) + 10 * Value(s[1]) + Value(s[2])
  {
    assert s[..|s| - 1][..0] == [];
    if |s| == 2 {
      assert NumberOf(s[..1]) == Value(s[0]);
    } else if |s| == 3 {
      assert s[..2][..1] == s[..1];
      assert NumberOf(s[..1]) == Value(s[0]);
      assert NumberOf(s[..2]) == 10 * Value(s[0]) + Value(s[1]);
    }
  }

  predicate IsOctet(s: string) {
    0 <= NumberOf(s) <= 255 && s == Decimal(NumberOf(s))
  }

  lemma ShapeIsOctet(s: string)
    requires SegmentShape(s)
    ensures IsOctet(s)
  {
    ShortNumbers(s);
    var a, b, c := Value(s[0]), if |s| > 1 then Value(s[1]) else 0, if |s| > 2 then Value(s[2]) else 0;
    DigitsOf(a, b, c);
    DecimalDigits(NumberOf(s));
  }

  lemma DigitsOf(a: nat, b: nat, c: nat)
    requires a < 10 && b < 10 && c < 10
    ensures (10 * a + b) / 10 == a && (10 * a + b) % 10 == b
    ensures (100 * a + 10 * b + c) / 100 == a
    ensures (100 * a + 10 * b + c) / 10 % 10 == b
    ensures (100 * a + 10 * b + c) % 10 == c
  {
    assert (100 * a + 10 * b + c) / 10 == 10 * a + b;
  }

  lemma OctetHasShape(n: nat)
    requires n < 256
    ensures SegmentShape(Decimal(n))
  {
    DecimalDigits(n);
  }

  /** A segment is the canonical decimal of a number up to 255, and every such decimal is one. */
  lemma SegmentIff(s: string)
    ensures Matches(V4_SEGMENT, s) <==> IsOctet(s)
  {
    SegmentShapeIff(s);
    if SegmentShape(s) {
      ShapeIsOctet(s);
    } else if IsOctet(s) {
      OctetHasShape(NumberOf(s));
    }
  }

  function Dotted(a: nat, b: nat, c: nat, d: nat): string {
    Decimal(a) + ['.'] + (Decimal(b) + ['.'] + (Decimal(c) + ['.'] + Decimal(d)))
  }

  ghost predicate IsDottedQuad(s: string) {
    exists a: nat, b: nat, c: nat, d: nat :: a < 256 && b < 256 && c < 256 && d < 256 && s == Dotted(a, b, c, d)
  }

  /** The pattern matches exactly the octets. */
  ghost predicate MatchesOctets(segment: Pattern) {
    forall s :: Matches(segment, s) <==> IsOctet(s)
  }

  lemma OctetOf(n: nat)
    requires n < 256
    ensures IsOctet(Decimal(n))
  {
    NumberOfDecimal(n);
  }

  lemma DottedSegmentGives(segment: Pattern, s: string) returns (n: nat)
    requires MatchesOctets(segment) && Matches(Then(segment, Char('.')), s)
    ensures n < 256 && s == Decimal(n) + ['.']
  {
    var digits, dot := ThenGives(segment, Char('.'), s);
    n := NumberOf(digits);
    assert dot == ['.'];
  }

  lemma DottedSegmentOf(segment: Pattern, n: nat)
    requires MatchesOctets(segment) && n < 256
    ensures Matches(Then(segment, Char('.')), Decimal(n) + ['.'])
  {
    OctetOf(n);
    ThenMatches(segment, Char('.'), Decimal(n), ['.']);
  }

  lemma AcceptedIsDottedQuad(segment: Pattern, s: string)
    requires MatchesOctets(segment) && Matches(Quad(segment), s)
    ensures IsDottedQuad(s)
  {
    var dotted := Then(segment, Char('.'));
    var front, back := ThenGives(Times(dotted, 3, 3), segment, s);
    var parts := TimesGives(dotted, 3, 3, front);
    ConcatThree(parts);
    var a := DottedSegmentGives(segment, parts[0]);
    var b := DottedSegmentGives(segment, parts[1]);
    var c := DottedSegmentGives(segment, parts[2]);
    QuadText(a, b, c, NumberOf(back));
  }

  lemma ConcatThree(parts: seq<string>)
    requires |parts| == 3
    ensures Concat(parts) == parts[0] + parts[1] + parts[2]
  {
    assert parts[1..][1..] == [parts[2]] && [parts[2]][1..] == [];
    assert Concat([parts[2]]) == parts[2];
    assert Concat(parts[1..]) == parts[1] + parts[2];
  }

  lemma QuadText(a: nat, b: nat, c: nat, d: nat)
    ensures (Decimal(a) + ['.']) + (Decimal(b) + ['.']) + (Decimal(c) + ['.']) + Decimal(d) == Dotted(a, b, c, d)
  {
    Regroup(Decimal(a), Decimal(b), Decimal(c), Decimal(d), ['.']);
  }

  lemma Regroup(a: string, b: string, c: string, d: string, dot: string)
    ensures (a + dot) + (b + dot) + (c + dot) + d == a + dot + (b + dot + (c + dot + d))
  {
  }

  lemma DottedQuadIsAccepted(segment: Pattern, a: nat, b: nat, c: nat, d: nat)
    requires MatchesOctets(segment) && a < 256 && b < 256 && c < 256 && d < 256
    ensures Matches(Quad(segment), Dotted(a, b, c, d))
  {
    var dotted := Then(segment, Char('.'));
    var parts := [Decimal(a) + ['.'], Decimal(b) + ['.'], Decimal(c) + ['.']];
    DottedSegmentOf(segment, a);
    DottedSegmentOf(segment, b);
    DottedSegmentOf(segment, c);
    OctetOf(d);
    RepeatsTakes(dotted, 3, 3, parts);
    ConcatThree(parts);
    ThenMatches(Times(dotted, 3, 3), segment, Concat(parts), Decimal(d));
    QuadText(a, b, c, d);
  }

  /** `isIPv4` accepts exactly four canonical decimals from 0 to 255 with dots between them. */
  lemma IsIPv4Iff(s: string)
    ensures IsIPv4(s) <==> IsDottedQuad(s)
  {
    var segment := V4_SEGMENT;
    forall t ensures Matches(segment, t) <==> IsOctet(t) {
      SegmentIff(t);
    }
    QuadIff(segment, s);
  }

  lemma QuadIff(segment: Pattern, s: string)
    requires MatchesOctets(segment)
    ensures Matches(Quad(segment), s) <==> IsDottedQuad(s)
  {
    if Matches(Quad(segment), s) {
      AcceptedIsDottedQuad(segment, s);
    }
    if IsDottedQuad(s) {
      var a: nat, b: nat, c: nat, d: nat :| a < 256 && b < 256 && c < 256 && d < 256 && s == Dotted(a, b, c, d);
      DottedQuadIsAccepted(segment, a, b, c, d);
    }
  }
}
