/** Anchored regular expressions as far as the address patterns need them, by the strings they match. */
module Patterns {
  datatype Class = Only(c: char) | Range(lo: char, hi: char) | Hex | Alphanumeric

  predicate In(k: Class, c: char) {
    match k
    case Only(d) => c == d
    case Range(lo, hi) => lo <= c <= hi
    case Hex => '0' <= c <= '9' || 'a' <= c <= 'f' || 'A' <= c <= 'F'
    case Alphanumeric => '0' <= c <= '9' || 'a' <= c <= 'z' || 'A' <= c <= 'Z'
  }

  /** `Times` is `{lo,hi}`, `Many` is `{1,}` of a character class. */
  datatype Pattern =
    | One(k: Class)
    | Then(first: Pattern, second: Pattern)
    | Or(left: Pattern, right: Pattern)
    | Times(body: Pattern, lo: nat, hi: nat)
    | Many(k: Class)

  ghost predicate Matches(p: Pattern, s: string)
    decreases p, 0
  {
    match p
    case One(k) => |s| == 1 && In(k, s[0])
    case Then(first, second) => exists i :: 0 <= i <= |s| && Matches(first, s[..i]) && Matches(second, s[i..])
    case Or(left, right) => Matches(left, s) || Matches(right, s)
    case Times(body, lo, hi) => Repeats(body, lo, hi, s)
    case Many(k) => s != [] && forall i :: 0 <= i < |s| ==> In(k, s[i])
  }

  ghost predicate Repeats(body: Pattern, lo: nat, hi: nat, s: string)
    decreases body, 1, hi
  {
    || (lo == 0 && s == [])
    || (hi > 0
        && exists i :: 0 <= i <= |s| && Matches(body, s[..i])
                       && Repeats(body, if lo == 0 then 0 else lo - 1, hi - 1, s[i..]))
  }

  lemma ThenMatches(first: Pattern, second: Pattern, a: string, b: string)
    requires Matches(first, a) && Matches(second, b)
    ensures Matches(Then(first, second), a + b)
  {
    assert (a + b)[..|a|] == a && (a + b)[|a|..] == b;
  }

  lemma ThenGives(first: Pattern, second: Pattern, s: string) returns (a: string, b: string)
    requires Matches(Then(first, second), s)
    ensures s == a + b && Matches(first, a) && Matches(second, b)
  {
    var i :| 0 <= i <= |s| && Matches(first, s[..i]) && Matches(second, s[i..]);
    a, b := s[..i], s[i..];
  }

  /** One character and then the rest. */
  lemma OneThenIff(k: Class, second: Pattern, s: string)
    ensures Matches(Then(One(k), second), s) <==> s != [] && In(k, s[0]) && Matches(second, s[1..])
  {
    if s != [] && In(k, s[0]) && Matches(second, s[1..]) {
      assert s[..1] == [s[0]];
      ThenMatches(One(k), second, s[..1], s[1..]);
      assert s[..1] + s[1..] == s;
    }
  }

  /** The parts of a repetition, one after another. */
  function Concat(parts: seq<string>): string {
    if parts == [] then [] else parts[0] + Concat(parts[1..])
  }

  ghost predicate AllMatch(body: Pattern, parts: seq<string>) {
    forall i :: 0 <= i < |parts| ==> Matches(body, parts[i])
  }

  lemma {:induction false} RepeatsGives(body: Pattern, lo: nat, hi: nat, s: string) returns (parts: seq<string>)
    requires Repeats(body, lo, hi, s) && lo <= hi
    ensures lo <= |parts| <= hi && AllMatch(body, parts) && s == Concat(parts)
    decreases hi
  {
    if lo == 0 && s == [] {
      parts := [];
    } else {
      var i :| 0 <= i <= |s| && Matches(body, s[..i]) && Repeats(body, if lo == 0 then 0 else lo - 1, hi - 1, s[i..]);
      var front, back := s[..i], s[i..];
      assert s == front + back;
      var rest := RepeatsGives(body, if lo == 0 then 0 else lo - 1, hi - 1, back);
      parts := [front] + rest;
      assert parts[1..] == rest;
    }
  }

  lemma TimesGives(body: Pattern, lo: nat, hi: nat, s: string) returns (parts: seq<string>)
    requires Matches(Times(body, lo, hi), s) && lo <= hi
    ensures lo <= |parts| <= hi && AllMatch(body, parts) && s == Concat(parts)
  {
    parts := RepeatsGives(body, lo, hi, s);
  }

  lemma {:induction false} RepeatsTakes(body: Pattern, lo: nat, hi: nat, parts: seq<string>)
    requires lo <= |parts| <= hi && AllMatch(body, parts)
    ensures Repeats(body, lo, hi, Concat(parts))
    decreases hi
  {
    if parts != [] {
      RepeatsTakes(body, if lo == 0 then 0 else lo - 1, hi - 1, parts[1..]);
      var s := Concat(parts);
      assert s[..|parts[0]|] == parts[0] && s[|parts[0]|..] == Concat(parts[1..]);
    }
  }
}
