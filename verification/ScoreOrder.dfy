/** Members in the order of their scores, as a sorted set lists them. */
module ScoreOrder {
  predicate EachOnce(members: seq<string>) {
    forall i, j :: 0 <= i < j < |members| ==> members[i] != members[j]
  }

  predicate InScoreOrder(scores: map<string, int>, members: seq<string>) {
    && (forall i :: 0 <= i < |members| ==> members[i] in scores)
    && (forall i, j :: 0 <= i < j < |members| ==> scores[members[i]] <= scores[members[j]])
  }

  /** In front of the first member with no lower score. */
  function InsertByScore(scores: map<string, int>, members: seq<string>, m: string): seq<string>
    requires m in scores && forall i :: 0 <= i < |members| ==> members[i] in scores
  {
    if members == [] || scores[m] <= scores[members[0]] then [m] + members
    else [members[0]] + InsertByScore(scores, members[1..], m)
  }

  lemma {:induction false} InsertKeepsOrder(scores: map<string, int>, members: seq<string>, m: string)
    requires m in scores && m !in members && EachOnce(members) && InScoreOrder(scores, members)
    ensures var after := InsertByScore(scores, members, m);
            && (forall k :: k in after <==> k == m || k in members)
            && EachOnce(after) && InScoreOrder(scores, after)
  {
    if members != [] && scores[m] > scores[members[0]] {
      var rest := InsertByScore(scores, members[1..], m);
      InsertKeepsOrder(scores, members[1..], m);
      assert forall k :: k in members <==> k == members[0] || k in members[1..];
      forall i | 0 <= i < |rest| ensures rest[i] != members[0] && scores[members[0]] <= scores[rest[i]] {
        assert rest[i] in rest;
      }
    }
  }
}
