/** The ranked answer of a similarity search: one list, whatever order the candidates are visited in. */
module Ranking {
  import opened Results
  import opened Text
  import opened Reals
  import opened Search

  datatype Match = Match(id: string, score: real)

  datatype SearchError = QueryRequired | NegativeLimit | DimensionMismatch(id: string)

  /** Higher scores first, equal scores by id. */
  predicate Before(a: Match, b: Match) {
    a.score > b.score || (a.score == b.score && Less(a.id, b.id))
  }

  predicate Sorted(ms: seq<Match>) {
    forall i, j :: 0 <= i < j < |ms| ==> Before(ms[i], ms[j])
  }

  ghost predicate SameDimension(query: seq<real>, candidates: map<string, seq<real>>) {
    forall id :: id in candidates ==> |candidates[id]| == |query|
  }

  /** Every candidate with its score and nothing else, in strictly ranked order. */
  ghost predicate RanksAll(sqrt: real -> real, query: seq<real>, candidates: map<string, seq<real>>, ms: seq<Match>)
    requires IsRoot(sqrt) && SameDimension(query, candidates)
  {
    && Sorted(ms)
    && (forall m :: m in ms <==> m.id in candidates && m.score == Cosine(sqrt, query, candidates[m.id]))
  }

  function Cut(ms: seq<Match>, limit: nat): seq<Match> {
    if 0 < limit < |ms| then ms[..limit] else ms
  }

  ghost predicate IsAnswer(
    sqrt: real -> real, query: seq<real>, candidates: map<string, seq<real>>, limit: nat, answer: seq<Match>)
    requires IsRoot(sqrt) && SameDimension(query, candidates)
  {
    exists full :: RanksAll(sqrt, query, candidates, full) && answer == Cut(full, limit)
  }

  // ---------- The order ----------

  lemma BeforeIsStrict(a: Match, b: Match)
    ensures !(Before(a, b) && Before(b, a)) && !Before(a, a)
    ensures a == b || Before(a, b) || Before(b, a)
  {
    LessTrichotomy(a.id, b.id);
    LessIrreflexive(a.id);
  }

  lemma BeforeTransitive(a: Match, b: Match, c: Match)
    requires Before(a, b) && Before(b, c)
    ensures Before(a, c)
  {
    if a.score == c.score {
      LessTransitive(a.id, b.id, c.id);
    }
  }

  // The head of a ranked list ranks before everything else in any ranked list of the same members.
  lemma SameHead(a: seq<Match>, b: seq<Match>)
    requires Sorted(a) && Sorted(b) && a != [] && b != []
    requires forall m :: m in a <==> m in b
    ensures a[0] == b[0]
  {
    hide Before;
    assert a[0] in b && b[0] in a;
    var i :| 0 <= i < |a| && a[i] == b[0];
    var j :| 0 <= j < |b| && b[j] == a[0];
    BeforeIsStrict(a[0], b[0]);
  }

  lemma {:induction false} RankingUnique(a: seq<Match>, b: seq<Match>)
    requires Sorted(a) && Sorted(b)
    requires forall m :: m in a <==> m in b
    ensures a == b
    decreases |a|
  {
    hide Before;
    HeadIsMember(b);
    if a != [] {
      assert a[0] in b;
      SameHead(a, b);
      forall m
        ensures m in a[1..] <==> m in b[1..]
      {
        TailMembers(a, m);
        TailMembers(b, m);
      }
      RankingUnique(a[1..], b[1..]);
      assert a == [a[0]] + a[1..] && b == [b[0]] + b[1..];
    }
  }

  lemma HeadIsMember(b: seq<Match>)
    ensures b == [] || b[0] in b
  {
  }

  lemma MatchIsItsFields(a: Match, b: Match)
    ensures a.id == b.id && a.score == b.score ==> a == b
  {
  }

  lemma TailMembers(a: seq<Match>, m: Match)
    requires Sorted(a) && a != []
    ensures m in a[1..] <==> m in a && m != a[0]
  {
    hide Before;
    BeforeIsStrict(a[0], a[0]);
    if m in a && m != a[0] {
      var i :| 0 <= i < |a| && a[i] == m;
      assert a[1..][i - 1] == m;
    }
    if m in a[1..] {
      var i :| 0 <= i < |a| - 1 && a[1..][i] == m;
      assert Before(a[0], a[i + 1]);
    }
  }

  /** There is one answer only. */
  lemma AnswerIsUnique(
    sqrt: real -> real, query: seq<real>, candidates: map<string, seq<real>>, limit: nat, a: seq<Match>, b: seq<Match>)
    requires IsRoot(sqrt) && SameDimension(query, candidates)
    requires IsAnswer(sqrt, query, candidates, limit, a) && IsAnswer(sqrt, query, candidates, limit, b)
    ensures a == b
  {
    hide Sorted, IsRoot, Cosine;
    var full :| RanksAll(sqrt, query, candidates, full) && a == Cut(full, limit);
    var full' :| RanksAll(sqrt, query, candidates, full') && b == Cut(full', limit);
    RankingUnique(full, full');
  }

  lemma {:induction false} MembersCount(ms: seq<Match>, ids: set<string>)
    requires forall i, j :: 0 <= i < j < |ms| ==> ms[i].id != ms[j].id
    requires forall id :: id in ids <==> exists i :: 0 <= i < |ms| && ms[i].id == id
    ensures |ms| == |ids|
    decreases |ms|
  {
    if ms == [] {
      assert ids == {};
    } else {
      var last := ms[|ms| - 1];
      var rest := ids - {last.id};
      assert last.id in ids;
      MembersCount(ms[..|ms| - 1], rest);
    }
  }

  /** A complete ranking lists each candidate once. */
  lemma RankingLength(sqrt: real -> real, query: seq<real>, candidates: map<string, seq<real>>, ms: seq<Match>)
    requires IsRoot(sqrt) && SameDimension(query, candidates) && RanksAll(sqrt, query, candidates, ms)
    ensures |ms| == |candidates|
  {
    hide Cosine, Before, IsRoot;
    forall i, j | 0 <= i < j < |ms|
      ensures ms[i].id != ms[j].id
    {
      assert ms[i] in ms && ms[j] in ms;
      BeforeIsStrict(ms[i], ms[j]);
      MatchIsItsFields(ms[i], ms[j]);
    }
    forall id | id in candidates
      ensures exists i :: 0 <= i < |ms| && ms[i].id == id
    {
      var m := Match(id, Cosine(sqrt, query, candidates[id]));
      assert m in ms;
      var i :| 0 <= i < |ms| && ms[i] == m;
    }
    forall i | 0 <= i < |ms|
      ensures ms[i].id in candidates
    {
      assert ms[i] in ms;
    }
    MembersCount(ms, candidates.Keys);
    assert |candidates.Keys| == |candidates|;
  }

  /**
    What the caller learns from an answer: it is ranked, holds all candidates or as many
    as the limit allows, and every candidate left out ranks after every one returned.
   */
  lemma AnswerMeaning(
    sqrt: real -> real, query: seq<real>, candidates: map<string, seq<real>>, limit: nat, answer: seq<Match>, id: string)
    requires IsRoot(sqrt) && SameDimension(query, candidates) && IsAnswer(sqrt, query, candidates, limit, answer)
    requires id in candidates
    ensures Sorted(answer)
    ensures |answer| == if 0 < limit < |candidates| then limit else |candidates|
    ensures var m := Match(id, Cosine(sqrt, query, candidates[id]));
            m in answer || forall k :: 0 <= k < |answer| ==> Before(answer[k], m)
  {
    hide Cosine, Before, IsRoot;
    var full :| RanksAll(sqrt, query, candidates, full) && answer == Cut(full, limit);
    RankingLength(sqrt, query, candidates, full);
    var m := Match(id, Cosine(sqrt, query, candidates[id]));
    assert m in full;
    var i :| 0 <= i < |full| && full[i] == m;
    if i < |answer| {
      assert answer[i] == m;
    }
  }

  // ---------- The search ----------

  // Puts a match behind everything that ranks before it.
  method Insert(sorted: seq<Match>, m: Match) returns (r: seq<Match>)
    requires Sorted(sorted) && m !in sorted
    ensures Sorted(r) && multiset(r) == multiset(sorted) + multiset{m}
  {
    hide Before;
    var k := 0;
    while k < |sorted| && Before(sorted[k], m)
      invariant 0 <= k <= |sorted|
      invariant forall i :: 0 <= i < k ==> Before(sorted[i], m)
    {
      k := k + 1;
    }
    r := sorted[..k] + [m] + sorted[k..];
    forall i | k <= i < |sorted|
      ensures Before(m, sorted[i])
    {
      BeforeIsStrict(m, sorted[k]);
      if i > k {
        BeforeTransitive(m, sorted[k], sorted[i]);
      }
    }
    assert sorted == sorted[..k] + sorted[k..];
  }

  /** sort.Slice with the ranking as its order. */
  method SortMatches(matches: seq<Match>) returns (sorted: seq<Match>)
    requires forall i, j :: 0 <= i < j < |matches| ==> matches[i] != matches[j]
    ensures Sorted(sorted) && multiset(sorted) == multiset(matches)
  {
    sorted := [];
    for i := 0 to |matches|
      invariant Sorted(sorted) && multiset(sorted) == multiset(matches[..i])
    {
      assert matches[..i + 1] == matches[..i] + [matches[i]];
      assert matches[i] !in multiset(matches[..i]);
      sorted := Insert(sorted, matches[i]);
    }
    assert matches[..|matches|] == matches;
  }

  lemma SameBagSameMembers(a: seq<Match>, b: seq<Match>)
    requires multiset(a) == multiset(b)
    ensures forall m :: m in a <==> m in b
  {
    forall m
      ensures m in a <==> m in b
    {
      assert m in a <==> m in multiset(a);
    }
  }

  /**
    SearchByVector: visits the candidates in any order, ranks them, and cuts to the limit
    (0 means no limit). It refuses exactly an empty query, a negative limit, or a
    candidate of another dimension.
   */
  method SearchByVector(sqrt: real -> real, query: seq<real>, candidates: map<string, seq<real>>, limit: int)
    returns (r: Result<seq<Match>, SearchError>)
    requires IsRoot(sqrt)
    ensures r.Ok? <==> query != [] && limit >= 0 && SameDimension(query, candidates)
    ensures r.Ok? ==> IsAnswer(sqrt, query, candidates, limit, r.value)
    ensures r.Err? ==>
              match r.error
              case QueryRequired => query == []
              case NegativeLimit => limit < 0
              case DimensionMismatch(id) => id in candidates && |candidates[id]| != |query|
  {
    hide Cosine, Before, IsRoot;
    if query == [] {
      return Err(QueryRequired);
    }
    if limit < 0 {
      return Err(NegativeLimit);
    }
    var matches: seq<Match> := [];
    var rest := candidates.Keys;
    while rest != {}
      invariant rest <= candidates.Keys
      invariant forall id :: id in candidates && id !in rest ==> |candidates[id]| == |query|
      invariant forall m :: m in matches <==>
                  m.id in candidates && m.id !in rest && m.score == Cosine(sqrt, query, candidates[m.id])
      invariant forall i, j :: 0 <= i < j < |matches| ==> matches[i].id != matches[j].id
    {
      var id :| id in rest;
      if |candidates[id]| != |query| {
        return Err(DimensionMismatch(id));
      }
      var score := CosineSimilarity(sqrt, query, candidates[id]);
      forall i | 0 <= i < |matches|
        ensures matches[i].id != id
      {
        assert matches[i] in matches;
      }
      matches := matches + [Match(id, score)];
      rest := rest - {id};
    }
    var sorted := SortMatches(matches);
    SameBagSameMembers(sorted, matches);
    assert RanksAll(sqrt, query, candidates, sorted);
    if limit > 0 && |sorted| > limit {
      return Ok(sorted[..limit]);
    }
    return Ok(sorted);
  }
}
