/**
 * Graph-aware reranking of search candidates (src/search/rerank.ts), and how
 * they are merged from the retrievers (src/index.ts).
 */
module Ranking {
  import opened Wrappers
  import opened Sorting

  /** A fact as search sees it; uuids are ordered, and one uuid names one fact. */
  datatype Edge = Edge(uuid: int, source: int, target: int, createdAt: int)

  datatype Candidate = Candidate(edge: Edge, keywordRank: Option<nat>, vectorRank: Option<nat>, cosine: Option<real>)

  datatype Scored = Scored(edge: Edge, score: real)

  const RRF_K := 60

  /** By graph distance, 0 and 1. */
  const PROXIMITY_BONUS := [0.125 / (RRF_K + 1) as real, 0.0625 / (RRF_K + 1) as real]

  /* ---------- the order of results ---------- */

  /** By learning date, newest in front; the uuid decides between equals. */
  predicate NewestFirst(a: Edge, b: Edge) {
    a.createdAt > b.createdAt || (a.createdAt == b.createdAt && a.uuid < b.uuid)
  }

  predicate BestFirst(a: Scored, b: Scored) {
    a.score > b.score || (a.score == b.score && NewestFirst(a.edge, b.edge))
  }

  /* ---------- reranking ---------- */

  function Bonus(distance: map<int, nat>, uuid: int): real {
    if uuid in distance && distance[uuid] < |PROXIMITY_BONUS| then PROXIMITY_BONUS[distance[uuid]] else 0.0
  }

  /** What a place in a ranking adds. */
  function PlaceScore(rank: Option<nat>): real {
    if rank.GetOr(0) == 0 then 0.0 else 1.0 / (RRF_K + rank.value) as real
  }

  /** Nothing ties the candidate to the query: neither ranking by words nor the graph, nor a close enough vector. */
  predicate Dropped(c: Candidate, bonus: real, minCosine: real) {
    c.keywordRank.GetOr(0) == 0 && bonus == 0.0 && !(c.cosine.GetOr(-1.0) >= minCosine)
  }

  function ScoreOf(c: Candidate, distance: map<int, nat>): Scored {
    Scored(c.edge, PlaceScore(c.keywordRank) + PlaceScore(c.vectorRank) + Bonus(distance, c.edge.uuid))
  }

  function Kept(candidates: seq<Candidate>, distance: map<int, nat>, minCosine: real): (r: seq<Scored>)
    ensures |r| <= |candidates|
    ensures forall x :: x in r <==> exists c :: c in candidates && !Dropped(c, Bonus(distance, c.edge.uuid), minCosine)
                                                && ScoreOf(c, distance) == x
  {
    if candidates == [] then []
    else
      var rest, c := candidates[..|candidates| - 1], candidates[|candidates| - 1];
      assert candidates == rest + [c];
      Kept(rest, distance, minCosine)
      + if Dropped(c, Bonus(distance, c.edge.uuid), minCosine) then [] else [ScoreOf(c, distance)]
  }

  function Reranked(candidates: seq<Candidate>, distance: map<int, nat>, limit: nat, minCosine: real): seq<Scored> {
    Take(Sort(BestFirst, Kept(candidates, distance, minCosine)), limit)
  }

  method Rerank(candidates: seq<Candidate>, distance: map<int, nat>, limit: nat, minCosine: real)
    returns (r: seq<Scored>)
    ensures r == Reranked(candidates, distance, limit, minCosine)
  {
    var scored: seq<Scored> := [];
    for i := 0 to |candidates|
      invariant scored == Kept(candidates[..i], distance, minCosine)
    {
      assert candidates[..i + 1][..i] == candidates[..i];
      var c := candidates[i];
      var bonus := Bonus(distance, c.edge.uuid);
      if Dropped(c, bonus, minCosine) {
        continue;
      }
      var score := PlaceScore(c.keywordRank) + PlaceScore(c.vectorRank) + bonus;
      scored := scored + [Scored(c.edge, score)];
    }
    assert candidates[..|candidates|] == candidates;
    return Take(Sort(BestFirst, scored), limit);
  }

  /**
   * Exactly what passes the cut: a candidate with a keyword hit, or that
   * touches a named entity or a neighbour of one, or that is close enough.
   */
  lemma PassesIff(c: Candidate, distance: map<int, nat>, minCosine: real)
    ensures !Dropped(c, Bonus(distance, c.edge.uuid), minCosine)
            <==> || (c.keywordRank.Some? && c.keywordRank.value > 0)
                 || (c.edge.uuid in distance && distance[c.edge.uuid] <= 1)
                 || (if c.cosine.Some? then c.cosine.value >= minCosine else -1.0 >= minCosine)
  {
  }

  /** The score in figures: the k-th place in a ranking adds 1/(60+k), an eighth of first place for a named entity's fact, half that for a neighbour's. */
  lemma ScoreIs(c: Candidate, distance: map<int, nat>)
    ensures var byText := if c.keywordRank.Some? && c.keywordRank.value > 0 then 1.0 / (60 + c.keywordRank.value) as real else 0.0;
            var byVector := if c.vectorRank.Some? && c.vectorRank.value > 0 then 1.0 / (60 + c.vectorRank.value) as real else 0.0;
            var near := c.edge.uuid in distance;
            ScoreOf(c, distance) == Scored(c.edge,
              byText + byVector + if near && distance[c.edge.uuid] == 0 then 0.125 / 61.0
                                  else if near && distance[c.edge.uuid] == 1 then 0.0625 / 61.0 else 0.0)
  {
  }

  /* ---------- the result does not depend on the candidates' order ---------- */

  /** No two candidates are of one fact. */
  predicate DistinctFacts(candidates: seq<Candidate>) {
    forall i, j | 0 <= i < j < |candidates| :: candidates[i].edge.uuid != candidates[j].edge.uuid
  }

  predicate DistinctScored(r: seq<Scored>) {
    forall i, j | 0 <= i < j < |r| :: r[i].edge.uuid != r[j].edge.uuid
  }

  lemma BestFirstIsStrict()
    ensures StrictOrder(BestFirst) && StrictOrder(NewestFirst)
  {
  }

  lemma {:induction false} KeptAreDistinct(candidates: seq<Candidate>, distance: map<int, nat>, minCosine: real)
    requires DistinctFacts(candidates)
    ensures DistinctScored(Kept(candidates, distance, minCosine))
  {
    if candidates != [] {
      var rest, c := candidates[..|candidates| - 1], candidates[|candidates| - 1];
      KeptAreDistinct(rest, distance, minCosine);
      var r := Kept(rest, distance, minCosine);
      forall i | 0 <= i < |r|
        ensures r[i].edge.uuid != c.edge.uuid
      {
        assert r[i] in r;
        var d :| d in rest && ScoreOf(d, distance) == r[i];
        var k :| 0 <= k < |rest| && rest[k] == d;
        assert candidates[k] == d;
      }
      var all := Kept(candidates, distance, minCosine);
      assert all == r || all == r + [ScoreOf(c, distance)];
      forall i, j | 0 <= i < j < |all|
        ensures all[i].edge.uuid != all[j].edge.uuid
      {
        assert all[i] == r[i];
        if j < |r| {
          assert all[j] == r[j];
        }
      }
    }
  }

  lemma KeptAreRanked(candidates: seq<Candidate>, distance: map<int, nat>, minCosine: real)
    requires DistinctFacts(candidates)
    ensures Ranked(BestFirst, Sort(BestFirst, Kept(candidates, distance, minCosine)))
  {
    KeptAreDistinct(candidates, distance, minCosine);
    BestFirstIsStrict();
    var all := Kept(candidates, distance, minCosine);
    forall i, j | 0 <= i < j < |all|
      ensures BestFirst(all[i], all[j]) || BestFirst(all[j], all[i])
    {
      assert all[i].edge.uuid != all[j].edge.uuid;
    }
    SortRanks(BestFirst, all);
  }

  /** The same candidates, in any order, give the same list. */
  lemma OrderDoesNotMatter(one: seq<Candidate>, other: seq<Candidate>, distance: map<int, nat>, limit: nat, minCosine: real)
    requires DistinctFacts(one) && DistinctFacts(other)
    requires forall c :: c in one <==> c in other
    ensures Reranked(one, distance, limit, minCosine) == Reranked(other, distance, limit, minCosine)
  {
    KeptAreRanked(one, distance, minCosine);
    KeptAreRanked(other, distance, minCosine);
    BestFirstIsStrict();
    RankedIsUnique(BestFirst, Sort(BestFirst, Kept(one, distance, minCosine)), Sort(BestFirst, Kept(other, distance, minCosine)));
  }

  /**
   * The list is the best of what passes the cut, best first: a candidate that
   * passes and is not in it comes after everything that is, and the list is full.
   */
  lemma RerankIsTheTop(candidates: seq<Candidate>, distance: map<int, nat>, limit: nat, minCosine: real, c: Candidate)
    requires DistinctFacts(candidates) && c in candidates && !Dropped(c, Bonus(distance, c.edge.uuid), minCosine)
    ensures var r := Reranked(candidates, distance, limit, minCosine);
            && Ranked(BestFirst, r) && |r| <= limit
            && (ScoreOf(c, distance) in r
                || (|r| == limit && forall x | x in r :: BestFirst(x, ScoreOf(c, distance))))
  {
    KeptAreRanked(candidates, distance, minCosine);
    var all := Sort(BestFirst, Kept(candidates, distance, minCosine));
    assert ScoreOf(c, distance) in all;
    var k :| 0 <= k < |all| && all[k] == ScoreOf(c, distance);
    var r := Take(all, limit);
    if k < limit {
      assert r[k] == all[k];
    } else {
      forall x | x in r
        ensures BestFirst(x, all[k])
      {
        var j :| 0 <= j < |r| && r[j] == x;
        assert all[j] == x;
      }
    }
  }

  /** The order of the list: by score, then the fact learned last, then by uuid. */
  lemma RerankOrder(candidates: seq<Candidate>, distance: map<int, nat>, limit: nat, minCosine: real, i: nat, j: nat)
    requires DistinctFacts(candidates) && i < j < |Reranked(candidates, distance, limit, minCosine)|
    ensures var r := Reranked(candidates, distance, limit, minCosine);
            && r[i].score >= r[j].score
            && (r[i].score == r[j].score ==>
                  && r[i].edge.createdAt >= r[j].edge.createdAt
                  && (r[i].edge.createdAt == r[j].edge.createdAt ==> r[i].edge.uuid < r[j].edge.uuid))
  {
    KeptAreRanked(candidates, distance, minCosine);
    var all := Sort(BestFirst, Kept(candidates, distance, minCosine));
    assert BestFirst(all[i], all[j]);
  }

  /** Where the limit leaves room for all, a candidate that passes has its own score and no other. */
  lemma RoomForAll(candidates: seq<Candidate>, distance: map<int, nat>, limit: nat, minCosine: real, c: Candidate)
    requires DistinctFacts(candidates) && c in candidates && !Dropped(c, Bonus(distance, c.edge.uuid), minCosine)
    requires |candidates| <= limit
    ensures ScoreOf(c, distance) in Reranked(candidates, distance, limit, minCosine)
    ensures forall x | x in Reranked(candidates, distance, limit, minCosine) && x.edge == c.edge :: x == ScoreOf(c, distance)
  {
    var kept := Kept(candidates, distance, minCosine);
    var r := Reranked(candidates, distance, limit, minCosine);
    assert r == Sort(BestFirst, kept);
    assert ScoreOf(c, distance) in kept;
    forall x | x in r && x.edge == c.edge
      ensures x == ScoreOf(c, distance)
    {
      KeptHasOwnScore(candidates, distance, minCosine, c, x);
    }
  }

  lemma KeptHasOwnScore(candidates: seq<Candidate>, distance: map<int, nat>, minCosine: real, c: Candidate, x: Scored)
    requires DistinctFacts(candidates) && c in candidates && x in Kept(candidates, distance, minCosine) && x.edge == c.edge
    ensures x == ScoreOf(c, distance)
  {
    var d := KeptFrom(candidates, distance, minCosine, x);
    assert d.edge == c.edge;
    OneCandidatePerFact(candidates, c, d);
  }

  lemma KeptFrom(candidates: seq<Candidate>, distance: map<int, nat>, minCosine: real, x: Scored) returns (d: Candidate)
    requires x in Kept(candidates, distance, minCosine)
    ensures d in candidates && ScoreOf(d, distance) == x
  {
    d :| d in candidates && !Dropped(d, Bonus(distance, d.edge.uuid), minCosine) && ScoreOf(d, distance) == x;
  }

  lemma OneCandidatePerFact(candidates: seq<Candidate>, c: Candidate, d: Candidate)
    requires DistinctFacts(candidates) && c in candidates && d in candidates && c.edge == d.edge
    ensures c == d
  {
    var i :| 0 <= i < |candidates| && candidates[i] == c;
    var j :| 0 <= j < |candidates| && candidates[j] == d;
    assert i == j;
  }

  /* ---------- merging what the retrievers found ---------- */

  /** One uuid names one fact. */
  predicate OneFactPerUuid(edges: seq<Edge>) {
    forall e, f | e in edges && f in edges :: e.uuid == f.uuid ==> e == f
  }

  predicate Holds(edges: seq<Edge>, uuid: int) {
    exists f :: f in edges && f.uuid == uuid
  }

  predicate DistinctUuids(edges: seq<Edge>) {
    forall i, j | 0 <= i < j < |edges| :: edges[i].uuid != edges[j].uuid
  }

  /** The list without later facts of a uuid it already holds. */
  function Unique(edges: seq<Edge>): seq<Edge> {
    if edges == [] then []
    else
      var r, last := Unique(edges[..|edges| - 1]), edges[|edges| - 1];
      if Holds(r, last.uuid) then r else r + [last]
  }

  lemma {:induction false} UniqueIsDistinct(edges: seq<Edge>)
    ensures DistinctUuids(Unique(edges))
  {
    if edges != [] {
      UniqueIsDistinct(edges[..|edges| - 1]);
    }
  }

  lemma {:induction false} UniqueHolds(edges: seq<Edge>, uuid: int)
    ensures Holds(Unique(edges), uuid) <==> Holds(edges, uuid)
  {
    if edges != [] {
      var rest, last := edges[..|edges| - 1], edges[|edges| - 1];
      assert edges == rest + [last];
      UniqueHolds(rest, uuid);
      assert Holds(edges, uuid) <==> Holds(rest, uuid) || last.uuid == uuid;
      if Holds(Unique(rest), last.uuid) {
        assert uuid == last.uuid ==> Holds(Unique(rest), uuid);
      } else {
        var r := Unique(rest);
        assert Holds(r + [last], uuid) <==> Holds(r, uuid) || last.uuid == uuid;
      }
    }
  }

  lemma {:induction false} UniqueIsFrom(edges: seq<Edge>, f: Edge)
    requires f in Unique(edges)
    ensures f in edges
  {
    var rest, last := edges[..|edges| - 1], edges[|edges| - 1];
    if f in Unique(rest) {
      UniqueIsFrom(rest, f);
    }
  }

  /** Where one uuid names one fact, nothing is lost. */
  lemma UniqueKeepsAll(edges: seq<Edge>, f: Edge)
    requires OneFactPerUuid(edges)
    ensures f in Unique(edges) <==> f in edges
  {
    if f in Unique(edges) {
      UniqueIsFrom(edges, f);
    }
    if f in edges {
      UniqueHolds(edges, f.uuid);
      var g :| g in Unique(edges) && g.uuid == f.uuid;
      UniqueIsFrom(edges, g);
    }
  }

  /** The 1-based place of a fact in a ranking. */
  function PlaceIn(ranking: seq<Edge>, uuid: int): (place: Option<nat>)
    ensures place.Some? ==> 1 <= place.value <= |ranking| && ranking[place.value - 1].uuid == uuid
    ensures place.None? ==> forall i | 0 <= i < |ranking| :: ranking[i].uuid != uuid
  {
    if ranking == [] then None
    else if ranking[|ranking| - 1].uuid == uuid then Some(|ranking|)
    else PlaceIn(ranking[..|ranking| - 1], uuid)
  }

  function CandidateOf(e: Edge, byText: seq<Edge>, byVector: seq<Edge>, cosine: map<int, real>): Candidate {
    Candidate(e, PlaceIn(byText, e.uuid), PlaceIn(byVector, e.uuid),
              if e.uuid in cosine then Some(cosine[e.uuid]) else None)
  }

  /** What reranking is given: the distinct facts that were found, each looked up in both rankings. */
  function MergeCandidates(byText: seq<Edge>, byVector: seq<Edge>, others: seq<Edge>, cosine: map<int, real>): seq<Candidate> {
    var found := Unique(byText + byVector + others);
    seq(|found|, i requires 0 <= i < |found| => CandidateOf(found[i], byText, byVector, cosine))
  }

  lemma MergedAreDistinct(byText: seq<Edge>, byVector: seq<Edge>, others: seq<Edge>, cosine: map<int, real>)
    ensures DistinctFacts(MergeCandidates(byText, byVector, others, cosine))
  {
    UniqueIsDistinct(byText + byVector + others);
  }

  /** The candidates are exactly the facts that some retriever found, each with its own places. */
  lemma MergedAre(byText: seq<Edge>, byVector: seq<Edge>, others: seq<Edge>, cosine: map<int, real>, c: Candidate)
    requires OneFactPerUuid(byText + byVector + others)
    ensures c in MergeCandidates(byText, byVector, others, cosine)
            <==> c.edge in byText + byVector + others && c == CandidateOf(c.edge, byText, byVector, cosine)
  {
    var found, merged := Unique(byText + byVector + others), MergeCandidates(byText, byVector, others, cosine);
    UniqueKeepsAll(byText + byVector + others, c.edge);
    if c.edge in found && c == CandidateOf(c.edge, byText, byVector, cosine) {
      var i :| 0 <= i < |found| && found[i] == c.edge;
      assert merged[i] == c;
    }
    if c in merged {
      var i :| 0 <= i < |merged| && merged[i] == c;
      assert found[i] == c.edge;
    }
  }

  /** Once both rankings are fixed, whatever else was found may be merged in any order. */
  lemma MergeOrderDoesNotMatter(byText: seq<Edge>, byVector: seq<Edge>, others: seq<Edge>, again: seq<Edge>,
                                cosine: map<int, real>, distance: map<int, nat>, limit: nat, minCosine: real)
    requires OneFactPerUuid(byText + byVector + others) && forall e :: e in others <==> e in again
    ensures Reranked(MergeCandidates(byText, byVector, others, cosine), distance, limit, minCosine)
            == Reranked(MergeCandidates(byText, byVector, again, cosine), distance, limit, minCosine)
  {
    var one, other := MergeCandidates(byText, byVector, others, cosine), MergeCandidates(byText, byVector, again, cosine);
    MergedAreDistinct(byText, byVector, others, cosine);
    MergedAreDistinct(byText, byVector, again, cosine);
    forall c
      ensures c in one <==> c in other
    {
      MergedAre(byText, byVector, others, cosine, c);
      MergedAre(byText, byVector, again, cosine, c);
    }
    OrderDoesNotMatter(one, other, distance, limit, minCosine);
  }

  /**
   * How far the bonus lifts a fact that touches a named entity over one that
   * is first and touches none: from ninth place in one ranking, and from fifth
   * in both, but no further.
   */
  lemma BonusReach(k: nat)
    requires k > 0
    ensures PlaceScore(Some(k)) + PROXIMITY_BONUS[0] > PlaceScore(Some(1)) <==> k <= 9
    ensures 2.0 * PlaceScore(Some(k)) + PROXIMITY_BONUS[0] > 2.0 * PlaceScore(Some(1)) <==> k <= 5
  {
    var place := PlaceScore(Some(k));
    if k <= 9 {
      Reciprocal(69.0, (RRF_K + k) as real);
      assert place >= 1.0 / 69.0;
    } else {
      Reciprocal((RRF_K + k) as real, 70.0);
      assert place <= 1.0 / 70.0;
    }
    if k <= 5 {
      Reciprocal(65.0, (RRF_K + k) as real);
      assert place >= 1.0 / 65.0;
    } else {
      Reciprocal((RRF_K + k) as real, 66.0);
      assert place <= 1.0 / 66.0;
    }
  }

  lemma Reciprocal(x: real, y: real)
    requires 0.0 < y <= x
    ensures 1.0 / x <= 1.0 / y
  {
    var p, q := 1.0 / x, 1.0 / y;
    assert p * x == 1.0 && q * y == 1.0;
    assert p > q ==> p * y > q * y;
    assert p > 0.0 && p * y <= p * x;
  }
}
