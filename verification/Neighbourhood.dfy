/**
 * The graph neighbourhood of the entities a query names: a capped database
 * query against the whole visible graph (src/index.ts, src/search/rerank.ts).
 */
module Neighbourhoods {
  import opened Wrappers
  import opened Sorting
  import opened Ranking

  const MAX_NEIGHBOURHOOD_FACTS := 200

  predicate Touches(f: Edge, ids: set<int>) {
    f.source in ids || f.target in ids
  }

  /* ---------- what the database answers ---------- */

  function Touching(facts: seq<Edge>, ids: set<int>): (r: seq<Edge>)
    ensures forall f :: f in r <==> f in facts && Touches(f, ids)
  {
    if facts == [] then []
    else
      var rest, last := facts[..|facts| - 1], facts[|facts| - 1];
      assert facts == rest + [last];
      Touching(rest, ids) + if Touches(last, ids) then [last] else []
  }

  /** Every visible fact touching the entities, the most recently learned first. */
  function NewestTouching(facts: seq<Edge>, ids: set<int>): (r: seq<Edge>)
    ensures forall f :: f in r <==> f in facts && Touches(f, ids)
  {
    Sort(NewestFirst, Touching(facts, ids))
  }

  function SearchFactsByEntities(facts: seq<Edge>, ids: set<int>, limit: nat): seq<Edge> {
    Take(NewestTouching(facts, ids), limit)
  }

  function GetNeighbourIds(facts: seq<Edge>, ids: set<int>): set<int> {
    set f | f in facts && Touches(f, ids) :: if f.source in ids then f.target else f.source
  }

  /* ---------- the neighbours ---------- */

  /** A visible fact links the entity, which is not one of the anchors, to an anchor. */
  ghost predicate IsNeighbour(anchors: set<int>, facts: seq<Edge>, x: int) {
    && x !in anchors
    && exists f :: f in facts && ((f.source in anchors && f.target == x) || (f.target in anchors && f.source == x))
  }

  method NeighboursOf(anchors: set<int>, facts: seq<Edge>) returns (neighbours: set<int>)
    ensures forall x :: x in neighbours <==> IsNeighbour(anchors, facts, x)
  {
    neighbours := {};
    for i := 0 to |facts|
      invariant forall x :: x in neighbours <==> IsNeighbour(anchors, facts[..i], x)
    {
      assert facts[..i + 1] == facts[..i] + [facts[i]];
      var f := facts[i];
      var fromSource, fromTarget := f.source in anchors, f.target in anchors;
      if fromSource && !fromTarget {
        neighbours := neighbours + {f.target};
      }
      if fromTarget && !fromSource {
        neighbours := neighbours + {f.source};
      }
    }
    assert facts[..|facts|] == facts;
  }

  lemma NeighbourIdsAreNeighbours(anchors: set<int>, facts: seq<Edge>, x: int)
    ensures x in GetNeighbourIds(facts, anchors) - anchors <==> IsNeighbour(anchors, facts, x)
  {
  }

  /** The facts touching an anchor are all it takes to know the neighbours. */
  lemma TouchingIsEnough(anchors: set<int>, facts: seq<Edge>, x: int)
    ensures IsNeighbour(anchors, NewestTouching(facts, anchors), x) <==> IsNeighbour(anchors, facts, x)
  {
  }

  /* ---------- the second hop ---------- */

  function Unseen(facts: seq<Edge>, seen: set<int>): (r: seq<Edge>)
    ensures |r| <= |facts|
  {
    if facts == [] then []
    else
      var last := facts[|facts| - 1];
      Unseen(facts[..|facts| - 1], seen) + if last.uuid in seen then [] else [last]
  }

  function Uuids(facts: seq<Edge>): set<int> {
    set f | f in facts :: f.uuid
  }

  lemma {:induction false} UnseenOfBoth(a: seq<Edge>, b: seq<Edge>, seen: set<int>)
    ensures Unseen(a + b, seen) == Unseen(a, seen) + Unseen(b, seen)
  {
    if b == [] {
      assert a + b == a;
    } else {
      assert (a + b)[..|a + b| - 1] == a + b[..|b| - 1];
      UnseenOfBoth(a, b[..|b| - 1], seen);
    }
  }

  lemma UuidsOfOneMore(facts: seq<Edge>, last: Edge)
    requires DistinctUuids(facts + [last])
    ensures last.uuid !in Uuids(facts) && Uuids(facts + [last]) == Uuids(facts) + {last.uuid}
  {
    forall f | f in facts
      ensures f.uuid != last.uuid
    {
      var i :| 0 <= i < |facts| && facts[i] == f;
      assert (facts + [last])[i] == f && (facts + [last])[|facts|] == last;
    }
    assert forall f | f in facts :: f in facts + [last];
    assert last in facts + [last];
  }

  lemma OneMoreCommon(a: set<int>, x: int, seen: set<int>)
    requires x !in a
    ensures |(a + {x}) * seen| == |a * seen| + if x in seen then 1 else 0
  {
    if x in seen {
      assert (a + {x}) * seen == a * seen + {x};
    } else {
      assert (a + {x}) * seen == a * seen;
    }
  }

  lemma {:induction false} UnseenCount(facts: seq<Edge>, seen: set<int>)
    requires DistinctUuids(facts)
    ensures |Unseen(facts, seen)| + |Uuids(facts) * seen| == |facts|
  {
    if facts != [] {
      var rest, last := facts[..|facts| - 1], facts[|facts| - 1];
      UnseenCount(rest, seen);
      assert facts == rest + [last];
      UuidsOfOneMore(rest, last);
      OneMoreCommon(Uuids(rest), last.uuid, seen);
    }
  }

  lemma SmallerSet(a: set<int>, b: set<int>)
    requires a <= b
    ensures |a| <= |b|
  {
    assert b == a + (b - a);
  }

  /** Asking for as many more as were seen leaves, once those are skipped, the first `room` unseen facts of the whole list. */
  lemma CutThenSkip(facts: seq<Edge>, seen: set<int>, room: nat)
    requires DistinctUuids(facts)
    ensures Take(Unseen(Take(facts, room + |seen|), seen), room) == Take(Unseen(facts, seen), room)
  {
    var n := room + |seen|;
    if n < |facts| {
      var head, tail := facts[..n], facts[n..];
      assert facts == head + tail;
      UnseenOfBoth(head, tail, seen);
      UnseenCount(head, seen);
      SmallerSet(Uuids(head) * seen, seen);
      assert |Unseen(head, seen)| >= room;
    }
  }

  lemma DistinctIsOnePerUuid(facts: seq<Edge>)
    requires DistinctUuids(facts)
    ensures OneFactPerUuid(facts)
  {
    forall e, f | e in facts && f in facts && e.uuid == f.uuid
      ensures e == f
    {
      var i :| 0 <= i < |facts| && facts[i] == e;
      var j :| 0 <= j < |facts| && facts[j] == f;
      assert i == j;
    }
  }

  lemma {:induction false} TouchingIsDistinct(facts: seq<Edge>, ids: set<int>)
    requires DistinctUuids(facts)
    ensures DistinctUuids(Touching(facts, ids))
  {
    if facts != [] {
      var rest, last := facts[..|facts| - 1], facts[|facts| - 1];
      TouchingIsDistinct(rest, ids);
      var r := Touching(rest, ids);
      forall i | 0 <= i < |r|
        ensures r[i].uuid != last.uuid
      {
        assert r[i] in rest;
        var k :| 0 <= k < |rest| && rest[k] == r[i];
        assert facts[k] == r[i];
      }
    }
  }

  /** The list really is newest first, and still names each fact once. */
  lemma NewestTouchingIsRanked(facts: seq<Edge>, ids: set<int>)
    requires DistinctUuids(facts)
    ensures Ranked(NewestFirst, NewestTouching(facts, ids)) && DistinctUuids(NewestTouching(facts, ids))
  {
    TouchingIsDistinct(facts, ids);
    BestFirstIsStrict();
    SortRanks(NewestFirst, Touching(facts, ids));
    DistinctIsOnePerUuid(facts);
    var r := NewestTouching(facts, ids);
    forall i, j | 0 <= i < j < |r|
      ensures r[i].uuid != r[j].uuid
    {
      assert r[i] in facts && r[j] in facts;
      assert NewestFirst(r[i], r[j]);
    }
  }

  /**
   * What the database answers, cut to the limit: facts that touch the
   * entities, the newest first, and one that is left out only if the list is
   * full of newer ones.
   */
  lemma SearchIsTheNewest(facts: seq<Edge>, ids: set<int>, limit: nat, f: Edge)
    requires DistinctUuids(facts)
    ensures var r := SearchFactsByEntities(facts, ids, limit);
            && |r| <= limit && Ranked(NewestFirst, r)
            && (f in r ==> f in facts && (f.source in ids || f.target in ids))
            && (f in facts && (f.source in ids || f.target in ids) && f !in r
                ==> |r| == limit && forall g | g in r :: NewestFirst(g, f))
  {
    NewestTouchingIsRanked(facts, ids);
    var all, r := NewestTouching(facts, ids), SearchFactsByEntities(facts, ids, limit);
    assert forall k | 0 <= k < |r| :: all[k] in r;
    if f in facts && Touches(f, ids) && f !in r {
      var k :| 0 <= k < |all| && all[k] == f;
      assert k >= |r|;
    }
  }

  /* ---------- the neighbourhood query ---------- */

  function FirstHop(visible: seq<Edge>, anchors: set<int>): seq<Edge> {
    Take(NewestTouching(visible, anchors), MAX_NEIGHBOURHOOD_FACTS)
  }

  function SecondHop(visible: seq<Edge>, anchors: set<int>): seq<Edge> {
    var first := FirstHop(visible, anchors);
    Take(Unseen(NewestTouching(visible, GetNeighbourIds(visible, anchors) - anchors), Uuids(first)),
         MAX_NEIGHBOURHOOD_FACTS - |first|)
  }

  /** The neighbourhood of the anchors, as it is listed. */
  function Around(visible: seq<Edge>, anchors: set<int>): seq<Edge> {
    FirstHop(visible, anchors) + SecondHop(visible, anchors)
  }

  /** However large the graph, the neighbourhood is of at most 200 facts, and the second hop is sought only in the room the first leaves. */
  lemma AroundIsBounded(visible: seq<Edge>, anchors: set<int>)
    ensures |Around(visible, anchors)| <= 200
    ensures |NewestTouching(visible, anchors)| >= 200
            ==> Around(visible, anchors) == NewestTouching(visible, anchors)[..200]
  {
    if |NewestTouching(visible, anchors)| >= 200 {
      assert SecondHop(visible, anchors) == [];
    }
  }

  /** The neighbourhood depends on the visible facts alone, not on how the store lists them. */
  lemma AroundIsOfTheFacts(one: seq<Edge>, other: seq<Edge>, anchors: set<int>)
    requires DistinctUuids(one) && DistinctUuids(other) && forall f :: f in one <==> f in other
    ensures Around(one, anchors) == Around(other, anchors)
  {
    NewestTouchingIsSame(one, other, anchors);
    assert forall x | x in GetNeighbourIds(one, anchors) :: x in GetNeighbourIds(other, anchors);
    assert forall x | x in GetNeighbourIds(other, anchors) :: x in GetNeighbourIds(one, anchors);
    assert GetNeighbourIds(one, anchors) == GetNeighbourIds(other, anchors);
    NewestTouchingIsSame(one, other, GetNeighbourIds(one, anchors) - anchors);
  }

  lemma NewestTouchingIsSame(one: seq<Edge>, other: seq<Edge>, ids: set<int>)
    requires DistinctUuids(one) && DistinctUuids(other) && forall f :: f in one <==> f in other
    ensures NewestTouching(one, ids) == NewestTouching(other, ids)
  {
    BestFirstIsStrict();
    NewestTouchingIsRanked(one, ids);
    NewestTouchingIsRanked(other, ids);
    RankedIsUnique(NewestFirst, NewestTouching(one, ids), NewestTouching(other, ids));
  }

  lemma {:induction false} UnseenIsRanked(facts: seq<Edge>, seen: set<int>)
    requires Ranked(NewestFirst, facts)
    ensures Ranked(NewestFirst, Unseen(facts, seen))
    ensures forall f | f in Unseen(facts, seen) :: f in facts && f.uuid !in seen
  {
    if facts != [] {
      var rest, last := facts[..|facts| - 1], facts[|facts| - 1];
      UnseenIsRanked(rest, seen);
      var r := Unseen(rest, seen);
      forall i | 0 <= i < |r|
        ensures NewestFirst(r[i], last)
      {
        assert r[i] in rest;
        var k :| 0 <= k < |rest| && rest[k] == r[i];
        assert facts[k] == r[i];
      }
    }
  }

  /** Each hop is listed newest first, and no fact is listed twice. */
  lemma HopsAreRanked(visible: seq<Edge>, anchors: set<int>)
    requires DistinctUuids(visible)
    ensures Ranked(NewestFirst, FirstHop(visible, anchors)) && Ranked(NewestFirst, SecondHop(visible, anchors))
    ensures forall f | f in SecondHop(visible, anchors) :: f.uuid !in Uuids(FirstHop(visible, anchors))
    ensures forall f | f in Around(visible, anchors) :: f in visible
    ensures DistinctUuids(Around(visible, anchors))
  {
    var neighbours := GetNeighbourIds(visible, anchors) - anchors;
    NewestTouchingIsRanked(visible, anchors);
    NewestTouchingIsRanked(visible, neighbours);
    UnseenIsRanked(NewestTouching(visible, neighbours), Uuids(FirstHop(visible, anchors)));
    DistinctIsOnePerUuid(visible);
    RankedAreDistinct(visible, FirstHop(visible, anchors));
    RankedAreDistinct(visible, SecondHop(visible, anchors));
    var first, second := FirstHop(visible, anchors), SecondHop(visible, anchors);
    forall i, j | 0 <= i < |first| && 0 <= j < |second|
      ensures first[i].uuid != second[j].uuid
    {
      assert first[i] in first && second[j] in second;
    }
  }

  lemma RankedAreDistinct(visible: seq<Edge>, s: seq<Edge>)
    requires OneFactPerUuid(visible) && Ranked(NewestFirst, s) && forall f | f in s :: f in visible
    ensures DistinctUuids(s)
  {
    forall i, j | 0 <= i < j < |s|
      ensures s[i].uuid != s[j].uuid
    {
      assert s[i] in visible && s[j] in visible && NewestFirst(s[i], s[j]);
    }
  }

  /** What the search gathers with exactly the neighbours is the neighbourhood. */
  lemma GatheredIsAround(visible: seq<Edge>, anchors: set<int>, neighbours: set<int>)
    requires forall x :: x in neighbours <==> IsNeighbour(anchors, visible, x)
    ensures var first := FirstHop(visible, anchors);
            first + Take(Unseen(NewestTouching(visible, neighbours), Uuids(first)), MAX_NEIGHBOURHOOD_FACTS - |first|)
            == Around(visible, anchors)
  {
    var all := GetNeighbourIds(visible, anchors) - anchors;
    forall x
      ensures x in neighbours <==> x in all
    {
      NeighbourIdsAreNeighbours(anchors, visible, x);
    }
    assert neighbours == all;
  }

  /**
   * The facts around the anchors and their neighbours. The neighbours are the
   * true ones whether the first hop was cut or not, and the second hop is the
   * first facts of the whole newest-first list that the first did not hold.
   */
  method Neighbourhood(visible: seq<Edge>, anchors: set<int>) returns (around: seq<Edge>, neighbours: set<int>)
    requires DistinctUuids(visible)
    ensures around == Around(visible, anchors)
    ensures forall x :: x in neighbours <==> IsNeighbour(anchors, visible, x)
  {
    around, neighbours := Gather(visible, anchors);
    GatheredIsAround(visible, anchors, neighbours);
  }

  method Gather(visible: seq<Edge>, anchors: set<int>) returns (around: seq<Edge>, neighbours: set<int>)
    requires DistinctUuids(visible)
    ensures forall x :: x in neighbours <==> IsNeighbour(anchors, visible, x)
    ensures var first := FirstHop(visible, anchors);
            around == first + Take(Unseen(NewestTouching(visible, neighbours), Uuids(first)),
                                   MAX_NEIGHBOURHOOD_FACTS - |first|)
  {
    neighbours := {};
    if anchors == {} {
      around := [];
      assert Touching(visible, {}) == [] by { NothingTouchesNone(visible); }
      return;
    }
    around := SearchFactsByEntities(visible, anchors, MAX_NEIGHBOURHOOD_FACTS);
    var room := MAX_NEIGHBOURHOOD_FACTS - |around|;
    if room > 0 {
      neighbours := NeighboursOf(anchors, around);
      forall x
        ensures x in neighbours <==> IsNeighbour(anchors, visible, x)
      {
        TouchingIsEnough(anchors, visible, x);
      }
      var seen := Uuids(around);
      NewestTouchingIsRanked(visible, anchors);
      NewestTouchingIsRanked(visible, neighbours);
      if neighbours != {} {
        var next := SearchFactsByEntities(visible, neighbours, room + |seen|);
        CutThenSkip(NewestTouching(visible, neighbours), seen, room);
        around := around + Take(Unseen(next, seen), room);
      } else {
        NothingTouchesNone(visible);
        assert around + [] == around;
      }
    } else {
      neighbours := GetNeighbourIds(visible, anchors) - anchors;
      forall x
        ensures x in neighbours <==> IsNeighbour(anchors, visible, x)
      {
        NeighbourIdsAreNeighbours(anchors, visible, x);
      }
      assert around + [] == around;
    }
  }

  lemma {:induction false} NothingTouchesNone(facts: seq<Edge>)
    ensures Touching(facts, {}) == []
  {
    if facts != [] {
      NothingTouchesNone(facts[..|facts| - 1]);
    }
  }

  /* ---------- graph distances ---------- */

  function DistanceOf(anchors: set<int>, neighbours: set<int>, f: Edge): Option<nat> {
    if Touches(f, anchors) then Some(0) else if Touches(f, neighbours) then Some(1) else None
  }

  function Lookup(distance: map<int, nat>, uuid: int): Option<nat> {
    if uuid in distance then Some(distance[uuid]) else None
  }

  method GraphDistances(anchors: set<int>, neighbours: set<int>, facts: seq<Edge>) returns (distance: map<int, nat>)
    requires OneFactPerUuid(facts)
    ensures forall f | f in facts :: Lookup(distance, f.uuid) == DistanceOf(anchors, neighbours, f)
    ensures forall uuid | uuid in distance :: Holds(facts, uuid)
  {
    distance := map[];
    for i := 0 to |facts|
      invariant forall f | f in facts[..i] :: Lookup(distance, f.uuid) == DistanceOf(anchors, neighbours, f)
      invariant forall uuid | uuid in distance :: Holds(facts[..i], uuid)
    {
      var f := facts[i];
      assert facts[..i + 1] == facts[..i] + [f];
      assert forall g | g in facts[..i] :: g in facts;
      assert forall uuid | Holds(facts[..i], uuid) :: Holds(facts[..i + 1], uuid);
      if Touches(f, anchors) {
        distance := distance[f.uuid := 0];
      } else if Touches(f, neighbours) {
        distance := distance[f.uuid := 1];
      }
    }
    assert facts[..|facts|] == facts;
  }

  predicate ShareAnEnd(f: Edge, g: Edge) {
    f.source == g.source || f.source == g.target || f.target == g.source || f.target == g.target
  }

  /** How many facts away from the anchors a fact is in the whole visible graph, as far as one. */
  ghost function HopsAway(anchors: set<int>, visible: seq<Edge>, f: Edge): Option<nat> {
    if Touches(f, anchors) then Some(0)
    else if exists g :: g in visible && Touches(g, anchors) && ShareAnEnd(f, g) then Some(1)
    else None
  }

  /** Any candidate's distance, whichever retriever found it, is its distance in the whole visible graph. */
  lemma DistancesAreExact(anchors: set<int>, visible: seq<Edge>, neighbours: set<int>, f: Edge)
    requires forall x :: x in neighbours <==> IsNeighbour(anchors, visible, x)
    ensures DistanceOf(anchors, neighbours, f) == HopsAway(anchors, visible, f)
  {
    if !Touches(f, anchors) {
      if g :| g in visible && Touches(g, anchors) && ShareAnEnd(f, g) {
        var x := if g.source in anchors then g.target else g.source;
        assert IsNeighbour(anchors, visible, x);
        assert x == f.source || x == f.target;
      }
    }
  }
}
