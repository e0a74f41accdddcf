/**
 * How the database search ranks what it found by vector (searchNatively in
 * src/index.ts), and when the order in which the neighbourhood lists its
 * facts shows in the answer.
 */
module Searches {
  import opened Wrappers
  import opened Sorting
  import opened Ranking
  import opened Neighbourhoods

  /** A row of the vector query, with its cosine: one minus its distance. */
  datatype Near = Near(edge: Edge, cosine: real)

  function EdgesOf(rows: seq<Near>): seq<Edge> {
    seq(|rows|, i requires 0 <= i < |rows| => rows[i].edge)
  }

  /** The index of the first fact of a uuid, or the length. */
  function First(s: seq<Edge>, uuid: int): (r: nat)
    ensures r <= |s| && (r < |s| ==> s[r].uuid == uuid)
    ensures forall i | 0 <= i < r :: s[i].uuid != uuid
  {
    if s == [] then 0
    else
      var r, last := First(s[..|s| - 1], uuid), s[|s| - 1];
      if r < |s| - 1 || last.uuid == uuid then r else |s|
  }

  /**
   * What the text and the vector query found. `similarity` gives the cosine of
   * a fact's embedding with the query's, for facts that have one; it is empty
   * when there is no vector for the query.
   */
  datatype Found = Found(byText: seq<Edge>, byVector: seq<Near>, similarity: map<int, real>) {
    function Nearest(): map<int, real> {
      CosineOf(byVector)
    }

    /** A fact the vector query did not return, though it could have been ranked. */
    predicate IsExtra(uuid: int) {
      uuid !in Nearest() && uuid in similarity
    }

    function Similarity(e: Edge): real {
      if e.uuid in similarity then similarity[e.uuid] else 0.0
    }

    predicate Closer(a: Edge, b: Edge) {
      Similarity(a) > Similarity(b)
    }

    predicate Rankable(uuid: int) {
      IsExtra(uuid) && similarity[uuid] > 0.0
    }

    /** The facts that extend the vector ranking, in the order they are met, each once. */
    function Listed(s: seq<Edge>): (r: seq<Edge>)
      ensures forall x | x in r :: x in s && Rankable(x.uuid)
    {
      if s == [] then []
      else
        var r, last := Listed(s[..|s| - 1]), s[|s| - 1];
        assert s == s[..|s| - 1] + [last];
        if Rankable(last.uuid) && !Holds(r, last.uuid) then r + [last] else r
    }

    function Extension(around: seq<Edge>): seq<Edge> {
      Sort(Closer, Listed(byText + around))
    }

    /** What the vector query ranked, then everything else that has a vector, closest first. */
    function VectorRanking(around: seq<Edge>): seq<Edge> {
      Positive(byVector) + Extension(around)
    }

    function Cosines(around: seq<Edge>): map<int, real> {
      map u | u in Nearest().Keys + similarity.Keys && (u in Nearest() || Holds(byText + around, u)) ::
        if u in Nearest() then Nearest()[u] else similarity[u]
    }

    function Candidates(around: seq<Edge>): seq<Candidate> {
      MergeCandidates(byText, VectorRanking(around), around + EdgesOf(byVector), Cosines(around))
    }

    function Answer(around: seq<Edge>, distance: map<int, nat>, limit: nat, minCosine: real): seq<Scored> {
      Reranked(Candidates(around), distance, limit, minCosine)
    }

    /** One uuid names one fact, and neither list repeats one. */
    predicate Wellformed(around: seq<Edge>) {
      OneFactPerUuid(byText + EdgesOf(byVector) + around) && DistinctUuids(byText) && DistinctUuids(around)
    }

    /** Two facts of the neighbourhood that no query found are equally close to the query. */
    predicate Tie(a: Edge, b: Edge) {
      && a.uuid != b.uuid && Rankable(a.uuid) && Rankable(b.uuid)
      && !Holds(byText, a.uuid) && !Holds(byText, b.uuid)
      && similarity[a.uuid] == similarity[b.uuid]
    }

    predicate HasTie(around: seq<Edge>) {
      exists i, j | 0 <= i < j < |around| :: Tie(around[i], around[j])
    }
  }

  function CosineOf(rows: seq<Near>): map<int, real> {
    if rows == [] then map[]
    else
      var last := rows[|rows| - 1];
      CosineOf(rows[..|rows| - 1])[last.edge.uuid := last.cosine]
  }

  /** The rows with a positive cosine, as ranked. */
  function Positive(rows: seq<Near>): (r: seq<Edge>)
    ensures forall x | x in r :: x in EdgesOf(rows) && x.uuid in CosineOf(rows)
  {
    if rows == [] then []
    else
      var r, last := Positive(rows[..|rows| - 1]), rows[|rows| - 1];
      assert EdgesOf(rows) == EdgesOf(rows[..|rows| - 1]) + [last.edge];
      if last.cosine > 0.0 then r + [last.edge] else r
  }

  lemma HoldsMore(s: seq<Edge>, f: Edge)
    ensures forall u :: Holds(s + [f], u) <==> Holds(s, u) || f.uuid == u
  {
    forall u
      ensures Holds(s + [f], u) <==> Holds(s, u) || f.uuid == u
    {
      if Holds(s, u) {
        var g :| g in s && g.uuid == u;
        assert g in s + [f];
      }
      assert f in s + [f];
    }
  }

  method RankNearest(rows: seq<Near>) returns (ranking: seq<Edge>, cosines: map<int, real>)
    ensures ranking == Positive(rows) && cosines == CosineOf(rows)
  {
    ranking, cosines := [], map[];
    for i := 0 to |rows|
      invariant cosines == CosineOf(rows[..i]) && ranking == Positive(rows[..i])
    {
      assert rows[..i + 1][..i] == rows[..i];
      cosines := cosines[rows[i].edge.uuid := rows[i].cosine];
      if rows[i].cosine > 0.0 {
        ranking := ranking + [rows[i].edge];
      }
    }
    assert rows[..|rows|] == rows;
  }

  /** What is in `cosines` once the search has gone through `met`. */
  ghost predicate CosinesAre(found: Found, met: seq<Edge>, cosines: map<int, real>) {
    && (forall u :: u in cosines <==> u in found.Nearest() || (u in found.similarity && Holds(met, u)))
    && (forall u | u in cosines :: cosines[u] == if u in found.Nearest() then found.Nearest()[u] else found.similarity[u])
  }

  lemma CosinesGrow(found: Found, met: seq<Edge>, f: Edge, cosines: map<int, real>)
    requires CosinesAre(found, met, cosines)
    ensures CosinesAre(found, met + [f], if found.IsExtra(f.uuid) then cosines[f.uuid := found.similarity[f.uuid]] else cosines)
  {
    HoldsMore(met, f);
  }

  lemma CosinesAreAll(found: Found, around: seq<Edge>, cosines: map<int, real>)
    requires CosinesAre(found, found.byText + around, cosines)
    ensures cosines == found.Cosines(around)
  {
    var all := found.Cosines(around);
    assert forall u | u in cosines :: u in all && all[u] == cosines[u];
    assert forall u | u in all :: u in cosines;
  }

  /** The rows whose cosine is positive keep the order of the query, and each fact has the cosine of its last row. */
  lemma NearestAre(rows: seq<Near>, row: Near)
    ensures Positive(rows + [row]) == Positive(rows) + if row.cosine > 0.0 then [row.edge] else []
    ensures Positive([]) == [] && CosineOf([]) == map[]
    ensures CosineOf(rows + [row]) == CosineOf(rows)[row.edge.uuid := row.cosine]
  {
    assert (rows + [row])[..|rows|] == rows;
  }

  /**
   * Exactly which facts extend the ranking: those found by text or around the
   * named entities that have a positive cosine and that the vector query did
   * not return, each once.
   */
  lemma ExtensionIff(found: Found, around: seq<Edge>, uuid: int)
    ensures (exists e :: e in found.Extension(around) && e.uuid == uuid)
            <==> && (exists e :: e in found.byText + around && e.uuid == uuid)
                 && uuid !in CosineOf(found.byVector)
                 && uuid in found.similarity && found.similarity[uuid] > 0.0
    ensures DistinctUuids(found.Extension(around))
  {
    ListedHolds(found, found.byText + around, uuid);
    var list := found.Listed(found.byText + around);
    assert Holds(list, uuid) <==> Holds(found.Extension(around), uuid);
    assert Holds(found.Extension(around), uuid) <==> exists e :: e in found.Extension(around) && e.uuid == uuid;
    assert Holds(found.byText + around, uuid) <==> exists e :: e in found.byText + around && e.uuid == uuid;
    ExtensionIsRanked(found, around);
    ExtensionNamesOnce(found, around);
  }

  lemma ExtensionNamesOnce(found: Found, around: seq<Edge>)
    ensures DistinctUuids(found.Extension(around))
  {
    var ext, order := found.Extension(around), found.byText + around;
    ExtensionIsRanked(found, around);
    forall i, j | 0 <= i < j < |ext|
      ensures ext[i].uuid != ext[j].uuid
    {
      assert CloserThenFirst(found, order)(ext[i], ext[j]);
    }
  }

  /** The ranking and the cosines, built as the search goes through what it found. */
  method RankByVector(found: Found, around: seq<Edge>) returns (ranking: seq<Edge>, cosines: map<int, real>)
    ensures ranking == found.VectorRanking(around) && cosines == found.Cosines(around)
  {
    ranking, cosines := RankNearest(found.byVector);
    var nearest := cosines;
    var all, extra: seq<Edge> := found.byText + around, [];
    for i := 0 to |all|
      invariant extra == found.Listed(all[..i])
      invariant CosinesAre(found, all[..i], cosines)
    {
      var f := all[i];
      assert all[..i + 1][..i] == all[..i] && all[..i + 1] == all[..i] + [f];
      CosinesGrow(found, all[..i], f, cosines);
      if f.uuid in nearest || f.uuid !in found.similarity {
        continue;
      }
      cosines := cosines[f.uuid := found.similarity[f.uuid]];
      if found.similarity[f.uuid] > 0.0 && !Holds(extra, f.uuid) {
        extra := extra + [f];
      }
    }
    assert all[..|all|] == all;
    CosinesAreAll(found, around, cosines);
    ranking := ranking + Sort(found.Closer, extra);
  }

  /* ---------- the order of the extension ---------- */

  /** Closest first, and in the order of their first mention where equally close. */
  function CloserThenFirst(found: Found, order: seq<Edge>): (Edge, Edge) -> bool {
    (a: Edge, b: Edge) =>
      || found.Closer(a, b)
      || (found.Similarity(a) == found.Similarity(b) && First(order, a.uuid) < First(order, b.uuid))
  }

  lemma CloserIsStrict(found: Found, order: seq<Edge>)
    ensures StrictOrder(CloserThenFirst(found, order))
  {
  }

  lemma FirstOfMore(s: seq<Edge>, f: Edge, uuid: int)
    ensures First(s + [f], uuid) == if Holds(s, uuid) then First(s, uuid) else if f.uuid == uuid then |s| else |s| + 1
    ensures First(s, uuid) < |s| <==> Holds(s, uuid)
  {
    assert (s + [f])[..|s|] == s;
    if Holds(s, uuid) {
      var g :| g in s && g.uuid == uuid;
      var k :| 0 <= k < |s| && s[k] == g;
    }
  }

  lemma {:induction false} ListedHolds(found: Found, s: seq<Edge>, uuid: int)
    ensures Holds(found.Listed(s), uuid) <==> Holds(s, uuid) && found.Rankable(uuid)
  {
    if s != [] {
      var init, last := s[..|s| - 1], s[|s| - 1];
      assert s == init + [last];
      ListedHolds(found, init, uuid);
      HoldsMore(init, last);
      HoldsMore(found.Listed(init), last);
    }
  }

  /** The list keeps the order of first mention. */
  lemma {:induction false} ListedInOrder(found: Found, s: seq<Edge>)
    ensures forall i, j | 0 <= i < j < |found.Listed(s)| ::
              First(s, found.Listed(s)[i].uuid) < First(s, found.Listed(s)[j].uuid)
  {
    if s != [] {
      var init, last := s[..|s| - 1], s[|s| - 1];
      var before, r := found.Listed(init), found.Listed(s);
      assert s == init + [last];
      ListedInOrder(found, init);
      ListedHolds(found, init, last.uuid);
      forall i, j | 0 <= i < j < |r|
        ensures First(s, r[i].uuid) < First(s, r[j].uuid)
      {
        assert r[i] == before[i] && r[i] in before;
        FirstOfMore(init, last, r[i].uuid);
        FirstOfMore(init, last, r[j].uuid);
        if j < |before| {
          assert r[j] == before[j] && r[j] in before;
        }
      }
    }
  }

  lemma FirstIs(s: seq<Edge>, uuid: int, e: nat)
    requires e <= |s| && (e < |s| ==> s[e].uuid == uuid) && forall i | 0 <= i < e :: s[i].uuid != uuid
    ensures First(s, uuid) == e
  {
  }

  lemma FirstOfBoth(s: seq<Edge>, t: seq<Edge>, uuid: int)
    ensures First(s + t, uuid) == if Holds(s, uuid) then First(s, uuid) else |s| + First(t, uuid)
    ensures First(s, uuid) < |s| <==> Holds(s, uuid)
  {
    if Holds(s, uuid) {
      var g :| g in s && g.uuid == uuid;
      var k :| 0 <= k < |s| && s[k] == g;
      FirstIs(s + t, uuid, First(s, uuid));
    } else {
      assert forall i | 0 <= i < |s| :: s[i] in s;
      FirstIs(s + t, uuid, |s| + First(t, uuid));
    }
  }

  /** The extension is ranked by closeness and first mention. */
  lemma ExtensionIsRanked(found: Found, around: seq<Edge>)
    ensures Ranked(CloserThenFirst(found, found.byText + around), found.Extension(around))
  {
    var all := found.byText + around;
    var list := found.Listed(all);
    ListedInOrder(found, all);
    CloserIsStrict(found, all);
    StableSortRanks(found.Closer, CloserThenFirst(found, all), list);
  }

  /** Without ties, the order of the text query alone settles the ranking. */
  lemma ExtensionIsRankedByText(found: Found, around: seq<Edge>)
    requires found.Wellformed(around) && !found.HasTie(around)
    ensures Ranked(CloserThenFirst(found, found.byText), found.Extension(around))
  {
    var all := found.byText + around;
    var list, strict := found.Listed(all), CloserThenFirst(found, found.byText);
    ListedInOrder(found, all);
    CloserIsStrict(found, found.byText);
    forall i, j | 0 <= i < j < |list|
      ensures strict(list[i], list[j]) || found.Closer(list[j], list[i])
    {
      TextSettles(found, around, list[i], list[j]);
    }
    StableSortRanks(found.Closer, strict, list);
  }

  lemma NoTieBetween(found: Found, around: seq<Edge>, a: Edge, b: Edge)
    requires !found.HasTie(around) && a in around && b in around
    ensures !found.Tie(a, b)
  {
    var i :| 0 <= i < |around| && around[i] == a;
    var j :| 0 <= j < |around| && around[j] == b;
    assert i < j ==> !found.Tie(around[i], around[j]);
    assert j < i ==> !found.Tie(around[j], around[i]);
  }

  lemma TextSettles(found: Found, around: seq<Edge>, a: Edge, b: Edge)
    requires !found.HasTie(around)
    requires a in found.byText + around && b in found.byText + around && found.Rankable(a.uuid) && found.Rankable(b.uuid)
    requires First(found.byText + around, a.uuid) < First(found.byText + around, b.uuid)
    ensures CloserThenFirst(found, found.byText)(a, b) || found.Closer(b, a)
  {
    FirstOfBoth(found.byText, around, a.uuid);
    FirstOfBoth(found.byText, around, b.uuid);
    if a in around && b in around {
      NoTieBetween(found, around, a, b);
    }
  }

  /* ---------- without ties, the order does not matter ---------- */

  /** The same facts in another order. */
  ghost predicate Rearranged(one: seq<Edge>, other: seq<Edge>) {
    DistinctUuids(other) && forall e :: e in one <==> e in other
  }

  lemma RearrangedIsWellformed(found: Found, one: seq<Edge>, other: seq<Edge>)
    requires found.Wellformed(one) && Rearranged(one, other)
    ensures found.Wellformed(other)
    ensures forall u :: Holds(found.byText + one, u) <==> Holds(found.byText + other, u)
  {
    var a, b := found.byText + EdgesOf(found.byVector) + one, found.byText + EdgesOf(found.byVector) + other;
    assert forall e :: e in a <==> e in b;
    assert forall e :: e in found.byText + one <==> e in found.byText + other;
  }

  lemma TiesAreShared(found: Found, one: seq<Edge>, other: seq<Edge>)
    requires Rearranged(one, other) && !found.HasTie(one)
    ensures !found.HasTie(other)
  {
    forall i, j | 0 <= i < j < |other|
      ensures !found.Tie(other[i], other[j])
    {
      assert other[i] in one && other[j] in one;
      NoTieBetween(found, one, other[i], other[j]);
    }
  }

  lemma ListedIsFrom(found: Found, around: seq<Edge>, e: Edge)
    requires found.Wellformed(around)
    ensures e in found.Listed(found.byText + around) <==> e in found.byText + around && found.Rankable(e.uuid)
  {
    var all := found.byText + around;
    if e in all && found.Rankable(e.uuid) {
      ListedHolds(found, all, e.uuid);
      var g :| g in found.Listed(all) && g.uuid == e.uuid;
      assert g in found.byText + EdgesOf(found.byVector) + around && e in found.byText + EdgesOf(found.byVector) + around;
    }
  }

  lemma ExtensionIsSame(found: Found, one: seq<Edge>, other: seq<Edge>)
    requires found.Wellformed(one) && Rearranged(one, other) && !found.HasTie(one)
    ensures found.Extension(one) == found.Extension(other)
  {
    RearrangedIsWellformed(found, one, other);
    TiesAreShared(found, one, other);
    ExtensionIsRankedByText(found, one);
    ExtensionIsRankedByText(found, other);
    CloserIsStrict(found, found.byText);
    forall e
      ensures e in found.Extension(one) <==> e in found.Extension(other)
    {
      ListedIsFrom(found, one, e);
      ListedIsFrom(found, other, e);
    }
    RankedIsUnique(CloserThenFirst(found, found.byText), found.Extension(one), found.Extension(other));
  }

  lemma CosinesAreSame(found: Found, one: seq<Edge>, other: seq<Edge>)
    requires found.Wellformed(one) && Rearranged(one, other)
    ensures found.Cosines(one) == found.Cosines(other)
  {
    RearrangedIsWellformed(found, one, other);
    var a, b := found.Cosines(one), found.Cosines(other);
    assert forall u | u in a :: u in b && a[u] == b[u];
    assert forall u | u in b :: u in a;
  }

  lemma PositiveIsFrom(found: Found, around: seq<Edge>, e: Edge)
    requires e in found.VectorRanking(around)
    ensures e in found.byText + (around + EdgesOf(found.byVector))
  {
    if e !in Positive(found.byVector) {
      assert e in found.byText + around;
    }
  }

  /** If no two facts of the neighbourhood tie, it may list them in any order. */
  lemma NoTieNoDifference(found: Found, one: seq<Edge>, other: seq<Edge>,
                          distance: map<int, nat>, limit: nat, minCosine: real)
    requires found.Wellformed(one) && Rearranged(one, other) && !found.HasTie(one)
    ensures found.Answer(one, distance, limit, minCosine) == found.Answer(other, distance, limit, minCosine)
  {
    ExtensionIsSame(found, one, other);
    CosinesAreSame(found, one, other);
    RearrangedIsWellformed(found, one, other);
    var ranking, near := found.VectorRanking(one), EdgesOf(found.byVector);
    FoundOnce(found, one);
    FoundOnce(found, other);
    assert forall e :: e in one + near <==> e in other + near;
    MergeOrderDoesNotMatter(found.byText, ranking, one + near, other + near, found.Cosines(one), distance, limit, minCosine);
  }

  lemma FoundOnce(found: Found, around: seq<Edge>)
    requires found.Wellformed(around)
    ensures OneFactPerUuid(found.byText + found.VectorRanking(around) + (around + EdgesOf(found.byVector)))
  {
    var near, ranking := EdgesOf(found.byVector), found.VectorRanking(around);
    var all := found.byText + ranking + (around + near);
    forall e | e in all
      ensures e in found.byText + near + around
    {
      if e in ranking {
        PositiveIsFrom(found, around, e);
      }
    }
  }

  /* ---------- with a tie, it does ---------- */

  lemma RankedPlaces(found: Found, order: seq<Edge>, s: seq<Edge>, e: Edge, f: Edge)
    requires Ranked(CloserThenFirst(found, order), s) && OneFactPerUuid(s) && e in s && f in s
    requires CloserThenFirst(found, order)(e, f)
    ensures PlaceIn(s, e.uuid).Some? && PlaceIn(s, f.uuid).Some?
    ensures PlaceIn(s, e.uuid).value < PlaceIn(s, f.uuid).value
  {
    PlaceOf(s, e);
    PlaceOf(s, f);
  }

  lemma PlaceOf(s: seq<Edge>, e: Edge)
    requires OneFactPerUuid(s) && e in s
    ensures PlaceIn(s, e.uuid).Some? && s[PlaceIn(s, e.uuid).value - 1] == e
  {
    var k :| 0 <= k < |s| && s[k] == e;
    assert PlaceIn(s, e.uuid).Some? ==> s[PlaceIn(s, e.uuid).value - 1] in s;
  }

  lemma {:induction false} PlaceBehind(s: seq<Edge>, t: seq<Edge>, uuid: int)
    requires PlaceIn(t, uuid).Some?
    ensures PlaceIn(s + t, uuid) == Some(|s| + PlaceIn(t, uuid).value)
  {
    assert (s + t)[..|s + t| - 1] == s + t[..|t| - 1];
    if t[|t| - 1].uuid != uuid {
      PlaceBehind(s, t[..|t| - 1], uuid);
    }
  }

  /** Of two facts that tie, the one listed first is ranked first. */
  lemma TieIsRankedAsListed(found: Found, around: seq<Edge>, i: nat, j: nat)
    requires found.Wellformed(around) && i < j < |around| && found.Tie(around[i], around[j])
    ensures var ranking := found.VectorRanking(around);
            && PlaceIn(ranking, around[i].uuid).Some? && PlaceIn(ranking, around[j].uuid).Some?
            && PlaceIn(ranking, around[i].uuid).value < PlaceIn(ranking, around[j].uuid).value
  {
    var e, f, all, ext := around[i], around[j], found.byText + around, found.Extension(around);
    FirstIs(around, e.uuid, i);
    FirstIs(around, f.uuid, j);
    FirstOfBoth(found.byText, around, e.uuid);
    FirstOfBoth(found.byText, around, f.uuid);
    ListedIsFrom(found, around, e);
    ListedIsFrom(found, around, f);
    ExtensionIsRanked(found, around);
    assert OneFactPerUuid(ext) by {
      FoundOnce(found, around);
      assert forall x | x in ext :: x in found.byText + found.VectorRanking(around) + (around + EdgesOf(found.byVector));
    }
    RankedPlaces(found, all, ext, e, f);
    PlaceBehind(Positive(found.byVector), ext, e.uuid);
    PlaceBehind(Positive(found.byVector), ext, f.uuid);
  }

  function Swapped(s: seq<Edge>, i: nat, j: nat): (r: seq<Edge>)
    requires i < j < |s|
    ensures |r| == |s| && r[i] == s[j] && r[j] == s[i]
    ensures forall k | 0 <= k < |s| && k != i && k != j :: r[k] == s[k]
  {
    s[i := s[j]][j := s[i]]
  }

  lemma SwappedIsRearranged(s: seq<Edge>, i: nat, j: nat)
    requires i < j < |s| && DistinctUuids(s)
    ensures Rearranged(s, Swapped(s, i, j))
  {
    var r := Swapped(s, i, j);
    forall e | e in s
      ensures e in r
    {
      var k :| 0 <= k < |s| && s[k] == e;
      assert r[if k == i then j else if k == j then i else k] == e;
    }
    forall e | e in r
      ensures e in s
    {
      var k :| 0 <= k < |r| && r[k] == e;
      assert s[if k == i then j else if k == j then i else k] == e;
    }
    forall k, l | 0 <= k < l < |r|
      ensures r[k].uuid != r[l].uuid
    {
      var a, b := if k == i then j else if k == j then i else k, if l == i then j else if l == j then i else l;
      assert s[a] == r[k] && s[b] == r[l] && a != b;
      assert a < b ==> s[a].uuid != s[b].uuid;
      assert b < a ==> s[b].uuid != s[a].uuid;
    }
  }

  /** What the answer says of a fact that only the neighbourhood found. */
  function ScoreAround(found: Found, around: seq<Edge>, e: Edge, distance: map<int, nat>): Scored {
    Scored(e, PlaceScore(PlaceIn(found.VectorRanking(around), e.uuid)) + Bonus(distance, e.uuid))
  }

  lemma AroundIsScored(found: Found, around: seq<Edge>, e: Edge, distance: map<int, nat>, limit: nat, minCosine: real)
    requires found.Wellformed(around) && e in around && found.Rankable(e.uuid) && !Holds(found.byText, e.uuid)
    requires |found.Candidates(around)| <= limit && minCosine <= found.similarity[e.uuid]
    ensures forall x | x in found.Answer(around, distance, limit, minCosine) && x.edge == e ::
              x == ScoreAround(found, around, e, distance)
    ensures ScoreAround(found, around, e, distance) in found.Answer(around, distance, limit, minCosine)
  {
    var ranking, others, cosines := found.VectorRanking(around), around + EdgesOf(found.byVector), found.Cosines(around);
    AroundIsCandidate(found, around, e);
    MergedAreDistinct(found.byText, found.VectorRanking(around), around + EdgesOf(found.byVector), found.Cosines(around));
    RoomForAll(found.Candidates(around), distance, limit, minCosine, CandidateAround(found, around, e));
  }

  function CandidateAround(found: Found, around: seq<Edge>, e: Edge): Candidate
    requires found.Rankable(e.uuid)
  {
    Candidate(e, None, PlaceIn(found.VectorRanking(around), e.uuid), Some(found.similarity[e.uuid]))
  }

  lemma AroundIsCandidate(found: Found, around: seq<Edge>, e: Edge)
    requires found.Wellformed(around) && e in around && found.Rankable(e.uuid) && !Holds(found.byText, e.uuid)
    ensures CandidateAround(found, around, e) in found.Candidates(around)
  {
    var ranking, others, cosines := found.VectorRanking(around), around + EdgesOf(found.byVector), found.Cosines(around);
    FoundOnce(found, around);
    NotByText(found, e.uuid);
    assert e in found.byText + around && Holds(found.byText + around, e.uuid);
    MergedAre(found.byText, ranking, others, cosines, CandidateAround(found, around, e));
  }

  lemma NotByText(found: Found, uuid: int)
    requires !Holds(found.byText, uuid)
    ensures PlaceIn(found.byText, uuid) == None
  {
    assert forall i | 0 <= i < |found.byText| :: found.byText[i] in found.byText;
  }

  lemma PlaceScoreIsInjective(p: Option<nat>, q: Option<nat>)
    requires p.Some? && q.Some? && p.value >= 1 && q.value >= 1 && PlaceScore(p) == PlaceScore(q)
    ensures p == q
  {
    var x, y := (RRF_K + p.value) as real, (RRF_K + q.value) as real;
    assert 1.0 / x * x == 1.0 && 1.0 / y * y == 1.0;
    assert 1.0 / x * x == 1.0 / x * y;
  }

  /** If two arrangements give the same answer, they rank such a fact in the same place. */
  lemma SameAnswerSamePlace(found: Found, one: seq<Edge>, other: seq<Edge>, e: Edge,
                            distance: map<int, nat>, limit: nat, minCosine: real)
    requires found.Wellformed(one) && found.Wellformed(other) && e in one && e in other
    requires found.Rankable(e.uuid) && !Holds(found.byText, e.uuid) && minCosine <= found.similarity[e.uuid]
    requires |found.Candidates(one)| <= limit && |found.Candidates(other)| <= limit
    requires found.Answer(one, distance, limit, minCosine) == found.Answer(other, distance, limit, minCosine)
    requires PlaceIn(found.VectorRanking(one), e.uuid).Some? && PlaceIn(found.VectorRanking(other), e.uuid).Some?
    ensures PlaceIn(found.VectorRanking(one), e.uuid) == PlaceIn(found.VectorRanking(other), e.uuid)
  {
    AroundIsScored(found, one, e, distance, limit, minCosine);
    AroundIsScored(found, other, e, distance, limit, minCosine);
    PlaceScoreIsInjective(PlaceIn(found.VectorRanking(one), e.uuid), PlaceIn(found.VectorRanking(other), e.uuid));
  }

  /** Exchanging two facts that tie changes the answer, wherever the limit and the cut let both in. */
  lemma TieShows(found: Found, around: seq<Edge>, i: nat, j: nat, distance: map<int, nat>, limit: nat, minCosine: real)
    requires found.Wellformed(around) && i < j < |around| && found.Tie(around[i], around[j])
    requires |found.Candidates(around)| <= limit && |found.Candidates(Swapped(around, i, j))| <= limit
    requires minCosine <= found.similarity[around[i].uuid]
    ensures Rearranged(around, Swapped(around, i, j))
    ensures found.Answer(around, distance, limit, minCosine) != found.Answer(Swapped(around, i, j), distance, limit, minCosine)
  {
    var e, f, swapped := around[i], around[j], Swapped(around, i, j);
    SwappedIsRearranged(around, i, j);
    RearrangedIsWellformed(found, around, swapped);
    TieIsRankedAsListed(found, around, i, j);
    TieIsRankedAsListed(found, swapped, i, j);
    assert e in around && f in around;
    if found.Answer(around, distance, limit, minCosine) == found.Answer(swapped, distance, limit, minCosine) {
      SameAnswerSamePlace(found, around, swapped, e, distance, limit, minCosine);
      SameAnswerSamePlace(found, around, swapped, f, distance, limit, minCosine);
    }
  }

  /**
   * The order in which the neighbourhood lists its facts is irrelevant, to
   * any limit and any cut, exactly when no two of its facts tie.
   */
  lemma OrderIrrelevantIff(found: Found, around: seq<Edge>, distance: map<int, nat>)
    requires found.Wellformed(around)
    ensures (forall again, limit, minCosine | Rearranged(around, again) ::
               found.Answer(around, distance, limit, minCosine) == found.Answer(again, distance, limit, minCosine))
            <==> !found.HasTie(around)
  {
    if found.HasTie(around) {
      var i, j :| 0 <= i < j < |around| && found.Tie(around[i], around[j]);
      var again := Swapped(around, i, j);
      var limit := |found.Candidates(around)| + |found.Candidates(again)|;
      TieShows(found, around, i, j, distance, limit, 0.0);
    } else {
      forall again, limit: nat, minCosine | Rearranged(around, again)
        ensures found.Answer(around, distance, limit, minCosine) == found.Answer(again, distance, limit, minCosine)
      {
        NoTieNoDifference(found, around, again, distance, limit, minCosine);
      }
    }
  }

  /* ---------- the neighbourhood as the database lists it ---------- */

  /** However the store lists the visible facts, ties or not, the answer is the same. */
  lemma AnswerIsOfTheFacts(found: Found, one: seq<Edge>, other: seq<Edge>, anchors: set<int>,
                           distance: map<int, nat>, limit: nat, minCosine: real)
    requires DistinctUuids(one) && DistinctUuids(other) && forall f :: f in one <==> f in other
    ensures found.Answer(Around(one, anchors), distance, limit, minCosine)
            == found.Answer(Around(other, anchors), distance, limit, minCosine)
  {
    AroundIsOfTheFacts(one, other, anchors);
  }

  /** Of two facts in two hops, e is in the nearer one, or in the same one and learned later. */
  predicate HopThenRecency(first: seq<Edge>, second: seq<Edge>, e: Edge, f: Edge) {
    || (e in first && f in second)
    || (((e in first && f in first) || (e in second && f in second)) && NewestFirst(e, f))
  }

  lemma IndexInHop(s: seq<Edge>, e: Edge, f: Edge) returns (i: nat, j: nat)
    requires Ranked(NewestFirst, s) && e in s && f in s && NewestFirst(e, f)
    ensures i < j < |s| && s[i] == e && s[j] == f
  {
    i :| i < |s| && s[i] == e;
    j :| j < |s| && s[j] == f;
    assert j < i ==> NewestFirst(s[j], s[i]);
  }

  lemma ListedByHopThenRecency(first: seq<Edge>, second: seq<Edge>, e: Edge, f: Edge) returns (i: nat, j: nat)
    requires Ranked(NewestFirst, first) && Ranked(NewestFirst, second) && HopThenRecency(first, second, e, f)
    ensures i < j < |first + second| && (first + second)[i] == e && (first + second)[j] == f
  {
    if e in first && f in second {
      i :| i < |first| && first[i] == e;
      var k: nat :| k < |second| && second[k] == f;
      j := |first| + k;
    } else if e in first && f in first {
      i, j := IndexInHop(first, e, f);
    } else {
      var k, l := IndexInHop(second, e, f);
      i, j := |first| + k, |first| + l;
    }
  }

  /** A tie is broken by the hop, then by the learning date, then by uuid. */
  lemma TieIsBrokenByHopThenRecency(found: Found, visible: seq<Edge>, anchors: set<int>, e: Edge, f: Edge)
    requires DistinctUuids(visible) && found.Wellformed(Around(visible, anchors))
    requires HopThenRecency(FirstHop(visible, anchors), SecondHop(visible, anchors), e, f) && found.Tie(e, f)
    ensures var ranking := found.VectorRanking(Around(visible, anchors));
            && PlaceIn(ranking, e.uuid).Some? && PlaceIn(ranking, f.uuid).Some?
            && PlaceIn(ranking, e.uuid).value < PlaceIn(ranking, f.uuid).value
  {
    HopsAreRanked(visible, anchors);
    var i, j := ListedByHopThenRecency(FirstHop(visible, anchors), SecondHop(visible, anchors), e, f);
    TieIsRankedAsListed(found, Around(visible, anchors), i, j);
  }

  /** As a function of the list alone: of two facts with one embedding that no query found, the one listed first scores higher. */
  lemma TieHappens()
    ensures var found := Found([], [], map[1 := 0.5, 2 := 0.5]);
            var a, b := Edge(1, 10, 11, 0), Edge(2, 10, 12, 0);
            found.Answer([a, b], map[1 := 0, 2 := 0], 10, 0.4) != found.Answer([b, a], map[1 := 0, 2 := 0], 10, 0.4)
  {
    var found := Found([], [], map[1 := 0.5, 2 := 0.5]);
    var a, b := Edge(1, 10, 11, 0), Edge(2, 10, 12, 0);
    TwoTie(found, a, b);
    FewCandidates(found, [a, b]);
    FewCandidates(found, [b, a]);
    assert Swapped([a, b], 0, 1) == [b, a];
    TieShows(found, [a, b], 0, 1, map[1 := 0, 2 := 0], 10, 0.4);
  }

  lemma TwoTie(found: Found, a: Edge, b: Edge)
    requires found.byText == [] && found.byVector == [] && a.uuid != b.uuid
    requires a.uuid in found.similarity && b.uuid in found.similarity
    requires found.similarity[a.uuid] == found.similarity[b.uuid] > 0.0
    ensures found.Wellformed([a, b]) && found.Tie([a, b][0], [a, b][1])
  {
  }

  lemma {:induction false} UniqueIsNoLonger(edges: seq<Edge>)
    ensures |Unique(edges)| <= |edges|
  {
    if edges != [] {
      UniqueIsNoLonger(edges[..|edges| - 1]);
    }
  }

  lemma {:induction false} ListedIsNoLonger(found: Found, s: seq<Edge>)
    ensures |found.Listed(s)| <= |s|
  {
    if s != [] {
      ListedIsNoLonger(found, s[..|s| - 1]);
    }
  }

  lemma FewCandidates(found: Found, around: seq<Edge>)
    requires found.byText == [] && found.byVector == [] && |around| <= 5
    ensures |found.Candidates(around)| <= 10
  {
    ListedIsNoLonger(found, found.byText + around);
    UniqueIsNoLonger(found.byText + found.VectorRanking(around) + (around + EdgesOf(found.byVector)));
  }
}
