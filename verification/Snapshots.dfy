/**
 * Snapshots of the in-memory graph (src/store/memory-store.ts): what is saved,
 * and what loading it rebuilds.
 */
module Snapshots {
  import opened Wrappers
  import opened MemoryStores

  /* ---------- the most common length ---------- */

  /** The positive lengths, each once, in the order in which they first appear. */
  function Firsts(lengths: seq<nat>): (r: seq<nat>)
    ensures forall n :: n in r <==> n > 0 && n in lengths
    ensures forall a, b | 0 <= a < b < |r| :: r[a] != r[b]
  {
    if lengths == [] then []
    else
      var r, last := Firsts(lengths[..|lengths| - 1]), lengths[|lengths| - 1];
      assert lengths == lengths[..|lengths| - 1] + [last];
      if last == 0 || last in r then r else r + [last]
  }

  function BestOf(firsts: seq<nat>, lengths: seq<nat>): Option<nat> {
    if firsts == [] then None
    else
      var best, last := BestOf(firsts[..|firsts| - 1], lengths), firsts[|firsts| - 1];
      if best.None? || multiset(lengths)[last] > multiset(lengths)[best.value] then Some(last) else best
  }

  /** The length a loaded snapshot pins; see BestIsFirstMaximum for ties. */
  function MostCommon(lengths: seq<nat>): Option<nat> {
    BestOf(Firsts(lengths), lengths)
  }

  /** The i-th of them is more frequent than those before, and as frequent as any. */
  predicate FirstMaximum(firsts: seq<nat>, lengths: seq<nat>, i: nat) {
    && i < |firsts|
    && (forall j | 0 <= j < i :: multiset(lengths)[firsts[j]] < multiset(lengths)[firsts[i]])
    && (forall j | i <= j < |firsts| :: multiset(lengths)[firsts[j]] <= multiset(lengths)[firsts[i]])
  }

  lemma {:induction false} BestIsFirstMaximum(firsts: seq<nat>, lengths: seq<nat>) returns (i: nat)
    requires firsts != []
    ensures FirstMaximum(firsts, lengths, i) && BestOf(firsts, lengths) == Some(firsts[i])
  {
    var rest, last := firsts[..|firsts| - 1], firsts[|firsts| - 1];
    if rest == [] {
      i := 0;
    } else {
      i := BestIsFirstMaximum(rest, lengths);
      if multiset(lengths)[last] > multiset(lengths)[rest[i]] {
        forall j | 0 <= j < |rest|
          ensures multiset(lengths)[firsts[j]] < multiset(lengths)[last]
        {
          assert firsts[j] == rest[j];
        }
        i := |rest|;
      }
    }
  }

  /** No length that is stored is more frequent, and there is one unless no vector is stored. */
  lemma MostCommonIs(lengths: seq<nat>, m: nat)
    ensures MostCommon(lengths).None? <==> forall n | n in lengths :: n == 0
    ensures MostCommon(lengths).Some? ==>
              var n := MostCommon(lengths).value;
              n > 0 && n in lengths && (m > 0 ==> multiset(lengths)[m] <= multiset(lengths)[n])
  {
    var firsts := Firsts(lengths);
    if firsts == [] {
      assert forall n | n in lengths :: n > 0 ==> n in firsts;
    } else {
      assert firsts[0] in firsts;
      var i := BestIsFirstMaximum(firsts, lengths);
      assert firsts[i] in firsts;
      if m > 0 && m in lengths {
        assert m in firsts;
        var j :| 0 <= j < |firsts| && firsts[j] == m;
      }
    }
  }

  method CountLengths(lengths: seq<nat>) returns (counts: map<nat, nat>, firsts: seq<nat>)
    ensures firsts == Firsts(lengths)
    ensures forall n | n in firsts :: n in counts && counts[n] == multiset(lengths)[n]
  {
    counts, firsts := map[], [];
    for i := 0 to |lengths|
      invariant firsts == Firsts(lengths[..i])
      invariant forall n :: n in counts <==> n in firsts
      invariant forall n | n in counts :: counts[n] == multiset(lengths[..i])[n]
    {
      assert lengths[..i + 1] == lengths[..i] + [lengths[i]];
      assert lengths[..i + 1][..i] == lengths[..i];
      var n := lengths[i];
      if n > 0 {
        if n !in counts {
          firsts := firsts + [n];
        }
        counts := counts[n := (if n in counts then counts[n] else 0) + 1];
      }
    }
    assert lengths[..|lengths|] == lengths;
  }

  method FindMostCommon(lengths: seq<nat>) returns (best: Option<nat>)
    ensures best == MostCommon(lengths)
  {
    var counts, firsts := CountLengths(lengths);
    best := None;
    for i := 0 to |firsts|
      invariant best == BestOf(firsts[..i], lengths)
      invariant best.Some? ==> best.value in firsts
    {
      assert firsts[..i + 1][..i] == firsts[..i];
      var n := firsts[i];
      if best.None? || counts[n] > counts[best.value] {
        best := Some(n);
      }
    }
    assert firsts[..|firsts|] == firsts;
  }

  /* ---------- snapshots ---------- */

  datatype Snapshot = Snapshot(entities: seq<Entity>, facts: seq<Fact>)

  function Values<V>(d: Dict<V>): seq<V>
    requires forall i | 0 <= i < |d.order| :: d.order[i] in d.at
  {
    seq(|d.order|, i requires 0 <= i < |d.order| => d.at[d.order[i]])
  }

  lemma OrderIsStored<V>(d: Dict<V>)
    requires WellKept(d)
    ensures forall i | 0 <= i < |d.order| :: d.order[i] in d.at
  {
    forall i | 0 <= i < |d.order|
      ensures d.order[i] in d.at
    {
      assert d.order[i] in d.order;
    }
  }

  ghost function ToJSON(s: Store): Snapshot
    requires WellKept(s.entities) && WellKept(s.facts)
  {
    OrderIsStored(s.entities);
    OrderIsStored(s.facts);
    Snapshot(Values(s.entities), Values(s.facts))
  }

  function LoadEntities(list: seq<Entity>): Dict<Entity> {
    if list == [] then Dict(map[], [])
    else Put(LoadEntities(list[..|list| - 1]), list[|list| - 1].uuid, list[|list| - 1])
  }

  function LoadNames(list: seq<Entity>): map<string, int> {
    if list == [] then map[]
    else LoadNames(list[..|list| - 1])[KeyOf(list[|list| - 1]) := list[|list| - 1].uuid]
  }

  function LoadFacts(list: seq<Fact>): Dict<Fact> {
    if list == [] then Dict(map[], [])
    else Put(LoadFacts(list[..|list| - 1]), list[|list| - 1].uuid, list[|list| - 1])
  }

  function LoadLinks(list: seq<Fact>): map<int, seq<int>> {
    if list == [] then map[]
    else
      var f := list[|list| - 1];
      Link(Link(LoadLinks(list[..|list| - 1]), f.source, f.uuid), f.target, f.uuid)
  }

  function Lengths(snapshot: Snapshot): seq<nat> {
    seq(|snapshot.facts|, i requires 0 <= i < |snapshot.facts| => snapshot.facts[i].vector.GetOr(0))
    + seq(|snapshot.entities|, i requires 0 <= i < |snapshot.entities| => snapshot.entities[i].vector.GetOr(0))
  }

  function LoadJSON(snapshot: Snapshot): Store {
    Store(LoadEntities(snapshot.entities), LoadFacts(snapshot.facts), LoadNames(snapshot.entities),
          LoadLinks(snapshot.facts), MostCommon(Lengths(snapshot)))
  }

  /* ---------- a snapshot rebuilds the store ---------- */

  /** Keys inserted one by one, in order, with the values they had. */
  function Inserted<V>(order: seq<int>, values: seq<V>): Dict<V>
    requires |order| == |values|
  {
    if order == [] then Dict(map[], [])
    else
      var n := |order| - 1;
      Put(Inserted(order[..n], values[..n]), order[n], values[n])
  }

  lemma NextIsNew<V>(d: Dict<V>, n: nat)
    requires WellKept(d) && n < |d.order|
    ensures d.order[n] !in d.order[..n] && d.order[..n + 1] == d.order[..n] + [d.order[n]]
  {
  }

  lemma InsertedNext<V>(d: Dict<V>, n: nat)
    requires n < |d.order| && forall i | 0 <= i < |d.order| :: d.order[i] in d.at
    ensures Inserted(d.order[..n + 1], Values(d)[..n + 1])
            == Put(Inserted(d.order[..n], Values(d)[..n]), d.order[n], d.at[d.order[n]])
  {
    var order, values := d.order[..n + 1], Values(d)[..n + 1];
    assert order[..n] == d.order[..n] && values[..n] == Values(d)[..n];
  }

  ghost predicate InsertedUpTo<V>(r: Dict<V>, d: Dict<V>, n: nat)
    requires n <= |d.order|
  {
    && r.order == d.order[..n]
    && (forall k :: k in r.at <==> k in d.order[..n])
    && (forall k | k in r.at :: k in d.at && r.at[k] == d.at[k])
  }

  lemma PutNext<V>(r: Dict<V>, d: Dict<V>, n: nat)
    requires WellKept(d) && n < |d.order| && d.order[n] in d.at && InsertedUpTo(r, d, n)
    ensures InsertedUpTo(Put(r, d.order[n], d.at[d.order[n]]), d, n + 1)
  {
    NextIsNew(d, n);
  }

  lemma {:induction false} InsertedIs<V>(d: Dict<V>, n: nat)
    requires WellKept(d) && n <= |d.order|
    requires forall i | 0 <= i < |d.order| :: d.order[i] in d.at
    ensures InsertedUpTo(Inserted(d.order[..n], Values(d)[..n]), d, n)
  {
    if n > 0 {
      InsertedIs(d, n - 1);
      InsertedNext(d, n - 1);
      PutNext(Inserted(d.order[..n - 1], Values(d)[..n - 1]), d, n - 1);
    }
  }

  lemma InsertedRebuilds<V>(d: Dict<V>)
    requires WellKept(d)
    requires forall i | 0 <= i < |d.order| :: d.order[i] in d.at
    ensures Inserted(d.order, Values(d)) == d
  {
    var r := Inserted(d.order, Values(d));
    InsertedIs(d, |d.order|);
    assert d.order[..|d.order|] == d.order && Values(d)[..|d.order|] == Values(d);
    SameEntries(r.at, d.at);
  }

  lemma SameEntries<V>(m: map<int, V>, n: map<int, V>)
    requires forall k :: k in m <==> k in n
    requires forall k | k in m :: k in n && m[k] == n[k]
    ensures m == n
  {
    assert forall k | k in m :: k in n;
    assert forall k | k in n :: k in m;
    assert forall k | k in m :: m[k] == n[k];
  }

  lemma {:induction false} LoadEntitiesInserts(order: seq<int>, list: seq<Entity>)
    requires |order| == |list| && forall i | 0 <= i < |list| :: list[i].uuid == order[i]
    ensures LoadEntities(list) == Inserted(order, list)
  {
    if list != [] {
      LoadEntitiesInserts(order[..|list| - 1], list[..|list| - 1]);
    }
  }

  lemma {:induction false} LoadFactsInserts(order: seq<int>, list: seq<Fact>)
    requires |order| == |list| && forall i | 0 <= i < |list| :: list[i].uuid == order[i]
    ensures LoadFacts(list) == Inserted(order, list)
  {
    if list != [] {
      LoadFactsInserts(order[..|list| - 1], list[..|list| - 1]);
    }
  }

  lemma {:induction false} LoadNamesAre(list: seq<Entity>, byName: map<string, int>)
    requires forall i | 0 <= i < |list| :: KeyOf(list[i]) in byName && byName[KeyOf(list[i])] == list[i].uuid
    ensures forall key | key in LoadNames(list) :: key in byName && LoadNames(list)[key] == byName[key]
    ensures forall i | 0 <= i < |list| :: KeyOf(list[i]) in LoadNames(list)
  {
    if list != [] {
      LoadNamesAre(list[..|list| - 1], byName);
    }
  }

  lemma NamesRebuilt(entities: Dict<Entity>, byName: map<string, int>)
    requires WellKept(entities) && NamesIndexed(entities, byName) && forall k | k in entities.at :: entities.at[k].uuid == k
    requires forall i | 0 <= i < |entities.order| :: entities.order[i] in entities.at
    ensures LoadNames(Values(entities)) == byName
  {
    var list := Values(entities);
    forall i | 0 <= i < |list|
      ensures KeyOf(list[i]) in byName && byName[KeyOf(list[i])] == list[i].uuid
    {
      var k := entities.order[i];
      assert list[i] == entities.at[k] && entities.at[k].uuid == k;
      assert KeyOf(entities.at[k]) in byName;
    }
    LoadNamesAre(list, byName);
    forall key | key in byName
      ensures key in LoadNames(list)
    {
      var k := byName[key];
      assert k in entities.order;
      var i :| 0 <= i < |entities.order| && entities.order[i] == k;
      assert KeyOf(list[i]) == key;
    }
  }

  /** The facts of the list, stored under these keys. */
  ghost predicate Lists(order: seq<int>, list: seq<Fact>, at: map<int, Fact>) {
    && |order| == |list|
    && (forall i, j | 0 <= i < j < |order| :: order[i] != order[j])
    && (forall i | 0 <= i < |order| :: order[i] in at && at[order[i]] == list[i] && list[i].uuid == order[i])
  }

  lemma {:induction false} LoadLinksAre(order: seq<int>, list: seq<Fact>, at: map<int, Fact>, x: int)
    requires Lists(order, list, at)
    ensures Linked(LoadLinks(list), x) == Scan(at, order, x)
  {
    if list != [] {
      var n := |list| - 1;
      LoadLinksAre(order[..n], list[..n], at, x);
      ScanFinds(at, order[..n], x, order[n]);
      assert order[n] !in order[..n];
      assert list == list[..n] + [list[n]] && order == order[..n] + [order[n]];
      LoadOneMore(list[..n], list[n], x);
      ScanOneMore(at, order[..n], order[n], x);
    }
  }

  lemma LoadOneMore(list: seq<Fact>, f: Fact, x: int)
    ensures Linked(LoadLinks(list + [f]), x)
            == Linked(LoadLinks(list), x)
               + if TouchesEntity(f, x) && f.uuid !in Linked(LoadLinks(list), x) then [f.uuid] else []
  {
    assert (list + [f])[..|list|] == list;
    LinkedTwice(LoadLinks(list), f, x);
  }

  lemma ScanOneMore(at: map<int, Fact>, order: seq<int>, k: int, x: int)
    requires k in at
    ensures Scan(at, order + [k], x) == Scan(at, order, x) + if TouchesEntity(at[k], x) then [k] else []
  {
    assert (order + [k])[..|order|] == order;
  }

  lemma {:induction false} LinksAreNotEmpty(list: seq<Fact>)
    ensures forall x | x in LoadLinks(list) :: LoadLinks(list)[x] != []
  {
    if list != [] {
      LinksAreNotEmpty(list[..|list| - 1]);
    }
  }

  lemma LinksRebuilt(facts: Dict<Fact>, byEntity: map<int, seq<int>>)
    requires WellKept(facts) && FactsIndexed(facts, byEntity) && forall k | k in facts.at :: facts.at[k].uuid == k
    requires forall i | 0 <= i < |facts.order| :: facts.order[i] in facts.at
    ensures LoadLinks(Values(facts)) == byEntity
  {
    var links := LoadLinks(Values(facts));
    LinksAreNotEmpty(Values(facts));
    forall x
      ensures Linked(links, x) == Linked(byEntity, x)
    {
      LoadLinksAre(facts.order, Values(facts), facts.at, x);
    }
    forall x
      ensures x in links <==> x in byEntity
      ensures x in links ==> links[x] == byEntity[x]
    {
      assert Linked(links, x) == Linked(byEntity, x);
    }
  }

  /** Some stored record has a vector. */
  ghost predicate HoldsVector(s: Store) {
    || (exists k :: k in s.entities.at && HasVector(s.entities.at[k].vector))
    || (exists k :: k in s.facts.at && HasVector(s.facts.at[k].vector))
  }

  lemma LengthsAreStored(s: Store, n: nat)
    requires Kept(s) && n in Lengths(ToJSON(s)) && n > 0
    ensures s.dims == Some(n) && HoldsVector(s)
  {
    OrderIsStored(s.entities);
    OrderIsStored(s.facts);
    var lengths, m := Lengths(ToJSON(s)), |s.facts.order|;
    var i :| 0 <= i < |lengths| && lengths[i] == n;
    if i < m {
      assert HasVector(s.facts.at[s.facts.order[i]].vector);
    } else {
      assert HasVector(s.entities.at[s.entities.order[i - m]].vector);
    }
  }

  lemma StoredIsInLengths(s: Store)
    requires Kept(s) && HoldsVector(s)
    ensures s.dims.Some? && s.dims.value in Lengths(ToJSON(s))
  {
    OrderIsStored(s.entities);
    OrderIsStored(s.facts);
    var lengths, m := Lengths(ToJSON(s)), |s.facts.order|;
    if k :| k in s.facts.at && HasVector(s.facts.at[k].vector) {
      assert k in s.facts.order;
      var i :| 0 <= i < m && s.facts.order[i] == k;
      assert lengths[i] == s.dims.value;
    } else {
      var k :| k in s.entities.at && HasVector(s.entities.at[k].vector);
      assert k in s.entities.order;
      var i :| 0 <= i < |s.entities.order| && s.entities.order[i] == k;
      assert lengths[m + i] == s.dims.value;
    }
  }

  lemma LengthRebuilt(s: Store)
    requires Kept(s)
    ensures MostCommon(Lengths(ToJSON(s))) == if HoldsVector(s) then s.dims else None
  {
    var lengths := Lengths(ToJSON(s));
    MostCommonIs(lengths, 0);
    if MostCommon(lengths).Some? {
      LengthsAreStored(s, MostCommon(lengths).value);
    }
    if HoldsVector(s) {
      StoredIsInLengths(s);
      assert s.dims.value > 0;
    }
  }

  lemma RecordsRebuilt(s: Store)
    requires Kept(s)
    ensures LoadEntities(ToJSON(s).entities) == s.entities && LoadFacts(ToJSON(s).facts) == s.facts
  {
    OrderIsStored(s.entities);
    OrderIsStored(s.facts);
    InsertedRebuilds(s.entities);
    InsertedRebuilds(s.facts);
    LoadEntitiesInserts(s.entities.order, Values(s.entities));
    LoadFactsInserts(s.facts.order, Values(s.facts));
  }

  lemma IndexesRebuilt(s: Store)
    requires Kept(s)
    ensures FactsIndexed(s.facts, s.byEntity) ==> LoadLinks(ToJSON(s).facts) == s.byEntity
    ensures NamesIndexed(s.entities, s.byName) ==> LoadNames(ToJSON(s).entities) == s.byName
  {
    OrderIsStored(s.entities);
    OrderIsStored(s.facts);
    if NamesIndexed(s.entities, s.byName) {
      NamesRebuilt(s.entities, s.byName);
    }
    if FactsIndexed(s.facts, s.byEntity) {
      LinksRebuilt(s.facts, s.byEntity);
    }
  }

  /**
   * Loading a snapshot rebuilds the records and their order, whatever was
   * saved, and each index if what it is about was kept; the pinned length
   * comes back exactly when some stored record still has a vector, or none
   * ever was stored.
   */
  lemma SnapshotRebuilds(writes: seq<seq<Change>>)
    ensures Kept(Saved(writes))
    ensures var s := Saved(writes);
            var loaded := LoadJSON(ToJSON(s));
            && loaded.entities == s.entities && loaded.facts == s.facts
            && loaded.dims == (if HoldsVector(s) then s.dims else None)
            && (WritesKeepEnds(writes) ==> loaded.byEntity == s.byEntity)
            && (WritesKeepNames(writes) ==> loaded.byName == s.byName)
  {
    SavedIsKept(writes);
    RecordsRebuilt(Saved(writes));
    IndexesRebuilt(Saved(writes));
    LengthRebuilt(Saved(writes));
  }

  /* ---------- a length that does not come back ---------- */

  const MEASURED := Fact(0, 1, 2, 0, Some(3))
  const BARE := Fact(0, 1, 2, 0, None)
  const ADDING := [AddFact(MEASURED)]
  const STRIPPING := [UpdateFact(BARE)]

  lemma OneChange(s: Store, c: Change)
    requires Apply(s, c).Ok?
    ensures Write(s, [c]).0 == Apply(s, c).value
  {
    assert [c][..0] == [];
    assert ApplyAll(s, []) == (s, None) && CheckAll(s.dims, []) == Ok(s.dims);
  }

  /**
   * At the store's own interface: a fact is added with a vector, then updated
   * to carry none. The length stays pinned, and a snapshot loses it.
   */
  lemma PinIsLost()
    ensures Kept(Saved([ADDING, STRIPPING])) && Saved([ADDING, STRIPPING]).dims == Some(3)
    ensures LoadJSON(ToJSON(Saved([ADDING, STRIPPING]))).dims == None
  {
    var writes := [ADDING, STRIPPING];
    assert writes[..1] == [ADDING] && [ADDING][..0] == [];
    assert Saved([]) == EMPTY;
    OneChange(EMPTY, AddFact(MEASURED));
    var added := Apply(EMPTY, AddFact(MEASURED)).value;
    assert Saved([ADDING]) == added;
    OneChange(added, UpdateFact(BARE));
    var stripped := Apply(added, UpdateFact(BARE)).value;
    assert Saved(writes) == stripped;
    assert stripped.facts.at == map[0 := BARE] && stripped.entities.at == map[];
    SnapshotRebuilds(writes);
  }
}
