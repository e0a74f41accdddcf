/**
 * The in-memory graph: its records, the two indexes over them, the pinned
 * vector length, and its snapshots (src/store/memory-store.ts).
 */
module MemoryStores {
  import opened Wrappers

  /** A map that remembers the order in which its keys came first. */
  datatype Dict<V> = Dict(at: map<int, V>, order: seq<int>)

  function Put<V>(d: Dict<V>, key: int, value: V): Dict<V> {
    Dict(d.at[key := value], if key in d.at then d.order else d.order + [key])
  }

  ghost predicate WellKept<V>(d: Dict<V>) {
    && (forall i, j | 0 <= i < j < |d.order| :: d.order[i] != d.order[j])
    && (forall k :: k in d.order <==> k in d.at)
  }

  /** `folded` is the name in lower case; a vector is known by its length, an empty one being 0. */
  datatype Entity = Entity(uuid: int, group: string, folded: string, data: int, vector: Option<nat>)

  datatype Fact = Fact(uuid: int, source: int, target: int, data: int, vector: Option<nat>)

  datatype Store = Store(entities: Dict<Entity>, facts: Dict<Fact>, byName: map<string, int>,
                         byEntity: map<int, seq<int>>, dims: Option<nat>)

  const EMPTY := Store(Dict(map[], []), Dict(map[], []), map[], map[], None)

  /* ---------- operations ---------- */

  datatype Mismatch = Mismatch(expected: nat, got: nat)

  predicate HasVector(v: Option<nat>) {
    v.GetOr(0) > 0
  }

  /** The first vector stored pins the length; one of another length is rejected. */
  function CheckDims(dims: Option<nat>, v: Option<nat>): Result<Option<nat>, Mismatch> {
    if !HasVector(v) then Ok(dims)
    else if dims.None? then Ok(v)
    else if dims == v then Ok(dims)
    else Err(Mismatch(dims.value, v.value))
  }

  function Key(group: string, folded: string): string {
    group + "::" + folded
  }

  function KeyOf(e: Entity): string {
    Key(e.group, e.folded)
  }

  /** What a stored entity becomes when another of its name is saved: its uuid, and its vector unless it got one, stay. */
  function Merged(existing: Entity, node: Entity): Entity {
    existing.(folded := node.folded, data := node.data, vector := if node.vector.Some? then node.vector else existing.vector)
  }

  function PutEntity(s: Store, node: Entity): Store {
    var key := KeyOf(node);
    if key in s.byName && s.byName[key] != node.uuid then
      var id := s.byName[key];
      if id in s.entities.at then s.(entities := Put(s.entities, id, Merged(s.entities.at[id], node))) else s
    else s.(entities := Put(s.entities, node.uuid, node), byName := s.byName[key := node.uuid])
  }

  function Link(byEntity: map<int, seq<int>>, entity: int, fact: int): map<int, seq<int>> {
    var ids := if entity in byEntity then byEntity[entity] else [];
    byEntity[entity := if fact in ids then ids else ids + [fact]]
  }

  function PutFact(s: Store, f: Fact): Store {
    s.(facts := Put(s.facts, f.uuid, f), byEntity := Link(Link(s.byEntity, f.source, f.uuid), f.target, f.uuid))
  }

  datatype Change = UpsertEntity(node: Entity) | AddFact(f: Fact) | UpdateFact(f: Fact)

  function VectorOf(c: Change): Option<nat> {
    if c.UpsertEntity? then c.node.vector else c.f.vector
  }

  function Apply(s: Store, c: Change): Result<Store, Mismatch> {
    match CheckDims(s.dims, VectorOf(c))
    case Err(e) => Err(e)
    case Ok(dims) =>
      var pinned := s.(dims := dims);
      match c
      case UpsertEntity(node) => Ok(PutEntity(pinned, node))
      case AddFact(f) => Ok(PutFact(pinned, f))
      case UpdateFact(f) => Ok(pinned.(facts := Put(pinned.facts, f.uuid, f)))
  }

  /** The changes made one after the other; the store they leave, even when one of them fails. */
  function ApplyAll(s: Store, changes: seq<Change>): (Store, Option<Mismatch>)
  {
    if changes == [] then (s, None)
    else
      var (before, failed) := ApplyAll(s, changes[..|changes| - 1]);
      if failed.Some? then (before, failed)
      else
        match Apply(before, changes[|changes| - 1])
        case Ok(after) => (after, None)
        case Err(e) => (before, Some(e))
  }

  /* ---------- the run's write ---------- */

  /** The length every vector must have once these are stored, or the first that differs. */
  function CheckAll(dims: Option<nat>, changes: seq<Change>): Result<Option<nat>, Mismatch> {
    if changes == [] then Ok(dims)
    else
      match CheckAll(dims, changes[..|changes| - 1])
      case Err(e) => Err(e)
      case Ok(so) => CheckDims(so, VectorOf(changes[|changes| - 1]))
  }

  /** A run's write on this store: every vector is checked before anything is written. */
  function Write(s: Store, changes: seq<Change>): (Store, Option<Mismatch>) {
    match CheckAll(s.dims, changes)
    case Err(e) => (s, Some(e))
    case Ok(_) => ApplyAll(s, changes)
  }

  lemma {:induction false} CheckedAppliesInFull(s: Store, changes: seq<Change>)
    requires CheckAll(s.dims, changes).Ok?
    ensures ApplyAll(s, changes).1.None? && ApplyAll(s, changes).0.dims == CheckAll(s.dims, changes).value
  {
    if changes != [] {
      CheckedAppliesInFull(s, changes[..|changes| - 1]);
    }
  }

  lemma {:induction false} FailureIsForeseen(s: Store, changes: seq<Change>)
    requires CheckAll(s.dims, changes).Err?
    ensures ApplyAll(s, changes).1.Some?
  {
    if changes != [] {
      var rest := changes[..|changes| - 1];
      if CheckAll(s.dims, rest).Err? {
        FailureIsForeseen(s, rest);
      } else {
        CheckedAppliesInFull(s, rest);
      }
    }
  }

  /**
   * All or nothing: a write is refused exactly when one of its changes would
   * fail, and then leaves the store as it was; otherwise every change is made.
   */
  lemma WriteIsAllOrNothing(s: Store, changes: seq<Change>)
    ensures Write(s, changes).1.Some? <==> ApplyAll(s, changes).1.Some?
    ensures Write(s, changes).0 == if ApplyAll(s, changes).1.Some? then s else ApplyAll(s, changes).0
  {
    if CheckAll(s.dims, changes).Ok? {
      CheckedAppliesInFull(s, changes);
    } else {
      FailureIsForeseen(s, changes);
    }
  }

  /* ---------- names as keys ---------- */

  /** No key of one group is a key of the other. */
  predicate Apart(g: string, h: string) {
    g == h || !(g + "::" <= h + "::" || h + "::" <= g + "::")
  }

  predicate KeysMeet(g: string, n: string, h: string, m: string) {
    Key(g, n) == Key(h, m)
  }

  /** Exactly when two different groups can come to share a key: one, with its separator, begins the other. */
  lemma KeysMeetIff(g: string, h: string)
    requires g != h
    ensures (exists n, m :: KeysMeet(g, n, h, m)) <==> !Apart(g, h)
  {
    if n, m :| KeysMeet(g, n, h, m) {
      KeyIsInjective(g, n, h, m);
    }
    if g + "::" <= h + "::" {
      SharedKey(g, h);
      assert KeysMeet(g, (h + "::")[|g| + 2..], h, "");
    } else if h + "::" <= g + "::" {
      SharedKey(h, g);
      assert KeysMeet(g, "", h, (g + "::")[|h| + 2..]);
    }
  }

  lemma SharedKey(g: string, h: string)
    requires g + "::" <= h + "::"
    ensures Key(g, (h + "::")[|g| + 2..]) == Key(h, "")
  {
    var a := h + "::";
    assert a[..|g| + 2] == g + "::";
    assert a == a[..|g| + 2] + a[|g| + 2..];
    assert a + "" == a;
  }

  /** One key is one group and one name, among groups that are apart. */
  lemma KeyIsInjective(g: string, n: string, h: string, m: string)
    requires Key(g, n) == Key(h, m)
    ensures Apart(g, h) ==> g == h && n == m
    ensures n == m ==> g == h
  {
    var a := Key(g, n);
    assert a[..|g| + 2] == g + "::" && a[..|h| + 2] == h + "::";
    if |g| <= |h| {
      assert a[..|h| + 2][..|g| + 2] == a[..|g| + 2];
    } else {
      assert a[..|g| + 2][..|h| + 2] == a[..|h| + 2];
    }
    if |g| == |h| {
      assert g == a[..|g|] && h == a[..|h|];
      assert n == a[|g| + 2..] && m == a[|h| + 2..];
    }
  }

  /* ---------- the indexes ---------- */

  predicate TouchesEntity(f: Fact, x: int) {
    f.source == x || f.target == x
  }

  /** The facts touching an entity, found by looking at all of them. */
  function Scan(at: map<int, Fact>, order: seq<int>, x: int): seq<int> {
    if order == [] then []
    else
      var k := order[|order| - 1];
      Scan(at, order[..|order| - 1], x) + if k in at && TouchesEntity(at[k], x) then [k] else []
  }

  ghost predicate NamesIndexed(entities: Dict<Entity>, byName: map<string, int>) {
    && (forall k | k in entities.at :: KeyOf(entities.at[k]) in byName && byName[KeyOf(entities.at[k])] == k)
    && (forall key | key in byName :: byName[key] in entities.at && KeyOf(entities.at[byName[key]]) == key)
  }

  function Linked(byEntity: map<int, seq<int>>, x: int): seq<int> {
    if x in byEntity then byEntity[x] else []
  }

  ghost predicate FactsIndexed(facts: Dict<Fact>, byEntity: map<int, seq<int>>) {
    && (forall x :: Linked(byEntity, x) == Scan(facts.at, facts.order, x))
    && (forall x | x in byEntity :: byEntity[x] != [])
  }

  predicate Measured(v: Option<nat>, dims: Option<nat>) {
    HasVector(v) ==> dims == v
  }

  ghost predicate OneLength(s: Store) {
    && (s.dims.Some? ==> s.dims.value > 0)
    && (forall k | k in s.entities.at :: Measured(s.entities.at[k].vector, s.dims))
    && (forall k | k in s.facts.at :: Measured(s.facts.at[k].vector, s.dims))
  }

  /** What every write keeps, whatever it saves. */
  ghost predicate Kept(s: Store) {
    && WellKept(s.entities) && WellKept(s.facts) && OneLength(s)
    && (forall k | k in s.entities.at :: s.entities.at[k].uuid == k)
    && (forall k | k in s.facts.at :: s.facts.at[k].uuid == k)
  }

  ghost predicate Valid(s: Store) {
    Kept(s) && NamesIndexed(s.entities, s.byName) && FactsIndexed(s.facts, s.byEntity)
  }

  predicate SameEnds(f: Fact, g: Fact) {
    f.source == g.source && f.target == g.target
  }

  /** A stored fact keeps its endpoints, and only stored facts are updated. */
  predicate KeepsEnds(s: Store, c: Change) {
    match c
    case UpsertEntity(_) => true
    case AddFact(f) => f.uuid in s.facts.at ==> SameEnds(s.facts.at[f.uuid], f)
    case UpdateFact(f) => f.uuid in s.facts.at && SameEnds(s.facts.at[f.uuid], f)
  }

  /** A stored entity keeps its group and folded name, and no stored entity of another name has the key of the one saved. */
  predicate KeepsNames(s: Store, c: Change) {
    c.UpsertEntity? ==>
      && (c.node.uuid in s.entities.at ==> KeyOf(s.entities.at[c.node.uuid]) == KeyOf(c.node))
      && (forall k | k in s.entities.at && KeyOf(s.entities.at[k]) == KeyOf(c.node) :: s.entities.at[k].folded == c.node.folded)
  }

  predicate Fits(s: Store, c: Change) {
    KeepsEnds(s, c) && KeepsNames(s, c)
  }

  /** An entity of a group that is apart from every group stored meets no other's key. */
  lemma ApartKeepsNames(s: Store, node: Entity)
    requires node.uuid in s.entities.at ==> KeyOf(s.entities.at[node.uuid]) == KeyOf(node)
    requires forall k | k in s.entities.at :: Apart(s.entities.at[k].group, node.group)
    ensures KeepsNames(s, UpsertEntity(node))
  {
    forall k | k in s.entities.at && KeyOf(s.entities.at[k]) == KeyOf(node)
      ensures s.entities.at[k].folded == node.folded
    {
      KeyIsInjective(s.entities.at[k].group, s.entities.at[k].folded, node.group, node.folded);
    }
  }

  lemma PutIsKept<V>(d: Dict<V>, key: int, value: V)
    requires WellKept(d)
    ensures WellKept(Put(d, key, value))
  {
    var after := Put(d, key, value);
    forall k
      ensures k in after.order <==> k in after.at
    {
      assert k in d.order + [key] <==> k in d.order || k == key;
    }
    forall i, j | 0 <= i < j < |after.order|
      ensures after.order[i] != after.order[j]
    {
      assert after.order[i] == d.order[i];
      assert d.order[i] in d.order;
    }
  }

  lemma PutEntityKeepsNames(s: Store, node: Entity)
    requires NamesIndexed(s.entities, s.byName) && KeepsNames(s, UpsertEntity(node))
    ensures var after := PutEntity(s, node);
            NamesIndexed(after.entities, after.byName)
  {
    var key := KeyOf(node);
    if key in s.byName && s.byName[key] != node.uuid {
      var existing := s.entities.at[s.byName[key]];
      assert KeyOf(existing) == key && existing.folded == node.folded;
    }
  }

  lemma {:induction false} ScanFrame(at: map<int, Fact>, after: map<int, Fact>, order: seq<int>, x: int)
    requires forall k | k in order :: k in at <==> k in after
    requires forall k | k in order && k in at :: TouchesEntity(at[k], x) <==> TouchesEntity(after[k], x)
    ensures Scan(at, order, x) == Scan(after, order, x)
  {
    if order != [] {
      var rest := order[..|order| - 1];
      assert order == rest + [order[|order| - 1]];
      ScanFrame(at, after, rest, x);
    }
  }

  /** The scan finds exactly the facts that touch the entity. */
  lemma {:induction false} ScanFinds(at: map<int, Fact>, order: seq<int>, x: int, k: int)
    ensures k in Scan(at, order, x) <==> k in order && k in at && TouchesEntity(at[k], x)
  {
    if order != [] {
      var rest := order[..|order| - 1];
      assert order == rest + [order[|order| - 1]];
      ScanFinds(at, rest, x, k);
    }
  }

  lemma ScanAfterPut(facts: Dict<Fact>, f: Fact, x: int)
    requires WellKept(facts) && (f.uuid in facts.at ==> SameEnds(facts.at[f.uuid], f))
    ensures var after := Put(facts, f.uuid, f);
            Scan(after.at, after.order, x)
            == Scan(facts.at, facts.order, x)
               + if f.uuid !in facts.at && TouchesEntity(f, x) then [f.uuid] else []
  {
    var after := Put(facts, f.uuid, f);
    ScanFrame(facts.at, after.at, facts.order, x);
    if f.uuid !in facts.at {
      assert after.order[..|after.order| - 1] == facts.order;
    }
  }

  lemma LinkedTwice(byEntity: map<int, seq<int>>, f: Fact, x: int)
    ensures Linked(Link(Link(byEntity, f.source, f.uuid), f.target, f.uuid), x)
            == Linked(byEntity, x)
               + if TouchesEntity(f, x) && f.uuid !in Linked(byEntity, x) then [f.uuid] else []
  {
  }

  lemma LinkedAfterPut(s: Store, f: Fact, x: int)
    requires WellKept(s.facts) && Linked(s.byEntity, x) == Scan(s.facts.at, s.facts.order, x) && KeepsEnds(s, AddFact(f))
    ensures var after := PutFact(s, f);
            Linked(after.byEntity, x) == Scan(after.facts.at, after.facts.order, x)
  {
    ScanAfterPut(s.facts, f, x);
    LinkedTwice(s.byEntity, f, x);
    ScanFinds(s.facts.at, s.facts.order, x, f.uuid);
  }

  lemma PutFactKeepsIndex(s: Store, f: Fact)
    requires WellKept(s.facts) && FactsIndexed(s.facts, s.byEntity) && KeepsEnds(s, AddFact(f))
    ensures var after := PutFact(s, f);
            FactsIndexed(after.facts, after.byEntity)
  {
    var after := PutFact(s, f);
    LinksAreNotEmptied(s.byEntity, f.source, f.uuid);
    LinksAreNotEmptied(Link(s.byEntity, f.source, f.uuid), f.target, f.uuid);
    forall x
      ensures Linked(after.byEntity, x) == Scan(after.facts.at, after.facts.order, x)
    {
      LinkedAfterPut(s, f, x);
    }
  }

  lemma LinksAreNotEmptied(byEntity: map<int, seq<int>>, entity: int, fact: int)
    requires forall x | x in byEntity :: byEntity[x] != []
    ensures forall x | x in Link(byEntity, entity, fact) :: Link(byEntity, entity, fact)[x] != []
  {
  }

  lemma UpdateKeepsIndex(s: Store, f: Fact)
    requires WellKept(s.facts) && FactsIndexed(s.facts, s.byEntity) && KeepsEnds(s, UpdateFact(f))
    ensures FactsIndexed(Put(s.facts, f.uuid, f), s.byEntity)
  {
    forall x
      ensures Linked(s.byEntity, x) == Scan(Put(s.facts, f.uuid, f).at, s.facts.order, x)
    {
      ScanAfterPut(s.facts, f, x);
    }
  }

  lemma PinKeepsLength(s: Store, v: Option<nat>)
    requires OneLength(s) && CheckDims(s.dims, v).Ok?
    ensures var pinned := s.(dims := CheckDims(s.dims, v).value);
            OneLength(pinned) && Measured(v, pinned.dims)
  {
  }

  lemma PutKeepsLength(s: Store, c: Change)
    requires OneLength(s) && Measured(VectorOf(c), s.dims)
    ensures c.UpsertEntity? ==> OneLength(PutEntity(s, c.node))
    ensures !c.UpsertEntity? ==> OneLength(PutFact(s, c.f)) && OneLength(s.(facts := Put(s.facts, c.f.uuid, c.f)))
  {
  }

  lemma ApplyKeeps(s: Store, c: Change)
    requires Kept(s) && Apply(s, c).Ok?
    ensures Kept(Apply(s, c).value)
  {
    var pinned := s.(dims := CheckDims(s.dims, VectorOf(c)).value);
    PinKeepsLength(s, VectorOf(c));
    PutKeepsLength(pinned, c);
    match c
    case UpsertEntity(node) =>
      PutIsKept(s.entities, node.uuid, node);
      var key := KeyOf(node);
      if key in s.byName && s.byName[key] in s.entities.at {
        PutIsKept(s.entities, s.byName[key], Merged(s.entities.at[s.byName[key]], node));
      }
    case AddFact(f) => PutIsKept(s.facts, f.uuid, f);
    case UpdateFact(f) => PutIsKept(s.facts, f.uuid, f);
  }

  lemma ApplyKeepsEnds(s: Store, c: Change)
    requires Kept(s) && FactsIndexed(s.facts, s.byEntity) && KeepsEnds(s, c) && Apply(s, c).Ok?
    ensures FactsIndexed(Apply(s, c).value.facts, Apply(s, c).value.byEntity)
  {
    var pinned := s.(dims := CheckDims(s.dims, VectorOf(c)).value);
    match c
    case UpsertEntity(_) =>
    case AddFact(f) => PutFactKeepsIndex(pinned, f);
    case UpdateFact(f) => UpdateKeepsIndex(pinned, f);
  }

  lemma ApplyKeepsNames(s: Store, c: Change)
    requires NamesIndexed(s.entities, s.byName) && KeepsNames(s, c) && Apply(s, c).Ok?
    ensures NamesIndexed(Apply(s, c).value.entities, Apply(s, c).value.byName)
  {
    if c.UpsertEntity? {
      PutEntityKeepsNames(s.(dims := CheckDims(s.dims, VectorOf(c)).value), c.node);
    }
  }

  lemma ApplyKeepsValid(s: Store, c: Change)
    requires Valid(s) && Fits(s, c) && Apply(s, c).Ok?
    ensures Valid(Apply(s, c).value)
  {
    ApplyKeeps(s, c);
    ApplyKeepsEnds(s, c);
    ApplyKeepsNames(s, c);
  }

  /* ---------- what one save changes ---------- */

  /**
   * Saving an entity whose name is stored under another uuid gives the stored
   * one the new name and data, and the new vector if there is one; its uuid
   * and group stay. Otherwise the entity itself is stored, in its old place
   * if it had one, and found by its name.
   */
  lemma UpsertIs(s: Store, node: Entity)
    ensures var after, key := PutEntity(s, node), node.group + "::" + node.folded;
            && after.facts == s.facts && after.byEntity == s.byEntity && after.dims == s.dims
            && if key in s.byName && s.byName[key] != node.uuid then
                 var id := s.byName[key];
                 && after.byName == s.byName
                 && (id !in s.entities.at ==> after.entities == s.entities)
                 && (id in s.entities.at ==>
                       && after.entities.order == s.entities.order
                       && after.entities.at.Keys == s.entities.at.Keys
                       && (forall k | k in s.entities.at && k != id :: after.entities.at[k] == s.entities.at[k])
                       && var e, stored := after.entities.at[id], s.entities.at[id];
                          && e.uuid == stored.uuid && e.group == stored.group
                          && e.folded == node.folded && e.data == node.data
                          && e.vector == if node.vector.Some? then node.vector else stored.vector)
               else
                 && after.byName == s.byName[key := node.uuid]
                 && after.entities.at == s.entities.at[node.uuid := node]
                 && after.entities.order == s.entities.order + if node.uuid in s.entities.at then [] else [node.uuid]
  {
  }

  /** Saving a fact stores it, in its old place if it had one, and lists it once at each of its ends; updating one leaves the lists. */
  lemma FactSaveIs(s: Store, f: Fact, x: int)
    ensures forall c | c in {AddFact(f), UpdateFact(f)} && Apply(s, c).Ok? ::
              var after := Apply(s, c).value;
              && after.entities == s.entities && after.byName == s.byName
              && after.facts.at == s.facts.at[f.uuid := f]
              && after.facts.order == s.facts.order + (if f.uuid in s.facts.at then [] else [f.uuid])
              && Linked(after.byEntity, x)
                 == Linked(s.byEntity, x)
                    + if c.AddFact? && (f.source == x || f.target == x) && f.uuid !in Linked(s.byEntity, x) then [f.uuid] else []
  {
    LinkedTwice(s.byEntity, f, x);
  }

  /** Exactly when a save is rejected: it has a vector, and the length pinned is another; the first one pins it. */
  lemma RejectedIff(s: Store, c: Change)
    ensures var v := if c.UpsertEntity? then c.node.vector else c.f.vector;
            var measured := v.Some? && v.value > 0;
            && (Apply(s, c).Err? <==> measured && s.dims.Some? && s.dims.value != v.value)
            && (Apply(s, c).Err? ==> Apply(s, c).error == Mismatch(s.dims.value, v.value))
            && (Apply(s, c).Ok? ==> Apply(s, c).value.dims == if measured && s.dims.None? then v else s.dims)
  {
  }

  /* ---------- over every history of writes ---------- */

  function Saved(writes: seq<seq<Change>>): Store {
    if writes == [] then EMPTY else Write(Saved(writes[..|writes| - 1]), writes[|writes| - 1]).0
  }

  predicate AllKeepEnds(s: Store, changes: seq<Change>) {
    changes == []
    || (AllKeepEnds(s, changes[..|changes| - 1])
        && KeepsEnds(ApplyAll(s, changes[..|changes| - 1]).0, changes[|changes| - 1]))
  }

  predicate AllKeepNames(s: Store, changes: seq<Change>) {
    changes == []
    || (AllKeepNames(s, changes[..|changes| - 1])
        && KeepsNames(ApplyAll(s, changes[..|changes| - 1]).0, changes[|changes| - 1]))
  }

  predicate WritesKeepEnds(writes: seq<seq<Change>>) {
    writes == []
    || (WritesKeepEnds(writes[..|writes| - 1]) && AllKeepEnds(Saved(writes[..|writes| - 1]), writes[|writes| - 1]))
  }

  predicate WritesKeepNames(writes: seq<seq<Change>>) {
    writes == []
    || (WritesKeepNames(writes[..|writes| - 1]) && AllKeepNames(Saved(writes[..|writes| - 1]), writes[|writes| - 1]))
  }

  lemma {:induction false} ApplyAllKeeps(s: Store, changes: seq<Change>)
    requires Kept(s)
    ensures Kept(ApplyAll(s, changes).0)
    ensures FactsIndexed(s.facts, s.byEntity) && AllKeepEnds(s, changes) ==>
              FactsIndexed(ApplyAll(s, changes).0.facts, ApplyAll(s, changes).0.byEntity)
    ensures NamesIndexed(s.entities, s.byName) && AllKeepNames(s, changes) ==>
              NamesIndexed(ApplyAll(s, changes).0.entities, ApplyAll(s, changes).0.byName)
  {
    if changes != [] {
      var rest, last := changes[..|changes| - 1], changes[|changes| - 1];
      ApplyAllKeeps(s, rest);
      var before := ApplyAll(s, rest).0;
      if Apply(before, last).Ok? {
        ApplyKeeps(before, last);
        if FactsIndexed(s.facts, s.byEntity) && AllKeepEnds(s, changes) {
          ApplyKeepsEnds(before, last);
        }
        if NamesIndexed(s.entities, s.byName) && AllKeepNames(s, changes) {
          ApplyKeepsNames(before, last);
        }
      }
    }
  }

  /** Whatever is saved, the store is kept; each index is right if what it is about was kept. */
  lemma {:induction false} SavedIsKept(writes: seq<seq<Change>>)
    ensures Kept(Saved(writes))
    ensures WritesKeepEnds(writes) ==> FactsIndexed(Saved(writes).facts, Saved(writes).byEntity)
    ensures WritesKeepNames(writes) ==> NamesIndexed(Saved(writes).entities, Saved(writes).byName)
  {
    if writes != [] {
      var s := Saved(writes[..|writes| - 1]);
      SavedIsKept(writes[..|writes| - 1]);
      WriteIsAllOrNothing(s, writes[|writes| - 1]);
      ApplyAllKeeps(s, writes[|writes| - 1]);
    }
  }

  function FindEntityByName(s: Store, group: string, folded: string): Option<Entity> {
    var key := Key(group, folded);
    if key in s.byName && s.byName[key] in s.entities.at then Some(s.entities.at[s.byName[key]]) else None
  }

  function GetFactsForEntity(s: Store, x: int): seq<int> {
    Linked(s.byEntity, x)
  }

  predicate Stored(s: Store, e: Entity) {
    e.uuid in s.entities.at && s.entities.at[e.uuid] == e
  }

  /** A lookup by this name finds exactly what a scan of the entities would. */
  ghost predicate LookupIsScan(s: Store, group: string, folded: string) {
    forall e :: FindEntityByName(s, group, folded) == Some(e)
                <==> Stored(s, e) && e.group == group && e.folded == folded
  }

  /** A stored entity of another group has this name's key. */
  predicate Shadowed(s: Store, group: string, folded: string) {
    exists k :: k in s.entities.at && s.entities.at[k].group != group && KeyOf(s.entities.at[k]) == Key(group, folded)
  }

  /**
   * Exactly when a lookup by name is as good as a scan: no stored entity of
   * another group has its key, as none has when the group is apart from those.
   */
  lemma NameLookupIsScanIff(writes: seq<seq<Change>>, group: string, folded: string)
    requires WritesKeepNames(writes)
    ensures var s := Saved(writes);
            && (LookupIsScan(s, group, folded) <==> !Shadowed(s, group, folded))
            && ((forall k | k in s.entities.at :: Apart(s.entities.at[k].group, group)) ==> LookupIsScan(s, group, folded))
  {
    var s := Saved(writes);
    SavedIsKept(writes);
    forall e
      ensures FindEntityByName(s, group, folded) == Some(e) <==> Stored(s, e) && KeyOf(e) == Key(group, folded)
    {
      NameLookup(s, group, folded, e);
    }
    ShadowedIff(s, group, folded);
    if forall k | k in s.entities.at :: Apart(s.entities.at[k].group, group) {
      forall k | k in s.entities.at && KeyOf(s.entities.at[k]) == Key(group, folded)
        ensures s.entities.at[k].group == group
      {
        KeyIsInjective(s.entities.at[k].group, s.entities.at[k].folded, group, folded);
      }
    }
  }

  lemma NameLookup(s: Store, group: string, folded: string, e: Entity)
    requires Kept(s) && NamesIndexed(s.entities, s.byName)
    ensures FindEntityByName(s, group, folded) == Some(e) <==> Stored(s, e) && KeyOf(e) == Key(group, folded)
  {
    var key := Key(group, folded);
    if FindEntityByName(s, group, folded) == Some(e) {
      var id := s.byName[key];
      assert id in s.entities.at && s.entities.at[id] == e && KeyOf(s.entities.at[id]) == key;
      assert s.entities.at[id].uuid == id;
    }
    if Stored(s, e) && KeyOf(e) == key {
      assert e.uuid in s.entities.at && KeyOf(s.entities.at[e.uuid]) in s.byName;
      assert s.byName[KeyOf(s.entities.at[e.uuid])] == e.uuid;
    }
  }

  lemma SameKeySameName(e: Entity, group: string, folded: string)
    requires KeyOf(e) == Key(group, folded)
    ensures e.group == group <==> e.folded == folded
  {
    KeyIsInjective(e.group, e.folded, group, folded);
    if e.group == group {
      assert Apart(e.group, group);
    }
  }

  lemma ShadowedIff(s: Store, group: string, folded: string)
    requires Kept(s)
    requires forall e :: FindEntityByName(s, group, folded) == Some(e) <==> Stored(s, e) && KeyOf(e) == Key(group, folded)
    ensures LookupIsScan(s, group, folded) <==> !Shadowed(s, group, folded)
  {
    if k :| k in s.entities.at && s.entities.at[k].group != group && KeyOf(s.entities.at[k]) == Key(group, folded) {
      assert Stored(s, s.entities.at[k]);
    } else {
      forall e
        ensures FindEntityByName(s, group, folded) == Some(e) <==> Stored(s, e) && e.group == group && e.folded == folded
      {
        if Stored(s, e) && KeyOf(e) == Key(group, folded) {
          SameKeySameName(e, group, folded);
        }
      }
    }
  }

  /** A lookup by entity gives the facts a scan finds, in the same order. */
  lemma EntityLookupIsScan(writes: seq<seq<Change>>, x: int, k: int)
    requires WritesKeepEnds(writes)
    ensures var s := Saved(writes);
            && GetFactsForEntity(s, x) == Scan(s.facts.at, s.facts.order, x)
            && (k in GetFactsForEntity(s, x) <==> k in s.facts.at && TouchesEntity(s.facts.at[k], x))
  {
    SavedIsKept(writes);
    var s := Saved(writes);
    ScanFinds(s.facts.at, s.facts.order, x, k);
  }

  /* ---------- two groups that share a key ---------- */

  function SavedAfter(first: Entity, second: Entity): Store {
    Saved([[UpsertEntity(first)], [UpsertEntity(second)]])
  }

  lemma TwoUpserts(first: Entity, second: Entity)
    requires first.uuid != second.uuid && first.vector.None? && second.vector.None?
    ensures SavedAfter(first, second) == PutEntity(PutEntity(EMPTY, first), second)
  {
    var one, two := [UpsertEntity(first)], [UpsertEntity(second)];
    assert [one, two][..1] == [one] && [one][..0] == [];
    OneUpsert(EMPTY, first);
    assert Saved([]) == EMPTY && Saved([one]) == PutEntity(EMPTY, first);
    OneUpsert(PutEntity(EMPTY, first), second);
  }

  lemma OneUpsert(s: Store, e: Entity)
    requires e.vector.None?
    ensures Write(s, [UpsertEntity(e)]) == (PutEntity(s, e), None)
  {
    var changes := [UpsertEntity(e)];
    assert changes[..0] == [];
    assert CheckAll(s.dims, []) == Ok(s.dims) && ApplyAll(s, []) == (s, None);
  }

  /** The second of two new entities is written into the first, instead of being stored. */
  predicate Overwrites(g: string, n: string, h: string, m: string) {
    var s := SavedAfter(Entity(1, g, n, 0, None), Entity(2, h, m, 0, None));
    2 !in s.entities.at && 1 in s.entities.at && s.entities.at[1].group == g && s.entities.at[1].folded == m
  }

  /** Exactly when two groups can disturb each other: some entity of one is written over an entity of the other. */
  lemma GroupsInterfereIff(g: string, h: string)
    requires g != h
    ensures (exists n, m :: Overwrites(g, n, h, m)) <==> !Apart(g, h)
  {
    KeysMeetIff(g, h);
    if n, m :| Overwrites(g, n, h, m) {
      OverwritesIff(g, n, h, m);
    }
    if n, m :| KeysMeet(g, n, h, m) {
      OverwritesIff(g, n, h, m);
    }
  }

  lemma OverwritesIff(g: string, n: string, h: string, m: string)
    ensures Overwrites(g, n, h, m) <==> KeysMeet(g, n, h, m)
  {
    var first, second := Entity(1, g, n, 0, None), Entity(2, h, m, 0, None);
    TwoUpserts(first, second);
    var one := PutEntity(EMPTY, first);
    assert one.entities.at == map[1 := first] && one.byName == map[KeyOf(first) := 1];
  }

  /**
   * It happens: "c" is saved in group "a::b" and becomes the new name of
   * "b::c" in group "a". The group "a::b" then stores nothing, a lookup there
   * finds the other group's entity, and a lookup of that one finds nothing.
   */
  lemma ColonsCollide()
    ensures var s := SavedAfter(Entity(1, "a", "b::c", 0, None), Entity(2, "a::b", "c", 0, None));
            && s.entities.at == map[1 := Entity(1, "a", "c", 0, None)]
            && FindEntityByName(s, "a::b", "c") == Some(Entity(1, "a", "c", 0, None))
            && FindEntityByName(s, "a", "c") == None
  {
    var first, second := Entity(1, "a", "b::c", 0, None), Entity(2, "a::b", "c", 0, None);
    assert Key("a", "b::c") == "a::b::c" && Key("a::b", "c") == "a::b::c";
    assert Key("a", "c") == "a::c";
    TwoUpserts(first, second);
    var one := PutEntity(EMPTY, first);
    assert one.entities.at == map[1 := first] && one.byName == map["a::b::c" := 1];
  }
}
