/**
 * The in-memory graph as an object, updated in place
 * (src/store/memory-store.ts), and a run's write to it (src/pipeline/ingest.ts).
 */
module GraphStores {
  import opened Wrappers
  import opened MemoryStores
  import opened Snapshots

  class MemoryGraphStore {
    var entities: Dict<Entity>
    var facts: Dict<Fact>
    var byName: map<string, int>
    var byEntity: map<int, seq<int>>
    var dims: Option<nat>

    ghost function Now(): Store
      reads this
    {
      Store(entities, facts, byName, byEntity, dims)
    }

    constructor ()
      ensures Now() == EMPTY
    {
      entities, facts, byName, byEntity, dims := Dict(map[], []), Dict(map[], []), map[], map[], None;
    }

    /** Pins the length, or reports one that differs. */
    method Check(v: Option<nat>) returns (error: Option<Mismatch>)
      modifies this`dims
      ensures match CheckDims(old(dims), v)
              case Ok(pinned) => error.None? && dims == pinned
              case Err(e) => error == Some(e) && dims == old(dims)
    {
      error := None;
      if v.GetOr(0) == 0 {
        return;
      }
      if dims.None? {
        dims := v;
      } else if v.value != dims.value {
        error := Some(Mismatch(dims.value, v.value));
      }
    }

    method Upsert(node: Entity) returns (error: Option<Mismatch>)
      modifies this
      ensures match Apply(old(Now()), UpsertEntity(node))
              case Ok(after) => error.None? && Now() == after
              case Err(e) => error == Some(e) && Now() == old(Now())
    {
      error := Check(node.vector);
      if error.Some? {
        return;
      }
      var key := Key(node.group, node.folded);
      if key in byName && byName[key] != node.uuid {
        var id := byName[key];
        if id in entities.at {
          var existing := entities.at[id];
          existing := existing.(data := node.data);
          existing := existing.(vector := if node.vector.Some? then node.vector else existing.vector);
          existing := existing.(folded := node.folded);
          entities := Put(entities, id, existing);
        }
        return;
      }
      entities := Put(entities, node.uuid, node);
      byName := byName[key := node.uuid];
    }

    method LinkTo(entity: int, fact: int)
      modifies this`byEntity
      ensures byEntity == Link(old(byEntity), entity, fact)
    {
      if entity !in byEntity {
        byEntity := byEntity[entity := []];
      }
      if fact !in byEntity[entity] {
        byEntity := byEntity[entity := byEntity[entity] + [fact]];
      }
    }

    method Add(f: Fact) returns (error: Option<Mismatch>)
      modifies this
      ensures match Apply(old(Now()), AddFact(f))
              case Ok(after) => error.None? && Now() == after
              case Err(e) => error == Some(e) && Now() == old(Now())
    {
      error := Check(f.vector);
      if error.Some? {
        return;
      }
      facts := Put(facts, f.uuid, f);
      LinkTo(f.source, f.uuid);
      LinkTo(f.target, f.uuid);
    }

    method Update(f: Fact) returns (error: Option<Mismatch>)
      modifies this
      ensures match Apply(old(Now()), UpdateFact(f))
              case Ok(after) => error.None? && Now() == after
              case Err(e) => error == Some(e) && Now() == old(Now())
    {
      error := Check(f.vector);
      if error.Some? {
        return;
      }
      facts := Put(facts, f.uuid, f);
    }

    method Save(c: Change) returns (error: Option<Mismatch>)
      modifies this
      ensures match Apply(old(Now()), c)
              case Ok(after) => error.None? && Now() == after
              case Err(e) => error == Some(e) && Now() == old(Now())
    {
      match c {
        case UpsertEntity(node) => error := Upsert(node);
        case AddFact(f) => error := Add(f);
        case UpdateFact(f) => error := Update(f);
      }
    }

    /** Replaces everything by what the snapshot holds. */
    method Load(snapshot: Snapshot)
      modifies this
      ensures Now() == LoadJSON(snapshot)
    {
      dims := FindMostCommon(Lengths(snapshot));
      FillEntities(snapshot.entities);
      FillFacts(snapshot.facts);
    }

    method FillEntities(list: seq<Entity>)
      modifies this`entities, this`byName
      ensures entities == LoadEntities(list) && byName == LoadNames(list)
    {
      entities, byName := Dict(map[], []), map[];
      for i := 0 to |list|
        invariant entities == LoadEntities(list[..i]) && byName == LoadNames(list[..i])
      {
        assert list[..i + 1][..i] == list[..i];
        var n := list[i];
        entities := Put(entities, n.uuid, n);
        byName := byName[Key(n.group, n.folded) := n.uuid];
      }
      assert list[..|list|] == list;
    }

    method FillFacts(list: seq<Fact>)
      modifies this`facts, this`byEntity
      ensures facts == LoadFacts(list) && byEntity == LoadLinks(list)
    {
      facts, byEntity := Dict(map[], []), map[];
      for i := 0 to |list|
        invariant facts == LoadFacts(list[..i]) && byEntity == LoadLinks(list[..i])
      {
        assert list[..i + 1][..i] == list[..i];
        var f := list[i];
        facts := Put(facts, f.uuid, f);
        LinkTo(f.source, f.uuid);
        LinkTo(f.target, f.uuid);
      }
      assert list[..|list|] == list;
    }
  }

  /** A run's write: every vector is checked first, then the changes are made one by one. */
  method WriteTo(store: MemoryGraphStore, changes: seq<Change>) returns (error: Option<Mismatch>)
    modifies store
    ensures (store.Now(), error) == Write(old(store.Now()), changes)
  {
    var dims := store.dims;
    error := None;
    for i := 0 to |changes|
      invariant error.None? && CheckAll(store.dims, changes[..i]) == Ok(dims)
    {
      assert changes[..i + 1][..i] == changes[..i];
      var v := VectorOf(changes[i]);
      if v.GetOr(0) == 0 {
        continue;
      }
      if dims.None? {
        dims := v;
      }
      if v.value != dims.value {
        error := Some(Mismatch(dims.value, v.value));
        ErrorStays(store.dims, changes, i + 1);
        return;
      }
    }
    assert changes[..|changes|] == changes;
    for i := 0 to |changes|
      invariant error.None? && (store.Now(), None) == ApplyAll(old(store.Now()), changes[..i])
    {
      assert changes[..i + 1][..i] == changes[..i];
      PrefixIsChecked(old(store.dims), changes, i + 1);
      CheckedAppliesInFull(old(store.Now()), changes[..i + 1]);
      error := store.Save(changes[i]);
    }
  }

  lemma {:induction false} ErrorStays(dims: Option<nat>, changes: seq<Change>, n: nat)
    requires n <= |changes| && CheckAll(dims, changes[..n]).Err?
    ensures CheckAll(dims, changes) == CheckAll(dims, changes[..n])
  {
    if n == |changes| {
      assert changes[..n] == changes;
    } else {
      var rest := changes[..|changes| - 1];
      assert rest[..n] == changes[..n];
      ErrorStays(dims, rest, n);
    }
  }

  lemma {:induction false} PrefixIsChecked(dims: Option<nat>, changes: seq<Change>, n: nat)
    requires n <= |changes| && CheckAll(dims, changes).Ok?
    ensures CheckAll(dims, changes[..n]).Ok?
  {
    if CheckAll(dims, changes[..n]).Err? {
      ErrorStays(dims, changes, n);
    }
  }
}
