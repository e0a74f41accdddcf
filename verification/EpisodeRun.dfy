/**
 * One episode's processing, as the code does it: the class EpisodeRun of
 * src/pipeline/ingest.ts updates its working rows step by step. Each method
 * is proved to do what the functions of Resolution say.
 */
module EpisodeRuns {
  import opened Wrappers
  import opened Temporal
  import opened Facts
  import opened Resolution
  import opened Untouched

  /** A verdict over distinct records ends distinct records. */
  lemma JudgedIsDistinct(q: Query)
    requires Distinct(q.pool)
    ensures Distinct(q.Judged().ended)
  {
    SelectIsDistinct(q.pool, (i: nat) => q.Shown(i));
  }

  lemma {:induction false} ClosingLeavesOthers(ctx: Context, w: Work, ended: seq<nat>, at: Instant, i: nat)
    requires i < |w.rows| && i !in ended
    ensures Resolution.CloseEnded(ctx, w, ended, at).rows[i] == w.rows[i]
  {
    if ended != [] {
      assert ended[|ended| - 1] in ended;
      ClosingLeavesOthers(ctx, w, ended[..|ended| - 1], at, i);
    }
  }

  class EpisodeRun {
    const ctx: Context
    /** the rows, in the store's order, then the created ones */
    var work: seq<Fact>
    var loadedFor: set<Id>
    /** the working map's keys, in insertion order */
    var loaded: seq<nat>
    var created: set<nat>
    var dirtyFacts: set<nat>
    var reinforced: seq<nat>
    var invalidated: seq<nat>

    ghost predicate Valid()
      reads this
    {
      && ctx.base <= |work|
      && (forall i :: i in created <==> ctx.base <= i < |work|)
      && Distinct(loaded) && (forall i | i in loaded :: i < |work|)
    }

    ghost function State(): Work
      reads this
    {
      Work(work, loadedFor, loaded, dirtyFacts, reinforced, invalidated)
    }

    constructor (run: RunInput, stored: seq<Fact>)
      ensures Valid() && ctx == ContextOf(run, |stored|) && State() == Start(stored)
    {
      ctx := ContextOf(run, |stored|);
      work, loadedFor, loaded := stored, {}, [];
      created, dirtyFacts, reinforced, invalidated := {}, {}, [], [];
    }

    /** The facts touching the entity, loaded from the store once. */
    method FactsOf(entity: Id) returns (pool: seq<nat>)
      requires Valid()
      modifies this`loadedFor, this`loaded
      ensures Valid() && State() == Load(ctx, old(State()), entity)
      ensures pool == Pool(State(), entity) && Distinct(pool)
    {
      if entity !in loadedFor {
        loadedFor := loadedFor + {entity};
        var listed := Listed(ctx.listing, work, entity, ctx.base);
        for k := 0 to |listed|
          invariant Valid() && loadedFor == old(loadedFor) + {entity}
          invariant loaded == old(loaded) + NotLoaded(listed[..k], old(loaded))
        {
          assert listed[..k + 1][..k] == listed[..k];
          var i := listed[k];
          assert i in listed;
          if i !in loaded {
            loaded := loaded + [i];
          }
        }
        assert listed[..|listed|] == listed;
      }
      SelectIsDistinct(loaded, PoolTest(work, entity));
      pool := Select(loaded, PoolTest(work, entity));
    }

    /** Ends a row at `at`; one created by this run only carries its end. */
    method Close(i: nat, at: Instant)
      requires Valid() && i < |work|
      modifies this`work, this`dirtyFacts, this`invalidated
      ensures Valid() && State() == Resolution.Close(ctx, old(State()), i, at)
    {
      var before := if i in invalidated then work[i].marks.previousEnd else work[i].invalidAt;
      work := work[i := work[i].(invalidAt := Some(at))];
      if i in created {
        return;
      }
      work := work[i := work[i].(
        expiredAt := Some(ctx.now),
        marks := WithoutEpisodeClosure(work[i].marks).(closedByEpisode := Some(ctx.episode.id), previousEnd := before))];
      dirtyFacts := dirtyFacts + {i};
      if i !in invalidated {
        invalidated := invalidated + [i];
      }
    }

    /** Empties a note's row at its start. */
    method Outdate(i: nat)
      requires Valid() && i < |work| && work[i].validAt.Some?
      modifies this`work, this`dirtyFacts, this`invalidated
      ensures Valid() && State() == Resolution.Outdate(ctx, old(State()), i)
    {
      Close(i, work[i].validAt.value);
      work := work[i := work[i].(marks := work[i].marks.(outdatedWhenWritten := true))];
    }

    /** Records the episode as evidence; an end the text states closes an open row. */
    method Reinforce(i: nat, end: Option<Instant>)
      requires Valid() && i < |work|
      modifies this`work, this`dirtyFacts, this`reinforced, this`invalidated
      ensures Valid() && State() == Resolution.Reinforce(ctx, old(State()), i, end)
    {
      if i !in created {
        if ctx.episode.id !in work[i].episodes {
          work := work[i := work[i].(episodes := work[i].episodes + [ctx.episode.id])];
        }
        dirtyFacts := dirtyFacts + {i};
        if i !in reinforced {
          reinforced := reinforced + [i];
        }
      }
      if end.Some? && work[i].invalidAt.None? && (work[i].validAt.None? || end.value > work[i].validAt.value) {
        Close(i, end.value);
      }
    }

    /** The start of a record becomes the statement's. */
    method MoveStart(i: nat, start: Option<Instant>, fromEpisode: bool)
      requires Valid() && i < |work|
      modifies this`work
      ensures Valid() && State() == Resolution.MoveStart(old(State()), i, start, fromEpisode)
    {
      work := work[i := work[i].(validAt := start)];
      work := work[i := work[i].(marks := WithStart(work[i].marks, fromEpisode))];
    }

    /** The end that the later record and the records standing alongside leave a new edge. */
    method EndBeside(q: Query) returns (end: Option<Instant>)
      requires q.rows == work
      ensures end == q.EndAfter([])
    {
      end := Earliest(q.span.invalidAt, q.LaterStart());
      var alongside := q.AlongsideList();
      for k := 0 to |alongside|
        invariant end == q.EndAlongside(alongside[..k])
      {
        assert alongside[..k + 1][..k] == alongside[..k];
        assert alongside[k] in alongside;
        end := Earliest(end, work[alongside[k]].invalidAt);
      }
      assert alongside[..|alongside|] == alongside;
    }

    /** Closes the records the verdict ends, and lets the new edge end where they require. */
    method TakeOver(q: Query, ended: seq<nat>, start: Option<Instant>) returns (end: Option<Instant>)
      requires Valid() && q.ctx == ctx && q.rows == work && q.span.validAt.Some?
      requires start == q.EndAfter([]) && Distinct(ended) && forall i | i in ended :: i < |work|
      modifies this`work, this`dirtyFacts, this`invalidated
      ensures Valid() && State() == CloseEnded(ctx, old(State()), ended, q.span.validAt.value)
      ensures end == q.EndAfter(ended)
    {
      var at := q.span.validAt.value;
      end := start;
      for k := 0 to |ended|
        invariant Valid() && State() == CloseEnded(ctx, old(State()), ended[..k], at)
        invariant end == q.EndAfter(ended[..k])
      {
        assert ended[..k + 1][..k] == ended[..k];
        var i := ended[k];
        assert i in ended && i !in ended[..k];
        ClosingLeavesOthers(ctx, old(State()), ended[..k], at, i);
        if work[i].validAt.Some? && work[i].validAt.value > at {
          end := Earliest(end, work[i].validAt);
        } else {
          var closing := EndFor(ctx.episode, work[i], at);
          if closing.Some? {
            end := Earliest(end, work[i].invalidAt);
            Close(i, closing.value);
          }
        }
      }
      assert ended[..|ended|] == ended;
    }

    method Insert(edge: Fact)
      requires Valid()
      modifies this`work, this`loaded, this`created
      ensures Valid()
      ensures State() == old(State()).(rows := old(work) + [edge], loaded := old(loaded) + [|old(work)|])
    {
      assert |work| !in loaded;
      created := created + {|work|};
      loaded := loaded + [|work|];
      work := work + [edge];
    }

    /** Adds the statement as an edge of its own, which takes over from what the verdict ends. */
    method AddEdge(q: Query)
      requires Valid() && q.ctx == ctx && q.rows == work && Distinct(q.pool)
      modifies this
      ensures var ended := q.Judged().ended;
              && (ended != [] ==> q.span.validAt.Some?)
              && State() == Act(ctx, old(State()), q.c, q.span, Inserts(q.EndAfter(ended), ended))
      ensures Valid()
    {
      var ended := q.Judged().ended;
      var end := EndBeside(q);
      assert forall i | i in ended :: q.Shown(i);
      if ended != [] {
        assert ended[0] in ended;
        JudgedIsDistinct(q);
        end := TakeOver(q, ended, end);
      }
      Insert(NewEdge(ctx, q.c, q.span, end));
    }

    /** Merges the candidate into a record it repeats, or adds an edge and closes what the verdict ends. */
    method ResolveFact(c: Candidate)
      requires Valid()
      modifies this
      ensures Valid() && State() == Resolution.ResolveFact(ctx, old(State()), c)
    {
      var span := Window(ctx.episode, c.validAt, c.invalidAt);
      var pool := FactsOf(c.src);
      var q := Query(ctx, work, pool, c, span);
      assert q == Ask(ctx, State(), c);
      var covering := q.FirstCovering();
      if covering.Some? {
        Reinforce(covering.value, span.invalidAt);
        return;
      }
      var later := q.Nearest(pool);
      if later.Some? && q.StartsEarlier(later.value) {
        MoveStart(later.value, span.validAt, StartFromEpisode(ctx, span));
        Reinforce(later.value, span.invalidAt);
        return;
      }
      var same := q.FirstSameRelationship();
      if same.Some? {
        Reinforce(same.value, span.invalidAt);
        return;
      }
      AddEdge(q);
    }

    /** What an invalidation does to one fact of its source. */
    method InvalidateRow(inv: Invalidation, outdatedOnly: bool, i: nat)
      requires Valid() && inv.src.Some? && inv.tgt.Some? && i < |work|
      modifies this`work, this`dirtyFacts, this`invalidated
      ensures Valid() && State() == Resolution.InvalidateRow(ctx, old(State()), inv, outdatedOnly, i)
    {
      var f, end := work[i], InvalidationEnd(ctx, inv);
      if || !Connects(f, inv.src.value, inv.tgt.value)
         || (inv.relation.Some? && f.relation != inv.relation.value)
         || IsRetracted(f)
      {
        return;
      }
      if i in created && !(f.validAt.Some? && f.validAt.value < end) {
        return;
      }
      if Outdates(ctx, inv) && f.marks.startFromEpisode && f.validAt.Some? && end < f.validAt.value {
        Outdate(i);
        return;
      }
      if outdatedOnly {
        return;
      }
      var at := EndFor(ctx.episode, f, end);
      if at.Some? {
        Close(i, at.value);
      }
    }

    method InvalidatePool(inv: Invalidation, outdatedOnly: bool, pool: seq<nat>)
      requires Valid() && inv.src.Some? && inv.tgt.Some? && forall i | i in pool :: i < |work|
      modifies this
      ensures Valid() && State() == InvalidateRows(ctx, old(State()), inv, outdatedOnly, pool)
    {
      for k := 0 to |pool|
        invariant Valid() && |work| == |old(work)|
        invariant State() == InvalidateRows(ctx, old(State()), inv, outdatedOnly, pool[..k])
      {
        assert pool[..k + 1][..k] == pool[..k];
        assert pool[k] in pool;
        InvalidateRow(inv, outdatedOnly, pool[k]);
      }
      assert pool[..|pool|] == pool;
    }

    /** Ends the facts an invalidation names; with `outdatedOnly`, only empties outdated notes. */
    method ApplyInvalidation(inv: Invalidation, outdatedOnly: bool)
      requires Valid()
      modifies this
      ensures Valid() && State() == Resolution.ApplyInvalidation(ctx, old(State()), inv, outdatedOnly)
    {
      if inv.src.None? || inv.tgt.None? {
        return;
      }
      var pool := FactsOf(inv.src.value);
      InvalidatePool(inv, outdatedOnly, pool);
    }

    /** Keeps the first of the plans that say the same under several relations. */
    method CollapseRepeats(plans: seq<Candidate>) returns (kept: seq<Candidate>)
      ensures kept == Resolution.CollapseRepeats(ctx, plans)
    {
      kept := [];
      for k := 0 to |plans|
        invariant kept == Resolution.CollapseRepeats(ctx, plans[..k])
      {
        assert plans[..k + 1][..k] == plans[..k];
        if !(exists j | 0 <= j < |kept| :: Repeats(ctx, kept[j], plans[k])) {
          kept := kept + [plans[k]];
        }
      }
      assert plans[..|plans|] == plans;
    }

    method ApplyInvalidations(invs: seq<Invalidation>, outdatedOnly: bool)
      requires Valid()
      modifies this
      ensures Valid() && State() == Resolution.ApplyInvalidations(ctx, old(State()), invs, outdatedOnly)
    {
      for k := 0 to |invs|
        invariant Valid() && State() == Resolution.ApplyInvalidations(ctx, old(State()), invs[..k], outdatedOnly)
      {
        assert invs[..k + 1][..k] == invs[..k];
        ApplyInvalidation(invs[k], outdatedOnly);
      }
      assert invs[..|invs|] == invs;
    }

    method ResolveFacts(plans: seq<Candidate>)
      requires Valid()
      modifies this
      ensures Valid() && State() == Resolution.ResolveFacts(ctx, old(State()), plans)
    {
      for k := 0 to |plans|
        invariant Valid() && State() == Resolution.ResolveFacts(ctx, old(State()), plans[..k])
      {
        assert plans[..k + 1][..k] == plans[..k];
        ResolveFact(plans[k]);
      }
      assert plans[..|plans|] == plans;
    }

    /** Embeds again whatever is rewritten with a stale vector. */
    method RepairStaleVectors()
      requires Valid() && forall i | i in dirtyFacts :: i < |work|
      modifies this`work
      ensures Valid() && State() == Repair(ctx, old(State()))
    {
      var rest := dirtyFacts;
      while rest != {}
        invariant rest <= dirtyFacts && |work| == |old(work)|
        invariant forall k | 0 <= k < |work| ::
                    work[k] == if k in dirtyFacts - rest then Repaired(ctx, old(work[k])) else old(work[k])
        decreases rest
      {
        var i :| i in rest;
        var f := work[i];
        if f.vector.Some? && (f.vector.value, f.text) in ctx.reembedded {
          work := work[i := f.(vector := Some(ctx.reembedded[(f.vector.value, f.text)]))];
        }
        rest := rest - {i};
      }
      assert work == Repair(ctx, old(State())).rows;
    }

    /** The whole run, before anything is written. */
    method Execute(run: RunInput)
      requires Valid() && ctx == ContextOf(run, |work|) && State() == Start(work)
      modifies this
      ensures Valid() && State() == Resolution.Execute(run, old(work))
    {
      ApplyInvalidations(run.invalidations, true);
      var kept := CollapseRepeats(run.plans);
      ResolveFacts(kept);
      ApplyInvalidations(run.invalidations, false);
      DirtyIsStored(run, old(work));
      RepairStaleVectors();
    }
  }
}
