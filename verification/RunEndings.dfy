/**
 * What a whole run makes of the reply's invalidations: out-of-date notes are
 * emptied before any statement meets them, nothing outlives an end that the
 * reply dates, and what is rewritten has a current vector.
 */
module RunEndings {
  import opened Wrappers
  import opened Temporal
  import opened Facts
  import opened Resolution
  import opened OneValue
  import opened Endings
  import opened Statements

  /* ---------- after the statements ---------- */

  /** Where the invalidation concerns a row that began before its instant, the row is over by then or was emptied. */
  predicate Obeyed(ctx: Context, inv: Invalidation, f: Fact, stored: bool) {
    var at := if inv.invalidAt.Some? then inv.invalidAt.value else ctx.episode.validAt;
    Concerns(inv, f) && (if f.validAt.Some? then f.validAt.value < at else stored) ==>
      f.invalidAt.Some? && f.invalidAt.value <= at
  }

  lemma TargetObeys(ctx: Context, inv: Invalidation, f: Fact, stored: bool, before: Option<Instant>)
    ensures Obeyed(ctx, inv, Target(ctx, inv, false, f, stored, before), stored)
  {
  }

  lemma TargetStaysObedient(ctx: Context, inv: Invalidation, other: Invalidation, f: Fact, stored: bool, before: Option<Instant>)
    requires Obeyed(ctx, inv, f, stored)
    ensures Obeyed(ctx, inv, Target(ctx, other, false, f, stored, before), stored)
  {
  }

  lemma {:induction false} InvalidationsAreObeyed(ctx: Context, w: Work, invs: seq<Invalidation>, inv: Invalidation, i: nat)
    requires LoadedInv(ctx, w) && i < |w.rows| && inv in invs
    ensures i < |ApplyInvalidations(ctx, w, invs, false).rows|
    ensures Obeyed(ctx, inv, ApplyInvalidations(ctx, w, invs, false).rows[i], i < ctx.base)
  {
    var init, last := invs[..|invs| - 1], invs[|invs| - 1];
    var before := ApplyInvalidations(ctx, w, init, false);
    assert invs == init + [last];
    InvalidationsKeepLoaded(ctx, w, init, false);
    PassKeepsLength(ctx, w, init, false);
    InvalidationIs(ctx, before, last, false, i);
    if inv == last {
      TargetObeys(ctx, inv, before.rows[i], i < ctx.base, Before(before, i));
    } else {
      InvalidationsAreObeyed(ctx, w, init, inv, i);
      TargetStaysObedient(ctx, inv, last, before.rows[i], i < ctx.base, Before(before, i));
    }
  }

  lemma {:induction false} PassKeepsLength(ctx: Context, w: Work, invs: seq<Invalidation>, outdatedOnly: bool)
    ensures |ApplyInvalidations(ctx, w, invs, outdatedOnly).rows| == |w.rows|
  {
    if invs != [] {
      PassKeepsLength(ctx, w, invs[..|invs| - 1], outdatedOnly);
    }
  }

  lemma RepairIs(ctx: Context, w: Work, i: nat)
    requires i < |w.rows|
    ensures var f, g := w.rows[i], Repair(ctx, w).rows[i];
            && |Repair(ctx, w).rows| == |w.rows|
            && g == f.(vector := g.vector)
            && g.vector == if i in w.dirty && f.vector.Some? && (f.vector.value, f.text) in ctx.reembedded
                           then Some(ctx.reembedded[(f.vector.value, f.text)]) else f.vector
  {
  }

  /** The working rows once every statement of the reply is resolved. */
  function Resolved(r: RunInput, stored: seq<Fact>): Work {
    WorkBefore(r, stored, |CollapseRepeats(ContextOf(r, |stored|), r.plans)|)
  }

  lemma RunInTwo(r: RunInput, stored: seq<Fact>)
    ensures var ctx := ContextOf(r, |stored|);
            && LoadedInv(ctx, Resolved(r, stored))
            && Execute(r, stored) == Repair(ctx, ApplyInvalidations(ctx, Resolved(r, stored), r.invalidations, false))
  {
    var ctx := ContextOf(r, |stored|);
    var plans, start := CollapseRepeats(ctx, r.plans), Start(stored);
    var outdated := ApplyInvalidations(ctx, start, r.invalidations, true);
    assert plans[..|plans|] == plans;
    assert LoadedInv(ctx, start);
    InvalidationsKeepLoaded(ctx, start, r.invalidations, true);
    ResolveFactsKeepLoaded(ctx, outdated, plans);
  }

  /**
   * After the whole run no row, stored or added, outlives the end of any
   * invalidation of the reply that concerns it and that it began before.
   */
  lemma RunObeysInvalidations(r: RunInput, stored: seq<Fact>, inv: Invalidation, i: nat)
    requires inv in r.invalidations && i < |Execute(r, stored).rows|
    ensures Obeyed(ContextOf(r, |stored|), inv, Execute(r, stored).rows[i], i < |stored|)
  {
    var ctx, resolved := ContextOf(r, |stored|), Resolved(r, stored);
    RunInTwo(r, stored);
    PassKeepsLength(ctx, resolved, r.invalidations, false);
    InvalidationsAreObeyed(ctx, resolved, r.invalidations, inv, i);
    RepairIs(ctx, ApplyInvalidations(ctx, resolved, r.invalidations, false), i);
  }

  /** A row that the run rewrites never keeps a vector that is stale. */
  lemma RewrittenIsEmbedded(r: RunInput, stored: seq<Fact>, i: nat)
    requires i in Execute(r, stored).dirty && i < |Execute(r, stored).rows|
    requires forall v, text | (v, text) in r.reembedded :: (r.reembedded[(v, text)], text) !in r.reembedded
    ensures var f := Execute(r, stored).rows[i]; f.vector.Some? ==> (f.vector.value, f.text) !in r.reembedded
  {
    var ctx := ContextOf(r, |stored|);
    RunInTwo(r, stored);
    RepairIs(ctx, ApplyInvalidations(ctx, Resolved(r, stored), r.invalidations, false), i);
  }

  /* ---------- before the statements ---------- */

  /** The row ends where it starts, marked as out of date when it was written. */
  predicate IsEmptied(f: Fact, start: Option<Instant>) {
    f.validAt.Some? && f.validAt == start && f.invalidAt == start && f.marks.outdatedWhenWritten
  }

  lemma {:induction false} FirstPassEmpties(ctx: Context, w: Work, invs: seq<Invalidation>, i: nat)
    requires LoadedInv(ctx, w) && i < |w.rows|
    ensures |ApplyInvalidations(ctx, w, invs, true).rows| == |w.rows|
    ensures var g := ApplyInvalidations(ctx, w, invs, true).rows[i];
            if exists k | 0 <= k < |invs| :: OutOfDate(ctx, invs[k], w.rows[i], i < ctx.base)
            then IsEmptied(g, w.rows[i].validAt) else g == w.rows[i]
  {
    if invs != [] {
      var init, last := invs[..|invs| - 1], invs[|invs| - 1];
      FirstPassEmpties(ctx, w, init, i);
      InvalidationsKeepLoaded(ctx, w, init, true);
      InvalidationIs(ctx, ApplyInvalidations(ctx, w, init, true), last, true, i);
      assert invs == init + [last];
      assert forall k | 0 <= k < |init| :: init[k] == invs[k];
      if OutOfDate(ctx, last, w.rows[i], i < ctx.base) {
        assert invs[|init|] == last;
      }
      if k :| 0 <= k < |init| && OutOfDate(ctx, init[k], w.rows[i], i < ctx.base) {
        assert OutOfDate(ctx, invs[k], w.rows[i], i < ctx.base);
      }
    }
  }

  /** A retracted row is nothing to any statement. */
  lemma RetractedIsLeftAlone(ctx: Context, w: Work, c: Candidate, i: nat)
    requires i < |w.rows| && IsRetracted(w.rows[i])
    ensures i < |ResolveFact(ctx, w, c).rows| && ResolveFact(ctx, w, c).rows[i] == w.rows[i]
  {
    var q := Ask(ctx, Load(ctx, w, c.src), c);
    match q.Decide() {
      case Reinforces(k) => EvidenceIs(ctx, w, c, k);
      case MovesStart(k) => MovedIs(ctx, w, c, k);
      case Inserts(end, ended) =>
        assert i in ended ==> q.Shown(i);
        AddedIs(ctx, w, c, end, ended, i);
    }
  }

  lemma {:induction false} RetractedStaysThrough(ctx: Context, w: Work, plans: seq<Candidate>, i: nat)
    requires i < |w.rows| && IsRetracted(w.rows[i])
    ensures i < |ResolveFacts(ctx, w, plans).rows| && ResolveFacts(ctx, w, plans).rows[i] == w.rows[i]
  {
    if plans != [] {
      RetractedStaysThrough(ctx, w, plans[..|plans| - 1], i);
      RetractedIsLeftAlone(ctx, ResolveFacts(ctx, w, plans[..|plans| - 1]), plans[|plans| - 1], i);
    }
  }

  /**
   * A stored note that some invalidation of the reply shows to have been out
   * of date is emptied before any statement of the reply is resolved.
   */
  lemma NotesAreEmptiedFirst(r: RunInput, stored: seq<Fact>, inv: Invalidation, i: nat, k: nat)
    requires i < |stored| && inv in r.invalidations && OutOfDate(ContextOf(r, |stored|), inv, stored[i], true)
    requires k <= |CollapseRepeats(ContextOf(r, |stored|), r.plans)|
    ensures i < |WorkBefore(r, stored, k).rows| && IsEmptied(WorkBefore(r, stored, k).rows[i], stored[i].validAt)
  {
    var ctx, start := ContextOf(r, |stored|), Start(stored);
    assert LoadedInv(ctx, start);
    FirstPassEmpties(ctx, start, r.invalidations, i);
    var j :| 0 <= j < |r.invalidations| && r.invalidations[j] == inv;
    assert OutOfDate(ctx, r.invalidations[j], start.rows[i], i < ctx.base);
    RetractedStaysThrough(ctx, ApplyInvalidations(ctx, start, r.invalidations, true), CollapseRepeats(ctx, r.plans)[..k], i);
  }
}
