/**
 * Slots that hold one value at a time, over whole runs: where a reply adds
 * one value to a slot, the slot has at most one current value before the run
 * and after it.
 */
module Slots {
  import opened Wrappers
  import opened Temporal
  import opened Facts
  import opened Resolution
  import opened RunInvariant
  import opened OneValue

  /** Nothing of c's slot is current in `after` that was not current in `before`. */
  predicate NothingNew(ctx: Context, before: seq<Fact>, after: seq<Fact>, c: Candidate) {
    |before| <= |after|
    && forall i: nat | i < |after| && Current(ctx, after, i, c) :: Current(ctx, before, i, c)
  }

  predicate OfSlot(p: Candidate, c: Candidate) {
    p.src == c.src && p.relation == c.relation
  }

  lemma NothingNewKeepsOne(ctx: Context, before: seq<Fact>, after: seq<Fact>, c: Candidate)
    requires NothingNew(ctx, before, after, c) && AtMostOne(ctx, before, c)
    ensures AtMostOne(ctx, after, c)
  {
  }

  lemma NothingNewTwice(ctx: Context, a: seq<Fact>, b: seq<Fact>, d: seq<Fact>, c: Candidate)
    requires NothingNew(ctx, a, b, c) && NothingNew(ctx, b, d, c)
    ensures NothingNew(ctx, a, d, c)
  {
  }

  /* ---------- invalidations ---------- */

  lemma CloseRevivesNothing(ctx: Context, stored: seq<Fact>, w: Work, i: nat, at: Instant, c: Candidate)
    requires WorkInv(ctx, stored, w) && i < |w.rows| && !IsRetracted(w.rows[i])
    requires w.rows[i].validAt.Some? ==> w.rows[i].validAt.value < at
    requires w.rows[i].invalidAt.Some? ==> at < w.rows[i].invalidAt.value
    ensures NothingNew(ctx, w.rows, Close(ctx, w, i, at).rows, c)
  {
    if i < ctx.base {
      assert RowKept(ctx, stored[i], w.rows[i], i in w.dirty, i in w.invalidated);
      assert RowOk(stored[i], ctx.now);
    } else {
      assert NewRow(ctx, w.rows[i]);
    }
    var after := Close(ctx, w, i, at).rows;
    assert ActiveAt(after[i], ctx.now, ctx.now) ==> ActiveAt(w.rows[i], ctx.now, ctx.now);
    assert forall k | 0 <= k < |after| && k != i :: after[k] == w.rows[k];
  }

  lemma OutdateRevivesNothing(ctx: Context, stored: seq<Fact>, w: Work, i: nat, c: Candidate)
    requires WorkInv(ctx, stored, w) && i < ctx.base && w.rows[i].validAt.Some?
    ensures NothingNew(ctx, w.rows, Outdate(ctx, w, i).rows, c)
  {
    assert RowKept(ctx, stored[i], w.rows[i], i in w.dirty, i in w.invalidated);
    assert RowOk(stored[i], ctx.now);
    var after := Outdate(ctx, w, i).rows;
    RetractedNeverActive(after[i], ctx.now, ctx.now);
    assert forall k | 0 <= k < |after| && k != i :: after[k] == w.rows[k];
  }

  lemma InvalidateRowRevivesNothing(
      ctx: Context, stored: seq<Fact>, w: Work, inv: Invalidation, outdatedOnly: bool, i: nat, c: Candidate)
    requires WorkInv(ctx, stored, w) && inv.src.Some? && inv.tgt.Some?
    ensures NothingNew(ctx, w.rows, InvalidateRow(ctx, w, inv, outdatedOnly, i).rows, c)
  {
    var end := InvalidationEnd(ctx, inv);
    if i < |w.rows| && !IsRetracted(w.rows[i]) {
      var f := w.rows[i];
      if Outdates(ctx, inv) && f.marks.startFromEpisode && f.validAt.Some? && end < f.validAt.value {
        if i < ctx.base {
          OutdateRevivesNothing(ctx, stored, w, i, c);
        }
      } else if EndFor(ctx.episode, f, end).Some? {
        CloseRevivesNothing(ctx, stored, w, i, EndFor(ctx.episode, f, end).value, c);
      }
    }
  }

  lemma {:induction false} InvalidateRowsReviveNothing(
      ctx: Context, stored: seq<Fact>, w: Work, inv: Invalidation, outdatedOnly: bool, s: seq<nat>, c: Candidate)
    requires WorkInv(ctx, stored, w) && inv.src.Some? && inv.tgt.Some?
    ensures NothingNew(ctx, w.rows, InvalidateRows(ctx, w, inv, outdatedOnly, s).rows, c)
  {
    if s != [] {
      var init, last := s[..|s| - 1], s[|s| - 1];
      var before := InvalidateRows(ctx, w, inv, outdatedOnly, init);
      InvalidateRowsReviveNothing(ctx, stored, w, inv, outdatedOnly, init, c);
      InvalidateRowsKeeps(ctx, stored, w, inv, outdatedOnly, init);
      InvalidateRowRevivesNothing(ctx, stored, before, inv, outdatedOnly, last, c);
      NothingNewTwice(ctx, w.rows, before.rows, InvalidateRow(ctx, before, inv, outdatedOnly, last).rows, c);
    }
  }

  /** Explicit invalidations, in either pass, make nothing current. */
  lemma {:induction false} InvalidationsReviveNothing(
      ctx: Context, stored: seq<Fact>, w: Work, invs: seq<Invalidation>, outdatedOnly: bool, c: Candidate)
    requires WorkInv(ctx, stored, w)
    ensures NothingNew(ctx, w.rows, ApplyInvalidations(ctx, w, invs, outdatedOnly).rows, c)
  {
    if invs != [] {
      var init, inv := invs[..|invs| - 1], invs[|invs| - 1];
      var before := ApplyInvalidations(ctx, w, init, outdatedOnly);
      InvalidationsReviveNothing(ctx, stored, w, init, outdatedOnly, c);
      InvalidationsKeep(ctx, stored, w, init, outdatedOnly);
      if inv.src.Some? && inv.tgt.Some? {
        LoadKeeps(ctx, stored, before, inv.src.value);
        var loaded := Load(ctx, before, inv.src.value);
        InvalidateRowsReviveNothing(ctx, stored, loaded, inv, outdatedOnly, Pool(loaded, inv.src.value), c);
        NothingNewTwice(ctx, w.rows, before.rows, ApplyInvalidation(ctx, before, inv, outdatedOnly).rows, c);
      }
    }
  }

  /* ---------- statements about other slots ---------- */

  /** Changing one row of another slot, which stays in it. */
  lemma OtherRowChanges(ctx: Context, before: seq<Fact>, after: seq<Fact>, i: nat, c: Candidate)
    requires i < |before| == |after| && forall k | 0 <= k < |before| && k != i :: after[k] == before[k]
    requires after[i].source == before[i].source && after[i].relation == before[i].relation
    requires !SameSlot(before[i], c.src, c.relation)
    ensures NothingNew(ctx, before, after, c)
  {
  }

  lemma ReinforceIsOfSlot(ctx: Context, w: Work, moved: Work, i: nat, end: Option<Instant>, c: Candidate)
    requires i < |w.rows| == |moved.rows| && moved.rows == w.rows[i := moved.rows[i]]
    requires moved.rows[i].source == w.rows[i].source && moved.rows[i].relation == w.rows[i].relation
    requires !SameSlot(w.rows[i], c.src, c.relation)
    ensures NothingNew(ctx, w.rows, Reinforce(ctx, moved, i, end).rows, c)
  {
    OtherRowChanges(ctx, w.rows, Reinforce(ctx, moved, i, end).rows, i, c);
  }

  lemma CloseEndedRevives(ctx: Context, stored: seq<Fact>, w: Work, ended: seq<nat>, at: Instant, c: Candidate)
    requires WorkInv(ctx, stored, w) && forall k | k in ended :: k < |w.rows| && !IsRetracted(w.rows[k])
    ensures NothingNew(ctx, w.rows, CloseEnded(ctx, w, ended, at).rows, c)
  {
    CloseEndedKeepsSlots(ctx, w, ended, at);
    var after := CloseEnded(ctx, w, ended, at).rows;
    forall i: nat | i < |after| && Current(ctx, after, i, c)
      ensures Current(ctx, w.rows, i, c)
    {
      if !ActiveAt(w.rows[i], ctx.now, ctx.now) {
        CloseEndedRevivesNothing(ctx, stored, w, ended, at, i);
      }
    }
  }

  lemma OtherEdgeAdded(ctx: Context, rows: seq<Fact>, edge: Fact, c: Candidate)
    requires !SameSlot(edge, c.src, c.relation)
    ensures NothingNew(ctx, rows, rows + [edge], c)
  {
  }

  /** A statement about another slot makes nothing current in this one. */
  lemma OtherSlotRevivesNothing(ctx: Context, stored: seq<Fact>, w: Work, p: Candidate, c: Candidate)
    requires WorkInv(ctx, stored, w) && !OfSlot(p, c)
    ensures NothingNew(ctx, w.rows, ResolveFact(ctx, w, p).rows, c)
  {
    LoadKeeps(ctx, stored, w, p.src);
    var loaded, span := Load(ctx, w, p.src), SpanOf(ctx, p);
    match Ask(ctx, loaded, p).Decide() {
      case Reinforces(i) => ReinforceIsOfSlot(ctx, loaded, loaded, i, span.invalidAt, c);
      case MovesStart(i) =>
        ReinforceIsOfSlot(
          ctx, loaded, MoveStart(loaded, i, span.validAt, StartFromEpisode(ctx, span)), i, span.invalidAt, c);
      case Inserts(end, ended) =>
        InsertRevivesNothing(ctx, stored, loaded, p, end, ended, c);
    }
  }

  lemma InsertRevivesNothing(
      ctx: Context, stored: seq<Fact>, w: Work, p: Candidate, end: Option<Instant>, ended: seq<nat>, c: Candidate)
    requires WorkInv(ctx, stored, w) && !OfSlot(p, c) && Ask(ctx, w, p).Decide() == Inserts(end, ended)
    ensures ended != [] ==> SpanOf(ctx, p).validAt.Some?
    ensures NothingNew(ctx, w.rows, Act(ctx, w, p, SpanOf(ctx, p), Inserts(end, ended)).rows, c)
  {
    assert ended != [] ==> ended[0] in ended;
    var closed := if ended == [] then w else CloseEnded(ctx, w, ended, SpanOf(ctx, p).validAt.value);
    var edge := NewEdge(ctx, p, SpanOf(ctx, p), end);
    if ended != [] {
      CloseEndedRevives(ctx, stored, w, ended, SpanOf(ctx, p).validAt.value, c);
    }
    OtherEdgeAdded(ctx, closed.rows, edge, c);
    NothingNewTwice(ctx, w.rows, closed.rows, closed.rows + [edge], c);
  }

  /** The run has added no row to the slot. */
  predicate NoneAdded(ctx: Context, w: Work, c: Candidate) {
    forall i | ctx.base <= i < |w.rows| :: !SameSlot(w.rows[i], c.src, c.relation)
  }

  /** The rows keep their slots, and any added one is of this plan's. */
  predicate SlotsKept(before: seq<Fact>, after: seq<Fact>, p: Candidate) {
    && |before| <= |after|
    && (forall i | 0 <= i < |before| :: after[i].source == before[i].source && after[i].relation == before[i].relation)
    && (forall i | |before| <= i < |after| :: SameSlot(after[i], p.src, p.relation))
  }

  lemma ReinforceKeepsSlots(ctx: Context, w: Work, i: nat, end: Option<Instant>, p: Candidate)
    requires i < |w.rows|
    ensures SlotsKept(w.rows, Reinforce(ctx, w, i, end).rows, p)
  {
  }

  lemma InsertKeepsSlots(ctx: Context, w: Work, p: Candidate, end: Option<Instant>, ended: seq<nat>)
    requires ended != [] ==> SpanOf(ctx, p).validAt.Some?
    ensures SlotsKept(w.rows, Act(ctx, w, p, SpanOf(ctx, p), Inserts(end, ended)).rows, p)
  {
    if ended != [] {
      CloseEndedKeepsSlots(ctx, w, ended, SpanOf(ctx, p).validAt.value);
    }
  }

  lemma StatementKeepsSlots(ctx: Context, w: Work, p: Candidate)
    ensures SlotsKept(w.rows, ResolveFact(ctx, w, p).rows, p)
  {
    var loaded, span := Load(ctx, w, p.src), SpanOf(ctx, p);
    assert loaded.rows == w.rows;
    match Ask(ctx, loaded, p).Decide() {
      case Reinforces(i) => ReinforceKeepsSlots(ctx, loaded, i, span.invalidAt, p);
      case MovesStart(i) =>
        ReinforceKeepsSlots(
          ctx, MoveStart(loaded, i, span.validAt, StartFromEpisode(ctx, span)), i, span.invalidAt, p);
      case Inserts(end, ended) =>
        assert ended != [] ==> ended[0] in ended;
        InsertKeepsSlots(ctx, loaded, p, end, ended);
    }
  }

  lemma StillNoneAdded(ctx: Context, w: Work, after: Work, p: Candidate, c: Candidate)
    requires SlotsKept(w.rows, after.rows, p) && !OfSlot(p, c) && NoneAdded(ctx, w, c)
    ensures NoneAdded(ctx, after, c)
  {
  }

  /** No plan of the list is about the slot. */
  predicate NonePlanned(plans: seq<Candidate>, c: Candidate) {
    forall k | 0 <= k < |plans| :: !OfSlot(plans[k], c)
  }

  lemma {:induction false} OtherSlotsReviveNothing(ctx: Context, stored: seq<Fact>, w: Work, plans: seq<Candidate>, c: Candidate)
    requires WorkInv(ctx, stored, w) && NonePlanned(plans, c)
    ensures NothingNew(ctx, w.rows, ResolveFacts(ctx, w, plans).rows, c)
    ensures NoneAdded(ctx, w, c) ==> NoneAdded(ctx, ResolveFacts(ctx, w, plans), c)
  {
    if plans != [] {
      var init, p := plans[..|plans| - 1], plans[|plans| - 1];
      assert NonePlanned(init, c);
      OtherSlotsReviveNothing(ctx, stored, w, init, c);
      ResolveFactsKeep(ctx, stored, w, init);
      OneMoreRevivesNothing(ctx, stored, w, ResolveFacts(ctx, w, init), p, c);
    }
  }

  lemma OneMoreRevivesNothing(ctx: Context, stored: seq<Fact>, w: Work, before: Work, p: Candidate, c: Candidate)
    requires WorkInv(ctx, stored, before) && !OfSlot(p, c) && NothingNew(ctx, w.rows, before.rows, c)
    ensures NothingNew(ctx, w.rows, ResolveFact(ctx, before, p).rows, c)
    ensures NoneAdded(ctx, before, c) ==> NoneAdded(ctx, ResolveFact(ctx, before, p), c)
  {
    var after := ResolveFact(ctx, before, p);
    OtherSlotRevivesNothing(ctx, stored, before, p, c);
    NothingNewTwice(ctx, w.rows, before.rows, after.rows, c);
    StatementKeepsSlots(ctx, before, p);
    if NoneAdded(ctx, before, c) {
      StillNoneAdded(ctx, before, after, p, c);
    }
  }

  lemma ResolveOneMore(ctx: Context, w: Work, plans: seq<Candidate>, p: Candidate)
    ensures ResolveFacts(ctx, w, plans + [p]) == ResolveFact(ctx, ResolveFacts(ctx, w, plans), p)
  {
    assert (plans + [p])[..|plans|] == plans;
  }

  lemma {:induction false} ResolveBoth(ctx: Context, w: Work, one: seq<Candidate>, two: seq<Candidate>)
    ensures ResolveFacts(ctx, w, one + two) == ResolveFacts(ctx, ResolveFacts(ctx, w, one), two)
  {
    if two == [] {
      assert one + two == one;
    } else {
      var init, p := two[..|two| - 1], two[|two| - 1];
      assert two == init + [p] && one + two == (one + init) + [p];
      ResolveBoth(ctx, w, one, init);
      ResolveOneMore(ctx, w, one + init, p);
      ResolveOneMore(ctx, ResolveFacts(ctx, w, one), init, p);
    }
  }

  /* ---------- whole runs ---------- */

  /** The k-th plan kept from the reply is the only one about its slot. */
  predicate OnlyPlan(plans: seq<Candidate>, k: nat) {
    k < |plans| && NonePlanned(plans[..k], plans[k]) && NonePlanned(plans[k + 1..], plans[k])
  }

  /** A run's k-th statement, as the run comes to it. */
  function StatementAt(r: RunInput, stored: seq<Fact>, k: nat): Statement
    requires k < |CollapseRepeats(ContextOf(r, |stored|), r.plans)|
  {
    var ctx := ContextOf(r, |stored|);
    Statement(ctx, stored, WorkBefore(r, stored, k), CollapseRepeats(ctx, r.plans)[k])
  }

  /** What comes before the statement leaves its slot as it was, or with fewer current values. */
  lemma BeforeRevivesNothing(r: RunInput, stored: seq<Fact>, k: nat)
    requires StoreOk(stored, r.now) && k < |CollapseRepeats(ContextOf(r, |stored|), r.plans)|
    requires NonePlanned(CollapseRepeats(ContextOf(r, |stored|), r.plans)[..k], StatementAt(r, stored, k).c)
    ensures var s := StatementAt(r, stored, k);
            NothingNew(s.ctx, stored, s.w.rows, s.c) && NoneAdded(s.ctx, s.w, s.c)
  {
    var s := StatementAt(r, stored, k);
    var ctx, start := s.ctx, Start(stored);
    var outdated, plans := ApplyInvalidations(ctx, start, r.invalidations, true), CollapseRepeats(ctx, r.plans)[..k];
    OutdatedRevivesNothing(r, stored, s.c);
    OtherSlotsReviveNothing(ctx, stored, outdated, plans, s.c);
    NothingNewTwice(ctx, stored, outdated.rows, s.w.rows, s.c);
  }

  lemma OutdatedRevivesNothing(r: RunInput, stored: seq<Fact>, c: Candidate)
    requires StoreOk(stored, r.now)
    ensures var ctx := ContextOf(r, |stored|);
            var outdated := ApplyInvalidations(ctx, Start(stored), r.invalidations, true);
            WorkInv(ctx, stored, outdated) && NothingNew(ctx, stored, outdated.rows, c) && NoneAdded(ctx, outdated, c)
  {
    var ctx, start := ContextOf(r, |stored|), Start(stored);
    assert WorkInv(ctx, stored, start);
    InvalidationsReviveNothing(ctx, stored, start, r.invalidations, true, c);
    InvalidationsKeep(ctx, stored, start, r.invalidations, true);
    InvalidationsAddNothing(ctx, start, r.invalidations, true);
  }

  /** The invalidations and the repair that end a run. */
  lemma FinishRevivesNothing(ctx: Context, stored: seq<Fact>, resolved: Work, invs: seq<Invalidation>, c: Candidate)
    requires WorkInv(ctx, stored, resolved)
    ensures NothingNew(ctx, resolved.rows, Repair(ctx, ApplyInvalidations(ctx, resolved, invs, false)).rows, c)
  {
    InvalidationsReviveNothing(ctx, stored, resolved, invs, false, c);
    var ended := ApplyInvalidations(ctx, resolved, invs, false);
    RepairRevivesNothing(ctx, ended, c);
    NothingNewTwice(ctx, resolved.rows, ended.rows, Repair(ctx, ended).rows, c);
  }

  lemma {:induction false} InvalidationsAddNothing(ctx: Context, w: Work, invs: seq<Invalidation>, outdatedOnly: bool)
    ensures |ApplyInvalidations(ctx, w, invs, outdatedOnly).rows| == |w.rows|
  {
    if invs != [] {
      InvalidationsAddNothing(ctx, w, invs[..|invs| - 1], outdatedOnly);
    }
  }

  lemma RepairRevivesNothing(ctx: Context, w: Work, c: Candidate)
    ensures NothingNew(ctx, w.rows, Repair(ctx, w).rows, c)
  {
  }

  /** What comes after the statement makes nothing of its slot current. */
  lemma AfterRevivesNothing(r: RunInput, stored: seq<Fact>, k: nat)
    requires StoreOk(stored, r.now) && k < |CollapseRepeats(ContextOf(r, |stored|), r.plans)|
    requires NonePlanned(CollapseRepeats(ContextOf(r, |stored|), r.plans)[k + 1..], StatementAt(r, stored, k).c)
    ensures var s := StatementAt(r, stored, k);
            NothingNew(s.ctx, s.Resolved(), Execute(r, stored).rows, s.c)
  {
    var s := StatementAt(r, stored, k);
    var ctx, plans := s.ctx, CollapseRepeats(s.ctx, r.plans);
    var outdated := ApplyInvalidations(ctx, Start(stored), r.invalidations, true);
    WorkBeforeIsComplete(r, stored, k);
    ResolveKeeps(ctx, stored, s.w, s.c);
    var told := ResolveFact(ctx, s.w, s.c);
    var resolved := ResolveFacts(ctx, told, plans[k + 1..]);
    RunInThree(ctx, outdated, plans, k);
    assert resolved == ResolveFacts(ctx, outdated, plans);
    OtherSlotsReviveNothing(ctx, stored, told, plans[k + 1..], s.c);
    ResolveFactsKeep(ctx, stored, told, plans[k + 1..]);
    FinishRevivesNothing(ctx, stored, resolved, r.invalidations, s.c);
    NothingNewTwice(ctx, told.rows, resolved.rows, Execute(r, stored).rows, s.c);
  }

  lemma RunInThree(ctx: Context, w: Work, plans: seq<Candidate>, k: nat)
    requires k < |plans|
    ensures ResolveFacts(ctx, w, plans)
            == ResolveFacts(ctx, ResolveFact(ctx, ResolveFacts(ctx, w, plans[..k]), plans[k]), plans[k + 1..])
  {
    var first := plans[..k + 1];
    assert first[..k] == plans[..k] && first[k] == plans[k];
    assert plans == first + plans[k + 1..];
    ResolveBoth(ctx, w, first, plans[k + 1..]);
  }

  /**
   * From store to store: where a reply makes one statement about a one-value
   * slot that had at most one current value, the slot has at most one after
   * the whole run, whatever else the reply says and invalidates, unless that
   * statement is one of the three that leave two.
   */
  lemma RunKeepsOneValue(r: RunInput, stored: seq<Fact>, k: nat)
    requires StoreOk(stored, r.now) && r.episode.validAt <= r.now
    requires OnlyPlan(CollapseRepeats(ContextOf(r, |stored|), r.plans), k)
    requires var s := StatementAt(r, stored, k);
             && (s.c.relation in SINGLE_VALUED || s.c.replacesPrevious) && s.EndsAllShown()
             && AtMostOne(s.ctx, stored, s.c)
             && !Collides(s) && !StartsTogether(s) && !EndsAhead(s)
    ensures AtMostOne(ContextOf(r, |stored|), Execute(r, stored).rows, StatementAt(r, stored, k).c)
  {
    var s := StatementAt(r, stored, k);
    BeforeRevivesNothing(r, stored, k);
    NothingNewKeepsOne(s.ctx, stored, s.w.rows, s.c);
    WorkBeforeIsComplete(r, stored, k);
    assert s.Valid();
    OneValueIff(s);
    AfterRevivesNothing(r, stored, k);
    NothingNewKeepsOne(s.ctx, s.Resolved(), Execute(r, stored).rows, s.c);
  }

  /** A run whose reply says nothing about a slot gives it no current value it did not have. */
  lemma SilentRunRevivesNothing(r: RunInput, stored: seq<Fact>, c: Candidate)
    requires StoreOk(stored, r.now)
    requires NonePlanned(CollapseRepeats(ContextOf(r, |stored|), r.plans), c)
    ensures NothingNew(ContextOf(r, |stored|), stored, Execute(r, stored).rows, c)
  {
    var ctx := ContextOf(r, |stored|);
    var outdated, plans := ApplyInvalidations(ctx, Start(stored), r.invalidations, true), CollapseRepeats(ctx, r.plans);
    OutdatedRevivesNothing(r, stored, c);
    OtherSlotsReviveNothing(ctx, stored, outdated, plans, c);
    ResolveFactsKeep(ctx, stored, outdated, plans);
    var resolved := ResolveFacts(ctx, outdated, plans);
    FinishRevivesNothing(ctx, stored, resolved, r.invalidations, c);
    NothingNewTwice(ctx, stored, outdated.rows, resolved.rows, c);
    NothingNewTwice(ctx, stored, resolved.rows, Execute(r, stored).rows, c);
  }
}
