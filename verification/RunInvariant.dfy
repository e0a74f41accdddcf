/**
 * What every step of an ingestion run keeps: each stored row is only ever
 * narrowed, and carries the marks that say how; each created row is new.
 */
module RunInvariant {
  import opened Wrappers
  import opened Temporal
  import opened Facts
  import opened Resolution

  /* ---------- stores ---------- */

  /** A stored row as every operation leaves it, at a clock not before any of its dates. */
  predicate RowOk(f: Fact, clock: Instant) {
    && f.createdAt <= clock
    && (f.expiredAt.Some? ==> f.createdAt <= f.expiredAt.value <= clock)
    && f.episodes != []
    && (IsOutdated(f) ==> f.validAt.Some? && f.invalidAt == f.validAt && f.expiredAt.Some?)
    && (f.marks.reopenedAs.Some? ==> IsRetracted(f))
    && (f.marks.startFromEpisode ==> f.validAt.Some?)
    && (f.marks.closedByEpisode.Some? && !IsRetracted(f) ==>
          f.invalidAt.Some? && (f.marks.previousEnd.Some? ==> f.invalidAt.value < f.marks.previousEnd.value))
  }

  predicate StoreOk(facts: seq<Fact>, clock: Instant) {
    forall i | 0 <= i < |facts| :: RowOk(facts[i], clock)
  }

  /** No row's window is empty but a dated retraction's; only an episode dated after its run's clock breaks this. */
  predicate Windowed(facts: seq<Fact>) {
    forall i | 0 <= i < |facts| :: WellFormed(facts[i])
  }

  /* ---------- a stored row during a run ---------- */

  /** Endpoints, relation, text and learning date stay. */
  predicate SameStatement(f0: Fact, f: Fact) {
    && f.source == f0.source && f.target == f0.target && f.relation == f0.relation
    && f.text == f0.text && f.createdAt == f0.createdAt
    && f.marks.replacesPrevious == f0.marks.replacesPrevious
    && f.marks.reopenedAs == f0.marks.reopenedAs && f.marks.reopenedFrom == f0.marks.reopenedFrom
  }

  /** The vector is kept, unless it is stale and the text was embedded again. */
  predicate VectorKept(ctx: Context, f0: Fact, f: Fact) {
    f.vector == f0.vector || f.vector == Repaired(ctx, f0).vector
  }

  predicate EvidenceKept(id: Id, f0: Fact, f: Fact) {
    f.episodes == f0.episodes || (id !in f0.episodes && f.episodes == f0.episodes + [id])
  }

  /** The start is as it was, or earlier. */
  predicate StartKept(f0: Fact, f: Fact) {
    || (f.validAt == f0.validAt && f.marks.startFromEpisode == f0.marks.startFromEpisode)
    || (f.validAt.Some? && f0.validAt.Some? && f.validAt.value < f0.validAt.value)
  }

  predicate EndKept(f0: Fact, f: Fact) {
    && f.invalidAt == f0.invalidAt && f.expiredAt == f0.expiredAt
    && f.marks.closedByEpisode == f0.marks.closedByEpisode && f.marks.previousEnd == f0.marks.previousEnd
    && f.marks.outdatedWhenWritten == f0.marks.outdatedWhenWritten
  }

  /** Emptied at a start that came from the episode's date. */
  predicate Emptied(f: Fact) {
    f.validAt.Some? && f.invalidAt == f.validAt && f.marks.startFromEpisode
  }

  /** Ended by the run, with the end from before the run on record. */
  predicate ClosedByRun(ctx: Context, f0: Fact, f: Fact) {
    && f.expiredAt == Some(ctx.now)
    && f.marks.closedByEpisode == Some(ctx.episode.id)
    && f.marks.previousEnd == f0.invalidAt
    && f.invalidAt.Some?
    && (f0.invalidAt.Some? ==> f.invalidAt.value < f0.invalidAt.value)
    && (IsOutdated(f) ==> Emptied(f))
    && (!IsOutdated(f) ==> (f.validAt.Some? ==> f.validAt.value < f.invalidAt.value))
  }

  predicate RowKept(ctx: Context, f0: Fact, f: Fact, dirty: bool, closed: bool) {
    && SameStatement(f0, f)
    && EvidenceKept(ctx.episode.id, f0, f)
    && StartKept(f0, f)
    && (f.marks.startFromEpisode ==> f.validAt.Some?)
    && (if closed then ClosedByRun(ctx, f0, f) else EndKept(f0, f))
    && (closed ==> dirty)
    && (dirty ==> !IsRetracted(f0))
    && (!dirty ==> f == f0)
  }

  predicate NewRow(ctx: Context, f: Fact) {
    && f.createdAt == ctx.now && f.expiredAt.None?
    && f.episodes == [ctx.episode.id]
    && f.marks == NO_MARKS.(replacesPrevious := f.marks.replacesPrevious, startFromEpisode := f.marks.startFromEpisode)
    && (f.marks.startFromEpisode ==> f.validAt.Some?)
    && (ctx.episode.validAt <= ctx.now ==> !IsRetracted(f))
  }

  /** What a run keeps about the rows it started from. */
  predicate RowsInv(ctx: Context, stored: seq<Fact>, w: Work) {
    && |stored| == ctx.base <= |w.rows|
    && StoreOk(stored, ctx.now)
    && (forall i | 0 <= i < ctx.base :: RowKept(ctx, stored[i], w.rows[i], i in w.dirty, i in w.invalidated))
    && (forall i | ctx.base <= i < |w.rows| :: NewRow(ctx, w.rows[i]))
    && (forall i | i in w.loaded :: i < |w.rows|)
    && (forall i | i in w.dirty :: i < ctx.base)
  }

  /** What every step before the last keeps: that, and every vector. */
  predicate WorkInv(ctx: Context, stored: seq<Fact>, w: Work) {
    RowsInv(ctx, stored, w) && forall i | 0 <= i < ctx.base :: w.rows[i].vector == stored[i].vector
  }

  /* ---------- every step keeps it ---------- */

  /** A step that changes one row, and is marked on that row only. */
  lemma OneRowKeeps(ctx: Context, stored: seq<Fact>, w: Work, r: Work, i: nat)
    requires WorkInv(ctx, stored, w) && i < |w.rows| == |r.rows| && r.loaded == w.loaded
    requires forall k | 0 <= k < |w.rows| && k != i :: r.rows[k] == w.rows[k]
    requires forall k: nat | k != i :: (k in r.dirty <==> k in w.dirty) && (k in r.invalidated <==> k in w.invalidated)
    requires i in r.dirty ==> i < ctx.base
    requires i < ctx.base ==>
               && RowKept(ctx, stored[i], r.rows[i], i in r.dirty, i in r.invalidated)
               && r.rows[i].vector == stored[i].vector
    requires i >= ctx.base ==> NewRow(ctx, r.rows[i])
    ensures WorkInv(ctx, stored, r)
  {
    forall k | 0 <= k < ctx.base
      ensures RowKept(ctx, stored[k], r.rows[k], k in r.dirty, k in r.invalidated)
    {
      assert RowKept(ctx, stored[k], w.rows[k], k in w.dirty, k in w.invalidated);
    }
  }

  lemma CloseKeeps(ctx: Context, stored: seq<Fact>, w: Work, i: nat, at: Instant)
    requires WorkInv(ctx, stored, w) && i < |w.rows| && !IsRetracted(w.rows[i])
    requires w.rows[i].validAt.Some? ==> w.rows[i].validAt.value < at
    requires w.rows[i].invalidAt.Some? ==> at < w.rows[i].invalidAt.value
    ensures WorkInv(ctx, stored, Close(ctx, w, i, at))
  {
    if i < ctx.base {
      assert RowKept(ctx, stored[i], w.rows[i], i in w.dirty, i in w.invalidated);
    } else {
      assert NewRow(ctx, w.rows[i]);
    }
    OneRowKeeps(ctx, stored, w, Close(ctx, w, i, at), i);
  }

  lemma OutdateKeeps(ctx: Context, stored: seq<Fact>, w: Work, i: nat)
    requires WorkInv(ctx, stored, w) && i < ctx.base && !IsRetracted(w.rows[i])
    requires w.rows[i].validAt.Some? && w.rows[i].marks.startFromEpisode
    ensures WorkInv(ctx, stored, Outdate(ctx, w, i))
  {
    assert RowKept(ctx, stored[i], w.rows[i], i in w.dirty, i in w.invalidated);
    OneRowKeeps(ctx, stored, w, Outdate(ctx, w, i), i);
  }

  lemma CiteKeeps(ctx: Context, stored: seq<Fact>, w: Work, i: nat)
    requires WorkInv(ctx, stored, w) && i < |w.rows| && !IsRetracted(w.rows[i])
    ensures WorkInv(ctx, stored, Cite(ctx, w, i))
  {
    if i < ctx.base {
      assert RowKept(ctx, stored[i], w.rows[i], i in w.dirty, i in w.invalidated);
      OneRowKeeps(ctx, stored, w, Cite(ctx, w, i), i);
    }
  }

  lemma ReinforceKeeps(ctx: Context, stored: seq<Fact>, w: Work, i: nat, end: Option<Instant>)
    requires WorkInv(ctx, stored, w) && i < |w.rows| && !IsRetracted(w.rows[i])
    ensures WorkInv(ctx, stored, Reinforce(ctx, w, i, end))
  {
    CiteKeeps(ctx, stored, w, i);
    var f := w.rows[i];
    if end.Some? && f.invalidAt.None? && (f.validAt.None? || end.value > f.validAt.value) {
      CloseKeeps(ctx, stored, Cite(ctx, w, i), i, end.value);
    }
  }

  /** The move and the citation are one update: the run then holds the row as changed. */
  lemma MovedAndCitedKeeps(ctx: Context, stored: seq<Fact>, w: Work, i: nat, start: Instant, fromEpisode: bool)
    requires WorkInv(ctx, stored, w) && i < |w.rows| && !IsRetracted(w.rows[i])
    requires w.rows[i].validAt.Some? && start < w.rows[i].validAt.value
    ensures WorkInv(ctx, stored, Cite(ctx, MoveStart(w, i, Some(start), fromEpisode), i))
  {
    var cited := Cite(ctx, MoveStart(w, i, Some(start), fromEpisode), i);
    if i < ctx.base {
      assert RowKept(ctx, stored[i], w.rows[i], i in w.dirty, i in w.invalidated);
    } else {
      assert NewRow(ctx, w.rows[i]);
    }
    OneRowKeeps(ctx, stored, w, cited, i);
  }

  lemma MoveStartKeeps(ctx: Context, stored: seq<Fact>, w: Work, i: nat, start: Instant, fromEpisode: bool, end: Option<Instant>)
    requires WorkInv(ctx, stored, w) && i < |w.rows| && !IsRetracted(w.rows[i])
    requires w.rows[i].validAt.Some? && start < w.rows[i].validAt.value
    ensures WorkInv(ctx, stored, Reinforce(ctx, MoveStart(w, i, Some(start), fromEpisode), i, end))
  {
    MovedAndCitedKeeps(ctx, stored, w, i, start, fromEpisode);
    var moved := MoveStart(w, i, Some(start), fromEpisode);
    var f := moved.rows[i];
    if end.Some? && f.invalidAt.None? && (f.validAt.None? || end.value > f.validAt.value) {
      CloseKeeps(ctx, stored, Cite(ctx, moved, i), i, end.value);
    }
  }

  /** What CloseEnded does to one record. */
  lemma CloseOneKeeps(ctx: Context, stored: seq<Fact>, w: Work, i: nat, at: Instant)
    requires WorkInv(ctx, stored, w) && i < |w.rows| && !IsRetracted(w.rows[i])
    ensures EndFor(ctx.episode, w.rows[i], at).Some? ==>
              && WorkInv(ctx, stored, Close(ctx, w, i, EndFor(ctx.episode, w.rows[i], at).value))
              && !IsRetracted(Close(ctx, w, i, EndFor(ctx.episode, w.rows[i], at).value).rows[i])
  {
    if EndFor(ctx.episode, w.rows[i], at).Some? {
      CloseKeeps(ctx, stored, w, i, EndFor(ctx.episode, w.rows[i], at).value);
    }
  }

  lemma {:induction false} CloseEndedKeeps(ctx: Context, stored: seq<Fact>, w: Work, ended: seq<nat>, at: Instant)
    requires WorkInv(ctx, stored, w)
    requires forall i | i in ended :: i < |w.rows| && !IsRetracted(w.rows[i])
    ensures WorkInv(ctx, stored, CloseEnded(ctx, w, ended, at))
    ensures forall i | i in ended :: !IsRetracted(CloseEnded(ctx, w, ended, at).rows[i])
    ensures forall i | 0 <= i < |w.rows| && i !in ended :: CloseEnded(ctx, w, ended, at).rows[i] == w.rows[i]
  {
    if ended != [] {
      var init, i := ended[..|ended| - 1], ended[|ended| - 1];
      assert ended == init + [i];
      assert i in ended && forall k | k in init :: k in ended;
      CloseEndedKeeps(ctx, stored, w, init, at);
      var r := CloseEnded(ctx, w, init, at);
      assert !IsRetracted(r.rows[i]) by {
        if i !in init {
          assert r.rows[i] == w.rows[i];
        }
      }
      CloseOneKeeps(ctx, stored, r, i, at);
    }
  }

  /* ---------- the end of a new edge ---------- */

  /**
   * With the episode's time not after the clock, a record the judge lets
   * stand alongside the statement ends after the statement's start.
   */
  lemma AlongsideEndsLater(q: Query, stored: seq<Fact>, w: Work, i: nat)
    requires WorkInv(q.ctx, stored, w) && q.rows == w.rows
    requires q.span == SpanOf(q.ctx, q.c) && q.ctx.episode.validAt <= q.ctx.now
    requires q.Alongside(i)
    ensures q.span.validAt.Some?
    ensures q.rows[i].invalidAt.Some? ==> q.rows[i].invalidAt.value > q.span.validAt.value
  {
    assert i in q.ShownList() ==> q.Shown(i);
    assert RowKept(q.ctx, stored[i], w.rows[i], i in w.dirty, i in w.invalidated);
    assert RowOk(stored[i], q.ctx.now);
  }

  lemma {:induction false} EndAlongsideIsLater(q: Query, stored: seq<Fact>, w: Work, s: seq<nat>)
    requires WorkInv(q.ctx, stored, w) && q.rows == w.rows
    requires q.span == SpanOf(q.ctx, q.c) && q.ctx.episode.validAt <= q.ctx.now
    requires forall i | i in s :: q.Alongside(i)
    ensures q.span.validAt.Some? && q.EndAlongside(s).Some? ==> q.EndAlongside(s).value > q.span.validAt.value
  {
    if s != [] {
      var init, i := s[..|s| - 1], s[|s| - 1];
      assert s == init + [i];
      EndAlongsideIsLater(q, stored, w, init);
      AlongsideEndsLater(q, stored, w, i);
    }
  }

  lemma {:induction false} EndAfterIsLater(q: Query, stored: seq<Fact>, w: Work, s: seq<nat>)
    requires WorkInv(q.ctx, stored, w) && q.rows == w.rows
    requires q.span == SpanOf(q.ctx, q.c) && q.ctx.episode.validAt <= q.ctx.now
    ensures q.span.validAt.Some? && q.EndAfter(s).Some? ==> q.EndAfter(s).value > q.span.validAt.value
  {
    if s == [] {
      EndAlongsideIsLater(q, stored, w, q.AlongsideList());
    } else {
      EndAfterIsLater(q, stored, w, s[..|s| - 1]);
    }
  }

  /* ---------- whole steps ---------- */

  lemma LoadKeeps(ctx: Context, stored: seq<Fact>, w: Work, entity: Id)
    requires WorkInv(ctx, stored, w)
    ensures WorkInv(ctx, stored, Load(ctx, w, entity))
    ensures Load(ctx, w, entity).rows == w.rows
  {
  }

  lemma InsertKeeps(ctx: Context, stored: seq<Fact>, w: Work, f: Fact)
    requires WorkInv(ctx, stored, w) && NewRow(ctx, f)
    ensures WorkInv(ctx, stored, w.(rows := w.rows + [f], loaded := w.loaded + [|w.rows|]))
  {
  }

  lemma AddEdgeKeeps(ctx: Context, stored: seq<Fact>, w: Work, c: Candidate, end: Option<Instant>, ended: seq<nat>)
    requires WorkInv(ctx, stored, w) && Ask(ctx, w, c).Decide() == Inserts(end, ended)
    ensures ended != [] ==> SpanOf(ctx, c).validAt.Some?
    ensures WorkInv(ctx, stored, Act(ctx, w, c, SpanOf(ctx, c), Inserts(end, ended)))
  {
    var q, span := Ask(ctx, w, c), SpanOf(ctx, c);
    assert ended != [] ==> ended[0] in ended;
    var closed := if ended == [] then w else CloseEnded(ctx, w, ended, span.validAt.value);
    if ended != [] {
      CloseEndedKeeps(ctx, stored, w, ended, span.validAt.value);
    }
    if ctx.episode.validAt <= ctx.now {
      EndAfterIsLater(q, stored, w, ended);
    }
    InsertKeeps(ctx, stored, closed, NewEdge(ctx, c, span, end));
  }

  lemma ResolveKeeps(ctx: Context, stored: seq<Fact>, w: Work, c: Candidate)
    requires WorkInv(ctx, stored, w)
    ensures WorkInv(ctx, stored, ResolveFact(ctx, w, c))
  {
    LoadKeeps(ctx, stored, w, c.src);
    var loaded, span := Load(ctx, w, c.src), SpanOf(ctx, c);
    match Ask(ctx, loaded, c).Decide() {
      case Reinforces(i) => ReinforceKeeps(ctx, stored, loaded, i, span.invalidAt);
      case MovesStart(i) =>
        MoveStartKeeps(ctx, stored, loaded, i, span.validAt.value, StartFromEpisode(ctx, span), span.invalidAt);
      case Inserts(end, ended) => AddEdgeKeeps(ctx, stored, loaded, c, end, ended);
    }
  }

  lemma InvalidateRowKeeps(ctx: Context, stored: seq<Fact>, w: Work, inv: Invalidation, outdatedOnly: bool, i: nat)
    requires WorkInv(ctx, stored, w) && inv.src.Some? && inv.tgt.Some?
    ensures WorkInv(ctx, stored, InvalidateRow(ctx, w, inv, outdatedOnly, i))
  {
    var end := InvalidationEnd(ctx, inv);
    if i < |w.rows| && !IsRetracted(w.rows[i]) {
      var f := w.rows[i];
      if Outdates(ctx, inv) && f.marks.startFromEpisode && f.validAt.Some? && end < f.validAt.value {
        if i < ctx.base {
          OutdateKeeps(ctx, stored, w, i);
        }
      } else if EndFor(ctx.episode, f, end).Some? {
        CloseKeeps(ctx, stored, w, i, EndFor(ctx.episode, f, end).value);
      }
    }
  }

  lemma {:induction false} InvalidateRowsKeeps(
      ctx: Context, stored: seq<Fact>, w: Work, inv: Invalidation, outdatedOnly: bool, s: seq<nat>)
    requires WorkInv(ctx, stored, w) && inv.src.Some? && inv.tgt.Some?
    ensures WorkInv(ctx, stored, InvalidateRows(ctx, w, inv, outdatedOnly, s))
  {
    if s != [] {
      InvalidateRowsKeeps(ctx, stored, w, inv, outdatedOnly, s[..|s| - 1]);
      InvalidateRowKeeps(ctx, stored, InvalidateRows(ctx, w, inv, outdatedOnly, s[..|s| - 1]), inv, outdatedOnly, s[|s| - 1]);
    }
  }

  lemma {:induction false} InvalidationsKeep(
      ctx: Context, stored: seq<Fact>, w: Work, invs: seq<Invalidation>, outdatedOnly: bool)
    requires WorkInv(ctx, stored, w)
    ensures WorkInv(ctx, stored, ApplyInvalidations(ctx, w, invs, outdatedOnly))
  {
    if invs != [] {
      InvalidationsKeep(ctx, stored, w, invs[..|invs| - 1], outdatedOnly);
      var before, inv := ApplyInvalidations(ctx, w, invs[..|invs| - 1], outdatedOnly), invs[|invs| - 1];
      if inv.src.Some? && inv.tgt.Some? {
        LoadKeeps(ctx, stored, before, inv.src.value);
        var loaded := Load(ctx, before, inv.src.value);
        InvalidateRowsKeeps(ctx, stored, loaded, inv, outdatedOnly, Pool(loaded, inv.src.value));
      }
    }
  }

  lemma {:induction false} ResolveFactsKeep(ctx: Context, stored: seq<Fact>, w: Work, plans: seq<Candidate>)
    requires WorkInv(ctx, stored, w)
    ensures WorkInv(ctx, stored, ResolveFacts(ctx, w, plans))
  {
    if plans != [] {
      ResolveFactsKeep(ctx, stored, w, plans[..|plans| - 1]);
      ResolveKeeps(ctx, stored, ResolveFacts(ctx, w, plans[..|plans| - 1]), plans[|plans| - 1]);
    }
  }

  lemma RepairKeeps(ctx: Context, stored: seq<Fact>, w: Work)
    requires WorkInv(ctx, stored, w)
    ensures RowsInv(ctx, stored, Repair(ctx, w))
    ensures forall i | 0 <= i < ctx.base :: VectorKept(ctx, stored[i], Repair(ctx, w).rows[i])
  {
    var r := Repair(ctx, w);
    forall i | 0 <= i < ctx.base
      ensures RowKept(ctx, stored[i], r.rows[i], i in r.dirty, i in r.invalidated)
      ensures VectorKept(ctx, stored[i], r.rows[i])
    {
      assert RowKept(ctx, stored[i], w.rows[i], i in w.dirty, i in w.invalidated);
      assert w.rows[i].vector == stored[i].vector;
    }
    assert forall i | ctx.base <= i < |r.rows| :: r.rows[i] == w.rows[i];
  }

  /** A whole run, for any reply and any verdicts. */
  lemma RunKeeps(r: RunInput, stored: seq<Fact>)
    requires StoreOk(stored, r.now)
    ensures RowsInv(ContextOf(r, |stored|), stored, Execute(r, stored))
    ensures forall i | 0 <= i < |stored| :: VectorKept(ContextOf(r, |stored|), stored[i], Execute(r, stored).rows[i])
  {
    var ctx := ContextOf(r, |stored|);
    assert WorkInv(ctx, stored, Start(stored));
    InvalidationsKeep(ctx, stored, Start(stored), r.invalidations, true);
    var outdated := ApplyInvalidations(ctx, Start(stored), r.invalidations, true);
    ResolveFactsKeep(ctx, stored, outdated, CollapseRepeats(ctx, r.plans));
    var resolved := ResolveFacts(ctx, outdated, CollapseRepeats(ctx, r.plans));
    InvalidationsKeep(ctx, stored, resolved, r.invalidations, false);
    RepairKeeps(ctx, stored, ApplyInvalidations(ctx, resolved, r.invalidations, false));
  }
}
