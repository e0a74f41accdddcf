/**
 * Relations that hold one value at a time: exactly when a statement keeps
 * such a slot to one current value.
 */
module OneValue {
  import opened Wrappers
  import opened Temporal
  import opened Facts
  import opened Resolution
  import opened RunInvariant

  /* ---------- every fact of a loaded entity is in the working map ---------- */

  predicate LoadedInv(ctx: Context, w: Work) {
    && ctx.base <= |w.rows|
    && (forall i, e | 0 <= i < ctx.base && e in w.loadedFor && Touches(w.rows[i], e) :: i in w.loaded)
    && (forall i | ctx.base <= i < |w.rows| :: i in w.loaded)
  }

  predicate SameEndpoints(a: seq<Fact>, b: seq<Fact>) {
    |a| == |b| && forall i | 0 <= i < |a| :: a[i].source == b[i].source && a[i].target == b[i].target
  }

  /** Same rows up to their windows, evidence and marks, and the same map over them. */
  predicate SameMap(a: Work, b: Work) {
    SameEndpoints(a.rows, b.rows) && a.loaded == b.loaded && a.loadedFor == b.loadedFor
  }

  lemma SameMapKeepsLoaded(ctx: Context, a: Work, b: Work)
    requires LoadedInv(ctx, a) && SameMap(a, b)
    ensures LoadedInv(ctx, b)
  {
    forall i, e | 0 <= i < ctx.base && e in b.loadedFor && Touches(b.rows[i], e)
      ensures i in b.loaded
    {
      assert Touches(a.rows[i], e);
    }
  }

  lemma {:induction false} CloseEndedKeepsMap(ctx: Context, w: Work, ended: seq<nat>, at: Instant)
    ensures SameMap(w, CloseEnded(ctx, w, ended, at))
  {
    if ended != [] {
      CloseEndedKeepsMap(ctx, w, ended[..|ended| - 1], at);
    }
  }

  lemma {:induction false} InvalidateRowsKeepsMap(ctx: Context, w: Work, inv: Invalidation, outdatedOnly: bool, s: seq<nat>)
    requires inv.src.Some? && inv.tgt.Some?
    ensures SameMap(w, InvalidateRows(ctx, w, inv, outdatedOnly, s))
  {
    if s != [] {
      InvalidateRowsKeepsMap(ctx, w, inv, outdatedOnly, s[..|s| - 1]);
    }
  }

  lemma LoadKeepsLoaded(ctx: Context, w: Work, entity: Id)
    requires LoadedInv(ctx, w)
    ensures LoadedInv(ctx, Load(ctx, w, entity)) && entity in Load(ctx, w, entity).loadedFor
  {
  }

  lemma ReinforceKeepsMap(ctx: Context, w: Work, i: nat, end: Option<Instant>)
    requires i < |w.rows|
    ensures SameMap(w, Reinforce(ctx, w, i, end))
  {
  }

  lemma InsertKeepsLoaded(ctx: Context, w: Work, f: Fact)
    requires LoadedInv(ctx, w)
    ensures LoadedInv(ctx, w.(rows := w.rows + [f], loaded := w.loaded + [|w.rows|]))
  {
  }

  lemma ResolveKeepsLoaded(ctx: Context, w: Work, c: Candidate)
    requires LoadedInv(ctx, w)
    ensures LoadedInv(ctx, ResolveFact(ctx, w, c))
  {
    LoadKeepsLoaded(ctx, w, c.src);
    var loaded, span := Load(ctx, w, c.src), SpanOf(ctx, c);
    match Ask(ctx, loaded, c).Decide() {
      case Reinforces(i) =>
        ReinforceKeepsMap(ctx, loaded, i, span.invalidAt);
        SameMapKeepsLoaded(ctx, loaded, Reinforce(ctx, loaded, i, span.invalidAt));
      case MovesStart(i) =>
        var moved := MoveStart(loaded, i, span.validAt, StartFromEpisode(ctx, span));
        ReinforceKeepsMap(ctx, moved, i, span.invalidAt);
        SameMapKeepsLoaded(ctx, loaded, Reinforce(ctx, moved, i, span.invalidAt));
      case Inserts(end, ended) =>
        assert ended != [] ==> ended[0] in ended;
        var closed := if ended == [] then loaded else CloseEnded(ctx, loaded, ended, span.validAt.value);
        if ended != [] {
          CloseEndedKeepsMap(ctx, loaded, ended, span.validAt.value);
        }
        SameMapKeepsLoaded(ctx, loaded, closed);
        InsertKeepsLoaded(ctx, closed, NewEdge(ctx, c, span, end));
    }
  }

  lemma InvalidationKeepsLoaded(ctx: Context, w: Work, inv: Invalidation, outdatedOnly: bool)
    requires LoadedInv(ctx, w)
    ensures LoadedInv(ctx, ApplyInvalidation(ctx, w, inv, outdatedOnly))
  {
    if inv.src.Some? && inv.tgt.Some? {
      LoadKeepsLoaded(ctx, w, inv.src.value);
      var l := Load(ctx, w, inv.src.value);
      InvalidateRowsKeepsMap(ctx, l, inv, outdatedOnly, Pool(l, inv.src.value));
      SameMapKeepsLoaded(ctx, l, InvalidateRows(ctx, l, inv, outdatedOnly, Pool(l, inv.src.value)));
    }
  }

  lemma {:induction false} InvalidationsKeepLoaded(ctx: Context, w: Work, invs: seq<Invalidation>, outdatedOnly: bool)
    requires LoadedInv(ctx, w)
    ensures LoadedInv(ctx, ApplyInvalidations(ctx, w, invs, outdatedOnly))
  {
    if invs != [] {
      InvalidationsKeepLoaded(ctx, w, invs[..|invs| - 1], outdatedOnly);
      InvalidationKeepsLoaded(
        ctx, ApplyInvalidations(ctx, w, invs[..|invs| - 1], outdatedOnly), invs[|invs| - 1], outdatedOnly);
    }
  }

  lemma {:induction false} ResolveFactsKeepLoaded(ctx: Context, w: Work, plans: seq<Candidate>)
    requires LoadedInv(ctx, w)
    ensures LoadedInv(ctx, ResolveFacts(ctx, w, plans))
  {
    if plans != [] {
      ResolveFactsKeepLoaded(ctx, w, plans[..|plans| - 1]);
      ResolveKeepsLoaded(ctx, ResolveFacts(ctx, w, plans[..|plans| - 1]), plans[|plans| - 1]);
    }
  }

  /** The working rows when a run comes to its k-th statement. */
  function WorkBefore(r: RunInput, stored: seq<Fact>, k: nat): Work
    requires k <= |CollapseRepeats(ContextOf(r, |stored|), r.plans)|
  {
    var ctx := ContextOf(r, |stored|);
    ResolveFacts(ctx, ApplyInvalidations(ctx, Start(stored), r.invalidations, true), CollapseRepeats(ctx, r.plans)[..k])
  }

  lemma WorkBeforeIsComplete(r: RunInput, stored: seq<Fact>, k: nat)
    requires StoreOk(stored, r.now) && k <= |CollapseRepeats(ContextOf(r, |stored|), r.plans)|
    ensures WorkInv(ContextOf(r, |stored|), stored, WorkBefore(r, stored, k))
    ensures LoadedInv(ContextOf(r, |stored|), WorkBefore(r, stored, k))
  {
    var ctx := ContextOf(r, |stored|);
    assert WorkInv(ctx, stored, Start(stored)) && LoadedInv(ctx, Start(stored));
    var outdated, plans := ApplyInvalidations(ctx, Start(stored), r.invalidations, true), CollapseRepeats(ctx, r.plans)[..k];
    InvalidationsKeep(ctx, stored, Start(stored), r.invalidations, true);
    InvalidationsKeepLoaded(ctx, Start(stored), r.invalidations, true);
    ResolveFactsKeep(ctx, stored, outdated, plans);
    ResolveFactsKeepLoaded(ctx, outdated, plans);
  }

  /* ---------- current values ---------- */

  /** Row i is a value of the slot that is true at the clock. */
  predicate Current(ctx: Context, rows: seq<Fact>, i: nat, c: Candidate) {
    i < |rows| && SameSlot(rows[i], c.src, c.relation) && ActiveAt(rows[i], ctx.now, ctx.now)
  }

  predicate AtMostOne(ctx: Context, rows: seq<Fact>, c: Candidate) {
    forall i, j | 0 <= i < |rows| && 0 <= j < |rows| && Current(ctx, rows, i, c) && Current(ctx, rows, j, c) :: i == j
  }

  /** Closing leaves nothing current that was not. */
  lemma {:induction false} CloseEndedRevivesNothing(ctx: Context, stored: seq<Fact>, w: Work, ended: seq<nat>, at: Instant, i: nat)
    requires WorkInv(ctx, stored, w)
    requires forall k | k in ended :: k < |w.rows| && !IsRetracted(w.rows[k])
    requires i < |w.rows| && !ActiveAt(w.rows[i], ctx.now, ctx.now)
    ensures !ActiveAt(CloseEnded(ctx, w, ended, at).rows[i], ctx.now, ctx.now)
  {
    if ended != [] {
      var init := ended[..|ended| - 1];
      assert forall k | k in init :: k in ended;
      CloseEndedRevivesNothing(ctx, stored, w, init, at, i);
      CloseEndedKeeps(ctx, stored, w, init, at);
      var r := CloseEnded(ctx, w, init, at);
      if i < ctx.base {
        assert RowKept(ctx, stored[i], r.rows[i], i in r.dirty, i in r.invalidated);
        assert RowOk(stored[i], ctx.now);
      } else {
        assert NewRow(ctx, r.rows[i]);
      }
    }
  }

  predicate BegunBy(start: Option<Instant>, at: Instant) {
    start.Some? ==> start.value <= at
  }

  predicate BegunBefore(start: Option<Instant>, at: Instant, now: Instant) {
    BegunBy(start, at) && start != Some(now)
  }

  lemma EarlierIsBefore(start: Option<Instant>, at: Option<Instant>, now: Instant)
    requires at.Some? && at.value <= now && BegunBy(start, at.value)
    requires at == Some(now) ==> start != Some(now)
    ensures BegunBefore(start, at.value, now)
  {
  }

  /** Closing one row the verdict ends, begun by then and before the clock, leaves it not current. */
  lemma ClosedIsNotCurrent(ctx: Context, stored: seq<Fact>, w: Work, i: nat, at: Instant)
    requires WorkInv(ctx, stored, w) && ctx.episode.validAt <= ctx.now && at <= ctx.now
    requires i < ctx.base && !IsRetracted(w.rows[i])
    requires BegunBefore(w.rows[i].validAt, at, ctx.now)
    ensures !ActiveAt(CloseEnded(ctx, w, [i], at).rows[i], ctx.now, ctx.now)
  {
    assert [i][..0] == [] && CloseEnded(ctx, w, [], at) == w;
    assert RowKept(ctx, stored[i], w.rows[i], i in w.dirty, i in w.invalidated);
    assert RowOk(stored[i], ctx.now);
  }

  lemma CloseEndedLast(ctx: Context, w: Work, init: seq<nat>, last: nat, at: Instant)
    ensures CloseEnded(ctx, w, init + [last], at) == CloseEnded(ctx, CloseEnded(ctx, w, init, at), [last], at)
  {
    assert (init + [last])[..|init|] == init;
    assert [last][..0] == [];
    assert CloseEnded(ctx, CloseEnded(ctx, w, init, at), [], at) == CloseEnded(ctx, w, init, at);
  }

  /** A current row the verdict ends, begun by then and before the clock, is current no more. */
  lemma {:induction false} EndedIsNotCurrent(ctx: Context, stored: seq<Fact>, w: Work, ended: seq<nat>, at: Instant, i: nat)
    requires WorkInv(ctx, stored, w) && ctx.episode.validAt <= ctx.now && at <= ctx.now
    requires forall k | k in ended :: k < ctx.base && !IsRetracted(w.rows[k])
    requires i in ended
    requires BegunBefore(w.rows[i].validAt, at, ctx.now)
    ensures !ActiveAt(CloseEnded(ctx, w, ended, at).rows[i], ctx.now, ctx.now)
  {
    var init, last := ended[..|ended| - 1], ended[|ended| - 1];
    assert ended == init + [last] && (forall k | k in init :: k in ended) && last in ended;
    CloseEndedLast(ctx, w, init, last, at);
    CloseEndedKeeps(ctx, stored, w, init, at);
    var r := CloseEnded(ctx, w, init, at);
    assert !IsRetracted(r.rows[last]) by {
      assert last !in init ==> r.rows[last] == w.rows[last];
    }
    if i in init {
      EndedIsNotCurrent(ctx, stored, w, init, at, i);
      CloseEndedRevivesNothing(ctx, stored, r, [last], at, i);
    } else {
      ClosedIsNotCurrent(ctx, stored, r, i, at);
    }
  }

  /** The new edge ends by the start of every later record and of every newer fact the verdict names. */
  lemma {:induction false} EndIsBounded(q: Query, s: seq<nat>)
    ensures q.LaterStart().Some? ==> q.EndAfter(s).Some? && q.EndAfter(s).value <= q.LaterStart().value
    ensures forall i | i in s && i < |q.rows| && q.span.validAt.Some? && q.rows[i].validAt.Some?
                       && q.rows[i].validAt.value > q.span.validAt.value ::
              q.EndAfter(s).Some? && q.EndAfter(s).value <= q.rows[i].validAt.value
  {
    if s == [] {
      AlongsideEndIsBounded(q, q.AlongsideList());
    } else {
      assert s == s[..|s| - 1] + [s[|s| - 1]];
      EndIsBounded(q, s[..|s| - 1]);
    }
  }

  lemma {:induction false} AlongsideEndIsBounded(q: Query, s: seq<nat>)
    ensures q.LaterStart().Some? ==> q.EndAlongside(s).Some? && q.EndAlongside(s).value <= q.LaterStart().value
    ensures q.span.invalidAt.Some? ==> q.EndAlongside(s).Some? && q.EndAlongside(s).value <= q.span.invalidAt.value
  {
    if s != [] {
      AlongsideEndIsBounded(q, s[..|s| - 1]);
    }
  }

  /** A statement as a run comes to it; when valid, its reply and verdict leave the slot one value. */
  datatype Statement = Statement(ctx: Context, stored: seq<Fact>, w: Work, c: Candidate) {
    /** The statement is one a run comes to, in a well-formed store. */
    predicate Reached(r: RunInput, k: nat) {
      && StoreOk(stored, r.now) && ctx == ContextOf(r, |stored|)
      && k < |CollapseRepeats(ctx, r.plans)|
      && w == WorkBefore(r, stored, k) && c == CollapseRepeats(ctx, r.plans)[k]
    }

    function Loaded(): Work {
      Load(ctx, w, c.src)
    }

    function Asked(): Query {
      Ask(ctx, Loaded(), c)
    }

    function Resolved(): seq<Fact> {
      ResolveFact(ctx, w, c).rows
    }

    /** The slot admits one value at a time, or the statement replaces what is there; the run has added no fact to it yet. */
    predicate AloneInSlot() {
      (c.relation in SINGLE_VALUED || c.replacesPrevious)
      && forall i | ctx.base <= i < |w.rows| :: !SameSlot(w.rows[i], c.src, c.relation)
    }

    /** The episode is not dated after the clock. */
    predicate DatedInTime() {
      ctx.episode.validAt <= ctx.now
    }

    predicate EndsAllShown() {
      forall i | i in Asked().ShownList() :: i in Asked().Judged().ended
    }

    predicate Valid() {
      WorkInv(ctx, stored, w) && LoadedInv(ctx, w) && AloneInSlot() && DatedInTime() && EndsAllShown()
    }
  }

  /** The rows a statement meets: all of its slot, none of them created by the run. */
  lemma SlotIsMet(s: Statement, i: nat)
    requires s.Valid() && i < |s.w.rows| && SameSlot(s.w.rows[i], s.c.src, s.c.relation)
    ensures i < s.ctx.base && i in s.Asked().pool && s.Asked().rows == s.w.rows
    ensures WorkInv(s.ctx, s.stored, s.Loaded())
  {
    LoadKeeps(s.ctx, s.stored, s.w, s.c.src);
    LoadKeepsLoaded(s.ctx, s.w, s.c.src);
  }

  lemma CurrentIsNotRetracted(s: Statement, i: nat)
    requires s.Valid() && Current(s.ctx, s.w.rows, i, s.c)
    ensures !IsRetracted(s.w.rows[i])
  {
    SlotIsMet(s, i);
    assert RowKept(s.ctx, s.stored[i], s.w.rows[i], i in s.w.dirty, i in s.w.invalidated);
    assert RowOk(s.stored[i], s.ctx.now);
  }

  lemma InsertsWhatIsJudged(q: Query)
    requires q.Decide().Inserts?
    ensures q.Decide().ended == q.Judged().ended && q.Decide().end == q.EndAfter(q.Judged().ended)
  {
  }

  /**
   * A current value of the slot when the statement adds one: it is ended, or
   * it began after the statement, whose edge then ends by the clock.
   */
  lemma CurrentGivesWay(s: Statement, i: nat) returns (bounded: bool)
    requires s.Valid() && Current(s.ctx, s.w.rows, i, s.c) && s.Asked().Decide().Inserts?
    requires s.Asked().span.validAt.Some? && s.Asked().span.validAt.value <= s.ctx.now
    ensures bounded ==> s.Asked().Decide().end.Some? && s.Asked().Decide().end.value <= s.ctx.now
    ensures !bounded ==> i in s.Asked().Decide().ended && BegunBy(s.w.rows[i].validAt, s.Asked().span.validAt.value)
  {
    SlotIsMet(s, i);
    CurrentIsNotRetracted(s, i);
    var q := s.Asked();
    InsertsWhatIsJudged(q);
    EndIsBounded(q, q.Judged().ended);
    assert q.pool == Pool(s.Loaded(), s.c.src);
    if q.Record(i) && q.Same(i) {
      assert !q.Covering(i);
      assert q.LaterRecord(i);
      bounded := true;
    } else {
      assert q.Shown(i);
      assert i in q.ShownList();
      bounded := !BegunBy(s.w.rows[i].validAt, q.span.validAt.value);
    }
  }

  lemma {:induction false} NoneSelected(s: seq<nat>, p: nat -> bool)
    requires forall i | i in s :: !p(i)
    ensures Select(s, p) == []
  {
    if s != [] {
      NoneSelected(s[..|s| - 1], p);
    }
  }

  /** A statement whose start is unknown ends nothing, and its edge ends where the text says. */
  lemma UnknownStartEndsNothing(q: Query)
    requires q.span.validAt.None?
    ensures q.Judged().ended == []
    ensures q.span.invalidAt.Some? ==> q.EndAfter([]).Some? && q.EndAfter([]).value <= q.span.invalidAt.value
  {
    NoneSelected(q.pool, (i: nat) => q.Shown(i));
    AlongsideEndIsBounded(q, q.AlongsideList());
  }

  function EdgeOf(s: Statement): Fact
    requires s.Asked().Decide().Inserts?
  {
    NewEdge(s.ctx, s.c, s.Asked().span, s.Asked().Decide().end)
  }

  /** Exactly when the new edge is current: its window, as far as it is known, contains the clock. */
  lemma EdgeIsCurrentIff(s: Statement)
    requires s.Valid() && s.Asked().Decide().Inserts?
    ensures var span, end := s.Asked().span, s.Asked().Decide().end;
            && (ActiveAt(EdgeOf(s), s.ctx.now, s.ctx.now)
                <==> (span.validAt.None? || span.validAt.value <= s.ctx.now) && (end.None? || s.ctx.now < end.value))
            && (span.validAt.None? ==> end == span.invalidAt && end.Some?)
            && (span.validAt == Some(s.ctx.now) ==> ActiveAt(EdgeOf(s), s.ctx.now, s.ctx.now))
  {
    LoadKeeps(s.ctx, s.stored, s.w, s.c.src);
    var q := s.Asked();
    if q.span.validAt.None? {
      UnknownStartEndsNothing(q);
      NoneSelected(q.pool, (i: nat) => q.Alongside(i));
    } else {
      EndAfterIsLater(q, s.stored, s.Loaded(), q.Judged().ended);
    }
  }

  /** The rows once the statement's edge is about to be added. */
  function Closed(s: Statement): Work
    requires s.Asked().Decide().Inserts?
  {
    var ended := s.Asked().Decide().ended;
    assert ended != [] ==> ended[0] in ended;
    if ended == [] then s.Loaded() else CloseEnded(s.ctx, s.Loaded(), ended, s.Asked().span.validAt.value)
  }

  /** Nothing of the slot is current afterwards that was not before. */
  lemma ClosingRevivesNothing(s: Statement, i: nat)
    requires s.Valid() && s.Asked().Decide().Inserts?
    ensures |Closed(s).rows| == |s.w.rows|
    ensures Current(s.ctx, Closed(s).rows, i, s.c) ==> Current(s.ctx, s.w.rows, i, s.c)
  {
    LoadKeeps(s.ctx, s.stored, s.w, s.c.src);
    var ended, loaded := s.Asked().Decide().ended, s.Loaded();
    if ended != [] && i < |s.w.rows| {
      assert ended[0] in ended;
      var at := s.Asked().span.validAt.value;
      CloseEndedKeepsSlots(s.ctx, loaded, ended, at);
      if !ActiveAt(loaded.rows[i], s.ctx.now, s.ctx.now) {
        CloseEndedRevivesNothing(s.ctx, s.stored, loaded, ended, at, i);
      }
    }
  }

  /** The statement starts at the clock itself, and so did a current value, which can only be ended later. */
  predicate StartsTogether(s: Statement) {
    && s.Asked().Decide().Inserts? && s.Asked().span.validAt == Some(s.ctx.now)
    && exists i | 0 <= i < |s.w.rows| :: Current(s.ctx, s.w.rows, i, s.c) && s.w.rows[i].validAt == Some(s.ctx.now)
  }

  /** The statement has no known start and an end ahead, so it ends nothing and is current beside a current value. */
  predicate EndsAhead(s: Statement) {
    && s.Asked().Decide().Inserts? && s.Asked().span.validAt.None?
    && s.Asked().span.invalidAt.Some? && s.Asked().span.invalidAt.value > s.ctx.now
    && exists i | 0 <= i < |s.w.rows| :: Current(s.ctx, s.w.rows, i, s.c)
  }

  /** If the new edge is current, nothing else of the slot is. */
  lemma CurrentEdgeIsAlone(s: Statement, i: nat)
    requires s.Valid() && s.Asked().Decide().Inserts? && !StartsTogether(s) && !EndsAhead(s)
    requires ActiveAt(EdgeOf(s), s.ctx.now, s.ctx.now)
    ensures !Current(s.ctx, Closed(s).rows, i, s.c)
  {
    EdgeIsCurrentIff(s);
    ClosingRevivesNothing(s, i);
    if Current(s.ctx, s.w.rows, i, s.c) {
      GivenWayIsNotCurrent(s, i);
    }
  }

  lemma GivenWayIsNotCurrent(s: Statement, i: nat)
    requires s.Valid() && s.Asked().Decide().Inserts? && Current(s.ctx, s.w.rows, i, s.c)
    requires s.Asked().span.validAt.Some? && s.Asked().span.validAt.value <= s.ctx.now
    requires s.Asked().Decide().end.None? || s.ctx.now < s.Asked().Decide().end.value
    requires s.Asked().span.validAt == Some(s.ctx.now) ==> s.w.rows[i].validAt != Some(s.ctx.now)
    ensures !Current(s.ctx, Closed(s).rows, i, s.c)
  {
    var bounded := CurrentGivesWay(s, i);
    if !bounded {
      EarlierIsBefore(s.w.rows[i].validAt, s.Asked().span.validAt, s.ctx.now);
      EndedLeavesSlot(s, i);
    }
  }

  /** A row the verdict ends, begun by the statement's start and before the clock, leaves the slot. */
  lemma EndedLeavesSlot(s: Statement, i: nat)
    requires s.Valid() && s.Asked().Decide().Inserts? && i in s.Asked().Decide().ended && i < |s.w.rows|
    requires s.Asked().span.validAt.Some? && s.Asked().span.validAt.value <= s.ctx.now
    requires BegunBefore(s.w.rows[i].validAt, s.Asked().span.validAt.value, s.ctx.now)
    ensures !Current(s.ctx, Closed(s).rows, i, s.c)
  {
    EndedAreStored(s);
    assert s.Loaded().rows[i] == s.w.rows[i];
    EndedIsNotCurrent(s.ctx, s.stored, s.Loaded(), s.Asked().Decide().ended, s.Asked().span.validAt.value, i);
  }

  lemma EndedAreStored(s: Statement)
    requires s.Valid() && s.Asked().Decide().Inserts?
    ensures WorkInv(s.ctx, s.stored, s.Loaded()) && s.Loaded().rows == s.w.rows
    ensures s.Asked().Decide().ended == s.Asked().Judged().ended
    ensures forall k | k in s.Asked().Decide().ended :: k < s.ctx.base && !IsRetracted(s.Loaded().rows[k])
  {
    LoadKeeps(s.ctx, s.stored, s.w, s.c.src);
    var q := s.Asked();
    forall k | k in q.Decide().ended
      ensures k < s.ctx.base && !IsRetracted(s.Loaded().rows[k])
    {
      assert q.Shown(k);
    }
  }

  /** One current value: a statement that adds an edge leaves at most one current value where there was at most one. */
  lemma AddingKeepsOneValue(s: Statement)
    requires s.Valid() && s.Asked().Decide().Inserts? && AtMostOne(s.ctx, s.w.rows, s.c)
    requires !StartsTogether(s) && !EndsAhead(s)
    ensures AtMostOne(s.ctx, s.Resolved(), s.c)
  {
    var edge := EdgeOf(s);
    assert s.Resolved() == Closed(s).rows + [edge];
    forall i: nat, j: nat | Current(s.ctx, s.Resolved(), i, s.c) && Current(s.ctx, s.Resolved(), j, s.c)
      ensures i == j
    {
      ClosingRevivesNothing(s, i);
      ClosingRevivesNothing(s, j);
      if ActiveAt(edge, s.ctx.now, s.ctx.now) {
        CurrentEdgeIsAlone(s, i);
        CurrentEdgeIsAlone(s, j);
      }
    }
  }

  /** A row that starts at the clock stays current through closings at the clock. */
  lemma {:induction false} JustStartedStays(ctx: Context, w: Work, ended: seq<nat>, i: nat)
    requires ctx.episode.validAt <= ctx.now && i < |w.rows|
    requires w.rows[i].validAt == Some(ctx.now) && ActiveAt(w.rows[i], ctx.now, ctx.now)
    ensures CloseEnded(ctx, w, ended, ctx.now).rows[i].validAt == Some(ctx.now)
    ensures ActiveAt(CloseEnded(ctx, w, ended, ctx.now).rows[i], ctx.now, ctx.now)
  {
    if ended != [] {
      JustStartedStays(ctx, w, ended[..|ended| - 1], i);
    }
  }

  /** In either of the two cases both are current afterwards. */
  lemma AddingCollides(s: Statement)
    requires s.Valid() && (StartsTogether(s) || EndsAhead(s))
    ensures !AtMostOne(s.ctx, s.Resolved(), s.c)
  {
    EdgeIsCurrentIff(s);
    assert s.Resolved() == Closed(s).rows + [EdgeOf(s)];
    var i;
    if StartsTogether(s) {
      i := TogetherStays(s);
    } else {
      i := AheadStays(s);
    }
    var n := |Closed(s).rows|;
    assert Current(s.ctx, s.Resolved(), i, s.c) && Current(s.ctx, s.Resolved(), n, s.c) && i != n;
  }

  lemma TogetherStays(s: Statement) returns (i: nat)
    requires s.Valid() && StartsTogether(s)
    ensures Current(s.ctx, Closed(s).rows, i, s.c)
  {
    LoadKeeps(s.ctx, s.stored, s.w, s.c.src);
    i :| i < |s.w.rows| && Current(s.ctx, s.w.rows, i, s.c) && s.w.rows[i].validAt == Some(s.ctx.now);
    JustStartedStays(s.ctx, s.Loaded(), s.Asked().Decide().ended, i);
    CloseEndedKeepsSlots(s.ctx, s.Loaded(), s.Asked().Decide().ended, s.ctx.now);
  }

  lemma AheadStays(s: Statement) returns (i: nat)
    requires s.Valid() && EndsAhead(s)
    ensures Current(s.ctx, Closed(s).rows, i, s.c)
  {
    LoadKeeps(s.ctx, s.stored, s.w, s.c.src);
    UnknownStartEndsNothing(s.Asked());
    i :| i < |s.w.rows| && Current(s.ctx, s.w.rows, i, s.c);
  }

  lemma {:induction false} CloseEndedKeepsSlots(ctx: Context, w: Work, ended: seq<nat>, at: Instant)
    ensures forall i | 0 <= i < |w.rows| ::
              && CloseEnded(ctx, w, ended, at).rows[i].source == w.rows[i].source
              && CloseEnded(ctx, w, ended, at).rows[i].relation == w.rows[i].relation
  {
    if ended != [] {
      CloseEndedKeepsSlots(ctx, w, ended[..|ended| - 1], at);
    }
  }

  /**
   * In any run, for any reply: exactly when a statement that adds an edge to
   * such a slot keeps it to one current value.
   */
  lemma RunAddsOneValue(s: Statement, r: RunInput, k: nat)
    requires s.Reached(r, k) && s.DatedInTime() && s.AloneInSlot() && s.EndsAllShown()
    requires s.Asked().Decide().Inserts? && AtMostOne(s.ctx, s.w.rows, s.c)
    ensures AtMostOne(s.ctx, s.Resolved(), s.c) <==> !StartsTogether(s) && !EndsAhead(s)
    ensures s.Asked().span.validAt.Some? && s.Asked().span.validAt.value != s.ctx.now ==> AtMostOne(s.ctx, s.Resolved(), s.c)
  {
    WorkBeforeIsComplete(r, s.stored, k);
    AddingKeepsOneValueIff(s);
  }

  lemma AddingKeepsOneValueIff(s: Statement)
    requires s.Valid() && s.Asked().Decide().Inserts? && AtMostOne(s.ctx, s.w.rows, s.c)
    ensures AtMostOne(s.ctx, s.Resolved(), s.c) <==> !StartsTogether(s) && !EndsAhead(s)
  {
    if StartsTogether(s) || EndsAhead(s) {
      AddingCollides(s);
    } else {
      AddingKeepsOneValue(s);
    }
  }

  /* ---------- a moved start ---------- */

  /**
   * The other way a statement can make a value current: it is earlier
   * evidence for a record that was to begin after the clock.
   */
  predicate BringsForward(s: Statement, i: nat) {
    && s.Asked().Decide() == MovesStart(i)
    && s.Asked().span.validAt.Some? && s.Asked().span.validAt.value <= s.ctx.now
    && i < |s.w.rows| && s.w.rows[i].validAt.Some? && s.w.rows[i].validAt.value > s.ctx.now
    && (var end := if s.w.rows[i].invalidAt.Some? then s.w.rows[i].invalidAt else s.Asked().span.invalidAt;
        end.None? || end.value > s.ctx.now)
  }

  /** Reinforcing changes no other row, and leaves a row active at the clock only if it was and its end allows. */
  lemma ReinforceAtClock(ctx: Context, w: Work, i: nat, end: Option<Instant>, j: nat)
    requires i < |w.rows| && j < |w.rows| && w.rows[i].createdAt <= ctx.now && !IsRetracted(w.rows[i])
    requires w.rows[i].expiredAt.Some? ==> w.rows[i].expiredAt.value <= ctx.now
    ensures var rows := Reinforce(ctx, w, i, end).rows;
            && |rows| == |w.rows|
            && rows[j].source == w.rows[j].source && rows[j].relation == w.rows[j].relation
            && (j != i ==> rows[j] == w.rows[j])
            && (ActiveAt(rows[i], ctx.now, ctx.now) ==> ActiveAt(w.rows[i], ctx.now, ctx.now))
            && (ActiveAt(w.rows[i], ctx.now, ctx.now) && w.rows[i].invalidAt.None? && end.Some?
                  && (w.rows[i].validAt.Some? ==> w.rows[i].validAt.value < end.value)
                ==> (ActiveAt(rows[i], ctx.now, ctx.now) <==> ctx.now < end.value))
            && (end.None? || w.rows[i].invalidAt.Some?
                ==> (ActiveAt(rows[i], ctx.now, ctx.now) <==> ActiveAt(w.rows[i], ctx.now, ctx.now)))
  {
  }

  /** A row moved to start by the clock is active at it exactly when it has not ended. */
  lemma MovedAtClock(f: Fact, moved: Fact, now: Instant)
    requires !IsRetracted(f) && f.createdAt <= now && (f.expiredAt.Some? ==> f.expiredAt.value <= now)
    requires moved == f.(validAt := moved.validAt, marks := moved.marks)
    requires moved.validAt.Some? && moved.validAt.value <= now
    ensures ActiveAt(moved, now, now) <==> f.invalidAt.None? || now < f.invalidAt.value
    ensures ActiveAt(f, now, now)
            <==> (f.validAt.None? || f.validAt.value <= now) && (f.invalidAt.None? || now < f.invalidAt.value)
  {
  }

  /** A row the statement meets, as the run holds it. */
  lemma MetRow(s: Statement, i: nat)
    requires s.Valid() && i < |s.w.rows| && SameSlot(s.w.rows[i], s.c.src, s.c.relation)
    ensures s.w.rows[i].createdAt <= s.ctx.now
    ensures s.w.rows[i].expiredAt.Some? ==> s.w.rows[i].expiredAt.value <= s.ctx.now
    ensures s.Loaded().rows == s.w.rows
  {
    LoadKeeps(s.ctx, s.stored, s.w, s.c.src);
    SlotIsMet(s, i);
    assert RowKept(s.ctx, s.stored[i], s.w.rows[i], i in s.w.dirty, i in s.w.invalidated);
    assert RowOk(s.stored[i], s.ctx.now);
  }

  /** The rows once the start of row i is moved. */
  function Moved(s: Statement, i: nat): Work
    requires i < |s.Loaded().rows|
  {
    MoveStart(s.Loaded(), i, s.Asked().span.validAt, StartFromEpisode(s.ctx, s.Asked().span))
  }

  lemma MovedThenReinforced(s: Statement, i: nat)
    requires s.Valid() && s.Asked().Decide() == MovesStart(i)
    ensures i < |s.w.rows| && s.Loaded().rows == s.w.rows && SameSlot(s.w.rows[i], s.c.src, s.c.relation)
    ensures s.Resolved() == Reinforce(s.ctx, Moved(s, i), i, s.Asked().span.invalidAt).rows
    ensures s.Asked().span.validAt.Some?
    ensures s.w.rows[i].validAt.Some? && s.Asked().span.validAt.value < s.w.rows[i].validAt.value
    ensures !IsRetracted(s.w.rows[i])
  {
    LoadKeeps(s.ctx, s.stored, s.w, s.c.src);
  }

  /** Moving a start changes what is current of no other row. */
  lemma MovedLeavesOthers(s: Statement, i: nat, j: nat)
    requires s.Valid() && s.Asked().Decide() == MovesStart(i) && j < |s.w.rows|
    ensures |s.Resolved()| == |s.w.rows|
    ensures j != i ==> s.Resolved()[j] == s.w.rows[j]
  {
    MovedThenReinforced(s, i);
    MetRow(s, i);
    ReinforceAtClock(s.ctx, Moved(s, i), i, s.Asked().span.invalidAt, j);
  }

  /** The moved row is current if it was, or if it is brought forward. */
  lemma MovedItself(s: Statement, i: nat)
    requires s.Valid() && s.Asked().Decide() == MovesStart(i)
    ensures Current(s.ctx, s.Resolved(), i, s.c) ==> Current(s.ctx, s.w.rows, i, s.c) || BringsForward(s, i)
    ensures BringsForward(s, i) ==> Current(s.ctx, s.Resolved(), i, s.c)
  {
    MovedThenReinforced(s, i);
    MetRow(s, i);
    if s.Asked().span.validAt.value <= s.ctx.now {
      MovedAtClock(s.w.rows[i], Moved(s, i).rows[i], s.ctx.now);
    }
    ReinforceAtClock(s.ctx, Moved(s, i), i, s.Asked().span.invalidAt, i);
  }

  lemma ReinforcedStaysCurrentOnly(s: Statement, i: nat, j: nat)
    requires s.Valid() && s.Asked().Decide() == Reinforces(i) && j < |s.w.rows|
    ensures |s.Resolved()| == |s.w.rows|
    ensures Current(s.ctx, s.Resolved(), j, s.c) ==> Current(s.ctx, s.w.rows, j, s.c)
  {
    LoadKeeps(s.ctx, s.stored, s.w, s.c.src);
    MetRow(s, i);
    ReinforceAtClock(s.ctx, s.Loaded(), i, s.Asked().span.invalidAt, j);
  }

  lemma ReinforcingKeepsOneValue(s: Statement, k: nat)
    requires s.Valid() && s.Asked().Decide() == Reinforces(k) && AtMostOne(s.ctx, s.w.rows, s.c)
    ensures AtMostOne(s.ctx, s.Resolved(), s.c)
  {
    LoadKeeps(s.ctx, s.stored, s.w, s.c.src);
    forall i: nat, j: nat | Current(s.ctx, s.Resolved(), i, s.c) && Current(s.ctx, s.Resolved(), j, s.c)
      ensures i == j
    {
      ReinforcedStaysCurrentOnly(s, k, k);
      ReinforcedStaysCurrentOnly(s, k, i);
      ReinforcedStaysCurrentOnly(s, k, j);
    }
  }

  lemma MovingKeepsOneValueIff(s: Statement, k: nat)
    requires s.Valid() && s.Asked().Decide() == MovesStart(k) && AtMostOne(s.ctx, s.w.rows, s.c)
    ensures AtMostOne(s.ctx, s.Resolved(), s.c)
            <==> !(BringsForward(s, k) && exists j | 0 <= j < |s.w.rows| :: j != k && Current(s.ctx, s.w.rows, j, s.c))
  {
    MovedThenReinforced(s, k);
    MovedItself(s, k);
    var after := s.Resolved();
    forall j: nat | j < |s.w.rows|
      ensures |after| == |s.w.rows|
      ensures j != k ==> (Current(s.ctx, after, j, s.c) <==> Current(s.ctx, s.w.rows, j, s.c))
    {
      MovedLeavesOthers(s, k, j);
    }
    if BringsForward(s, k) && exists j | 0 <= j < |s.w.rows| :: j != k && Current(s.ctx, s.w.rows, j, s.c) {
      var j :| 0 <= j < |s.w.rows| && j != k && Current(s.ctx, s.w.rows, j, s.c);
      assert Current(s.ctx, after, j, s.c) && Current(s.ctx, after, k, s.c);
    } else if !BringsForward(s, k) {
      assert forall j: nat | Current(s.ctx, after, j, s.c) :: Current(s.ctx, s.w.rows, j, s.c);
    }
  }

  /** The statement brings a scheduled record forward while another value is current. */
  predicate Collides(s: Statement) {
    exists i, j | 0 <= i < |s.w.rows| && 0 <= j < |s.w.rows| ::
      i != j && BringsForward(s, i) && Current(s.ctx, s.w.rows, j, s.c)
  }

  /** Exactly when a statement, whatever it turns out to be, keeps a slot to one current value. */
  lemma OneValueIff(s: Statement)
    requires s.Valid() && AtMostOne(s.ctx, s.w.rows, s.c)
    ensures AtMostOne(s.ctx, s.Resolved(), s.c) <==> !Collides(s) && !StartsTogether(s) && !EndsAhead(s)
  {
    match s.Asked().Decide() {
      case Inserts(_, _) => AddingKeepsOneValueIff(s);
      case Reinforces(k) => ReinforcingKeepsOneValue(s, k);
      case MovesStart(k) =>
        MovedThenReinforced(s, k);
        MovingKeepsOneValueIff(s, k);
    }
  }
}
