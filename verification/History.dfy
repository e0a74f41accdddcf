/**
 * A group's facts over any sequence of ingestion runs and corrections.
 */
module History {
  import opened Wrappers
  import opened Temporal
  import opened Facts
  import opened Resolution
  import opened RunInvariant
  import opened Corrections
  import opened Forgetting

  datatype Op =
    | Ingest(run: RunInput)
    | Invalidate(i: nat, at: Option<Instant>, retract: bool, now: Instant)
    | Reopen(i: nat, end: Option<Instant>, now: Instant)
    | Forget(id: Id, now: Instant)

  function ClockOf(op: Op): Instant {
    if op.Ingest? then op.run.now else op.now
  }

  /** The rows after the operation; one that fails changes nothing. */
  function Apply(facts: seq<Fact>, op: Op): seq<Fact> {
    match op
    case Ingest(run) => Execute(run, facts).rows
    case Invalidate(i, at, retract, now) =>
      (match InvalidateFact(facts, i, at, retract, now) case Ok(r) => r case Err(_) => facts)
    case Reopen(i, end, now) => (match ReopenFact(facts, i, end, now) case Ok(r) => r case Err(_) => facts)
    case Forget(id, now) => ForgetFacts(facts, id, now)
  }

  function Replay(facts: seq<Fact>, ops: seq<Op>): seq<Fact> {
    if ops == [] then facts else Apply(Replay(facts, ops[..|ops| - 1]), ops[|ops| - 1])
  }

  /** Clocks do not go back, and start at `clock`. */
  predicate ClocksFrom(clock: Instant, ops: seq<Op>) {
    && (forall i | 0 <= i < |ops| :: clock <= ClockOf(ops[i]))
    && (forall i, j | 0 <= i < j < |ops| :: ClockOf(ops[i]) <= ClockOf(ops[j]))
  }

  /** No episode is dated after the clock of its run. */
  predicate DatedInTime(ops: seq<Op>) {
    forall i | 0 <= i < |ops| && ops[i].Ingest? :: ops[i].run.episode.validAt <= ops[i].run.now
  }

  /* ---------- rows stay well formed ---------- */

  lemma StoreOkLater(facts: seq<Fact>, clock: Instant, later: Instant)
    requires StoreOk(facts, clock) && clock <= later
    ensures StoreOk(facts, later)
  {
    forall i | 0 <= i < |facts| ensures RowOk(facts[i], later) {
      assert RowOk(facts[i], clock);
    }
  }

  lemma ApplyKeepsStore(facts: seq<Fact>, op: Op)
    requires StoreOk(facts, ClockOf(op))
    ensures StoreOk(Apply(facts, op), ClockOf(op))
  {
    match op {
      case Ingest(run) => RunKeepsStore(run, facts);
      case Invalidate(i, at, retract, now) => if i < |facts| { assert RowOk(facts[i], now); }
      case Reopen(i, end, now) => if i < |facts| { assert RowOk(facts[i], now); }
      case Forget(id, now) => ForgetKeepsStore(facts, id, now);
    }
  }

  lemma RunKeepsStore(run: RunInput, facts: seq<Fact>)
    requires StoreOk(facts, run.now)
    ensures StoreOk(Execute(run, facts).rows, run.now)
  {
    RunKeeps(run, facts);
    var ctx, w := ContextOf(run, |facts|), Execute(run, facts);
    forall i | 0 <= i < |w.rows|
      ensures RowOk(w.rows[i], run.now)
    {
      if i < |facts| {
        assert RowKept(ctx, facts[i], w.rows[i], i in w.dirty, i in w.invalidated);
        assert RowOk(facts[i], run.now);
      } else {
        assert NewRow(ctx, w.rows[i]);
      }
    }
  }

  lemma RunKeepsWindows(run: RunInput, facts: seq<Fact>)
    requires StoreOk(facts, run.now) && Windowed(facts) && run.episode.validAt <= run.now
    ensures Windowed(Execute(run, facts).rows)
  {
    RunKeeps(run, facts);
    var ctx, w := ContextOf(run, |facts|), Execute(run, facts);
    forall i | 0 <= i < |w.rows|
      ensures WellFormed(w.rows[i])
    {
      if i < |facts| {
        assert RowKept(ctx, facts[i], w.rows[i], i in w.dirty, i in w.invalidated);
        assert WellFormed(facts[i]);
      } else {
        assert NewRow(ctx, w.rows[i]);
      }
    }
  }

  lemma ApplyKeepsWindows(facts: seq<Fact>, op: Op)
    requires StoreOk(facts, ClockOf(op)) && Windowed(facts)
    requires op.Ingest? ==> op.run.episode.validAt <= op.run.now
    ensures Windowed(Apply(facts, op))
  {
    match op {
      case Ingest(run) => RunKeepsWindows(run, facts);
      case Invalidate(i, at, retract, now) => if i < |facts| { assert WellFormed(facts[i]); }
      case Reopen(i, end, now) => if i < |facts| { assert WellFormed(facts[i]); }
      case Forget(id, now) => ForgetKeepsWindows(facts, id, now);
    }
  }

  /**
   * In every reachable store a row that is not retracted has evidence, and no
   * date of a row is ahead of the clock; if no episode was dated after its
   * run's clock, each row has a non-empty window or an unknown bound, or is a
   * dated retraction.
   */
  lemma {:induction false} ReachableStoresAreOk(clock: Instant, ops: seq<Op>)
    requires ClocksFrom(clock, ops)
    ensures StoreOk(Replay([], ops), if ops == [] then clock else ClockOf(ops[|ops| - 1]))
    ensures DatedInTime(ops) ==> Windowed(Replay([], ops))
  {
    if ops != [] {
      var init, op := ops[..|ops| - 1], ops[|ops| - 1];
      ReachableStoresAreOk(clock, init);
      StoreOkLater(Replay([], init), if init == [] then clock else ClockOf(init[|init| - 1]), ClockOf(op));
      ApplyKeepsStore(Replay([], init), op);
      if DatedInTime(ops) {
        ApplyKeepsWindows(Replay([], init), op);
      }
    }
  }

  /* ---------- what a run does to a stored row ---------- */

  /** a is b, or strictly before it; None is never. */
  predicate SameOrEarlier(a: Option<Instant>, b: Option<Instant>) {
    a == b || (a.Some? && (b.None? || a.value < b.value))
  }

  /**
   * A whole run only narrows what it found. `previousEnd` is the end from
   * before the run, however many times the run closes the fact, and only a
   * note whose start is its own writing can be emptied.
   */
  lemma RunOnlyShrinks(run: RunInput, facts: seq<Fact>, i: nat)
    requires StoreOk(facts, run.now) && i < |facts|
    ensures i < |Execute(run, facts).rows|
    ensures var w := Execute(run, facts);
            var f0, f := facts[i], w.rows[i];
            && SameStatement(f0, f) && VectorKept(ContextOf(run, |facts|), f0, f)
            && SameOrEarlier(f.invalidAt, f0.invalidAt)
            && (f.validAt == f0.validAt || (f.validAt.Some? && f0.validAt.Some? && f.validAt.value < f0.validAt.value))
            && (IsRetracted(f) && !IsRetracted(f0) ==> f.marks.startFromEpisode && IsOutdated(f))
            && (f.invalidAt != f0.invalidAt <==> i in w.invalidated)
            && (i in w.invalidated ==>
                  && f.expiredAt == Some(run.now) && f.marks.closedByEpisode == Some(run.episode.id)
                  && f.marks.previousEnd == f0.invalidAt
                  && (f.marks.previousEnd.Some? ==> f.invalidAt.value < f.marks.previousEnd.value))
            && (i !in w.invalidated ==> f.expiredAt == f0.expiredAt)
            && (IsRetracted(f0) || i !in w.dirty ==> f == f0)
  {
    RunKeeps(run, facts);
    var w := Execute(run, facts);
    assert RowKept(ContextOf(run, |facts|), facts[i], w.rows[i], i in w.dirty, i in w.invalidated);
    assert RowOk(facts[i], run.now);
  }

  /* ---------- knowledge-time history is never lost ---------- */

  /** How operations at `clock` or later may have revised a row. */
  predicate Revised(f0: Fact, f: Fact, clock: Instant) {
    && f.createdAt == f0.createdAt
    && (f.validAt == f0.validAt || (f.validAt.Some? && f0.validAt.Some? && f.validAt.value < f0.validAt.value))
    && (|| (f.invalidAt == f0.invalidAt && f.expiredAt == f0.expiredAt)
        || (f.expiredAt.Some? && clock <= f.expiredAt.value))
    && (IsRetracted(f0) ==> StampsOf(f) == StampsOf(f0))
  }

  /** The rows of `facts` revised, and rows first known at `clock` or later. */
  predicate HistoryKept(facts: seq<Fact>, after: seq<Fact>, clock: Instant) {
    && |facts| <= |after|
    && (forall i | 0 <= i < |facts| :: Revised(facts[i], after[i], clock))
    && (forall i | |facts| <= i < |after| :: clock <= after[i].createdAt)
  }

  lemma ApplyKeepsHistory(facts: seq<Fact>, op: Op)
    requires StoreOk(facts, ClockOf(op))
    ensures HistoryKept(facts, Apply(facts, op), ClockOf(op))
  {
    match op {
      case Ingest(run) =>
        RunKeeps(run, facts);
        var ctx, w := ContextOf(run, |facts|), Execute(run, facts);
        forall i | 0 <= i < |facts| ensures Revised(facts[i], w.rows[i], run.now) {
          assert RowKept(ctx, facts[i], w.rows[i], i in w.dirty, i in w.invalidated);
        }
        forall i | |facts| <= i < |w.rows| ensures run.now <= w.rows[i].createdAt {
          assert NewRow(ctx, w.rows[i]);
        }
      case Invalidate(_, _, _, _) =>
      case Reopen(_, _, _) =>
      case Forget(id, now) => ForgetKeepsHistory(facts, id, now);
    }
  }

  /** Whatever becomes of a row when an episode is forgotten, it is revised no earlier than now. */
  lemma RowForRevises(f: Fact, fate: Fate, id: Id, now: Instant, copy: nat)
    requires RowOk(f, now)
    requires fate.Retracts? ==> !IsRetracted(f) || (IsClosed(f) && IsOutdated(f))
    ensures Revised(f, RowFor(f, fate, id, now, copy), now)
  {
  }

  lemma ForgetKeepsHistory(facts: seq<Fact>, id: Id, now: Instant)
    requires StoreOk(facts, now)
    ensures HistoryKept(facts, ForgetFacts(facts, id, now), now)
  {
    var r := ForgetUpTo(facts, id, now, |facts|);
    forall i | 0 <= i < |facts| ensures Revised(facts[i], r.rows[i], now) {
      RowsAfter(facts, id, now, |facts|, i);
      RowForRevises(facts[i], FateOf(facts, i, id), id, now, |facts| + Rank(facts, id, now, i));
    }
    forall c | 0 <= c < |r.copies| ensures r.copies[c].createdAt == now {
      var i := CopyComesFrom(facts, id, now, |facts|, c);
    }
  }

  lemma {:induction false} ReplayKeepsHistory(facts: seq<Fact>, clock: Instant, ops: seq<Op>)
    requires StoreOk(facts, clock) && ClocksFrom(clock, ops)
    ensures HistoryKept(facts, Replay(facts, ops), clock)
    ensures StoreOk(Replay(facts, ops), if ops == [] then clock else ClockOf(ops[|ops| - 1]))
  {
    if ops != [] {
      var init, op := ops[..|ops| - 1], ops[|ops| - 1];
      ReplayKeepsHistory(facts, clock, init);
      var before := Replay(facts, init);
      StoreOkLater(before, if init == [] then clock else ClockOf(init[|init| - 1]), ClockOf(op));
      ApplyKeepsStore(before, op);
      ApplyKeepsHistory(before, op);
      forall i | 0 <= i < |facts| ensures Revised(facts[i], Apply(before, op)[i], clock) {
        assert Revised(facts[i], before[i], clock) && Revised(before[i], Apply(before, op)[i], ClockOf(op));
      }
    }
  }

  /** A row revised since answers about earlier knowledge times as it did, or as its end was not known yet. */
  lemma RevisedAnswers(f0: Fact, f: Fact, clock: Instant, at: Instant, asOf: Instant)
    requires Revised(f0, f, clock) && asOf < clock
    ensures ActiveAt(f0, at, asOf) ==> ActiveAt(f, at, asOf)
    ensures f0.invalidAt.None? && f.validAt == f0.validAt ==> (ActiveAt(f, at, asOf) <==> ActiveAt(f0, at, asOf))
  {
  }

  /**
   * History is never lost. Whatever a store answered about knowledge times
   * before `clock`, it still answers after any operations from `clock` on:
   * every row that was active stays active, rows written since are not seen,
   * and a row that had no end and kept its start answers exactly as before.
   */
  lemma HistoryIsNeverLost(earlier: seq<Op>, start: Instant, clock: Instant, ops: seq<Op>, at: Instant, asOf: Instant)
    requires ClocksFrom(start, earlier) && ClocksFrom(clock, ops) && start <= clock
    requires earlier != [] ==> ClockOf(earlier[|earlier| - 1]) <= clock
    requires asOf < clock
    ensures var facts := Replay([], earlier);
            var after := Replay(facts, ops);
            && |facts| <= |after|
            && (forall i | 0 <= i < |facts| && ActiveAt(facts[i], at, asOf) :: ActiveAt(after[i], at, asOf))
            && (forall i | |facts| <= i < |after| :: !ActiveAt(after[i], at, asOf))
            && (forall i | 0 <= i < |facts| && facts[i].invalidAt.None? && after[i].validAt == facts[i].validAt ::
                  ActiveAt(after[i], at, asOf) <==> ActiveAt(facts[i], at, asOf))
  {
    ReachableStoresAreOk(start, earlier);
    var facts := Replay([], earlier);
    StoreOkLater(facts, if earlier == [] then start else ClockOf(earlier[|earlier| - 1]), clock);
    ReplayKeepsHistory(facts, clock, ops);
    var after := Replay(facts, ops);
    forall i | 0 <= i < |facts|
      ensures ActiveAt(facts[i], at, asOf) ==> ActiveAt(after[i], at, asOf)
      ensures facts[i].invalidAt.None? && after[i].validAt == facts[i].validAt ==>
                (ActiveAt(after[i], at, asOf) <==> ActiveAt(facts[i], at, asOf))
    {
      RevisedAnswers(facts[i], after[i], clock, at, asOf);
    }
  }
}
