/**
 * FilePersistence (src/store/persistence.ts): coalescing snapshot writes of a
 * graph that changes meanwhile, with an atomic rename at the end of each.
 *
 * A state of the graph is the number of changes made to it. A write goes
 * through its phases one event at a time, and may fail in any of them.
 */
module Persistence {
  import opened Wrappers

  type Version = nat

  datatype Phase =
    /** waits for the write before it */
    | Queued
    /** started: makes the directory, then takes the snapshot */
    | Opened
    /** holds a snapshot, which the rename puts on disk */
    | Written(snapshot: Version)
    | Done(snapshot: Version)
    | Failed

  /** A flush: what it waits for, whether it saves once more if that fails, and what was last scheduled when it was called. */
  datatype Waiter =
    | Waits(on: Option<nat>, retry: bool, since: Version)
    | Landed(since: Version)
    | GaveUp

  datatype State = State(
    graph: Version,
    disk: Version,
    /** every write ever started or queued, in order: each waits for the one before it */
    writes: seq<Phase>,
    /** a write that has not started */
    queued: Option<nat>,
    /** a debounced save is due */
    pending: bool,
    timer: bool,
    /** the state of the graph when a save was last scheduled */
    scheduled: Version,
    flushes: seq<Waiter>)

  const IDLE := State(0, 0, [], None, false, false, 0, [])

  datatype Event =
    | Mutate
    | Save
    | Schedule
    | Fire
    | Flush
    /** what flush f waits for has settled */
    | Continue(f: nat)
    | Begin(w: nat)
    | Snapshot(w: nat)
    | Rename(w: nat)
    | Fail(w: nat)

  predicate Settled(p: Phase) {
    p.Done? || p.Failed?
  }

  predicate Enabled(s: State, e: Event) {
    match e
    case Mutate => true
    case Save => true
    case Schedule => true
    case Fire => s.timer
    case Flush => true
    case Continue(f) =>
      f < |s.flushes| && s.flushes[f].Waits? && (s.flushes[f].on.Some? ==>
        s.flushes[f].on.value < |s.writes| && Settled(s.writes[s.flushes[f].on.value]))
    case Begin(w) => w < |s.writes| && s.writes[w].Queued? && (w > 0 ==> Settled(s.writes[w - 1]))
    case Snapshot(w) => w < |s.writes| && s.writes[w].Opened?
    case Rename(w) => w < |s.writes| && s.writes[w].Written?
    case Fail(w) => w < |s.writes| && (s.writes[w].Opened? || s.writes[w].Written?)
  }

  /** The write a save resolves with: the queued one, or a new one at the end of the chain. */
  function SaveOf(s: State): nat {
    if s.queued.Some? then s.queued.value else |s.writes|
  }

  function Saved(s: State): State {
    if s.queued.Some? then s else s.(writes := s.writes + [Queued], queued := Some(|s.writes|))
  }

  /** The last write, if there is one. */
  function Tail(s: State): Option<nat> {
    if s.writes == [] then None else Some(|s.writes| - 1)
  }

  /** A save still due is queued at once, and waited for; otherwise the last write is, and a failed one is saved again. */
  function Flushed(s: State): State {
    var called := s.(timer := false, pending := false);
    if s.pending then
      Saved(called).(flushes := s.flushes + [Waits(Some(SaveOf(s)), false, s.scheduled)])
    else
      called.(flushes := s.flushes + [Waits(Tail(s), true, s.scheduled)])
  }

  function Continued(s: State, f: nat): State
    requires Enabled(s, Continue(f))
  {
    var waiter := s.flushes[f];
    if waiter.on.None? || s.writes[waiter.on.value].Done? then s.(flushes := s.flushes[f := Landed(waiter.since)])
    else if waiter.retry then
      Saved(s).(flushes := s.flushes[f := Waits(Some(SaveOf(s)), false, waiter.since)])
    else s.(flushes := s.flushes[f := GaveUp])
  }

  /** An event that cannot happen changes nothing. */
  function Step(s: State, e: Event): State {
    if !Enabled(s, e) then s
    else match e
      case Mutate => s.(graph := s.graph + 1)
      case Save => Saved(s)
      case Schedule => s.(pending := true, timer := true, scheduled := s.graph)
      case Fire => if s.pending then Saved(s.(timer := false, pending := false)) else s.(timer := false)
      case Flush => Flushed(s)
      case Continue(f) => Continued(s, f)
      case Begin(w) =>
        s.(writes := s.writes[w := Opened], queued := if s.queued == Some(w) then None else s.queued)
      case Snapshot(w) => s.(writes := s.writes[w := Written(s.graph)])
      case Rename(w) => s.(writes := s.writes[w := Done(s.writes[w].snapshot)], disk := s.writes[w].snapshot)
      case Fail(w) => s.(writes := s.writes[w := Failed])
  }

  /* ---------- the invariant ---------- */

  predicate Running(p: Phase) {
    p.Opened? || p.Written?
  }

  /** Every write but the last two has settled, and so has the one before a last write that started. */
  predicate Chained(writes: seq<Phase>, queued: Option<nat>) {
    var n := |writes|;
    && (forall w | 0 <= w < n - 2 :: Settled(writes[w]))
    && (n >= 2 && !writes[n - 1].Queued? ==> Settled(writes[n - 2]))
    && (forall w | 0 <= w < n :: writes[w].Queued? <==> queued == Some(w))
    && (queued.Some? ==> queued.value == n - 1)
  }

  predicate InOrder(s: State) {
    Chained(s.writes, s.queued)
  }

  /** A snapshot is of a past state, and the disk holds the newest one renamed. */
  predicate Dated(s: State) {
    && s.disk <= s.graph
    && (forall w | 0 <= w < |s.writes| && s.writes[w].Done? :: s.writes[w].snapshot <= s.disk)
    && (forall w | 0 <= w < |s.writes| && s.writes[w].Written? :: s.disk <= s.writes[w].snapshot <= s.graph)
  }

  /** Unless a save is still due, the last write covers what was last scheduled. */
  predicate Covered(s: State) {
    && s.scheduled <= s.graph
    && (s.pending || s.scheduled == 0 || (|s.writes| > 0 && NotBefore(s, |s.writes| - 1, s.scheduled)))
  }

  /** What a flush waits for covers what was scheduled when it was called; one that landed left it on disk. */
  predicate WaiterOk(s: State, x: Waiter) {
    match x
    case Waits(on, _, since) =>
      since <= s.graph && (if on.Some? then NotBefore(s, on.value, since) else since == 0)
    case Landed(since) => since <= s.disk
    case GaveUp => true
  }

  predicate Awaited(s: State) {
    forall f | 0 <= f < |s.flushes| :: WaiterOk(s, s.flushes[f])
  }

  predicate Inv(s: State) {
    InOrder(s) && Dated(s) && Covered(s) && Awaited(s)
  }

  lemma SavedKeepsOrder(s: State)
    requires InOrder(s)
    ensures InOrder(Saved(s)) && |s.writes| <= |Saved(s).writes|
  {
  }

  /** A running write's next phase. */
  lemma NextPhaseKeepsOrder(writes: seq<Phase>, queued: Option<nat>, w: nat, next: Phase)
    requires Chained(writes, queued) && w < |writes| && Running(writes[w]) && !next.Queued?
    ensures Chained(writes[w := next], queued)
  {
  }

  lemma BeginKeepsOrder(s: State, w: nat)
    requires InOrder(s) && Enabled(s, Begin(w))
    ensures InOrder(Step(s, Begin(w))) && |Step(s, Begin(w)).writes| == |s.writes|
  {
    assert s.queued == Some(w);
  }

  lemma StepKeepsOrder(s: State, e: Event)
    requires InOrder(s)
    ensures InOrder(Step(s, e)) && |s.writes| <= |Step(s, e).writes|
  {
    SavedKeepsOrder(s);
    if Enabled(s, e) {
      match e {
        case Begin(w) => BeginKeepsOrder(s, w);
        case Snapshot(w) => NextPhaseKeepsOrder(s.writes, s.queued, w, Written(s.graph));
        case Rename(w) => NextPhaseKeepsOrder(s.writes, s.queued, w, Done(s.writes[w].snapshot));
        case Fail(w) => NextPhaseKeepsOrder(s.writes, s.queued, w, Failed);
        case _ => OtherStepsSave(s, e);
      }
    }
  }

  /** Whatever else happens leaves the chain as it is, or queues a write. */
  lemma OtherStepsSave(s: State, e: Event)
    requires !e.Begin? && !e.Snapshot? && !e.Rename? && !e.Fail?
    ensures (Step(s, e).writes == s.writes && Step(s, e).queued == s.queued)
            || (Step(s, e).writes == Saved(s).writes && Step(s, e).queued == Saved(s).queued)
  {
  }

  /** The write being renamed is the only one that holds a snapshot. */
  lemma OneHoldsSnapshot(s: State, w: nat, v: nat)
    requires InOrder(s) && w < |s.writes| && v < |s.writes| && s.writes[w].Written? && s.writes[v].Written?
    ensures v == w
  {
  }

  lemma RenameKeepsDated(s: State, w: nat)
    requires Inv(s) && Enabled(s, Rename(w))
    ensures Dated(Step(s, Rename(w))) && s.disk <= Step(s, Rename(w)).disk && s.graph == Step(s, Rename(w)).graph
  {
    forall v | 0 <= v < |s.writes| && s.writes[v].Written?
      ensures v == w
    {
      OneHoldsSnapshot(s, w, v);
    }
  }

  lemma OthersKeepDated(s: State, e: Event)
    requires Dated(s) && !e.Rename?
    ensures Dated(Step(s, e)) && s.disk == Step(s, e).disk && s.graph <= Step(s, e).graph
  {
  }

  lemma StepKeepsDated(s: State, e: Event)
    requires Inv(s)
    ensures Dated(Step(s, e)) && s.disk <= Step(s, e).disk && s.graph <= Step(s, e).graph
  {
    if e.Rename? && Enabled(s, e) {
      RenameKeepsDated(s, e.w);
    } else if !e.Rename? {
      OthersKeepDated(s, e);
    }
  }

  lemma StepKeepsInv(s: State, e: Event)
    requires Inv(s)
    ensures Inv(Step(s, e))
    ensures s.disk <= Step(s, e).disk && s.graph <= Step(s, e).graph && |s.writes| <= |Step(s, e).writes|
  {
    StepKeepsOrder(s, e);
    StepKeepsDated(s, e);
    StepKeepsCovered(s, e);
    StepKeepsAwaited(s, e);
  }

  lemma WaiterStaysOk(s: State, e: Event, x: Waiter)
    requires Inv(s) && WaiterOk(s, x)
    ensures WaiterOk(Step(s, e), x)
  {
    StepKeepsDated(s, e);
    if x.Waits? && x.on.Some? {
      StepKeepsNotBefore(s, e, x.on.value, x.since);
    }
  }

  lemma ContinuedIsOk(s: State, f: nat)
    requires Inv(s) && Enabled(s, Continue(f))
    ensures WaiterOk(Continued(s, f), Continued(s, f).flushes[f])
  {
    assert WaiterOk(s, s.flushes[f]);
  }

  lemma FlushedIsOk(s: State)
    requires Inv(s)
    ensures WaiterOk(Flushed(s), Flushed(s).flushes[|s.flushes|])
  {
  }

  lemma StepKeepsAwaited(s: State, e: Event)
    requires Inv(s)
    ensures Awaited(Step(s, e))
  {
    var after := Step(s, e);
    forall f | 0 <= f < |after.flushes|
      ensures WaiterOk(after, after.flushes[f])
    {
      OneWaiterOk(s, e, f);
    }
  }

  lemma OneWaiterOk(s: State, e: Event, f: nat)
    requires Inv(s) && f < |Step(s, e).flushes|
    ensures WaiterOk(Step(s, e), Step(s, e).flushes[f])
  {
    if f == |s.flushes| {
      FlushedIsOk(s);
    } else if e == Continue(f) && Enabled(s, e) {
      ContinuedIsOk(s, f);
    } else {
      assert Step(s, e).flushes[f] == s.flushes[f];
      WaiterStaysOk(s, e, s.flushes[f]);
    }
  }

  lemma SavingCovers(s: State, since: Version)
    requires InOrder(s)
    ensures |Saved(s).writes| > 0 && NotBefore(Saved(s), |Saved(s).writes| - 1, since)
    ensures SaveOf(s) == |Saved(s).writes| - 1
  {
  }

  /** When the chain gets a new last write, that one covers everything; otherwise the last one covers what it did. */
  lemma LastStillCovers(s: State, e: Event, since: Version)
    requires InOrder(s) && since <= s.graph && |s.writes| > 0 && NotBefore(s, |s.writes| - 1, since)
    ensures var after := Step(s, e); |after.writes| > 0 && NotBefore(after, |after.writes| - 1, since)
  {
    StepKeepsNotBefore(s, e, |s.writes| - 1, since);
    SavingCovers(s, since);
    if e.Begin? || e.Snapshot? || e.Rename? || e.Fail? {
      assert |Step(s, e).writes| == |s.writes|;
    } else {
      OtherStepsSave(s, e);
    }
  }

  /** A save that is due stays due until a timer or a flush queues it. */
  lemma DueIsCovered(s: State, e: Event)
    requires Inv(s) && (s.pending || s.scheduled == 0)
    ensures Covered(Step(s, e))
  {
    match e {
      case Fire => SavingCovers(s.(timer := false, pending := false), s.scheduled);
      case Flush => SavingCovers(s.(timer := false, pending := false), s.scheduled);
      case Schedule =>
      case Mutate =>
      case _ => assert Step(s, e).pending == s.pending && Step(s, e).scheduled == s.scheduled <= Step(s, e).graph;
    }
  }

  lemma StepKeepsCovered(s: State, e: Event)
    requires Inv(s)
    ensures Covered(Step(s, e))
  {
    if s.pending || s.scheduled == 0 {
      DueIsCovered(s, e);
    } else {
      LastStillCovers(s, e, s.scheduled);
    }
  }

  function Replay(s: State, events: seq<Event>): State {
    if events == [] then s else Step(Replay(s, events[..|events| - 1]), events[|events| - 1])
  }

  /** The file is only ever replaced by a snapshot at least as new. */
  lemma {:induction false} ReplayKeepsInv(s: State, events: seq<Event>)
    requires Inv(s)
    ensures Inv(Replay(s, events)) && s.disk <= Replay(s, events).disk && s.graph <= Replay(s, events).graph
    ensures |s.writes| <= |Replay(s, events).writes|
  {
    if events != [] {
      ReplayKeepsInv(s, events[..|events| - 1]);
      StepKeepsInv(Replay(s, events[..|events| - 1]), events[|events| - 1]);
    }
  }

  /* ---------- every interleaving ---------- */

  lemma NoneOverlap(s: State, w: nat, v: nat)
    requires InOrder(s) && w < v < |s.writes|
    ensures !(s.writes[w].Queued? && s.writes[v].Queued?)
    ensures Running(s.writes[v]) ==> Settled(s.writes[w])
  {
  }

  /** At most one write runs and at most one waits, and writes never overlap. */
  lemma WritesNeverOverlap(events: seq<Event>, w: nat, v: nat)
    requires w < v < |Replay(IDLE, events).writes|
    ensures var s := Replay(IDLE, events);
            && !(Running(s.writes[w]) && Running(s.writes[v]))
            && !(s.writes[w].Queued? && s.writes[v].Queued?)
            && (Running(s.writes[v]) ==> Settled(s.writes[w]))
  {
    ReplayKeepsInv(IDLE, events);
    NoneOverlap(Replay(IDLE, events), w, v);
  }

  /** The write w has taken no snapshot older than `since`. */
  predicate NotBefore(s: State, w: nat, since: Version) {
    && w < |s.writes|
    && ((s.writes[w].Written? || s.writes[w].Done?) ==> since <= s.writes[w].snapshot)
  }

  lemma {:induction false} StaysNotBefore(s: State, events: seq<Event>, w: nat, since: Version)
    requires Inv(s) && NotBefore(s, w, since) && since <= s.graph
    ensures NotBefore(Replay(s, events), w, since)
  {
    if events != [] {
      StaysNotBefore(s, events[..|events| - 1], w, since);
      ReplayKeepsInv(s, events[..|events| - 1]);
      StepKeepsNotBefore(Replay(s, events[..|events| - 1]), events[|events| - 1], w, since);
    }
  }

  lemma StepKeepsNotBefore(s: State, e: Event, w: nat, since: Version)
    requires NotBefore(s, w, since) && since <= s.graph
    ensures NotBefore(Step(s, e), w, since)
  {
  }

  /**
   * A save that resolves leaves on disk a state at least as new as the moment
   * of the call, whatever happened before and since: other saves, changes of
   * the graph, writes that failed.
   */
  lemma SaveIsDurable(before: seq<Event>, after: seq<Event>)
    ensures var called := Replay(IDLE, before);
            var s := Replay(Step(called, Save), after);
            var w := SaveOf(called);
            w < |s.writes| && (s.writes[w].Done? ==> called.graph <= s.disk)
  {
    ReplayKeepsInv(IDLE, before);
    var called := Replay(IDLE, before);
    StepKeepsInv(called, Save);
    StaysNotBefore(Step(called, Save), after, SaveOf(called), called.graph);
    ReplayKeepsInv(Step(called, Save), after);
  }

  /** A flush that goes on keeps what it promised, and one that is over stays as it ended. */
  predicate StillPromises(x: Waiter, y: Waiter) {
    if x.Waits? then (y.Waits? ==> y.since == x.since) && (y.Landed? ==> y.since == x.since) else y == x
  }

  lemma FlushStep(s: State, e: Event, f: nat)
    requires f < |s.flushes|
    ensures f < |Step(s, e).flushes| && StillPromises(s.flushes[f], Step(s, e).flushes[f])
  {
  }

  lemma {:induction false} FlushStays(s: State, events: seq<Event>, f: nat)
    requires f < |s.flushes|
    ensures f < |Replay(s, events).flushes| && StillPromises(s.flushes[f], Replay(s, events).flushes[f])
  {
    if events != [] {
      FlushStays(s, events[..|events| - 1], f);
      FlushStep(Replay(s, events[..|events| - 1]), events[|events| - 1], f);
    }
  }

  /**
   * A flush that succeeds leaves on disk what was last scheduled when it was
   * called, whatever fails and is saved again meanwhile.
   */
  lemma FlushIsDurable(before: seq<Event>, after: seq<Event>)
    ensures var called := Replay(IDLE, before);
            var s := Replay(Step(called, Flush), after);
            var f := |called.flushes|;
            f < |s.flushes| && (s.flushes[f].Landed? ==> called.scheduled <= s.disk)
  {
    ReplayKeepsInv(IDLE, before);
    var called := Replay(IDLE, before);
    StepKeepsInv(called, Flush);
    FlushStays(Step(called, Flush), after, |called.flushes|);
    ReplayKeepsInv(Step(called, Flush), after);
    var s := Replay(Step(called, Flush), after);
    assert WaiterOk(s, s.flushes[|called.flushes|]);
  }

  /** A save that is due has its timer running: it happens without any flush. */
  predicate DueIsTimed(s: State) {
    s.pending ==> s.timer
  }

  lemma {:induction false} DueSavesAreTimed(s: State, events: seq<Event>)
    requires DueIsTimed(s)
    ensures DueIsTimed(Replay(s, events))
  {
    if events != [] {
      DueSavesAreTimed(s, events[..|events| - 1]);
    }
  }

  lemma FireQueues(s: State)
    requires InOrder(s) && DueIsTimed(s)
    ensures var after := Step(s, Fire);
            && (s.pending ==> s.timer && Tail(after).Some? && after.queued == Tail(after) && after.writes[Tail(after).value].Queued?)
            && !after.pending && !after.timer
  {
  }

  /** When the timer runs out, a save that is due is queued, and nothing is due any more. */
  lemma FiringSaves(events: seq<Event>)
    ensures var s := Replay(IDLE, events);
            var after := Step(s, Fire);
            && (s.pending ==> s.timer && Tail(after).Some? && after.queued == Tail(after) && after.writes[Tail(after).value].Queued?)
            && !after.pending && !after.timer
  {
    DueSavesAreTimed(IDLE, events);
    ReplayKeepsInv(IDLE, events);
    FireQueues(Replay(IDLE, events));
  }

  lemma ScheduledGrows(s: State, e: Event)
    requires s.scheduled <= s.graph
    ensures s.scheduled <= Step(s, e).scheduled <= Step(s, e).graph
  {
  }

  lemma {:induction false} SchedulingStays(s: State, events: seq<Event>)
    requires s.scheduled <= s.graph
    ensures s.scheduled <= Replay(s, events).scheduled <= Replay(s, events).graph
  {
    if events != [] {
      SchedulingStays(s, events[..|events| - 1]);
      ScheduledGrows(Replay(s, events[..|events| - 1]), events[|events| - 1]);
    }
  }

  /**
   * From the change to the disk: whatever the graph was when a save was
   * scheduled is on disk once any later flush succeeds, through other
   * changes, saves, failures and schedules.
   */
  lemma ScheduledReachesDisk(before: seq<Event>, between: seq<Event>, after: seq<Event>)
    ensures var scheduling := Replay(IDLE, before);
            var called := Replay(Step(scheduling, Schedule), between);
            var s := Replay(Step(called, Flush), after);
            var f := |called.flushes|;
            f < |s.flushes| && (s.flushes[f].Landed? ==> scheduling.graph <= s.disk)
  {
    ReplayKeepsInv(IDLE, before);
    var scheduling := Replay(IDLE, before);
    StepKeepsInv(scheduling, Schedule);
    SchedulingStays(Step(scheduling, Schedule), between);
    ReplayKeepsInv(Step(scheduling, Schedule), between);
    var called := Replay(Step(scheduling, Schedule), between);
    StepKeepsInv(called, Flush);
    FlushStays(Step(called, Flush), after, |called.flushes|);
    ReplayKeepsInv(Step(called, Flush), after);
    var s := Replay(Step(called, Flush), after);
    assert WaiterOk(s, s.flushes[|called.flushes|]);
  }

  /**
   * A flush ends by a step at which the write it waits for has ended: it
   * lands exactly if that write succeeded, and gives up exactly if it failed
   * and the flush has no other try.
   */
  lemma GivesUpIff(s: State, e: Event, f: nat)
    requires Inv(s) && f < |s.flushes| && s.flushes[f].Waits?
    ensures f < |Step(s, e).flushes|
    ensures Step(s, e).flushes[f].GaveUp?
            <==> e == Continue(f) && s.flushes[f].on.Some? && s.writes[s.flushes[f].on.value].Failed? && !s.flushes[f].retry
    ensures e == Continue(f) && s.flushes[f].on.Some? && s.writes[s.flushes[f].on.value].Failed? && s.flushes[f].retry
            ==> Step(s, e).flushes[f].Waits? && Step(s, e).flushes[f].on == Some(SaveOf(s)) && !Step(s, e).flushes[f].retry
                && Step(s, e).writes[SaveOf(s)].Queued?
    ensures Step(s, e).flushes[f].Landed?
            <==> e == Continue(f) && (s.flushes[f].on.Some? ==> s.writes[s.flushes[f].on.value].Done?)
  {
  }

  /** A flush that waits can go on, or some write can. */
  lemma FlushGoesOn(events: seq<Event>, f: nat) returns (e: Event)
    requires f < |Replay(IDLE, events).flushes| && Replay(IDLE, events).flushes[f].Waits?
    ensures Enabled(Replay(IDLE, events), e) && (e == Continue(f) || e.Begin? || e.Snapshot? || e.Rename?)
  {
    ReplayKeepsInv(IDLE, events);
    var s := Replay(IDLE, events);
    var on := s.flushes[f].on;
    assert WaiterOk(s, s.flushes[f]);
    if on.None? || Settled(s.writes[on.value]) {
      e := Continue(f);
    } else {
      e := SomeWriteGoesOn(events, on.value);
    }
  }

  /** What a flush waits for: the save that is due, at once and without another try, or the last write, with one. */
  lemma FlushTries(s: State)
    requires Inv(s)
    ensures var after := Step(s, Flush);
            && |after.flushes| == |s.flushes| + 1 && !after.pending && !after.timer
            && var waiter := after.flushes[|s.flushes|];
               && waiter.Waits? && (waiter.retry <==> !s.pending)
               && waiter.on == (if after.writes == [] then None else Some(|after.writes| - 1))
               && (s.pending ==> after.writes != [] && after.writes[|after.writes| - 1].Queued?)
               && (!s.pending ==> after.writes == s.writes)
  {
  }

  /** A write whose turn it is, left alone, puts the graph of that moment on disk; after a change it is another graph. */
  lemma WriteGoesThrough(s: State, w: nat)
    requires Inv(s) && Enabled(s, Begin(w))
    ensures var begun := Step(s, Begin(w));
            var written := Step(begun, Snapshot(w));
            var renamed := Step(written, Rename(w));
            && begun.queued != Some(w) && renamed.disk == s.graph
            && w < |renamed.writes| && renamed.writes[w] == Done(s.graph) && renamed.graph == s.graph
    ensures Step(s, Mutate).graph == s.graph + 1 && Step(s, Mutate).disk == s.disk
  {
  }

  /** A started write may fail at any point, and then the file is as it was. */
  lemma FailureLeavesFile(s: State, w: nat)
    requires w < |s.writes| && (s.writes[w].Opened? || s.writes[w].Written?)
    ensures Enabled(s, Fail(w)) && Step(s, Fail(w)).disk == s.disk && Step(s, Fail(w)).writes == s.writes[w := Failed]
  {
  }

  /** Nobody is stuck: while a write is not settled, some write can go on. */
  lemma SomeWriteGoesOn(events: seq<Event>, w: nat) returns (e: Event)
    requires w < |Replay(IDLE, events).writes| && !Settled(Replay(IDLE, events).writes[w])
    ensures Enabled(Replay(IDLE, events), e) && (e.Begin? || e.Snapshot? || e.Rename?)
  {
    ReplayKeepsInv(IDLE, events);
    var s := Replay(IDLE, events);
    match s.writes[w] {
      case Opened => e := Snapshot(w);
      case Written(_) => e := Rename(w);
      case Queued =>
        if w == 0 || Settled(s.writes[w - 1]) {
          e := Begin(w);
        } else {
          e := SomeWriteGoesOn(events, w - 1);
        }
    }
  }

  /* ---------- the class ---------- */

  class FilePersistence {
    /** the graph's state, and the file's */
    var graph: Version
    var disk: Version
    var timer: bool
    var pending: bool
    var scheduled: Version
    /** the chain of writes: `tail` is its last one */
    var writes: seq<Phase>
    var queued: Option<nat>
    var flushes: seq<Waiter>

    ghost function Now(): State
      reads this
    {
      State(graph, disk, writes, queued, pending, timer, scheduled, flushes)
    }

    ghost predicate Valid()
      reads this
    {
      Inv(Now())
    }

    constructor ()
      ensures Valid() && Now() == IDLE
    {
      graph, disk, timer, pending, scheduled, writes, queued, flushes := 0, 0, false, false, 0, [], None, [];
    }

    /** Joins the queued write, or queues one after the last. */
    method Save() returns (w: nat)
      requires Valid()
      modifies this
      ensures Valid() && Now() == Step(old(Now()), Event.Save) && w == SaveOf(old(Now()))
    {
      StepKeepsInv(Now(), Event.Save);
      if queued.Some? {
        return queued.value;
      }
      w := |writes|;
      writes := writes + [Queued];
      queued := Some(w);
    }

    /** A burst of changes asks for one save, when the timer fires. */
    method Schedule()
      requires Valid()
      modifies this
      ensures Valid() && Now() == Step(old(Now()), Event.Schedule)
    {
      StepKeepsInv(Now(), Event.Schedule);
      pending, scheduled := true, graph;
      if timer {
        return;
      }
      timer := true;
    }

    /** The timer fires. */
    method Fire()
      requires Valid() && timer
      modifies this
      ensures Valid() && Now() == Step(old(Now()), Event.Fire)
    {
      StepKeepsInv(Now(), Event.Fire);
      ghost var after := Step(Now(), Event.Fire);
      timer := false;
      if pending {
        pending := false;
        if queued.None? {
          queued, writes := Some(|writes|), writes + [Queued];
        }
      }
      assert Now() == after;
    }

    /** Before exit: a save still due is queued at once and waited for; otherwise the last write is. */
    method Flush()
      requires Valid()
      modifies this
      ensures Valid() && Now() == Step(old(Now()), Event.Flush)
    {
      StepKeepsInv(Now(), Event.Flush);
      ghost var before, after := Now(), Step(Now(), Event.Flush);
      assert after == Flushed(before);
      timer := false;
      if pending {
        pending := false;
        if queued.None? {
          queued, writes := Some(|writes|), writes + [Queued];
        }
        assert Now() == Saved(before.(timer := false, pending := false)) && queued == Some(SaveOf(before));
        flushes := flushes + [Waits(queued, false, scheduled)];
      } else {
        flushes := flushes + [Waits(if writes == [] then None else Some(|writes| - 1), true, scheduled)];
      }
      assert Now() == after;
    }

    /** What the flush waits for has settled: a failed last write is saved once more. */
    method Continue(f: nat)
      requires Valid() && Enabled(Now(), Event.Continue(f))
      modifies this
      ensures Valid() && Now() == Step(old(Now()), Event.Continue(f))
    {
      StepKeepsInv(Now(), Event.Continue(f));
      ghost var after := Step(Now(), Event.Continue(f));
      var waiter := flushes[f];
      if waiter.on.None? || writes[waiter.on.value].Done? {
        flushes := flushes[f := Landed(waiter.since)];
      } else if waiter.retry {
        if queued.None? {
          queued, writes := Some(|writes|), writes + [Queued];
        }
        flushes := flushes[f := Waits(queued, false, waiter.since)];
      } else {
        flushes := flushes[f := GaveUp];
      }
      assert Now() == after;
    }

    /** The write before this one has settled: this one starts, and is queued no more. */
    method Begin(w: nat)
      requires Valid() && Enabled(Now(), Event.Begin(w))
      modifies this
      ensures Valid() && Now() == Step(old(Now()), Event.Begin(w))
    {
      StepKeepsInv(Now(), Event.Begin(w));
      if queued == Some(w) {
        queued := None;
      }
      writes := writes[w := Opened];
    }
  }
}
