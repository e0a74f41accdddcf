/**
 * The life of a group's episodes under its two locks (IngestPipeline in
 * src/pipeline/ingest.ts): addEpisode, saveEpisode, processEpisode,
 * retryFailed and forgetEpisode as interleaved steps. Between two steps of a
 * call any other call may take one, as at every `await`.
 */
module Lifecycle {
  import opened Wrappers
  import opened Episodes

  type Id = nat
  type Tid = nat
  /** The idempotency key: what makes two episodes the same. */
  type Key = nat

  datatype Record = Record(key: Key, status: Status, attempts: nat)

  datatype Job =
    | Add(key: Key, idempotent: bool)
    | Save(key: Key, idempotent: bool)
    | Process(id: Id, rest: seq<Id>)
    | Forget(id: Id)
    | Retry

  /** What a call is going to write, decided from what it read. */
  datatype Chosen = Duplicate | Reuse(id: Id) | Reset(id: Id) | Create | Mark(id: Id)

  datatype Phase =
    | Asking
    | LockWanted
    | SaveWanted
    | Reading
    | Writing(c: Chosen)
    | Starting(id: Id)
    | Running(id: Id)
    | Finished

  datatype Thread = Thread(job: Job, phase: Phase)

  datatype State = State(
    records: map<Id, Record>,
    next: Id,
    lock: Option<Tid>,
    saveLock: Option<Tid>,
    threads: seq<Thread>)

  const EMPTY := State(map[], 0, None, None, [])

  /**
   * A call arrives, or a call goes on; `chosen`, `failed` and `ok` say how,
   * where the store's contents or the model's reply decide.
   */
  datatype Event = Submit(job: Job) | Advance(t: Tid, chosen: Chosen, failed: seq<Id>, ok: bool)

  /* ---------- what a save finds ---------- */

  /** What a save recognises as the same episode; forgotten records do not count. */
  predicate Matches(records: map<Id, Record>, id: Id, key: Key) {
    id in records && records[id].status != Forgotten && records[id].key == key
  }

  predicate MayChoose(records: map<Id, Record>, key: Key, idempotent: bool, c: Chosen) {
    var processed := exists id | id in records :: Matches(records, id, key) && IsProcessed(records[id].status);
    match c
    case Duplicate => idempotent && processed
    case Reuse(id) => idempotent && !processed && Matches(records, id, key) && records[id].status == Pending
    case Reset(id) => idempotent && !processed && Matches(records, id, key) && records[id].status == Failed
    case Create => !idempotent || !(exists id | id in records :: Matches(records, id, key))
    case Mark(_) => false
  }

  /* ---------- steps ---------- */

  predicate HoldsLock(th: Thread) {
    match th.job
    case Add(_, _) => !(th.phase.LockWanted? || th.phase.Finished?)
    case Forget(_) => !(th.phase.LockWanted? || th.phase.Finished?)
    case Process(_, _) => th.phase.Reading? || th.phase.Running?
    case Save(_, _) => false
    case Retry => false
  }

  predicate HoldsSave(th: Thread) {
    (th.job.Add? || th.job.Save? || th.job.Forget?) && (th.phase.Reading? || th.phase.Writing?)
  }

  function First(job: Job): Phase {
    match job
    case Add(_, _) => LockWanted
    case Save(_, _) => SaveWanted
    case Process(_, _) => Asking
    case Forget(_) => LockWanted
    case Retry => Asking
  }

  /** What a step of one thread makes of the records and of the thread. */
  datatype Move = Move(records: map<Id, Record>, next: Id, thread: Thread)

  function To(s: State, th: Thread, p: Phase): Move {
    Move(s.records, s.next, th.(phase := p))
  }

  /** The next episode of a retry, or the end of the call. */
  function Next(job: Job, rest: seq<Id>): Thread {
    if rest == [] then Thread(job, Finished) else Thread(Process(rest[0], rest[1..]), Asking)
  }

  function WithStatus(records: map<Id, Record>, id: Id, status: Status): map<Id, Record>
    requires id in records
  {
    records[id := records[id].(status := status)]
  }

  /** After saving: an add goes on to process the episode, still holding the lock. */
  function AfterSaving(th: Thread, id: Id): Thread {
    th.(phase := if th.job.Add? then Starting(id) else Finished)
  }

  function Ask(s: State, th: Thread, failed: seq<Id>): Option<Move> {
    match th.job
    case Process(id, _) => Some(To(s, th, if id in s.records then LockWanted else Finished))
    case Retry =>
      if forall k | 0 <= k < |failed| :: failed[k] in s.records && s.records[failed[k]].status == Failed
      then Some(Move(s.records, s.next, Next(th.job, failed))) else None
    case _ => None
  }

  function Read(s: State, th: Thread, chosen: Chosen): Option<Move> {
    match th.job
    case Process(id, rest) =>
      if id !in s.records then None
      else if IsProcessed(s.records[id].status) || s.records[id].status == Forgotten then
        Some(Move(s.records, s.next, Next(th.job, rest)))
      else Some(To(s, th, Running(id)))
    case Forget(id) =>
      Some(To(s, th, if id !in s.records || s.records[id].status == Forgotten then Finished else Writing(Mark(id))))
    case Retry => None
    case _ =>
      if !MayChoose(s.records, th.job.key, th.job.idempotent, chosen) then None
      else match chosen
        case Duplicate => Some(To(s, th, Finished))
        case Reuse(id) => Some(Move(s.records, s.next, AfterSaving(th, id)))
        case _ => Some(To(s, th, Writing(chosen)))
  }

  function Write(s: State, th: Thread, c: Chosen): Option<Move> {
    match c
    case Reset(id) =>
      if id in s.records then Some(Move(WithStatus(s.records, id, Pending), s.next, AfterSaving(th, id))) else None
    case Create =>
      if th.job.Add? || th.job.Save? then
        Some(Move(s.records[s.next := Record(th.job.key, Pending, 0)], s.next + 1, AfterSaving(th, s.next)))
      else None
    case Mark(id) =>
      if id in s.records then Some(Move(WithStatus(s.records, id, Forgotten), s.next, th.(phase := Finished))) else None
    case _ => None
  }

  /** The run's outcome is stored with its attempt counted. */
  function Settle(s: State, th: Thread, id: Id, ok: bool): Option<Move> {
    if id !in s.records then None
    else
      var r := s.records[id];
      var stored := s.records[id := Record(r.key, if ok then Processed else Failed, r.attempts + 1)];
      Some(Move(stored, s.next, if th.job.Process? then Next(th.job, th.job.rest) else th.(phase := Finished)))
  }

  function MoveOf(s: State, th: Thread, e: Event): Option<Move>
    requires e.Advance?
  {
    match th.phase
    case Asking => Ask(s, th, e.failed)
    case LockWanted =>
      if s.lock.Some? then None else Some(To(s, th, if th.job.Process? then Reading else SaveWanted))
    case SaveWanted => if s.saveLock.Some? then None else Some(To(s, th, Reading))
    case Reading => Read(s, th, e.chosen)
    case Writing(c) => Write(s, th, c)
    case Starting(id) => Some(To(s, th, Running(id)))
    case Running(id) => Settle(s, th, id, e.ok)
    case Finished => None
  }

  /** The thread t takes the step, and then holds exactly the locks its phase needs. */
  function Take(s: State, t: Tid, m: Move): State
    requires t < |s.threads|
  {
    State(m.records, m.next,
          if HoldsLock(m.thread) then Some(t) else if HoldsLock(s.threads[t]) then None else s.lock,
          if HoldsSave(m.thread) then Some(t) else if HoldsSave(s.threads[t]) then None else s.saveLock,
          s.threads[t := m.thread])
  }

  /** A step that cannot be taken changes nothing. */
  function Step(s: State, e: Event): State {
    match e
    case Submit(job) => s.(threads := s.threads + [Thread(job, First(job))])
    case Advance(t, _, _, _) =>
      if t >= |s.threads| then s
      else match MoveOf(s, s.threads[t], e)
        case None => s
        case Some(m) => Take(s, t, m)
  }

  function Replay(events: seq<Event>): State {
    if events == [] then EMPTY else Step(Replay(events[..|events| - 1]), events[|events| - 1])
  }

  /* ---------- the invariant ---------- */

  /** The phases a job goes through. */
  predicate ProperPhase(th: Thread) {
    match th.job
    case Add(_, _) => !th.phase.Asking? && (th.phase.Writing? ==> th.phase.c.Reset? || th.phase.c.Create?)
    case Save(_, _) =>
      (th.phase.SaveWanted? || th.phase.Reading? || th.phase.Writing? || th.phase.Finished?)
      && (th.phase.Writing? ==> th.phase.c.Reset? || th.phase.c.Create?)
    case Process(id, _) =>
      th.phase.Asking? || th.phase.LockWanted? || th.phase.Reading? || th.phase == Running(id) || th.phase.Finished?
    case Forget(id) =>
      th.phase.LockWanted? || th.phase.SaveWanted? || th.phase.Reading? || th.phase == Writing(Mark(id)) || th.phase.Finished?
    case Retry => th.phase.Asking? || th.phase.Finished?
  }

  /** What a thread relies on between its steps. */
  predicate Relies(records: map<Id, Record>, th: Thread) {
    match th.phase
    case Starting(id) => id in records && records[id].status == Pending
    case Running(id) => id in records && (records[id].status == Pending || records[id].status == Failed)
    case Writing(c) =>
      (match c
       case Reset(id) => id in records
           && (records[id].status == Failed || (records[id].status == Processed && th.job.Save?))
       case Mark(id) => id in records && records[id].status != Forgotten
       case _ => true)
    case LockWanted => th.job.Process? ==> th.job.id in records
    case Reading => th.job.Process? ==> th.job.id in records
    case _ => true
  }

  /** Each lock is held by the thread whose phase needs it, and no other. */
  predicate Locked(s: State) {
    && (forall t: Tid | t < |s.threads| :: HoldsLock(s.threads[t]) <==> s.lock == Some(t))
    && (forall t: Tid | t < |s.threads| :: HoldsSave(s.threads[t]) <==> s.saveLock == Some(t))
    && (s.lock.Some? ==> s.lock.value < |s.threads|) && (s.saveLock.Some? ==> s.saveLock.value < |s.threads|)
  }

  predicate Inv(s: State) {
    && Locked(s)
    && (forall t: Tid | t < |s.threads| :: ProperPhase(s.threads[t]) && Relies(s.records, s.threads[t]))
    && (forall id | id in s.records :: id < s.next)
  }

  /* ---------- every step keeps it ---------- */

  /** A step changes only the record its phase names, and adds only a new pending one. */
  predicate Disturbs(s: State, th: Thread, m: Move) {
    && s.next <= m.next
    && (forall id | id in m.records && id !in s.records :: id == s.next < m.next && m.records[id].status == Pending)
    && (forall id | id in s.records :: id in m.records && m.records[id].key == s.records[id].key)
    && (forall id | id in s.records && m.records[id] != s.records[id] ::
          || th.phase == Running(id)
          || (th.phase == Writing(Reset(id)) && m.records[id].status == Pending)
          || (th.phase == Writing(Mark(id)) && m.records[id].status == Forgotten))
  }

  lemma MoveDisturbs(s: State, th: Thread, e: Event)
    requires e.Advance? && MoveOf(s, th, e).Some? && forall id | id in s.records :: id < s.next
    ensures Disturbs(s, th, MoveOf(s, th, e).value)
    ensures forall id | id in MoveOf(s, th, e).value.records :: id < MoveOf(s, th, e).value.next
  {
  }

  /** A thread takes a lock only if it is free. */
  lemma MoveTakesFreeLocks(s: State, th: Thread, e: Event)
    requires e.Advance? && MoveOf(s, th, e).Some? && ProperPhase(th)
    ensures HoldsLock(MoveOf(s, th, e).value.thread) ==> HoldsLock(th) || s.lock.None?
    ensures HoldsSave(MoveOf(s, th, e).value.thread) ==> HoldsSave(th) || s.saveLock.None?
  {
  }

  lemma MoveIsProper(s: State, th: Thread, e: Event)
    requires e.Advance? && MoveOf(s, th, e).Some? && ProperPhase(th) && Relies(s.records, th)
    ensures ProperPhase(MoveOf(s, th, e).value.thread)
    ensures Relies(MoveOf(s, th, e).value.records, MoveOf(s, th, e).value.thread)
  {
  }

  lemma TakeKeepsLocked(s: State, t: Tid, m: Move)
    requires Locked(s) && t < |s.threads|
    requires HoldsLock(m.thread) ==> HoldsLock(s.threads[t]) || s.lock.None?
    requires HoldsSave(m.thread) ==> HoldsSave(s.threads[t]) || s.saveLock.None?
    ensures Locked(Take(s, t, m))
  {
  }

  /** What another thread relies on survives the step. */
  lemma MoveKeepsOthers(s: State, t: Tid, m: Move, u: Tid)
    requires Inv(s) && t < |s.threads| && u < |s.threads| && u != t && Disturbs(s, s.threads[t], m)
    requires s.threads[t].phase.Running? ==>
               s.threads[t].phase.id in m.records
               && (m.records[s.threads[t].phase.id].status == Processed || m.records[s.threads[t].phase.id].status == Failed)
    ensures Relies(m.records, s.threads[u])
  {
    var th, other := s.threads[t], s.threads[u];
    assert !(HoldsLock(th) && HoldsLock(other)) && !(HoldsSave(th) && HoldsSave(other));
  }

  lemma StepKeepsInv(s: State, e: Event)
    requires Inv(s)
    ensures Inv(Step(s, e))
  {
    if e.Advance? && e.t < |s.threads| && MoveOf(s, s.threads[e.t], e).Some? {
      var t, th := e.t, s.threads[e.t];
      var m := MoveOf(s, th, e).value;
      MoveDisturbs(s, th, e);
      MoveTakesFreeLocks(s, th, e);
      MoveIsProper(s, th, e);
      TakeKeepsLocked(s, t, m);
      forall u: Tid | u < |s.threads| && u != t
        ensures Relies(m.records, s.threads[u])
      {
        MoveKeepsOthers(s, t, m, u);
      }
    }
  }

  lemma {:induction false} ReplayKeepsInv(events: seq<Event>)
    ensures Inv(Replay(events))
  {
    if events != [] {
      ReplayKeepsInv(events[..|events| - 1]);
      StepKeepsInv(Replay(events[..|events| - 1]), events[|events| - 1]);
    }
  }

  /* ---------- what holds of every interleaving ---------- */

  /** Runs of the group are mutually exclusive, and so are saves. */
  lemma RunsAreExclusive(events: seq<Event>, t: Tid, u: Tid)
    requires t < u < |Replay(events).threads|
    ensures !(Replay(events).threads[t].phase.Running? && Replay(events).threads[u].phase.Running?)
    ensures !(HoldsLock(Replay(events).threads[t]) && HoldsLock(Replay(events).threads[u]))
    ensures !(HoldsSave(Replay(events).threads[t]) && HoldsSave(Replay(events).threads[u]))
  {
    ReplayKeepsInv(events);
  }

  /** No run starts on an episode stored as processed or forgotten, nor does it become either while it runs. */
  lemma RunsOnUnfinishedOnly(events: seq<Event>, t: Tid)
    requires t < |Replay(events).threads| && Replay(events).threads[t].phase.Running?
    ensures var s := Replay(events);
            var id := s.threads[t].phase.id;
            id in s.records && (s.records[id].status == Pending || s.records[id].status == Failed)
  {
    ReplayKeepsInv(events);
  }

  lemma StepKeepsForgotten(s: State, e: Event, id: Id)
    requires Inv(s) && id in s.records
    ensures id in Step(s, e).records && Step(s, e).records[id].key == s.records[id].key
    ensures s.records[id].status == Forgotten ==> Step(s, e).records[id] == s.records[id]
  {
    if e.Advance? && e.t < |s.threads| && MoveOf(s, s.threads[e.t], e).Some? {
      MoveDisturbs(s, s.threads[e.t], e);
    }
  }

  /** Records are never removed, keep their key, and a forgotten one never changes again. */
  lemma {:induction false} ForgottenIsFinal(events: seq<Event>, later: seq<Event>, id: Id)
    requires id in Replay(events).records
    ensures id in Replay(events + later).records
    ensures Replay(events + later).records[id].key == Replay(events).records[id].key
    ensures Replay(events).records[id].status == Forgotten
            ==> Replay(events + later).records[id] == Replay(events).records[id]
  {
    if later == [] {
      assert events + later == events;
    } else {
      var before, e := events + later[..|later| - 1], later[|later| - 1];
      ForgottenIsFinal(events, later[..|later| - 1], id);
      assert (events + later)[..|events + later| - 1] == before;
      ReplayKeepsInv(before);
      StepKeepsForgotten(Replay(before), e, id);
    }
  }

  /** The step that ends a forget of a record leaves it forgotten. */
  lemma ForgetStep(s: State, t: Tid, e: Event, id: Id)
    requires Inv(s) && id in s.records && t < |s.threads| && s.threads[t].job == Forget(id)
    requires s.threads[t].phase.Finished? ==> s.records[id].status == Forgotten
    ensures var after := Step(s, e);
            && t < |after.threads| && after.threads[t].job == Forget(id) && id in after.records
            && (after.threads[t].phase.Finished? ==> after.records[id].status == Forgotten)
  {
    StepKeepsForgotten(s, e, id);
  }

  /** A forget that is over has forgotten the record it was called for, whatever else went on. */
  lemma {:induction false} FinishedForgets(events: seq<Event>, later: seq<Event>, t: Tid, id: Id)
    requires var s := Replay(events);
             t < |s.threads| && s.threads[t].job == Forget(id) && !s.threads[t].phase.Finished? && id in s.records
    ensures var s := Replay(events + later);
            && t < |s.threads| && s.threads[t].job == Forget(id) && id in s.records
            && (s.threads[t].phase.Finished? ==> s.records[id].status == Forgotten)
  {
    if later == [] {
      assert events + later == events;
    } else {
      var before, e := events + later[..|later| - 1], later[|later| - 1];
      FinishedForgets(events, later[..|later| - 1], t, id);
      assert (events + later)[..|events + later| - 1] == before;
      ReplayKeepsInv(before);
      ForgetStep(Replay(before), t, e, id);
    }
  }

  /** A save writes over a record only if that one failed, or was processed since the save read it. */
  lemma SavingRewrites(events: seq<Event>, t: Tid, id: Id)
    requires t < |Replay(events).threads| && Replay(events).threads[t].phase == Writing(Reset(id))
    ensures id in Replay(events).records
    ensures Replay(events).records[id].status == Failed || Replay(events).records[id].status == Processed
    ensures Replay(events).threads[t].job.Add? ==> Replay(events).records[id].status == Failed
  {
    ReplayKeepsInv(events);
  }

  /**
   * No deadlock: while a call is unfinished some call can take a step. The
   * lock is always taken before the save lock.
   */
  lemma NoDeadlock(events: seq<Event>, t: Tid) returns (e: Event)
    requires t < |Replay(events).threads| && !Replay(events).threads[t].phase.Finished?
    ensures e.Advance? && Step(Replay(events), e) != Replay(events)
  {
    ReplayKeepsInv(events);
    var s := Replay(events);
    var u := t;
    if s.lock.Some? {
      u := s.lock.value;
    }
    if s.threads[u].phase.SaveWanted? && s.saveLock.Some? {
      u := s.saveLock.value;
    } else if s.lock.None? && s.saveLock.Some? {
      u := s.saveLock.value;
    }
    e := GoesOn(s, u);
  }

  /** A thread that does not want a lock somebody holds can go on. */
  lemma GoesOn(s: State, u: Tid) returns (e: Event)
    requires Inv(s) && u < |s.threads| && !s.threads[u].phase.Finished?
    requires s.threads[u].phase.LockWanted? ==> s.lock.None?
    requires s.threads[u].phase.SaveWanted? ==> s.saveLock.None?
    ensures e.Advance? && Step(s, e) != s
  {
    var th := s.threads[u];
    var chosen := Create;
    if (th.job.Add? || th.job.Save?) && th.phase.Reading? {
      chosen := SomeChoice(s, th.job.key, th.job.idempotent);
    }
    e := Advance(u, chosen, [], true);
    assert Step(s, e).threads[u].phase != th.phase || Step(s, e).threads[u].job != th.job;
  }

  /** A save always finds one of its cases. */
  lemma SomeChoice(s: State, key: Key, idempotent: bool) returns (c: Chosen)
    ensures MayChoose(s.records, key, idempotent, c) && !c.Mark?
  {
    if !idempotent || !(exists id | id in s.records :: Matches(s.records, id, key)) {
      c := Create;
    } else if exists id | id in s.records :: Matches(s.records, id, key) && IsProcessed(s.records[id].status) {
      c := Duplicate;
    } else {
      var id :| id in s.records && Matches(s.records, id, key);
      c := if s.records[id].status == Pending then Reuse(id) else Reset(id);
    }
  }

  /* ---------- a processed episode ---------- */

  /** The step puts a processed episode back to pending. */
  predicate Undoes(s: State, e: Event, id: Id) {
    && id in s.records && s.records[id].status == Processed
    && id in Step(s, e).records && Step(s, e).records[id].status == Pending
  }

  /**
   * Exactly when a processed episode is taken for unprocessed again: a save
   * that read it as failed writes after a run of it succeeded meanwhile.
   */
  lemma ProcessedUndoneIff(events: seq<Event>, e: Event, id: Id)
    requires id in Replay(events).records && Replay(events).records[id].status == Processed
    ensures var s := Replay(events);
            Undoes(s, e, id)
            <==> e.Advance? && e.t < |s.threads| && s.threads[e.t].job.Save? && s.threads[e.t].phase == Writing(Reset(id))
    ensures var s := Replay(events);
            id in Step(s, e).records
            && (Step(s, e).records[id].status != Processed ==>
                  Undoes(s, e, id) || (Step(s, e).records[id].status == Forgotten && e.Advance? && e.t < |s.threads|
                                       && s.threads[e.t].phase == Writing(Mark(id))))
  {
    ReplayKeepsInv(events);
    var s := Replay(events);
    if e.Advance? && e.t < |s.threads| && MoveOf(s, s.threads[e.t], e).Some? {
      MoveDisturbs(s, s.threads[e.t], e);
    }
  }

  /** A save's read and write are one step, as on a store that keeps the records in memory. */
  predicate SavesAreAtomic(events: seq<Event>) {
    forall k, t: Tid | 0 <= k < |events| && t < |Replay(events[..k]).threads|
                       && Replay(events[..k]).threads[t].job.Save? && Replay(events[..k]).threads[t].phase.Writing? ::
      events[k].Advance? && events[k].t == t
  }

  /** A thread comes to write over a failed record only right after reading it as failed. */
  lemma ResetIsReadFailed(s: State, e: Event, t: Tid, id: Id)
    requires t < |Step(s, e).threads| && Step(s, e).threads[t].phase == Writing(Reset(id))
    requires !(t < |s.threads| && s.threads[t].phase == Writing(Reset(id)))
    ensures id in Step(s, e).records && Step(s, e).records[id].status == Failed
  {
  }

  /** A write is over with the next step of its thread. */
  lemma WriteIsOver(s: State, e: Event, t: Tid)
    requires Inv(s) && t < |s.threads| && s.threads[t].job.Save? && s.threads[t].phase.Writing?
    requires e.Advance? && e.t == t
    ensures t < |Step(s, e).threads| && !Step(s, e).threads[t].phase.Writing?
  {
    assert Relies(s.records, s.threads[t]) && ProperPhase(s.threads[t]);
  }

  lemma AtomicSavesResetFailed(events: seq<Event>, t: Tid, id: Id)
    requires SavesAreAtomic(events)
    requires t < |Replay(events).threads| && Replay(events).threads[t].job.Save?
    requires Replay(events).threads[t].phase == Writing(Reset(id))
    ensures id in Replay(events).records && Replay(events).records[id].status == Failed
  {
    var n := |events| - 1;
    var before, e := Replay(events[..n]), events[n];
    ReplayKeepsInv(events[..n]);
    // a thread that was about to write before the last event took that step
    if t < |before.threads| && before.threads[t].job.Save? && before.threads[t].phase == Writing(Reset(id)) {
      WriteIsOver(before, e, t);
      assert false;
    }
    ResetIsReadFailed(before, e, t, id);
  }

  /** With atomic saves a processed episode stays processed until it is forgotten. */
  lemma AtomicSavesKeepProcessed(events: seq<Event>, e: Event, id: Id)
    requires SavesAreAtomic(events)
    requires id in Replay(events).records && Replay(events).records[id].status == Processed
    ensures id in Step(Replay(events), e).records
    ensures Step(Replay(events), e).records[id].status == Processed || Step(Replay(events), e).records[id].status == Forgotten
  {
    ProcessedUndoneIff(events, e, id);
    var s := Replay(events);
    if Undoes(s, e, id) {
      AtomicSavesResetFailed(events, e.t, id);
    }
  }

  /* ---------- a trace that undoes a processed episode ---------- */

  lemma ReplayOneMore(events: seq<Event>, e: Event)
    ensures Replay(events + [e]) == Step(Replay(events), e)
  {
    assert (events + [e])[..|events|] == events;
  }

  function Go(t: Tid): Event {
    Advance(t, Create, [], true)
  }

  const ADDING := Add(1, true)
  const CREATING := State(map[], 0, Some(0), Some(0), [Thread(ADDING, Writing(Create))])

  /** An episode is about to be saved. */
  lemma AboutToCreate() returns (events: seq<Event>)
    ensures Replay(events) == CREATING
  {
    events := [];
    var more := [Submit(ADDING), Go(0), Go(0), Go(0)];
    for k := 0 to |more|
      invariant k == 0 ==> Replay(events) == EMPTY
      invariant k == 1 ==> Replay(events) == State(map[], 0, None, None, [Thread(ADDING, LockWanted)])
      invariant k == 2 ==> Replay(events) == State(map[], 0, Some(0), None, [Thread(ADDING, SaveWanted)])
      invariant k == 3 ==> Replay(events) == State(map[], 0, Some(0), Some(0), [Thread(ADDING, Reading)])
      invariant k == 4 ==> Replay(events) == CREATING
    {
      ReplayOneMore(events, more[k]);
      events := events + [more[k]];
    }
  }

  /** The episode is saved, and its processing fails. */
  lemma FailedOnce() returns (events: seq<Event>, s: State)
    ensures s == Replay(events)
    ensures s == State(FAILED_ONCE, 1, None, None, [ADDED])
  {
    var before := AboutToCreate();
    var fails := Advance(0, Create, [], false);
    var saved := map[0 := Record(1, Pending, 0)];
    ReplayOneMore(before, Go(0));
    assert Step(CREATING, Go(0)) == State(saved, 1, Some(0), None, [Thread(ADDING, Starting(0))]);
    ReplayOneMore(before + [Go(0)], Go(0));
    var running := State(saved, 1, Some(0), None, [Thread(ADDING, Running(0))]);
    assert Step(Step(CREATING, Go(0)), Go(0)) == running;
    ReplayOneMore(before + [Go(0)] + [Go(0)], fails);
    events := before + [Go(0)] + [Go(0)] + [fails];
    s := Step(running, fails);
  }

  const ADDED := Thread(ADDING, Finished)
  const FAILED_ONCE := map[0 := Record(1, Failed, 1)]
  const OVERWRITING := Thread(Save(1, true), Writing(Reset(0)))

  /** A save of the same text reads the record as failed, and is about to write. */
  lemma ReadAsFailed() returns (events: seq<Event>, s: State)
    ensures s == Replay(events)
    ensures s == State(FAILED_ONCE, 1, None, Some(1), [ADDED, OVERWRITING])
  {
    var before, failed := FailedOnce();
    events, s := before, failed;
    var more := [Submit(Save(1, true)), Go(1), Advance(1, Reset(0), [], true)];
    for k := 0 to |more|
      invariant s == Replay(events)
      invariant k == 0 ==> s == State(FAILED_ONCE, 1, None, None, [ADDED])
      invariant k == 1 ==> s == State(FAILED_ONCE, 1, None, None, [ADDED, Thread(Save(1, true), SaveWanted)])
      invariant k == 2 ==> s == State(FAILED_ONCE, 1, None, Some(1), [ADDED, Thread(Save(1, true), Reading)])
      invariant k == 3 ==> s == State(FAILED_ONCE, 1, None, Some(1), [ADDED, OVERWRITING])
    {
      ReplayOneMore(events, more[k]);
      assert k == 2 ==> Matches(FAILED_ONCE, 0, 1);
      events := events + [more[k]];
      s := Step(s, more[k]);
    }
  }

  const RETRY := Process(0, [])

  /** Meanwhile a retry takes the lock and reads the record as failed too. */
  lemma RetryReads() returns (events: seq<Event>, s: State)
    ensures s == Replay(events)
    ensures s == State(FAILED_ONCE, 1, Some(2), Some(1), [ADDED, OVERWRITING, Thread(RETRY, Reading)])
  {
    var before, read := ReadAsFailed();
    events, s := before, read;
    var more := [Submit(RETRY), Go(2), Go(2)];
    for k := 0 to |more|
      invariant s == Replay(events)
      invariant k == 0 ==> s == State(FAILED_ONCE, 1, None, Some(1), [ADDED, OVERWRITING])
      invariant k == 1 ==> s == State(FAILED_ONCE, 1, None, Some(1), [ADDED, OVERWRITING, Thread(RETRY, Asking)])
      invariant k == 2 ==> s == State(FAILED_ONCE, 1, None, Some(1), [ADDED, OVERWRITING, Thread(RETRY, LockWanted)])
      invariant k == 3 ==> s == State(FAILED_ONCE, 1, Some(2), Some(1), [ADDED, OVERWRITING, Thread(RETRY, Reading)])
    {
      ReplayOneMore(events, more[k]);
      events := events + [more[k]];
      s := Step(s, more[k]);
    }
  }

  /**
   * It happens, on a store where a save reads and writes in two steps: the
   * save reads the record as failed, a retry succeeds, and the save puts the
   * processed episode back to pending.
   */
  lemma SaveUndoesProcessed() returns (events: seq<Event>, e: Event)
    ensures Undoes(Replay(events), e, 0)
  {
    var before, read := RetryReads();
    ReplayOneMore(before, Go(2));
    var running := Step(read, Go(2));
    assert running == State(FAILED_ONCE, 1, Some(2), Some(1), [ADDED, OVERWRITING, Thread(RETRY, Running(0))]);
    ReplayOneMore(before + [Go(2)], Go(2));
    var processed := Step(running, Go(2));
    assert processed == State(map[0 := Record(1, Processed, 2)], 1, None, Some(1), [ADDED, OVERWRITING, Thread(RETRY, Finished)]);
    events := before + [Go(2)] + [Go(2)];
    e := Go(1);
  }

  /* ---------- the same text is stored once ---------- */

  /**
   * Exactly what a save may do: nothing if an unforgotten record of its text
   * is processed, otherwise go on with a pending one or start a failed one
   * again, and a new record if there is none or it need not be told apart.
   */
  lemma SaveMayIff(records: map<Id, Record>, key: Key, idempotent: bool, c: Chosen)
    ensures var processed := exists id | id in records ::
              records[id].key == key && (records[id].status == Processed || records[id].status == Legacy);
            MayChoose(records, key, idempotent, c)
            <==> match c
                 case Duplicate => idempotent && processed
                 case Reuse(id) => idempotent && !processed && id in records && records[id].key == key && records[id].status == Pending
                 case Reset(id) => idempotent && !processed && id in records && records[id].key == key && records[id].status == Failed
                 case Create => !idempotent || forall id | id in records && records[id].key == key :: records[id].status == Forgotten
                 case Mark(_) => false
  {
    if id :| id in records && records[id].key == key && (records[id].status == Processed || records[id].status == Legacy) {
      assert Matches(records, id, key);
    }
    if id :| id in records && records[id].key == key && records[id].status != Forgotten {
      assert Matches(records, id, key);
    }
  }

  /** A retry goes through failed records only; a call on a missing record ends. */
  lemma AskedIs(s: State, th: Thread, failed: seq<Id>)
    ensures th.job.Retry? ==>
              (Ask(s, th, failed).Some? <==> forall k | 0 <= k < |failed| :: failed[k] in s.records && s.records[failed[k]].status == Failed)
    ensures th.job.Retry? && Ask(s, th, failed).Some? && failed != [] ==>
              Ask(s, th, failed).value.thread == Thread(Process(failed[0], failed[1..]), Asking)
    ensures th.job.Process? ==>
              Ask(s, th, failed).Some? && Ask(s, th, failed).value.thread.phase == (if th.job.id in s.records then LockWanted else Finished)
  {
  }

  predicate Saves(job: Job) {
    job.Add? || job.Save?
  }

  /** Every save tells its text apart from the others. */
  predicate AllIdempotent(events: seq<Event>) {
    forall i | 0 <= i < |events| && events[i].Submit? && Saves(events[i].job) :: events[i].job.idempotent
  }

  predicate Live(records: map<Id, Record>, id: Id) {
    id in records && records[id].status != Forgotten
  }

  predicate OnePerKey(records: map<Id, Record>) {
    forall a, b | a in records && b in records && Live(records, a) && Live(records, b) && records[a].key == records[b].key :: a == b
  }

  predicate NoneOf(records: map<Id, Record>, key: Key) {
    forall id | id in records && Live(records, id) :: records[id].key != key
  }

  /** A call about to create a record has found none of its text, and no other save can come between. */
  predicate Awaits(records: map<Id, Record>, th: Thread) {
    (Saves(th.job) ==> th.job.idempotent) && (Saves(th.job) && th.phase == Writing(Create) ==> NoneOf(records, th.job.key))
  }

  predicate Single(s: State) {
    OnePerKey(s.records) && forall t: Tid | t < |s.threads| :: Awaits(s.records, s.threads[t])
  }

  /** A step brings no forgotten record back, and adds one only where a save writes it. */
  predicate Narrows(s: State, th: Thread, m: Move) {
    && (forall id | id in m.records && Live(m.records, id) && id in s.records :: Live(s.records, id) && m.records[id].key == s.records[id].key)
    && (forall id | id in m.records && id !in s.records ::
          id == s.next && Saves(th.job) && th.phase == Writing(Create) && m.records[id].key == th.job.key)
  }

  lemma MoveNarrows(s: State, th: Thread, e: Event)
    requires e.Advance? && MoveOf(s, th, e).Some? && ProperPhase(th) && Relies(s.records, th)
    requires forall id | id in s.records :: id < s.next
    ensures Narrows(s, th, MoveOf(s, th, e).value)
  {
  }

  lemma MoveAwaits(s: State, th: Thread, e: Event)
    requires e.Advance? && MoveOf(s, th, e).Some? && Saves(th.job) && th.job.idempotent
    requires forall id | id in s.records :: id < s.next
    ensures var m := MoveOf(s, th, e).value;
            Saves(m.thread.job) ==> m.thread.job == th.job && (m.thread.phase == Writing(Create) ==>
              m.records == s.records && NoneOf(m.records, th.job.key))
  {
    if th.phase.Reading? {
      SaveMayIff(s.records, th.job.key, th.job.idempotent, e.chosen);
    }
  }

  lemma OtherMovesSaveNothing(s: State, th: Thread, e: Event)
    requires e.Advance? && MoveOf(s, th, e).Some? && !Saves(th.job)
    ensures !Saves(MoveOf(s, th, e).value.thread.job)
  {
  }

  lemma StepKeepsSingle(s: State, e: Event)
    requires Inv(s) && Single(s) && AllIdempotent([e])
    ensures Single(Step(s, e))
  {
    match e {
      case Submit(job) =>
        assert [e][0] == e;
      case Advance(t, _, _, _) =>
        if t < |s.threads| && MoveOf(s, s.threads[t], e).Some? {
          var th := s.threads[t];
          MoveNarrows(s, th, e);
          if Saves(th.job) {
            MoveAwaits(s, th, e);
          } else {
            OtherMovesSaveNothing(s, th, e);
          }
          AdvanceKeepsSingle(s, t, MoveOf(s, th, e).value);
        }
    }
  }

  lemma AdvanceKeepsSingle(s: State, t: Tid, m: Move)
    requires Inv(s) && Single(s) && t < |s.threads| && Narrows(s, s.threads[t], m) && Awaits(m.records, m.thread)
    ensures Single(Take(s, t, m))
  {
    assert Awaits(s.records, s.threads[t]);
    forall u: Tid | u < |s.threads| && u != t
      ensures Awaits(m.records, s.threads[u])
    {
      assert Awaits(s.records, s.threads[u]);
      assert !(HoldsSave(s.threads[t]) && HoldsSave(s.threads[u]));
    }
  }

  lemma {:induction false} ReplayKeepsSingle(events: seq<Event>)
    requires AllIdempotent(events)
    ensures Inv(Replay(events)) && Single(Replay(events))
  {
    if events != [] {
      var init, e := events[..|events| - 1], events[|events| - 1];
      assert [e][0] == events[|events| - 1];
      ReplayKeepsSingle(init);
      StepKeepsInv(Replay(init), e);
      StepKeepsSingle(Replay(init), e);
    }
  }

  /**
   * In every interleaving of saves, adds, runs, retries and forgets, no two
   * records that are not forgotten are of one text.
   */
  lemma SameTextIsStoredOnce(events: seq<Event>, a: Id, b: Id)
    requires AllIdempotent(events)
    requires var records := Replay(events).records;
             && a in records && b in records && records[a].key == records[b].key
             && records[a].status != Forgotten && records[b].status != Forgotten
    ensures a == b
  {
    ReplayKeepsSingle(events);
    assert Live(Replay(events).records, a) && Live(Replay(events).records, b);
  }
}
