/**
 * Jobs, their line and their eviction (src/jobs/queue.ts). A job is named by the
 * number of its submission.
 */
module JobQueues {
  datatype Status = Queued | Running | Succeeded | Failed

  predicate Settled(s: Status) {
    s.Succeeded? || s.Failed?
  }

  /** `started` lists the jobs in the order they were started. */
  datatype Queue = Queue(jobs: map<nat, Status>, order: seq<nat>, waiting: seq<nat>, running: int,
                         started: seq<nat>, submitted: nat, concurrency: int, historyLimit: nat)

  function Max(a: int, b: int): int {
    if a > b then a else b
  }

  function Initial(concurrency: int, historyLimit: nat): Queue {
    Queue(map[], [], [], 0, [], 0, Max(1, concurrency), historyLimit)
  }

  /** The position of the first settled job; past the end if there is none. */
  function FirstSettled(jobs: map<nat, Status>, order: seq<nat>): (i: nat)
    ensures i <= |order|
    ensures i < |order| ==> order[i] in jobs && Settled(jobs[order[i]])
    ensures forall k | 0 <= k < i :: !(order[k] in jobs && Settled(jobs[order[k]]))
  {
    if order == [] then 0
    else if order[0] in jobs && Settled(jobs[order[0]]) then 0
    else 1 + FirstSettled(jobs, order[1..])
  }

  function Without(order: seq<nat>, i: nat): seq<nat>
    requires i < |order|
  {
    order[..i] + order[i + 1..]
  }

  /** Drops the oldest settled job while the limit is exceeded. */
  function EvictOld(q: Queue): Queue
    decreases |q.order|
  {
    if |q.jobs| <= q.historyLimit then q
    else
      var i := FirstSettled(q.jobs, q.order);
      if i == |q.order| then q
      else EvictOld(q.(jobs := q.jobs - {q.order[i]}, order := Without(q.order, i)))
  }

  function WithStatus(q: Queue, id: nat, s: Status): Queue {
    q.(jobs := if id in q.jobs then q.jobs[id := s] else q.jobs)
  }

  function Started(q: Queue, id: nat): Queue {
    WithStatus(q, id, Running).(running := q.running + 1, started := q.started + [id])
  }

  function Joined(q: Queue): Queue {
    q.(jobs := q.jobs[q.submitted := Queued], order := q.order + [q.submitted], submitted := q.submitted + 1)
  }

  function Submit(q: Queue): Queue {
    var id, kept := q.submitted, EvictOld(Joined(q));
    if kept.running < kept.concurrency then Started(kept, id) else kept.(waiting := kept.waiting + [id])
  }

  function Ended(q: Queue, id: nat, outcome: Status): Queue {
    WithStatus(q, id, outcome).(running := q.running - 1)
  }

  /** A running job ends, and the next in line starts. */
  function Finish(q: Queue, id: nat, outcome: Status): Queue
    requires Settled(outcome)
  {
    if !(id in q.jobs && q.jobs[id].Running?) then q
    else
      var kept := EvictOld(Ended(q, id, outcome));
      if kept.waiting == [] then kept else Started(kept.(waiting := kept.waiting[1..]), kept.waiting[0])
  }

  datatype Event = Submitted | Finished(id: nat, ok: bool)

  function Step(q: Queue, e: Event): Queue {
    match e
    case Submitted => Submit(q)
    case Finished(id, ok) => Finish(q, id, if ok then Succeeded else Failed)
  }

  function Replay(concurrency: int, historyLimit: nat, events: seq<Event>): Queue {
    if events == [] then Initial(concurrency, historyLimit)
    else Step(Replay(concurrency, historyLimit, events[..|events| - 1]), events[|events| - 1])
  }

  /* ---------- the invariant ---------- */

  predicate Ascending(order: seq<nat>) {
    forall i, j | 0 <= i < j < |order| :: order[i] < order[j]
  }

  function Members(order: seq<nat>): set<nat> {
    set id | id in order
  }

  /** The order lists the kept jobs, each once, oldest first. */
  predicate Listed(jobs: map<nat, Status>, order: seq<nat>, submitted: nat) {
    && Ascending(order) && Members(order) == jobs.Keys
    && forall id | id in jobs :: id < submitted
  }

  function AllWith(jobs: map<nat, Status>, s: Status): set<nat> {
    set id | id in jobs && jobs[id] == s
  }

  /** The n-th job started is the n-th submitted, and those that did not start stand in line, in that order. */
  predicate InTurn(started: seq<nat>, line: seq<nat>, submitted: nat) {
    && |started| + |line| == submitted
    && (forall i | 0 <= i < |started| :: started[i] == i)
    && (forall i | 0 <= i < |line| :: line[i] == |started| + i)
  }

  /** The queued jobs are exactly those from one number up to another. */
  predicate QueuedFrom(jobs: map<nat, Status>, from: nat, to: nat) {
    && (forall id | id in jobs :: jobs[id].Queued? <==> id >= from)
    && (forall id: nat | from <= id < to :: id in jobs)
  }

  predicate Bounded(jobs: map<nat, Status>, limit: nat) {
    |jobs| > limit ==> forall id | id in jobs :: !Settled(jobs[id])
  }

  predicate Inv(q: Queue) {
    && q.concurrency >= 1
    && Listed(q.jobs, q.order, q.submitted) && Bounded(q.jobs, q.historyLimit)
    && InTurn(q.started, q.waiting, q.submitted) && QueuedFrom(q.jobs, |q.started|, q.submitted)
    && q.running == |AllWith(q.jobs, Running)| <= q.concurrency
    && (q.waiting != [] ==> q.running == q.concurrency)
  }

  /* ---------- eviction ---------- */

  /** What eviction leaves: every unfinished job, and the newest of the settled ones. */
  predicate KeepsNewest(jobs: map<nat, Status>, kept: map<nat, Status>, limit: nat) {
    && (forall id | id in kept :: id in jobs && kept[id] == jobs[id])
    && (forall id | id in jobs && !Settled(jobs[id]) :: id in kept)
    && (forall a, b | a in jobs && a !in kept && b in kept && Settled(kept[b]) :: a < b)
    && (kept != jobs ==> |kept| >= limit)
  }

  lemma {:induction false} EvictionKeepsNewest(q: Queue)
    requires Listed(q.jobs, q.order, q.submitted)
    ensures var kept := EvictOld(q);
            && kept == q.(jobs := kept.jobs, order := kept.order)
            && Listed(kept.jobs, kept.order, q.submitted) && Bounded(kept.jobs, q.historyLimit)
            && KeepsNewest(q.jobs, kept.jobs, q.historyLimit)
    decreases |q.order|
  {
    var i := FirstSettled(q.jobs, q.order);
    if |q.jobs| > q.historyLimit {
      if i < |q.order| {
        var id := q.order[i];
        var next := q.(jobs := q.jobs - {id}, order := Without(q.order, i));
        WithoutOne(q.order, i);
        assert id in Members(q.order);
        DropIsOldest(q, i);
        EvictionKeepsNewest(next);
        KeepsNewestOneMore(q.jobs, id, next.jobs, EvictOld(next).jobs, q.historyLimit);
      } else {
        assert forall id | id in q.jobs :: id in Members(q.order);
      }
    }
  }

  lemma WithoutOne(order: seq<nat>, i: nat)
    requires i < |order| && Ascending(order)
    ensures Ascending(Without(order, i))
    ensures Members(Without(order, i)) == Members(order) - {order[i]}
  {
    var rest := Without(order, i);
    forall id | id in order && id != order[i]
      ensures id in rest
    {
      var k :| 0 <= k < |order| && order[k] == id;
      assert rest[if k < i then k else k - 1] == id;
    }
    forall k | 0 <= k < |rest|
      ensures rest[k] == order[if k < i then k else k + 1]
    {
    }
  }

  lemma DropIsOldest(q: Queue, i: nat)
    requires Listed(q.jobs, q.order, q.submitted) && i == FirstSettled(q.jobs, q.order) < |q.order|
    ensures forall b | b in q.jobs && Settled(q.jobs[b]) :: q.order[i] <= b
  {
    forall b | b in q.jobs && Settled(q.jobs[b])
      ensures q.order[i] <= b
    {
      assert b in Members(q.order);
      var k :| 0 <= k < |q.order| && q.order[k] == b;
    }
  }

  lemma KeepsNewestOneMore(jobs: map<nat, Status>, id: nat, next: map<nat, Status>, kept: map<nat, Status>, limit: nat)
    requires id in jobs && Settled(jobs[id]) && |jobs| > limit
    requires forall b | b in jobs && Settled(jobs[b]) :: id <= b
    requires next == jobs - {id} && KeepsNewest(next, kept, limit)
    ensures KeepsNewest(jobs, kept, limit)
  {
    assert next.Keys == jobs.Keys - {id};
    assert |next| == |jobs| - 1;
    forall a, b | a in jobs && a !in kept && b in kept && Settled(kept[b])
      ensures a < b
    {
      assert b in next;
      if a == id {
        assert id <= b;
      } else {
        assert a in next;
      }
    }
  }

  /* ---------- one step ---------- */

  lemma EvictionKeepsUnfinished(jobs: map<nat, Status>, kept: map<nat, Status>, limit: nat, from: nat, to: nat)
    requires KeepsNewest(jobs, kept, limit) && QueuedFrom(jobs, from, to)
    ensures QueuedFrom(kept, from, to) && AllWith(kept, Running) == AllWith(jobs, Running)
  {
  }

  lemma JoinsLine(started: seq<nat>, line: seq<nat>, submitted: nat)
    requires InTurn(started, line, submitted)
    ensures InTurn(started, line + [submitted], submitted + 1)
  {
  }

  lemma LeavesLine(started: seq<nat>, line: seq<nat>, submitted: nat)
    requires InTurn(started, line, submitted) && line != []
    ensures line[0] == |started| && InTurn(started + [line[0]], line[1..], submitted)
  {
  }

  lemma AddsQueued(jobs: map<nat, Status>, order: seq<nat>, from: nat, id: nat)
    requires Listed(jobs, order, id) && QueuedFrom(jobs, from, id) && from <= id
    ensures Listed(jobs[id := Queued], order + [id], id + 1) && QueuedFrom(jobs[id := Queued], from, id + 1)
    ensures AllWith(jobs[id := Queued], Running) == AllWith(jobs, Running)
  {
    forall k | 0 <= k < |order|
      ensures order[k] < id
    {
      assert order[k] in Members(order);
    }
    assert Members(order + [id]) == Members(order) + {id};
  }

  lemma StartsQueued(jobs: map<nat, Status>, order: seq<nat>, id: nat, to: nat, limit: nat)
    requires Listed(jobs, order, to) && QueuedFrom(jobs, id, to) && id < to && Bounded(jobs, limit)
    ensures var after := jobs[id := Running];
            && id in jobs && Listed(after, order, to) && QueuedFrom(after, id + 1, to) && Bounded(after, limit)
            && |AllWith(after, Running)| == |AllWith(jobs, Running)| + 1
  {
    var after := jobs[id := Running];
    assert after.Keys == jobs.Keys;
    assert |after| == |jobs|;
    assert AllWith(after, Running) == AllWith(jobs, Running) + {id};
  }

  lemma EndsRunning(jobs: map<nat, Status>, order: seq<nat>, id: nat, outcome: Status, from: nat, to: nat)
    requires Listed(jobs, order, to) && QueuedFrom(jobs, from, to)
    requires id in jobs && jobs[id].Running? && Settled(outcome)
    ensures var after := jobs[id := outcome];
            && Listed(after, order, to) && QueuedFrom(after, from, to)
            && |AllWith(after, Running)| == |AllWith(jobs, Running)| - 1
  {
    var after := jobs[id := outcome];
    assert after.Keys == jobs.Keys;
    assert AllWith(after, Running) == AllWith(jobs, Running) - {id};
  }

  /** What eviction keeps of the invariant, whatever stands in line. */
  lemma EvictionKeepsParts(q: Queue, from: nat)
    requires Listed(q.jobs, q.order, q.submitted) && QueuedFrom(q.jobs, from, q.submitted)
    ensures var kept := EvictOld(q);
            && kept == q.(jobs := kept.jobs, order := kept.order)
            && Listed(kept.jobs, kept.order, q.submitted) && Bounded(kept.jobs, q.historyLimit)
            && QueuedFrom(kept.jobs, from, q.submitted)
            && |AllWith(kept.jobs, Running)| == |AllWith(q.jobs, Running)|
  {
    EvictionKeepsNewest(q);
    EvictionKeepsUnfinished(q.jobs, EvictOld(q).jobs, q.historyLimit, from, q.submitted);
  }

  /** The first in line starts. */
  lemma StartKeepsInv(q: Queue, line: seq<nat>)
    requires q.concurrency >= 1 && line != []
    requires Listed(q.jobs, q.order, q.submitted) && Bounded(q.jobs, q.historyLimit)
    requires InTurn(q.started, line, q.submitted) && QueuedFrom(q.jobs, |q.started|, q.submitted)
    requires q.running == |AllWith(q.jobs, Running)| < q.concurrency
    requires q.waiting == line[1..] && (line[1..] != [] ==> q.running == q.concurrency - 1)
    ensures Inv(Started(q, line[0]))
  {
    LeavesLine(q.started, line, q.submitted);
    StartsQueued(q.jobs, q.order, line[0], q.submitted, q.historyLimit);
  }

  /** The state between a submission's eviction and its start. */
  lemma KeptAfterJoining(q: Queue)
    requires Inv(q)
    ensures var kept := EvictOld(Joined(q));
            && kept == q.(jobs := kept.jobs, order := kept.order, submitted := q.submitted + 1)
            && Listed(kept.jobs, kept.order, kept.submitted) && Bounded(kept.jobs, q.historyLimit)
            && QueuedFrom(kept.jobs, |q.started|, kept.submitted)
            && q.running == |AllWith(kept.jobs, Running)|
  {
    AddsQueued(q.jobs, q.order, |q.started|, q.submitted);
    EvictionKeepsParts(Joined(q), |q.started|);
  }

  lemma StartsAtOnce(q: Queue)
    requires Inv(q) && q.running < q.concurrency
    ensures Inv(Started(EvictOld(Joined(q)), q.submitted))
  {
    var id, line := q.submitted, [q.submitted];
    KeptAfterJoining(q);
    JoinsLine(q.started, q.waiting, id);
    assert q.waiting + [id] == line && line[1..] == [];
    StartKeepsInv(EvictOld(Joined(q)), line);
  }

  lemma SubmitKeepsInv(q: Queue)
    requires Inv(q)
    ensures Inv(Submit(q))
  {
    KeptAfterJoining(q);
    if q.running < q.concurrency {
      StartsAtOnce(q);
    } else {
      JoinsLine(q.started, q.waiting, q.submitted);
    }
  }

  lemma FinishKeepsInv(q: Queue, id: nat, outcome: Status)
    requires Inv(q) && Settled(outcome)
    ensures Inv(Finish(q, id, outcome))
  {
    if id in q.jobs && q.jobs[id].Running? {
      var ended := Ended(q, id, outcome);
      EndsRunning(q.jobs, q.order, id, outcome, |q.started|, q.submitted);
      EvictionKeepsParts(ended, |q.started|);
      if q.waiting != [] {
        StartKeepsInv(EvictOld(ended).(waiting := q.waiting[1..]), q.waiting);
      }
    }
  }

  /** The job is still there, not ended; if it was running it still runs. */
  predicate Unfinished(q: Queue, after: Queue, id: nat)
    requires id in q.jobs
  {
    && id in after.jobs && !Settled(after.jobs[id])
    && (q.jobs[id].Running? ==> after.jobs[id].Running?)
  }

  lemma StartKeepsUnfinished(q: Queue, kept: Queue, id: nat, next: nat)
    requires id in q.jobs && Unfinished(q, kept, id)
    ensures Unfinished(q, Started(kept, next), id)
  {
  }

  lemma SubmitKeepsUnfinished(q: Queue, id: nat)
    requires Inv(q) && id in q.jobs && !Settled(q.jobs[id])
    ensures Unfinished(q, Submit(q), id)
  {
    var joined := Joined(q);
    AddsQueued(q.jobs, q.order, |q.started|, q.submitted);
    EvictionKeepsNewest(joined);
    assert joined.jobs[id] == q.jobs[id];
    StartKeepsUnfinished(q, EvictOld(joined), id, q.submitted);
  }

  lemma FinishKeepsUnfinished(q: Queue, id: nat, other: nat, outcome: Status)
    requires Inv(q) && id in q.jobs && !Settled(q.jobs[id])
    requires Settled(outcome) && (other != id || q.jobs[id].Queued?)
    ensures Unfinished(q, Finish(q, other, outcome), id)
  {
    if other in q.jobs && q.jobs[other].Running? {
      var ended := Ended(q, other, outcome);
      EndsRunning(q.jobs, q.order, other, outcome, |q.started|, q.submitted);
      EvictionKeepsNewest(ended);
      assert ended.jobs[id] == q.jobs[id];
      if q.waiting != [] {
        StartKeepsUnfinished(q, EvictOld(ended).(waiting := q.waiting[1..]), id, q.waiting[0]);
      }
    }
  }

  /** Unless it ends now, a job that has not ended is still there after any step; a running one still runs. */
  lemma StepKeepsUnfinished(q: Queue, e: Event, id: nat)
    requires Inv(q) && id in q.jobs && !Settled(q.jobs[id])
    requires !(e.Finished? && e.id == id && q.jobs[id].Running?)
    ensures Unfinished(q, Step(q, e), id)
  {
    match e
    case Submitted => SubmitKeepsUnfinished(q, id);
    case Finished(other, ok) => FinishKeepsUnfinished(q, id, other, if ok then Succeeded else Failed);
  }

  /* ---------- every run ---------- */

  lemma {:induction false} ReachableInv(concurrency: int, historyLimit: nat, events: seq<Event>)
    ensures Inv(Replay(concurrency, historyLimit, events))
  {
    if events == [] {
      assert AllWith(map[], Running) == {};
    } else {
      var q, e := Replay(concurrency, historyLimit, events[..|events| - 1]), events[|events| - 1];
      ReachableInv(concurrency, historyLimit, events[..|events| - 1]);
      match e
      case Submitted => SubmitKeepsInv(q);
      case Finished(id, ok) => FinishKeepsInv(q, id, if ok then Succeeded else Failed);
    }
  }

  /** The jobs in line are exactly the queued ones, so the two status counts are the two counters. */
  lemma CountsMatch(concurrency: int, historyLimit: nat, events: seq<Event>)
    ensures var q := Replay(concurrency, historyLimit, events);
            |AllWith(q.jobs, Queued)| == |q.waiting| && |AllWith(q.jobs, Running)| == q.running
  {
    ReachableInv(concurrency, historyLimit, events);
    var q := Replay(concurrency, historyLimit, events);
    Interval(|q.started|, q.waiting);
    assert AllWith(q.jobs, Queued) == Members(q.waiting) by {
      forall id | id in q.jobs && q.jobs[id].Queued?
        ensures id in q.waiting
      {
        assert q.waiting[id - |q.started|] == id;
      }
    }
  }

  lemma {:induction false} Interval(from: nat, line: seq<nat>)
    requires forall i | 0 <= i < |line| :: line[i] == from + i
    ensures |Members(line)| == |line|
  {
    if line == [] {
      assert Members(line) == {};
    } else {
      var rest, last := line[..|line| - 1], line[|line| - 1];
      Interval(from, rest);
      assert line == rest + [last];
      assert Members(line) == Members(rest) + {last};
    }
  }

  /**
   * The promises over any run: the bound holds, jobs wait only while it is
   * reached, the n-th job started is the n-th submitted, and only unfinished
   * jobs can hold the list above its limit.
   */
  lemma QueuePromises(concurrency: int, historyLimit: nat, events: seq<Event>)
    ensures var q := Replay(concurrency, historyLimit, events);
            && q.running <= Max(1, concurrency)
            && (q.waiting != [] ==> q.running == Max(1, concurrency))
            && (forall i | 0 <= i < |q.started| :: q.started[i] == i)
            && |q.started| + |q.waiting| == q.submitted
            && Members(q.order) == q.jobs.Keys
            && (|q.jobs| > historyLimit ==> forall id | id in q.jobs :: !Settled(q.jobs[id]))
  {
    ReachableInv(concurrency, historyLimit, events);
    LimitsAreFixed(concurrency, historyLimit, events);
  }

  lemma JoinedIsKept(q: Queue)
    requires Inv(q)
    ensures var kept, id := EvictOld(Joined(q)), q.submitted;
            && id in kept.jobs && kept.jobs[id] == Queued && kept.submitted == id + 1
            && kept.waiting == q.waiting && kept.started == q.started
            && kept.running == q.running && kept.concurrency == q.concurrency
  {
    var joined := Joined(q);
    JoinedIsListed(q);
    EvictionKeepsNewest(joined);
    UnfinishedIsKept(joined.jobs, EvictOld(joined).jobs, q.historyLimit, q.submitted);
  }

  lemma JoinedIsListed(q: Queue)
    requires Inv(q)
    ensures Listed(Joined(q).jobs, Joined(q).order, Joined(q).submitted)
  {
    AddsQueued(q.jobs, q.order, |q.started|, q.submitted);
  }

  lemma UnfinishedIsKept(jobs: map<nat, Status>, kept: map<nat, Status>, limit: nat, id: nat)
    requires KeepsNewest(jobs, kept, limit) && id in jobs && !Settled(jobs[id])
    ensures id in kept && kept[id] == jobs[id]
  {
  }

  /** A submitted job starts if there is a place, and joins the end of the line otherwise. */
  lemma SubmittingIs(q: Queue)
    requires Inv(q)
    ensures var after, id := Step(q, Submitted), q.submitted;
            && after.submitted == id + 1 && id in after.jobs
            && if q.running < q.concurrency then
                 after.jobs[id] == Running && after.started == q.started + [id]
                 && after.running == q.running + 1 && after.waiting == q.waiting
               else
                 after.jobs[id] == Queued && after.waiting == q.waiting + [id]
                 && after.started == q.started && after.running == q.running
  {
    JoinedIsKept(q);
  }

  lemma EndedIsKept(q: Queue, id: nat, outcome: Status)
    requires Inv(q) && id in q.jobs && q.jobs[id] == Running && Settled(outcome)
    ensures var kept := EvictOld(Ended(q, id, outcome));
            && (id in kept.jobs ==> kept.jobs[id] == outcome)
            && (|q.jobs| <= q.historyLimit ==> id in kept.jobs)
            && kept.waiting == q.waiting && kept.started == q.started && kept.submitted == q.submitted
            && kept.running == q.running - 1
  {
    var ended := Ended(q, id, outcome);
    EndsRunning(q.jobs, q.order, id, outcome, |q.started|, q.submitted);
    EvictionKeepsNewest(ended);
    assert ended.jobs.Keys == q.jobs.Keys && |ended.jobs| == |ended.jobs.Keys|;
  }

  /** A running job ends as it did, and gives its place to the first in line; it is forgotten only beyond the limit. */
  lemma FinishingIs(q: Queue, id: nat, ok: bool)
    requires Inv(q) && id in q.jobs && q.jobs[id] == Running
    ensures var after := Step(q, Finished(id, ok));
            && after.submitted == q.submitted
            && (id in after.jobs ==> after.jobs[id] == if ok then Succeeded else Failed)
            && (|q.jobs| <= q.historyLimit ==> id in after.jobs)
            && if q.waiting == [] then
                 after.running == q.running - 1 && after.started == q.started && after.waiting == []
               else
                 after.running == q.running && after.started == q.started + [q.waiting[0]] && after.waiting == q.waiting[1..]
  {
    EndedIsKept(q, id, if ok then Succeeded else Failed);
    if q.waiting != [] {
      assert q.jobs[id] != Queued && id < |q.started|;
      assert q.waiting[0] == |q.started|;
    }
  }

  lemma {:induction false} EvictionKeepsLimits(q: Queue)
    ensures EvictOld(q).concurrency == q.concurrency && EvictOld(q).historyLimit == q.historyLimit
    decreases |q.order|
  {
    var i := FirstSettled(q.jobs, q.order);
    if |q.jobs| > q.historyLimit && i < |q.order| {
      EvictionKeepsLimits(q.(jobs := q.jobs - {q.order[i]}, order := Without(q.order, i)));
    }
  }

  lemma {:induction false} LimitsAreFixed(concurrency: int, historyLimit: nat, events: seq<Event>)
    ensures var q := Replay(concurrency, historyLimit, events);
            q.concurrency == Max(1, concurrency) && q.historyLimit == historyLimit
  {
    if events != [] {
      var q, e := Replay(concurrency, historyLimit, events[..|events| - 1]), events[|events| - 1];
      LimitsAreFixed(concurrency, historyLimit, events[..|events| - 1]);
      match e
      case Submitted => EvictionKeepsLimits(Joined(q));
      case Finished(id, ok) => EvictionKeepsLimits(Ended(q, id, if ok then Succeeded else Failed));
    }
  }

  /* ---------- the object ---------- */

  class JobQueue {
    var jobs: map<nat, Status>
    var order: seq<nat>
    var waiting: seq<nat>
    var running: int
    var submitted: nat
    ghost var started: seq<nat>
    const concurrency: int
    const historyLimit: nat

    ghost function Now(): Queue
      reads this
    {
      Queue(jobs, order, waiting, running, started, submitted, concurrency, historyLimit)
    }

    constructor (concurrency: int, historyLimit: nat)
      ensures Now() == Initial(concurrency, historyLimit)
    {
      jobs, order, waiting, running, submitted, started := map[], [], [], 0, 0, [];
      this.concurrency := if concurrency > 1 then concurrency else 1;
      this.historyLimit := historyLimit;
    }

    method FindSettled() returns (i: nat)
      ensures i == FirstSettled(jobs, order)
    {
      i := 0;
      while i < |order|
        invariant i <= |order|
        invariant FirstSettled(jobs, order) == i + FirstSettled(jobs, order[i..])
      {
        if order[i] in jobs && Settled(jobs[order[i]]) {
          return;
        }
        assert order[i..][1..] == order[i + 1..];
        i := i + 1;
      }
    }

    method EvictOldest()
      modifies this
      ensures Now() == EvictOld(old(Now()))
    {
      while |jobs| > historyLimit
        invariant EvictOld(Now()) == EvictOld(old(Now()))
        decreases |order|
      {
        var i := FindSettled();
        if i == |order| {
          break;
        }
        jobs := jobs - {order[i]};
        order := order[..i] + order[i + 1..];
      }
    }

    method Start(id: nat)
      modifies this
      ensures Now() == Started(old(Now()), id)
    {
      running := running + 1;
      started := started + [id];
      if id in jobs {
        jobs := jobs[id := Running];
      }
    }

    method Submit() returns (id: nat)
      modifies this
      ensures Now() == Step(old(Now()), Submitted) && id == old(submitted)
    {
      id := submitted;
      submitted := submitted + 1;
      jobs := jobs[id := Queued];
      order := order + [id];
      assert Now() == Joined(old(Now()));
      EvictOldest();
      if running < concurrency {
        Start(id);
      } else {
        waiting := waiting + [id];
      }
    }

    /** What follows the work of a running job. */
    method Settle(id: nat, ok: bool)
      requires id in jobs && jobs[id].Running?
      modifies this
      ensures Now() == Step(old(Now()), Finished(id, ok))
    {
      jobs := jobs[id := if ok then Succeeded else Failed];
      running := running - 1;
      EvictOldest();
      if waiting != [] {
        var next := waiting[0];
        waiting := waiting[1..];
        Start(next);
      }
    }
  }
}
