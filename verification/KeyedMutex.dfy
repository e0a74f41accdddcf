/**
 * KeyedMutex (src/util/mutex.ts): one promise chain per key, dropped when idle.
 *
 * A call goes through four phases: it waits on its chain, runs, settles
 * (its function is done, so the next in the chain may start) and is released
 * (the `finally` callback has run). Callers are numbered as they arrive.
 */
module KeyedMutexes {
  type Key = nat
  type Caller = nat

  datatype Phase = Waiting | Running | Settled | Released

  /** An entry of the map, as it was allocated: the key it serves and its users counter. */
  datatype Entry = Entry(key: Key, users: int)

  /** A call: its key, and the entry whose chain it joined. */
  datatype Call = Call(key: Key, entry: nat, phase: Phase)

  datatype State = State(
    /** the entry of each key in use */
    locks: map<Key, nat>,
    /** every entry ever allocated */
    entries: seq<Entry>,
    /** every call ever made, in arrival order */
    calls: seq<Call>)

  const IDLE := State(map[], [], [])

  datatype Event = Arrive(key: Key) | Begin(c: Caller) | Settle(c: Caller) | Release(c: Caller)

  predicate Past(p: Phase) {
    p == Settled || p == Released
  }

  /** Everything before the call on its chain has settled. */
  predicate Unblocked(calls: seq<Call>, c: Caller)
    requires c < |calls|
  {
    forall d | 0 <= d < c && calls[d].entry == calls[c].entry :: Past(calls[d].phase)
  }

  predicate Enabled(s: State, e: Event) {
    match e
    case Arrive(_) => true
    case Begin(c) => c < |s.calls| && s.calls[c].phase == Waiting && Unblocked(s.calls, c)
    case Settle(c) => c < |s.calls| && s.calls[c].phase == Running
    case Release(c) => c < |s.calls| && s.calls[c].phase == Settled
  }

  function WithPhase(calls: seq<Call>, c: Caller, p: Phase): seq<Call>
    requires c < |calls|
  {
    calls[c := calls[c].(phase := p)]
  }

  function WithUsers(entries: seq<Entry>, h: nat, change: int): seq<Entry>
    requires h < |entries|
  {
    entries[h := entries[h].(users := entries[h].users + change)]
  }

  /** The call queues on the chain of entry h. */
  function Join(s: State, key: Key, h: nat): State
    requires h < |s.entries|
  {
    s.(entries := WithUsers(s.entries, h, 1), calls := s.calls + [Call(key, h, Waiting)])
  }

  /** A new entry, without users, for an idle key. */
  function Allocate(s: State, key: Key): State {
    s.(locks := s.locks[key := |s.entries|], entries := s.entries + [Entry(key, 0)])
  }

  /** An event that cannot happen changes nothing. */
  function Step(s: State, e: Event): State {
    if !Enabled(s, e) then s
    else match e
      case Arrive(key) =>
        if key in s.locks && s.locks[key] < |s.entries| then Join(s, key, s.locks[key])
        else Join(Allocate(s, key), key, |s.entries|)
      case Begin(c) => s.(calls := WithPhase(s.calls, c, Running))
      case Settle(c) => s.(calls := WithPhase(s.calls, c, Settled))
      case Release(c) =>
        var key, h := s.calls[c].key, s.calls[c].entry;
        if h >= |s.entries| then s
        else
          var entries := WithUsers(s.entries, h, -1);
          State(if entries[h].users == 0 && key in s.locks && s.locks[key] == h then s.locks - {key} else s.locks,
                entries, WithPhase(s.calls, c, Released))
  }

  /* ---------- the invariant ---------- */

  predicate Open(s: State, c: Caller) {
    c < |s.calls| && s.calls[c].phase != Released
  }

  /** The calls on entry h that are not released. */
  function OpenOn(calls: seq<Call>, h: nat): set<Caller> {
    set c: Caller | c < |calls| && calls[c].entry == h && calls[c].phase != Released
  }

  /** An entry counts its open calls. */
  ghost predicate Counted(s: State) {
    forall h | 0 <= h < |s.entries| :: s.entries[h].users == |OpenOn(s.calls, h)|
  }

  /** Entries and calls agree on their keys, and an open call is on its key's entry. */
  predicate Joined(s: State) {
    && (forall k | k in s.locks :: s.locks[k] < |s.entries| && s.entries[s.locks[k]].key == k)
    && (forall c | 0 <= c < |s.calls| :: s.calls[c].entry < |s.entries| && s.entries[s.calls[c].entry].key == s.calls[c].key)
    && (forall c | 0 <= c < |s.calls| && s.calls[c].phase != Released ::
          s.calls[c].key in s.locks && s.locks[s.calls[c].key] == s.calls[c].entry)
  }

  /** An entry in the map is in use. */
  predicate InUse(s: State) {
    forall k | k in s.locks :: s.locks[k] < |s.entries| && s.entries[s.locks[k]].users > 0
  }

  /** Whoever is past waiting has everyone before it on the chain settled. */
  predicate Ordered(calls: seq<Call>) {
    forall c, d | 0 <= d < c < |calls| && calls[c].entry == calls[d].entry && calls[c].phase != Waiting ::
      Past(calls[d].phase)
  }

  /** While a call is not released, every later call of its key is on the same chain. */
  predicate Followed(calls: seq<Call>) {
    forall c, d | 0 <= c < d < |calls| && calls[c].key == calls[d].key && calls[c].phase != Released ::
      calls[c].entry == calls[d].entry
  }

  ghost predicate Inv(s: State) {
    Counted(s) && Joined(s) && InUse(s) && Ordered(s.calls) && Followed(s.calls)
  }

  lemma OneMoreCall(calls: seq<Call>, call: Call, h: nat)
    requires call.phase != Released
    ensures OpenOn(calls + [call], h) == if call.entry == h then OpenOn(calls, h) + {|calls|} else OpenOn(calls, h)
  {
  }

  lemma PhaseChange(calls: seq<Call>, c: Caller, p: Phase, h: nat)
    requires c < |calls| && calls[c].phase != Released
    ensures OpenOn(WithPhase(calls, c, p), h)
         == if calls[c].entry == h && p == Released then OpenOn(calls, h) - {c} else OpenOn(calls, h)
    ensures calls[c].entry == h ==> c in OpenOn(calls, h)
  {
  }

  lemma JoinKeeps(s: State, key: Key, h: nat)
    requires Counted(s) && Joined(s) && Ordered(s.calls) && key in s.locks && s.locks[key] == h
    ensures Counted(Join(s, key, h))
  {
    var r := Join(s, key, h);
    forall g | 0 <= g < |r.entries|
      ensures r.entries[g].users == |OpenOn(r.calls, g)|
    {
      OneMoreCall(s.calls, Call(key, h, Waiting), g);
    }
  }

  lemma JoinKeepsJoined(s: State, key: Key, h: nat)
    requires Joined(s) && Ordered(s.calls) && key in s.locks && s.locks[key] == h
    ensures Joined(Join(s, key, h)) && Ordered(Join(s, key, h).calls)
  {
  }

  lemma JoinKeepsFollowed(s: State, key: Key, h: nat)
    requires Joined(s) && Followed(s.calls) && key in s.locks && s.locks[key] == h
    ensures Followed(Join(s, key, h).calls)
  {
    var calls := Join(s, key, h).calls;
    forall c: nat, d: nat | c < d < |calls| && calls[c].key == calls[d].key && calls[c].phase != Released
      ensures calls[c].entry == calls[d].entry
    {
      assert calls[c] == s.calls[c];
      if d < |s.calls| {
        assert calls[d] == s.calls[d];
      }
    }
  }

  lemma PhaseKeepsFollowed(calls: seq<Call>, c: Caller, p: Phase)
    requires Followed(calls) && c < |calls| && (calls[c].phase == Released ==> p == Released)
    ensures Followed(WithPhase(calls, c, p))
  {
  }

  lemma AllocateKeeps(s: State, key: Key)
    requires Inv(s) && key !in s.locks
    ensures Counted(Allocate(s, key)) && Joined(Allocate(s, key))
  {
    var r := Allocate(s, key);
    assert OpenOn(s.calls, |s.entries|) == {};
    assert forall c | 0 <= c < |s.calls| && s.calls[c].phase != Released :: s.calls[c].key != key;
  }

  lemma PhaseKeepsCounted(s: State, c: Caller, p: Phase)
    requires Counted(s) && Open(s, c) && p != Released
    ensures Counted(s.(calls := WithPhase(s.calls, c, p)))
  {
    forall h | 0 <= h < |s.entries|
      ensures s.entries[h].users == |OpenOn(WithPhase(s.calls, c, p), h)|
    {
      PhaseChange(s.calls, c, p, h);
    }
  }

  lemma PhaseKeepsOrdered(calls: seq<Call>, c: Caller, p: Phase)
    requires Ordered(calls) && c < |calls| && p != Waiting
    requires calls[c].phase == Waiting ==> Unblocked(calls, c)
    requires Past(calls[c].phase) ==> Past(p)
    ensures Ordered(WithPhase(calls, c, p))
  {
  }

  lemma ReleaseKeepsCounted(s: State, c: Caller)
    requires Inv(s) && Enabled(s, Release(c))
    ensures Counted(Step(s, Release(c)))
  {
    var r := Step(s, Release(c));
    forall h | 0 <= h < |r.entries|
      ensures r.entries[h].users == |OpenOn(r.calls, h)|
    {
      PhaseChange(s.calls, c, Released, h);
    }
  }

  lemma ReleaseKeepsJoined(s: State, c: Caller)
    requires Inv(s) && Enabled(s, Release(c))
    ensures Joined(Step(s, Release(c))) && InUse(Step(s, Release(c)))
  {
    ReleaseKeepsCounted(s, c);
    var r, h, key := Step(s, Release(c)), s.calls[c].entry, s.calls[c].key;
    assert r.entries[h].users == |OpenOn(r.calls, h)|;
    forall d: nat | d < |r.calls| && r.calls[d].phase != Released
      ensures r.calls[d].key in r.locks && r.locks[r.calls[d].key] == r.calls[d].entry
    {
      assert s.calls[d].phase != Released;
      if r.calls[d].key == key {
        assert d in OpenOn(r.calls, h);
      }
    }
  }

  lemma ArriveKeeps(s: State, key: Key)
    requires Inv(s)
    ensures Inv(Step(s, Arrive(key)))
  {
    if key in s.locks {
      JoinKeeps(s, key, s.locks[key]);
      JoinKeepsJoined(s, key, s.locks[key]);
      JoinKeepsFollowed(s, key, s.locks[key]);
    } else {
      AllocateKeeps(s, key);
      JoinKeeps(Allocate(s, key), key, |s.entries|);
      JoinKeepsJoined(Allocate(s, key), key, |s.entries|);
      JoinKeepsFollowed(Allocate(s, key), key, |s.entries|);
    }
  }

  lemma PhaseKeepsInv(s: State, c: Caller, p: Phase)
    requires Inv(s) && Open(s, c) && (p == Running || p == Settled)
    requires s.calls[c].phase == Waiting ==> Unblocked(s.calls, c)
    requires s.calls[c].phase == Waiting || (s.calls[c].phase == Running && p == Settled)
    ensures Inv(s.(calls := WithPhase(s.calls, c, p)))
  {
    PhaseKeepsCounted(s, c, p);
    PhaseKeepsOrdered(s.calls, c, p);
    PhaseKeepsFollowed(s.calls, c, p);
  }

  lemma ReleaseKeepsInv(s: State, c: Caller)
    requires Inv(s) && Enabled(s, Release(c))
    ensures Inv(Step(s, Release(c)))
  {
    ReleaseKeepsCounted(s, c);
    ReleaseKeepsJoined(s, c);
    PhaseKeepsOrdered(s.calls, c, Released);
    PhaseKeepsFollowed(s.calls, c, Released);
  }

  lemma StepKeepsInv(s: State, e: Event)
    requires Inv(s)
    ensures Inv(Step(s, e))
  {
    if Enabled(s, e) {
      match e {
        case Arrive(key) => ArriveKeeps(s, key);
        case Begin(c) => PhaseKeepsInv(s, c, Running);
        case Settle(c) => PhaseKeepsInv(s, c, Settled);
        case Release(c) => ReleaseKeepsInv(s, c);
      }
    }
  }

  /* ---------- every run ---------- */

  function Replay(events: seq<Event>): State {
    if events == [] then IDLE else Step(Replay(events[..|events| - 1]), events[|events| - 1])
  }

  lemma {:induction false} ReplayKeepsInv(events: seq<Event>)
    ensures Inv(Replay(events))
  {
    if events != [] {
      ReplayKeepsInv(events[..|events| - 1]);
      StepKeepsInv(Replay(events[..|events| - 1]), events[|events| - 1]);
    }
  }

  /**
   * At any time two overlapping calls for a key are on one chain, so at most
   * one of them runs, and the calls of a key run in the order they came.
   */
  lemma OneAtATime(events: seq<Event>, c: Caller, d: Caller)
    requires c < d < |Replay(events).calls| && Replay(events).calls[c].key == Replay(events).calls[d].key
    ensures var s := Replay(events);
            && (Open(s, c) && Open(s, d) ==> s.calls[c].entry == s.calls[d].entry)
            && !(s.calls[c].phase == Running && s.calls[d].phase == Running)
            && (s.calls[c].phase == Waiting ==> s.calls[d].phase == Waiting)
            && (s.calls[c].phase == Running ==> s.calls[d].phase == Waiting)
  {
    ReplayKeepsInv(events);
  }

  /** The map holds an entry exactly for the keys with a call that is not released: idle keys are dropped. */
  lemma EntriesAreOfOpenCalls(events: seq<Event>, key: Key)
    ensures key in Replay(events).locks
            <==> exists c | 0 <= c < |Replay(events).calls| :: Open(Replay(events), c) && Replay(events).calls[c].key == key
  {
    ReplayKeepsInv(events);
    var s := Replay(events);
    if key in s.locks {
      assert OpenOn(s.calls, s.locks[key]) != {};
      var c :| c in OpenOn(s.calls, s.locks[key]);
      assert Open(s, c) && s.calls[c].key == key;
    }
  }

  /** A call that arrives waits last, on the chain in use for its key, or on a new one if the key is idle. */
  lemma ArrivalJoins(events: seq<Event>, key: Key)
    ensures var s, after := Replay(events), Step(Replay(events), Arrive(key));
            && |after.calls| == |s.calls| + 1 && after.calls[..|s.calls|] == s.calls
            && var call := after.calls[|s.calls|];
               && call.key == key && call.phase == Waiting
               && key in after.locks && after.locks[key] == call.entry
               && if key in s.locks then after.locks == s.locks
                  else call.entry == |s.entries| && after.locks == s.locks[key := |s.entries|]
  {
    ReplayKeepsInv(events);
  }

  /** A waiting call can begin exactly when no earlier call of its key waits or runs. */
  lemma BeginsIff(events: seq<Event>, c: Caller)
    requires c < |Replay(events).calls| && Replay(events).calls[c].phase == Waiting
    ensures var calls := Replay(events).calls;
            Enabled(Replay(events), Begin(c))
            <==> forall d | 0 <= d < c && calls[d].key == calls[c].key :: calls[d].phase == Settled || calls[d].phase == Released
  {
    ReplayKeepsInv(events);
    var calls := Replay(events).calls;
    if d: Caller :| d < c && calls[d].key == calls[c].key && calls[d].phase != Settled && calls[d].phase != Released {
      assert calls[d].entry == calls[c].entry;
    }
  }

  /** How many steps lie between a call and its release. */
  function StepsLeft(calls: seq<Call>): nat {
    if calls == [] then 0
    else
      StepsLeft(calls[..|calls| - 1])
      + match calls[|calls| - 1].phase
        case Waiting => 3
        case Running => 2
        case Settled => 1
        case Released => 0
  }

  lemma {:induction false} OneStepLess(calls: seq<Call>, c: Caller, p: Phase)
    requires c < |calls| && calls[c].phase != Released
    requires p == match calls[c].phase case Waiting => Running case Running => Settled case _ => Released
    ensures StepsLeft(calls[c := calls[c].(phase := p)]) == StepsLeft(calls) - 1
  {
    var after, n := calls[c := calls[c].(phase := p)], |calls| - 1;
    if c == n {
      assert after[..n] == calls[..n];
    } else {
      assert after[..n] == calls[..n][c := calls[c].(phase := p)];
      OneStepLess(calls[..n], c, p);
    }
  }

  /**
   * Nobody is stuck: while a call is open, it or one before it for the same
   * key can go on, and doing so brings the call one step nearer to its
   * release, whoever arrives meanwhile.
   */
  lemma NobodyIsStuck(events: seq<Event>, c: Caller) returns (e: Event)
    requires Open(Replay(events), c)
    ensures !e.Arrive? && e.c <= c && Enabled(Replay(events), e)
    ensures Replay(events).calls[e.c].key == Replay(events).calls[c].key
    ensures var s := Replay(events);
            && |Step(s, e).calls| == |s.calls|
            && StepsLeft(Step(s, e).calls[..c + 1]) == StepsLeft(s.calls[..c + 1]) - 1
    ensures forall key :: Step(Replay(events), Arrive(key)).calls[..c + 1] == Replay(events).calls[..c + 1]
  {
    e := SomeoneGoesOn(events, c);
    ReplayKeepsInv(events);
    GoingOnIsNearer(Replay(events), e, c);
  }

  lemma GoingOnIsNearer(s: State, e: Event, c: Caller)
    requires Joined(s) && c < |s.calls| && !e.Arrive? && e.c <= c && Enabled(s, e)
    ensures |Step(s, e).calls| == |s.calls|
    ensures StepsLeft(Step(s, e).calls[..c + 1]) == StepsLeft(s.calls[..c + 1]) - 1
    ensures forall key :: Step(s, Arrive(key)).calls[..c + 1] == s.calls[..c + 1]
  {
    var p := match s.calls[e.c].phase case Waiting => Running case Running => Settled case _ => Released;
    var after := Step(s, e).calls;
    assert after == s.calls[e.c := s.calls[e.c].(phase := p)];
    assert after[..c + 1] == s.calls[..c + 1][e.c := s.calls[e.c].(phase := p)];
    OneStepLess(s.calls[..c + 1], e.c, p);
  }

  lemma SomeoneGoesOn(events: seq<Event>, c: Caller) returns (e: Event)
    requires Open(Replay(events), c)
    ensures !e.Arrive? && e.c <= c && Enabled(Replay(events), e)
    ensures Replay(events).calls[e.c].key == Replay(events).calls[c].key
    decreases c
  {
    ReplayKeepsInv(events);
    var s := Replay(events);
    match s.calls[c].phase {
      case Running => e := Settle(c);
      case Settled => e := Release(c);
      case Waiting =>
        if Unblocked(s.calls, c) {
          e := Begin(c);
        } else {
          var d: Caller :| d < c && s.calls[d].entry == s.calls[c].entry && !Past(s.calls[d].phase);
          e := SomeoneGoesOn(events, d);
        }
    }
  }

  /* ---------- the class ---------- */

  class KeyedMutex {
    var locks: map<Key, nat>
    var entries: seq<Entry>
    var calls: seq<Call>

    ghost function Now(): State
      reads this
    {
      State(locks, entries, calls)
    }

    ghost predicate Valid()
      reads this
    {
      Inv(Now())
    }

    constructor ()
      ensures Valid() && Now() == IDLE
    {
      locks, entries, calls := map[], [], [];
    }

    /** A call joins its key's chain, a new one if the key is idle. */
    method Arrive(key: Key) returns (c: Caller)
      requires Valid()
      modifies this
      ensures Valid() && Now() == Step(old(Now()), Event.Arrive(key)) && c == |old(calls)|
    {
      StepKeepsInv(Now(), Event.Arrive(key));
      c := |calls|;
      if key !in locks {
        locks, entries := locks[key := |entries|], entries + [Entry(key, 0)];
      }
      var h := locks[key];
      entries := entries[h := entries[h].(users := entries[h].users + 1)];
      calls := calls + [Call(key, h, Waiting)];
    }

    /** The callback after a call settled: the last one out drops the entry. */
    method Release(c: Caller)
      requires Valid() && Enabled(Now(), Event.Release(c))
      modifies this
      ensures Valid() && Now() == Step(old(Now()), Event.Release(c))
    {
      StepKeepsInv(Now(), Event.Release(c));
      var key, h := calls[c].key, calls[c].entry;
      entries := entries[h := entries[h].(users := entries[h].users - 1)];
      if entries[h].users == 0 && key in locks && locks[key] == h {
        locks := locks - {key};
      }
      calls := calls[c := calls[c].(phase := Released)];
    }
  }
}
