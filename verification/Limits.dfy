/**
 * Where the fact engine's promises stop: concrete stores and replies on which
 * they fail, and exactly when they do.
 */
module Limits {
  import opened Wrappers
  import opened Temporal
  import opened Facts
  import opened Resolution
  import opened RunInvariant
  import opened Evidence
  import opened History
  import opened OneValue

  /* ---------- an edge that is empty from the start ---------- */

  /** A record the judge lets stand alongside the statement ended exactly at its start. */
  predicate EndsAtStart(q: Query, i: nat) {
    q.Alongside(i) && q.rows[i].invalidAt == q.span.validAt
  }

  /** Nothing else that bounds a new edge does so by its start. */
  lemma BoundByStart(q: Query, t: Instant)
    requires q.span == SpanOf(q.ctx, q.c) && q.span.validAt.Some? && Bounds(q, t) && t <= q.span.validAt.value
    ensures exists i :: i in q.pool && EndsAtStart(q, i)
  {
    assert q.span.invalidAt != Some(t) && !StartOfLater(q, t);
    assert !EndedBound(q, q.Judged().ended, t);
    var i :| i in q.pool && q.Alongside(i) && q.rows[i].invalidAt == Some(t);
    assert q.Holds(i);
  }

  /**
   * Exactly when a new edge is empty: its start is known, and a record that
   * stands alongside it ends at that very start.
   */
  lemma NewEdgeIsEmptyIff(ctx: Context, w: Work, c: Candidate)
    requires Ask(ctx, w, c).Decide().Inserts?
    ensures var q := Ask(ctx, w, c);
            IsRetracted(NewEdge(ctx, c, q.span, q.Decide().end))
            <==> q.span.validAt.Some? && exists i :: i in q.pool && EndsAtStart(q, i)
  {
    var q := Ask(ctx, w, c);
    if q.span.validAt.None? {
      UnknownStartEndsNothing(q);
    } else {
      KnownStartIsEmptyIff(q);
    }
  }

  lemma KnownStartIsEmptyIff(q: Query)
    requires q.Decide().Inserts? && q.span == SpanOf(q.ctx, q.c) && q.span.validAt.Some?
    ensures q.Decide().end.Some? && q.Decide().end.value <= q.span.validAt.value
            <==> exists i :: i in q.pool && EndsAtStart(q, i)
  {
    var start := q.span.validAt.value;
    EndIsEarliestBound(q, start);
    if q.Decide().end.Some? && q.Decide().end.value <= start {
      BoundByStart(q, q.Decide().end.value);
    }
    if i :| i in q.pool && EndsAtStart(q, i) {
      assert EndOfAlongside(q, start);
    }
  }

  /* ---------- small runs ---------- */

  function Told(stored: seq<Fact>, run: RunInput): Statement
    requires |run.plans| == 1
  {
    Statement(ContextOf(run, |stored|), stored, Start(stored), run.plans[0])
  }

  lemma OnlyPlans(run: RunInput, stored: seq<Fact>)
    requires run.invalidations == [] && run.reembedded == map[]
    ensures var ctx := ContextOf(run, |stored|);
            Execute(run, stored).rows == ResolveFacts(ctx, Start(stored), CollapseRepeats(ctx, run.plans)).rows
  {
    var ctx := ContextOf(run, |stored|);
    var resolved := ResolveFacts(ctx, Start(stored), CollapseRepeats(ctx, run.plans));
    assert Repair(ctx, resolved).rows == resolved.rows;
  }

  /** A run whose reply is one fact does what that statement does. */
  lemma OnePlanRun(run: RunInput, stored: seq<Fact>)
    requires |run.plans| == 1 && run.invalidations == [] && run.reembedded == map[]
    ensures Execute(run, stored).rows == Told(stored, run).Resolved()
  {
    var ctx, c, w := ContextOf(run, |stored|), run.plans[0], Start(stored);
    OnlyPlans(run, stored);
    assert run.plans == [c] && [c][..0] == [];
    assert CollapseRepeats(ctx, []) == [] && CollapseRepeats(ctx, [c]) == [c];
    assert ResolveFacts(ctx, w, []) == w;
  }

  /** Where no record has the statement's target, the statement adds an edge. */
  lemma OtherTargetInserts(q: Query)
    requires forall i | i in q.pool && i < |q.rows| :: q.rows[i].target != q.c.tgt
    ensures q.Decide() == Inserts(q.EndAfter(q.Judged().ended), q.Judged().ended)
    ensures q.EndAfter([]) == q.span.invalidAt
  {
    NoneSelected(q.pool, (i: nat) => q.Alongside(i));
  }

  /** The edge of a statement that ends and is ended by nothing. */
  function Edge(ctx: Context, c: Candidate): Fact {
    NewEdge(ctx, c, SpanOf(ctx, c), SpanOf(ctx, c).invalidAt)
  }

  /** In a group without facts, nothing is there to be ended. */
  lemma NewGroupInserts(ctx: Context, w: Work, c: Candidate)
    requires ctx.base == 0 && forall i | 0 <= i < |w.rows| :: w.rows[i].target != c.tgt
    ensures ResolveFact(ctx, w, c).rows == w.rows + [Edge(ctx, c)]
  {
    var q := Ask(ctx, Load(ctx, w, c.src), c);
    NoneSelected(q.pool, (i: nat) => q.Shown(i));
    OtherTargetInserts(q);
  }

  /** What a run at 10 told of one fact, from a document of that day. */
  function Learned(relation: string, target: Id, text: string, start: Instant, end: Option<Instant>): RunInput {
    RunInput(Episode(7, 5, 5), 10, {}, {}, map[], map[],
             [Candidate(1, target, relation, text, 0, Some(start), end, false, Nothing)], [])
  }

  lemma LearnedIs(relation: string, target: Id, text: string, start: Instant, end: Option<Instant>)
    requires end.Some? ==> start < end.value
    ensures Execute(Learned(relation, target, text, start, end), []).rows
            == [Fact(1, target, relation, text, Some(0), [7], Some(start), end, 10, None, NO_MARKS)]
  {
    var run := Learned(relation, target, text, start, end);
    OnePlanRun(run, []);
    NewGroupInserts(ContextOf(run, 0), Start([]), run.plans[0]);
  }

  lemma ReplayTwo(first: Op, second: Op)
    ensures Replay([], [first, second]) == Apply(Apply([], first), second)
  {
    assert [first, second][..1] == [first] && [first][..0] == [];
    assert Replay([], []) == [];
    assert Replay([], [first]) == Apply([], first);
  }

  /* ---------- an edge that is empty from the start, reached ---------- */

  const FIRST_NOTE := Learned("EVALUATED_ON", 2, "first job", 0, Some(500))

  const FIRST_NOTED := [Fact(1, 2, "EVALUATED_ON", "first job", Some(0), [7], Some(0), Some(500), 10, None, NO_MARKS)]

  /** A document dated after the clock, with a fact it does not date; the judge neither ends the old record nor calls it restated. */
  const FUTURE_NOTE := RunInput(
    Episode(9, 500, 100), 100, {}, {}, map[], map[],
    [Candidate(1, 2, "EVALUATED_ON", "second job", 0, None, None, false, Verdict([], Some([])))], [])

  /** A query over the one record, whatever the context. */
  lemma FutureNoteInserts(q: Query)
    requires q.pool == [0] && q.rows == FIRST_NOTED && q.c == FUTURE_NOTE.plans[0] && q.ctx.base == 1 && q.ctx.now == 100
    requires q.span == Span(Some(500), None, true) && q.ctx.paraphrases == {}
    ensures q.Decide().Inserts? && q.Judged().ended == [] && EndsAtStart(q, 0)
  {
    assert !q.Covering(0) && !q.LaterRecord(0) && q.Restated(0) && q.Shown(0);
    assert 0 in q.ShownList();
    assert q.Judged().restates == Some([]) && q.Judged().ended == [];
    assert q.Alongside(0) && !q.SameRelationship(0);
  }

  lemma OneIsMet(facts: seq<Fact>, entity: Id)
    requires |facts| == 1 && Touches(facts[0], entity)
    ensures Listed(map[], facts, entity, 1) == [0] && NotLoaded([0], []) == [0] && Select([0], PoolTest(facts, entity)) == [0]
  {
    assert Listed(map[], facts, entity, 0) == [] && NotLoaded([], []) == [];
    assert [0][..0] == [] && Select([], PoolTest(facts, entity)) == [];
  }

  lemma FutureNoteIsMet()
    ensures var q := Told(FIRST_NOTED, FUTURE_NOTE).Asked();
            q.pool == [0] && q.Decide().Inserts? && q.Judged().ended == [] && EndsAtStart(q, 0) && q.span.validAt.Some?
  {
    var s := Told(FIRST_NOTED, FUTURE_NOTE);
    OneIsMet(FIRST_NOTED, 1);
    assert s.Loaded().loaded == [0];
    FutureNoteInserts(s.Asked());
  }

  lemma EmptyEdgeIsAdded(s: Statement, i: nat)
    requires s.Asked().Decide().Inserts? && s.Asked().Judged().ended == []
    requires i in s.Asked().pool && EndsAtStart(s.Asked(), i) && s.Asked().span.validAt.Some?
    ensures var rows := s.Resolved();
            |rows| == |s.w.rows| + 1 && IsRetracted(rows[|s.w.rows|]) && rows[|s.w.rows|].expiredAt.None?
  {
    NewEdgeIsEmptyIff(s.ctx, s.Loaded(), s.c);
  }

  /**
   * It happens: a record is to end at 500, and at 100 a document dated 500
   * tells of another job alongside. Its edge is empty, and not even withdrawn.
   */
  lemma FutureNoteVanishes()
    ensures var rows := Replay([], [Ingest(FIRST_NOTE), Ingest(FUTURE_NOTE)]);
            |rows| == 2 && IsRetracted(rows[1]) && rows[1].expiredAt.None?
  {
    ReplayTwo(Ingest(FIRST_NOTE), Ingest(FUTURE_NOTE));
    LearnedIs("EVALUATED_ON", 2, "first job", 0, Some(500));
    OnePlanRun(FUTURE_NOTE, FIRST_NOTED);
    FutureNoteIsMet();
    EmptyEdgeIsAdded(Told(FIRST_NOTED, FUTURE_NOTE), 0);
  }

  /* ---------- two current values, reached ---------- */

  /** At 100 a document of that day tells that Alice works at 11, and the judge ends whatever it is shown. */
  function Moving(start: Instant, end: Option<Instant>): RunInput {
    RunInput(Episode(9, 100, 100), 100, {}, {}, map[], map[],
             [Candidate(1, 11, "WORKS_AT", "works at eleven", 0, Some(start), end, false, Everything)], [])
  }

  /** The judge that ends everything ends what it is shown. */
  lemma EverythingEndsAll(q: Query)
    requires q.c.answer == Everything
    ensures forall i | i in q.ShownList() :: i in q.Judged().ended
  {
  }

  lemma MovingIsValid(stored: seq<Fact>, start: Instant, end: Option<Instant>)
    requires StoreOk(stored, 100)
    ensures Told(stored, Moving(start, end)).Valid()
  {
    var s := Told(stored, Moving(start, end));
    assert WorkInv(s.ctx, s.stored, s.w) && LoadedInv(s.ctx, s.w) && s.AloneInSlot() && s.DatedInTime();
    EverythingEndsAll(s.Asked());
  }

  /** Two rows of the history's end are Alice's employer at 100. */
  predicate TwoEmployers(ops: seq<Op>) {
    var rows := Replay([], ops);
    exists i, j | 0 <= i < j < |rows| :: EmployerAt100(rows[i]) && EmployerAt100(rows[j])
  }

  predicate EmployerAt100(f: Fact) {
    SameSlot(f, 1, "WORKS_AT") && ActiveAt(f, 100, 100)
  }

  lemma MovingCollides(first: RunInput, stored: seq<Fact>, start: Instant, end: Option<Instant>)
    requires Execute(first, []).rows == stored && StoreOk(stored, 100)
    requires var s := Told(stored, Moving(start, end));
             AtMostOne(s.ctx, s.w.rows, s.c) && (Collides(s) || StartsTogether(s) || EndsAhead(s))
    ensures TwoEmployers([Ingest(first), Ingest(Moving(start, end))])
  {
    var run := Moving(start, end);
    ReplayTwo(Ingest(first), Ingest(run));
    OnePlanRun(run, stored);
    MovingIsValid(stored, start, end);
    CollidingLeavesTwo(Told(stored, run));
  }

  lemma CollidingLeavesTwo(s: Statement)
    requires s.Valid() && s.c.src == 1 && s.c.relation == "WORKS_AT" && s.ctx.now == 100
    requires AtMostOne(s.ctx, s.w.rows, s.c) && (Collides(s) || StartsTogether(s) || EndsAhead(s))
    ensures exists i, j | 0 <= i < j < |s.Resolved()| :: EmployerAt100(s.Resolved()[i]) && EmployerAt100(s.Resolved()[j])
  {
    OneValueIff(s);
    TwoAreCurrent(s, s.Resolved());
  }

  lemma TwoAreCurrent(s: Statement, rows: seq<Fact>)
    requires s.c.src == 1 && s.c.relation == "WORKS_AT" && s.ctx.now == 100 && !AtMostOne(s.ctx, rows, s.c)
    ensures exists i, j | 0 <= i < j < |rows| :: EmployerAt100(rows[i]) && EmployerAt100(rows[j])
  {
    var i, j :| 0 <= i < |rows| && 0 <= j < |rows| && Current(s.ctx, rows, i, s.c) && Current(s.ctx, rows, j, s.c) && i != j;
    assert EmployerAt100(rows[i]) && EmployerAt100(rows[j]);
  }

  const EMPLOYED := Fact(1, 10, "WORKS_AT", "works at ten", Some(0), [7], Some(0), None, 10, None, NO_MARKS)

  /** The record is current, and the statement adds an edge beside it. */
  lemma EmployedMoves(stored: seq<Fact>, since: Instant, start: Instant, end: Option<Instant>)
    requires stored == [EMPLOYED.(validAt := Some(since))] && since <= 100
    ensures var s := Told(stored, Moving(start, end));
            && s.Asked().Decide().Inserts? && s.Asked().span == Window(Episode(9, 100, 100), Some(start), end)
            && Current(s.ctx, s.w.rows, 0, s.c) && AtMostOne(s.ctx, s.w.rows, s.c)
  {
    OtherTargetInserts(Told(stored, Moving(start, end)).Asked());
  }

  lemma FirstEmployer(since: Instant)
    ensures Execute(Learned("WORKS_AT", 10, "works at ten", since, None), []).rows == [EMPLOYED.(validAt := Some(since))]
    ensures since <= 100 ==> StoreOk([EMPLOYED.(validAt := Some(since))], 100)
  {
    LearnedIs("WORKS_AT", 10, "works at ten", since, None);
  }

  lemma EmployedCollides(since: Instant, start: Instant, end: Option<Instant>)
    requires since <= 100
    requires var s := Told([EMPLOYED.(validAt := Some(since))], Moving(start, end)); StartsTogether(s) || EndsAhead(s)
    ensures TwoEmployers([Ingest(Learned("WORKS_AT", 10, "works at ten", since, None)), Ingest(Moving(start, end))])
  {
    var stored := [EMPLOYED.(validAt := Some(since))];
    FirstEmployer(since);
    EmployedMoves(stored, since, start, end);
    MovingCollides(Learned("WORKS_AT", 10, "works at ten", since, None), stored, start, end);
  }

  /** Both statements name the clock's own instant as their start: the older edge can only be ended after it. */
  lemma StartsTogetherHappens()
    ensures TwoEmployers([Ingest(Learned("WORKS_AT", 10, "works at ten", 100, None)), Ingest(Moving(100, None))])
  {
    EmployedMoves([EMPLOYED.(validAt := Some(100))], 100, 100, None);
    EmployedCollides(100, 100, None);
  }

  /** A stated start after the stated end is dropped, so the edge holds until its end and ends nothing. */
  lemma EndsAheadHappens()
    ensures TwoEmployers([Ingest(Learned("WORKS_AT", 10, "works at ten", 0, None)), Ingest(Moving(300, Some(200)))])
  {
    EmployedMoves([EMPLOYED.(validAt := Some(0))], 0, 300, Some(200));
    assert Window(Episode(9, 100, 100), Some(300), Some(200)) == Span(None, Some(200), false);
    EmployedCollides(0, 300, Some(200));
  }

  /** Alice works at 10 and will work at 11 from 200 on. */
  const BOTH_LEARNED := RunInput(
    Episode(7, 5, 5), 10, {}, {}, map[], map[],
    [Candidate(1, 10, "WORKS_AT", "works at ten", 0, Some(0), None, false, Nothing),
     Candidate(1, 11, "WORKS_AT", "works at eleven", 0, Some(200), None, false, Nothing)], [])

  const SCHEDULED := [EMPLOYED, EMPLOYED.(target := 11, text := "works at eleven", validAt := Some(200))]

  lemma CollapseTwo(ctx: Context, a: Candidate, b: Candidate)
    requires a.tgt != b.tgt
    ensures CollapseRepeats(ctx, [a, b]) == [a, b]
  {
    assert [a, b][..1] == [a] && [a][..0] == [];
    assert CollapseRepeats(ctx, []) == [] && CollapseRepeats(ctx, [a]) == [a];
  }

  lemma ResolveTwo(ctx: Context, w: Work, a: Candidate, b: Candidate)
    ensures ResolveFacts(ctx, w, [a, b]) == ResolveFact(ctx, ResolveFact(ctx, w, a), b)
  {
    assert [a, b][..1] == [a] && [a][..0] == [];
    assert ResolveFacts(ctx, w, []) == w && ResolveFacts(ctx, w, [a]) == ResolveFact(ctx, w, a);
  }

  /** A run over an empty group whose two plans have different targets adds both. */
  lemma TwoPlanRun(run: RunInput, a: Candidate, b: Candidate)
    requires run.plans == [a, b] && a.tgt != b.tgt && run.invalidations == [] && run.reembedded == map[]
    ensures Execute(run, []).rows == [Edge(ContextOf(run, 0), a), Edge(ContextOf(run, 0), b)]
  {
    var ctx, w := ContextOf(run, 0), Start([]);
    OnlyPlans(run, []);
    CollapseTwo(ctx, a, b);
    ResolveTwo(ctx, w, a, b);
    NewGroupInserts(ctx, w, a);
    AddedNext(ctx, ResolveFact(ctx, w, a), Edge(ctx, a), b);
  }

  lemma AddedNext(ctx: Context, w: Work, f: Fact, c: Candidate)
    requires ctx.base == 0 && w.rows == [f] && f.target != c.tgt
    ensures ResolveFact(ctx, w, c).rows == [f, Edge(ctx, c)]
  {
    NewGroupInserts(ctx, w, c);
  }

  lemma BothLearnedAre()
    ensures Execute(BOTH_LEARNED, []).rows == SCHEDULED && StoreOk(SCHEDULED, 100)
  {
    TwoPlanRun(BOTH_LEARNED, BOTH_LEARNED.plans[0], BOTH_LEARNED.plans[1]);
  }

  /** A query over the two records, whatever the context. */
  lemma MovesScheduled(q: Query)
    requires q.pool == [0, 1] && q.rows == SCHEDULED && q.c == Moving(50, None).plans[0]
    requires q.span == Span(Some(50), None, false)
    ensures q.Decide() == MovesStart(1)
  {
    assert !q.Covering(0) && !q.Covering(1);
    assert !q.LaterRecord(0) && q.LaterRecord(1);
    assert q.Nearest(q.pool) == Some(1);
    assert !q.Transition(1);
  }

  lemma BothAreListed(facts: seq<Fact>, entity: Id)
    requires |facts| == 2 && Touches(facts[0], entity) && Touches(facts[1], entity)
    ensures Listed(map[], facts, entity, 2) == [0, 1]
  {
    assert Listed(map[], facts, entity, 0) == [];
    assert Listed(map[], facts, entity, 1) == [0];
    assert Placed(map[], entity, 1, [0]) == [0, 1];
  }

  lemma BothAreNew()
    ensures NotLoaded([0, 1], []) == [0, 1]
  {
    assert [0, 1][..1] == [0] && [0][..0] == [];
    assert NotLoaded([], []) == [];
    assert NotLoaded([0], []) == [0];
  }

  lemma BothAreLoaded(ctx: Context, facts: seq<Fact>, entity: Id)
    requires |facts| == 2 == ctx.base && Touches(facts[0], entity) && Touches(facts[1], entity) && ctx.listing == map[]
    ensures Load(ctx, Start(facts), entity).loaded == [0, 1]
  {
    BothAreListed(facts, entity);
    BothAreNew();
  }

  lemma BothAreMet(facts: seq<Fact>, entity: Id)
    requires |facts| == 2 && Touches(facts[0], entity) && Touches(facts[1], entity)
    ensures Select([0, 1], PoolTest(facts, entity)) == [0, 1]
  {
    var test := PoolTest(facts, entity);
    assert [0, 1][..1] == [0] && [0][..0] == [];
    assert Select([], test) == [];
    assert Select([0], test) == [0];
  }

  lemma ScheduledIsMoved()
    ensures Told(SCHEDULED, Moving(50, None)).Asked().Decide() == MovesStart(1)
  {
    var s := Told(SCHEDULED, Moving(50, None));
    BothAreLoaded(s.ctx, SCHEDULED, 1);
    BothAreMet(SCHEDULED, 1);
    MovesScheduled(s.Asked());
  }

  lemma ScheduledCollides()
    ensures var s := Told(SCHEDULED, Moving(50, None));
            AtMostOne(s.ctx, s.w.rows, s.c) && Collides(s)
  {
    var s := Told(SCHEDULED, Moving(50, None));
    ScheduledIsMoved();
    assert !Current(s.ctx, s.w.rows, 1, s.c);
    assert BringsForward(s, 1) && Current(s.ctx, s.w.rows, 0, s.c);
  }

  /**
   * At 100 a document says she has worked at 11 since 50: the scheduled
   * record is brought forward, nothing is asked about the other employer, and
   * both are current.
   */
  lemma ScheduledValueCollides()
    ensures TwoEmployers([Ingest(BOTH_LEARNED), Ingest(Moving(50, None))])
  {
    BothLearnedAre();
    ScheduledCollides();
    MovingCollides(BOTH_LEARNED, SCHEDULED, 50, None);
  }
}
