/**
 * What a statement of a reply turns out to be and what it changes, in the
 * fields of the rows it meets (resolveFact in src/pipeline/ingest.ts).
 */
module Statements {
  import opened Wrappers
  import opened Temporal
  import opened Facts
  import opened Resolution
  import opened Endings
  import opened OneValue

  /* ---------- filter and find keep the order ---------- */

  lemma {:induction false} SelectOfBoth(a: seq<nat>, b: seq<nat>, p: nat -> bool)
    ensures Select(a + b, p) == Select(a, p) + Select(b, p)
    ensures forall i: nat :: Select([i], p) == if p(i) then [i] else []
  {
    assert forall i: nat :: [i][..0] == [];
    if b == [] {
      assert a + b == a;
    } else {
      assert (a + b)[..|a + b| - 1] == a + b[..|b| - 1];
      SelectOfBoth(a, b[..|b| - 1], p);
    }
  }

  lemma {:induction false} FindIsFirst(s: seq<nat>, p: nat -> bool)
    ensures Find(s, p).Some? ==> exists n :: 0 <= n < |s| && s[n] == Find(s, p).value && forall m | 0 <= m < n :: !p(s[m])
  {
    if s != [] {
      FindIsFirst(s[1..], p);
      if p(s[0]) {
        assert s[0] == Find(s, p).value;
      } else if Find(s, p).Some? {
        var n :| 0 <= n < |s[1..]| && s[1..][n] == Find(s, p).value && forall m | 0 <= m < n :: !p(s[1..][m]);
        assert s[n + 1] == Find(s, p).value;
        assert forall m | 0 < m < n + 1 :: s[m] == s[1..][m - 1];
      }
    }
  }

  /* ---------- what the statement may meet ---------- */

  /** A statement meets exactly the facts that touch its source, stored or added by the run. */
  lemma PoolIff(ctx: Context, w: Work, c: Candidate, i: nat)
    requires LoadedInv(ctx, w)
    ensures var q := Ask(ctx, Load(ctx, w, c.src), c);
            && q.rows == w.rows
            && (i in q.pool <==> i < |w.rows| && (w.rows[i].source == c.src || w.rows[i].target == c.src))
  {
    LoadKeepsLoaded(ctx, w, c.src);
    var loaded := Load(ctx, w, c.src);
    assert i < |w.rows| && (w.rows[i].source == c.src || w.rows[i].target == c.src) ==> Touches(loaded.rows[i], c.src);
  }

  /** A record of the statement's source, relation and target that is not retracted. */
  predicate RecordOf(f: Fact, c: Candidate) {
    f.source == c.src && f.relation == c.relation && f.target == c.tgt && !IsRetracted(f)
  }

  predicate SaysSame(q: Query, f: Fact) {
    f.text == q.c.text || (f.vector.Some? && (f.vector.value, q.c.vector) in q.ctx.paraphrases)
  }

  /**
   * The record holds when the statement speaks: at its start, or, if that is
   * unknown, right before its end. A statement dated by its episode also
   * speaks of a record that ended at that very instant.
   */
  predicate HoldsThen(f: Fact, span: Span) {
    if span.validAt.Some? then
      || ((f.validAt.Some? ==> f.validAt.value <= span.validAt.value) && (f.invalidAt.Some? ==> span.validAt.value < f.invalidAt.value))
      || (span.datedByEpisode && f.invalidAt == span.validAt)
    else
      && span.invalidAt.Some?
      && (f.validAt.Some? ==> f.validAt.value < span.invalidAt.value)
      && (f.invalidAt.Some? ==> span.invalidAt.value <= f.invalidAt.value)
  }

  lemma CoveringIff(q: Query, i: nat)
    requires q.span == SpanOf(q.ctx, q.c)
    ensures q.Covering(i) <==> i < |q.rows| && RecordOf(q.rows[i], q.c) && SaysSame(q, q.rows[i]) && HoldsThen(q.rows[i], q.span)
  {
  }

  /** The relation, or a flag on the statement, says that the slot cannot hold two values; a flagged later fact says so too. */
  predicate OneValueAtATime(q: Query, f: Fact) {
    || q.c.relation == "WORKS_AT" || q.c.relation == "HAS_ROLE" || q.c.relation == "HAS_TITLE"
    || q.c.relation == "LIVES_IN" || q.c.relation == "REPORTS_TO"
    || q.c.replacesPrevious
    || (f.marks.replacesPrevious && f.validAt.Some? && q.span.validAt.Some? && q.span.validAt.value < f.validAt.value)
  }

  /**
   * Exactly which facts the judge is shown: stored ones that are true now or
   * will be, or were at the statement's start, and either connect the pair
   * without saying the same of the same relationship, or are another value of
   * a slot that holds one at a time.
   */
  lemma ShownIff(q: Query, i: nat)
    ensures q.Shown(i)
            <==> && q.span.validAt.Some? && i < q.ctx.base && i < |q.rows|
                 && var f := q.rows[i];
                    && !IsRetracted(f)
                    && !(RecordOf(f, q.c) && SaysSame(q, f))
                    && (|| (exists at :: at >= q.ctx.now && ActiveAt(f, at, q.ctx.now))
                        || ((f.validAt.Some? ==> f.validAt.value <= q.span.validAt.value)
                            && (f.invalidAt.Some? ==> q.span.validAt.value < f.invalidAt.value)))
                    && (|| (f.source == q.c.src && f.target == q.c.tgt) || (f.source == q.c.tgt && f.target == q.c.src)
                        || (f.source == q.c.src && f.relation == q.c.relation && f.target != q.c.tgt && OneValueAtATime(q, f)))
  {
    if i < |q.rows| {
      LiveIff(q.rows[i], q.ctx.now);
    }
  }

  /**
   * Exactly which records the statement restates in other words: stored ones
   * of its relationship that hold then and that it does not end, unless the
   * judge, telling restatements apart, saw the record and did not call it one.
   */
  lemma RestatesIff(q: Query, i: nat)
    requires q.span == SpanOf(q.ctx, q.c)
    ensures q.SameRelationship(i)
            <==> && i < q.ctx.base && i < |q.rows|
                 && RecordOf(q.rows[i], q.c) && !SaysSame(q, q.rows[i]) && HoldsThen(q.rows[i], q.span)
                 && i !in q.Judged().ended
                 && (q.Judged().restates.Some? && i in q.pool && q.Shown(i) ==> i in q.Judged().restates.value)
  {
  }

  /** The records that bound the new edge instead: seen, not ended and not called restated. */
  lemma AlongsideIff(q: Query, i: nat)
    requires q.span == SpanOf(q.ctx, q.c)
    ensures q.Alongside(i)
            <==> && i < q.ctx.base && i < |q.rows|
                 && RecordOf(q.rows[i], q.c) && !SaysSame(q, q.rows[i]) && HoldsThen(q.rows[i], q.span)
                 && i !in q.Judged().ended && q.Judged().restates.Some? && i in q.pool && q.Shown(i)
                 && i !in q.Judged().restates.value
  {
  }

  /* ---------- a start that moves ---------- */

  /** A record that begins after the statement. */
  predicate LaterThan(q: Query, i: nat) {
    && q.span.validAt.Some? && i < |q.rows| && RecordOf(q.rows[i], q.c)
    && q.rows[i].validAt.Some? && q.span.validAt.value < q.rows[i].validAt.value
  }

  /** The n-th of the rows is the first that begins earliest among the later records. */
  predicate FirstLater(q: Query, s: seq<nat>, n: nat) {
    && n < |s| && LaterThan(q, s[n])
    && (forall m | 0 <= m < |s| && LaterThan(q, s[m]) :: q.rows[s[n]].validAt.value <= q.rows[s[m]].validAt.value)
    && (forall m | 0 <= m < n && LaterThan(q, s[m]) :: q.rows[s[n]].validAt.value < q.rows[s[m]].validAt.value)
  }

  lemma {:induction false} NearestIs(q: Query, s: seq<nat>) returns (n: nat)
    ensures q.Nearest(s).Some? ==> FirstLater(q, s, n) && s[n] == q.Nearest(s).value
    ensures q.Nearest(s).None? ==> forall m | 0 <= m < |s| :: !LaterThan(q, s[m])
  {
    n := 0;
    if s != [] {
      var init, last := s[..|s| - 1], s[|s| - 1];
      n := NearestIs(q, init);
      assert forall m | 0 <= m < |init| :: init[m] == s[m];
      if q.Nearest(s) != q.Nearest(init) {
        n := |s| - 1;
      }
    }
  }

  lemma FirstLaterIsOne(q: Query, s: seq<nat>, n: nat, m: nat)
    requires FirstLater(q, s, n) && FirstLater(q, s, m)
    ensures n == m
  {
  }

  /** Something of the slot ended after the statement's start and by the record's. */
  predicate EndedBetween(q: Query, k: nat)
    requires k < |q.rows| && q.rows[k].validAt.Some? && q.span.validAt.Some?
  {
    exists n | 0 <= n < |q.pool| ::
      var i := q.pool[n];
      && i != k && i < |q.rows| && q.rows[i].source == q.c.src && q.rows[i].relation == q.c.relation
      && q.rows[i].invalidAt.Some?
      && q.span.validAt.value < q.rows[i].invalidAt.value && q.rows[i].invalidAt.value <= q.rows[k].validAt.value
  }

  lemma TransitionIff(q: Query, k: nat)
    requires q.LaterRecord(k)
    ensures q.Transition(k) <==> EndedBetween(q, k)
  {
    if q.Transition(k) {
      var i :| i in q.pool && i < |q.rows| && i != k && SameSlot(q.rows[i], q.c.src, q.c.relation)
        && q.rows[i].invalidAt.Some? && q.span.validAt.value < q.rows[i].invalidAt.value <= q.rows[k].validAt.value;
      var n :| 0 <= n < |q.pool| && q.pool[n] == i;
      assert q.pool[n] != k;
    }
  }

  /**
   * Exactly when the start of a record moves to the statement's: nothing says
   * the same over that time, the record is the first of the earliest later
   * ones and says the same, the text does not say it was over before, and
   * nothing of the slot ended in between.
   */
  lemma MovesStartIff(q: Query, n: nat)
    requires q.span == SpanOf(q.ctx, q.c) && FirstLater(q, q.pool, n)
    ensures var k := q.pool[n];
            && (q.Decide().MovesStart?
                <==> && (forall i | i in q.pool && i < |q.rows| ::
                           !(RecordOf(q.rows[i], q.c) && SaysSame(q, q.rows[i]) && HoldsThen(q.rows[i], q.span)))
                     && SaysSame(q, q.rows[k])
                     && !(q.span.invalidAt.Some? && q.span.invalidAt.value < q.rows[k].validAt.value)
                     && !EndedBetween(q, k))
            && (q.Decide().MovesStart? ==> q.Decide().i == k)
  {
    var m := NearestIs(q, q.pool);
    if q.Nearest(q.pool).Some? {
      FirstLaterIsOne(q, q.pool, n, m);
      TransitionIff(q, q.pool[n]);
    }
    forall i: nat
      ensures q.Covering(i) <==> i < |q.rows| && RecordOf(q.rows[i], q.c) && SaysSame(q, q.rows[i]) && HoldsThen(q.rows[i], q.span)
    {
      CoveringIff(q, i);
    }
  }

  lemma NothingLaterNothingMoves(q: Query)
    requires forall n | 0 <= n < |q.pool| :: !LaterThan(q, q.pool[n])
    ensures !q.Decide().MovesStart?
  {
    var m := NearestIs(q, q.pool);
  }

  /* ---------- what is changed ---------- */

  /** The record with the episode among its evidence, and the end the text states if it had none. */
  predicate Supported(ctx: Context, f: Fact, g: Fact, end: Option<Instant>, stored: bool, before: Option<Instant>) {
    var cited := if stored && ctx.episode.id !in f.episodes then f.(episodes := f.episodes + [ctx.episode.id]) else f;
    if end.Some? && f.invalidAt.None? && (f.validAt.Some? ==> f.validAt.value < end.value)
    then g == WithEnd(ctx, cited, end.value, stored, before)
    else g == cited
  }

  lemma ReinforcedIs(ctx: Context, w: Work, i: nat, end: Option<Instant>)
    requires i < |w.rows|
    ensures var r := Reinforce(ctx, w, i, end);
            && OnlyRow(w, r, i) && Supported(ctx, w.rows[i], r.rows[i], end, i < ctx.base, Before(w, i))
            && r.dirty == (if i < ctx.base then w.dirty + {i} else w.dirty)
            && (forall k :: k in r.reinforced <==> k in w.reinforced || (k == i && i < ctx.base))
  {
  }

  /** A record that the statement is evidence for: nothing else changes. */
  lemma EvidenceIs(ctx: Context, w: Work, c: Candidate, k: nat)
    requires Ask(ctx, Load(ctx, w, c.src), c).Decide() == Reinforces(k)
    ensures k < |w.rows|
    ensures var r := ResolveFact(ctx, w, c);
            && OnlyRow(w, r, k) && Supported(ctx, w.rows[k], r.rows[k], SpanOf(ctx, c).invalidAt, k < ctx.base, Before(w, k))
  {
    ReinforcedIs(ctx, Load(ctx, w, c.src), k, SpanOf(ctx, c).invalidAt);
  }

  /** The episode was written within a day of its date, and the statement has no other date. */
  predicate WrittenThen(ctx: Context, span: Span) {
    && span.datedByEpisode
    && -86_400_000 < ctx.episode.validAt - ctx.episode.createdAt && ctx.episode.validAt - ctx.episode.createdAt < 86_400_000
  }

  /** The record whose start moves: it begins where the statement does, and gains the evidence. */
  lemma MovedIs(ctx: Context, w: Work, c: Candidate, k: nat)
    requires Ask(ctx, Load(ctx, w, c.src), c).Decide() == MovesStart(k)
    ensures k < |w.rows|
    ensures var r, span := ResolveFact(ctx, w, c), SpanOf(ctx, c);
            var f := w.rows[k];
            && OnlyRow(w, r, k)
            && Supported(ctx, f.(validAt := span.validAt, marks := f.marks.(startFromEpisode := WrittenThen(ctx, span))), r.rows[k],
                         span.invalidAt, k < ctx.base, Before(w, k))
  {
    MovedResult(ctx, w, c, k);
    MoveIs(ctx, Load(ctx, w, c.src), k, SpanOf(ctx, c));
  }

  lemma MovedResult(ctx: Context, w: Work, c: Candidate, k: nat)
    requires Ask(ctx, Load(ctx, w, c.src), c).Decide() == MovesStart(k)
    ensures var loaded, span := Load(ctx, w, c.src), SpanOf(ctx, c);
            && k < |w.rows| && loaded.rows == w.rows && loaded.invalidated == w.invalidated
            && ResolveFact(ctx, w, c)
               == Reinforce(ctx, MoveStart(loaded, k, span.validAt, StartFromEpisode(ctx, span)), k, span.invalidAt)
  {
  }

  lemma MoveIs(ctx: Context, w: Work, k: nat, span: Span)
    requires k < |w.rows|
    ensures var r := Reinforce(ctx, MoveStart(w, k, span.validAt, StartFromEpisode(ctx, span)), k, span.invalidAt);
            var f := w.rows[k];
            && OnlyRow(w, r, k)
            && Supported(ctx, f.(validAt := span.validAt, marks := f.marks.(startFromEpisode := WrittenThen(ctx, span))), r.rows[k],
                         span.invalidAt, k < ctx.base, Before(w, k))
  {
    ReinforcedIs(ctx, MoveStart(w, k, span.validAt, StartFromEpisode(ctx, span)), k, span.invalidAt);
  }

  /** A row that the verdict ends, once the change at `at` is applied. */
  function AfterVerdict(ctx: Context, f: Fact, at: Instant, stored: bool, before: Option<Instant>): Fact {
    if (f.validAt.Some? && at < f.validAt.value) || (f.invalidAt.Some? && f.invalidAt.value <= at) then f
    else if f.validAt == Some(at) then
      var end := if ctx.episode.validAt > at then ctx.episode.validAt else at + 1;
      if f.invalidAt.Some? && f.invalidAt.value <= end then f else WithEnd(ctx, f, end, stored, before)
    else WithEnd(ctx, f, at, stored, before)
  }

  /** Ending one row: nothing happens to it, or it gets its end; the others stay. */
  lemma ClosedOne(ctx: Context, w: Work, i: nat, at: Instant)
    requires i < |w.rows|
    ensures var e := EndFor(ctx.episode, w.rows[i], at);
            var r := if e.None? then w else Close(ctx, w, i, e.value);
            && OnlyRow(w, r, i) && r.rows[i] == AfterVerdict(ctx, w.rows[i], at, i < ctx.base, Before(w, i))
  {
    if EndFor(ctx.episode, w.rows[i], at).Some? {
      CloseIs(ctx, w, i, EndFor(ctx.episode, w.rows[i], at).value);
    }
  }

  lemma ClosedStep(ctx: Context, w: Work, init: seq<nat>, last: nat, at: Instant)
    ensures var r := CloseEnded(ctx, w, init, at);
            CloseEnded(ctx, w, init + [last], at)
            == if last >= |r.rows| || EndFor(ctx.episode, r.rows[last], at).None? then r
               else Close(ctx, r, last, EndFor(ctx.episode, r.rows[last], at).value)
  {
    assert (init + [last])[..|init|] == init;
  }

  lemma VerdictIsFinal(ctx: Context, f: Fact, at: Instant, stored: bool, before: Option<Instant>, later: Option<Instant>)
    ensures var g := AfterVerdict(ctx, f, at, stored, before); AfterVerdict(ctx, g, at, stored, later) == g
  {
  }

  lemma {:induction false} ClosedAre(ctx: Context, w: Work, ended: seq<nat>, at: Instant, i: nat)
    requires i < |w.rows|
    ensures var r := CloseEnded(ctx, w, ended, at);
            && |r.rows| == |w.rows|
            && r.rows[i] == (if i in ended then AfterVerdict(ctx, w.rows[i], at, i < ctx.base, Before(w, i)) else w.rows[i])
            && (i !in ended ==> (i in r.invalidated <==> i in w.invalidated))
  {
    if ended != [] {
      var init, last := ended[..|ended| - 1], ended[|ended| - 1];
      assert ended == init + [last];
      ClosedAre(ctx, w, init, at, i);
      var r := CloseEnded(ctx, w, init, at);
      ClosedStep(ctx, w, init, last, at);
      if last < |r.rows| {
        ClosedOne(ctx, r, last, at);
        VerdictIsFinal(ctx, w.rows[i], at, i < ctx.base, Before(w, i), Before(r, i));
      }
    }
  }

  /** The edge a statement adds, and what becomes of the facts the verdict ends: every other row stays. */
  lemma AddedIs(ctx: Context, w: Work, c: Candidate, end: Option<Instant>, ended: seq<nat>, i: nat)
    requires Ask(ctx, Load(ctx, w, c.src), c).Decide() == Inserts(end, ended) && i < |w.rows|
    ensures ended != [] ==> SpanOf(ctx, c).validAt.Some?
    ensures var r, span := ResolveFact(ctx, w, c), SpanOf(ctx, c);
            && |r.rows| == |w.rows| + 1
            && r.rows[|w.rows|] == Fact(c.src, c.tgt, c.relation, c.text, Some(c.vector), [ctx.episode.id],
                                        span.validAt, end, ctx.now, None,
                                        Marks(None, None, false, WrittenThen(ctx, span), c.replacesPrevious, None, None))
            && r.rows[i] == if i in ended then AfterVerdict(ctx, w.rows[i], span.validAt.value, i < ctx.base, Before(w, i)) else w.rows[i]
  {
    assert ended != [] ==> ended[0] in ended;
    var loaded, span := Load(ctx, w, c.src), SpanOf(ctx, c);
    if ended != [] {
      ClosedAre(ctx, loaded, ended, span.validAt.value, i);
    }
  }
}
