/**
 * What one statement, one invalidation and one repeated sentence of a reply
 * amount to: evidence for what is there, an end, or nothing.
 */
module Evidence {
  import opened Wrappers
  import opened Temporal
  import opened Facts
  import opened Resolution
  import opened OneValue

  /* ---------- what a statement turns out to be ---------- */

  /**
   * Exactly which of the three a statement is: evidence for a record that
   * covers it or restates it, earlier evidence for the nearest later record,
   * or else a new edge with the verdict's endings.
   */
  lemma DecisionIff(q: Query)
    ensures var later, d := q.Nearest(q.pool), q.Decide();
            && (d.MovesStart? <==> (forall i | i in q.pool :: !q.Covering(i)) && later.Some? && q.StartsEarlier(later.value))
            && (d.MovesStart? ==> d.i == later.value)
            && (d.Inserts? <==> (forall i | i in q.pool :: !q.Covering(i) && !q.SameRelationship(i))
                                && !(later.Some? && q.StartsEarlier(later.value)))
            && (d.Inserts? ==> d.ended == q.Judged().ended)
            && (d.Reinforces? ==> d.i in q.pool && (q.Covering(d.i) || q.SameRelationship(d.i)))
  {
  }

  /** How ending record i bounds the new edge: by the start of a newer fact, or by an end of its own that is yet to come. */
  function BoundOfEnded(q: Query, i: nat): Option<Instant> {
    if i >= |q.rows| || q.span.validAt.None? then None
    else if q.rows[i].validAt.Some? && q.rows[i].validAt.value > q.span.validAt.value then q.rows[i].validAt
    else if EndFor(q.ctx.episode, q.rows[i], q.span.validAt.value).None? then None
    else q.rows[i].invalidAt
  }

  predicate EndedBound(q: Query, s: seq<nat>, t: Instant) {
    exists i :: i in s && BoundOfEnded(q, i) == Some(t)
  }

  predicate EndOfOne(q: Query, s: seq<nat>, t: Instant) {
    exists i :: i in s && i < |q.rows| && q.rows[i].invalidAt == Some(t)
  }

  predicate StartOfLater(q: Query, t: Instant) {
    exists i :: i in q.pool && q.LaterRecord(i) && q.rows[i].validAt == Some(t)
  }

  predicate EndOfAlongside(q: Query, t: Instant) {
    exists i :: i in q.pool && q.Alongside(i) && q.rows[i].invalidAt == Some(t)
  }

  /** Everything the end of a new edge must respect. */
  predicate Bounds(q: Query, t: Instant) {
    q.span.invalidAt == Some(t) || StartOfLater(q, t) || EndOfAlongside(q, t) || EndedBound(q, q.Judged().ended, t)
  }

  lemma EndedBoundOfMore(q: Query, init: seq<nat>, i: nat, t: Instant)
    ensures EndedBound(q, init + [i], t) <==> EndedBound(q, init, t) || BoundOfEnded(q, i) == Some(t)
  {
    if EndedBound(q, init, t) {
      var k :| k in init && BoundOfEnded(q, k) == Some(t);
      assert k in init + [i];
    }
    assert i in init + [i];
  }

  lemma EndOfMore(q: Query, init: seq<nat>, i: nat, t: Instant)
    ensures EndOfOne(q, init + [i], t) <==> EndOfOne(q, init, t) || (i < |q.rows| && q.rows[i].invalidAt == Some(t))
  {
    if EndOfOne(q, init, t) {
      var k :| k in init && k < |q.rows| && q.rows[k].invalidAt == Some(t);
      assert k in init + [i];
    }
    assert i in init + [i];
  }

  predicate AlongsideBound(q: Query, s: seq<nat>, t: Instant) {
    q.span.invalidAt == Some(t) || q.LaterStart() == Some(t) || EndOfOne(q, s, t)
  }

  lemma {:induction false} EndAlongsideIs(q: Query, s: seq<nat>, t: Instant)
    ensures q.EndAlongside(s).Some? ==> AlongsideBound(q, s, q.EndAlongside(s).value)
    ensures AlongsideBound(q, s, t) ==> q.EndAlongside(s).Some? && q.EndAlongside(s).value <= t
  {
    if s != [] {
      var init, i := s[..|s| - 1], s[|s| - 1];
      assert s == init + [i];
      EndAlongsideIs(q, init, t);
      EndOfMore(q, init, i, t);
      if q.EndAlongside(s).Some? {
        EndOfMore(q, init, i, q.EndAlongside(s).value);
      }
    }
  }

  lemma EndAfterStep(q: Query, init: seq<nat>, i: nat)
    ensures q.EndAfter(init + [i]) == Earliest(q.EndAfter(init), BoundOfEnded(q, i))
  {
    assert (init + [i])[..|init|] == init;
  }

  lemma {:induction false} EndAfterIs(q: Query, s: seq<nat>, t: Instant)
    ensures q.EndAfter(s).Some? ==> q.EndAfter([]) == q.EndAfter(s) || EndedBound(q, s, q.EndAfter(s).value)
    ensures q.EndAfter([]) == Some(t) || EndedBound(q, s, t) ==> q.EndAfter(s).Some? && q.EndAfter(s).value <= t
  {
    if s != [] {
      var init, i := s[..|s| - 1], s[|s| - 1];
      assert s == init + [i];
      EndAfterIs(q, init, t);
      EndAfterStep(q, init, i);
      EndedBoundOfMore(q, init, i, t);
      if q.EndAfter(s).Some? {
        EndedBoundOfMore(q, init, i, q.EndAfter(s).value);
      }
    }
  }

  lemma LaterStartIs(q: Query, t: Instant)
    ensures q.LaterStart().Some? ==> StartOfLater(q, q.LaterStart().value)
    ensures StartOfLater(q, t) ==> q.LaterStart().Some? && q.LaterStart().value <= t
  {
  }

  lemma AlongsideListIs(q: Query, t: Instant)
    ensures EndOfOne(q, q.AlongsideList(), t) <==> EndOfAlongside(q, t)
  {
    assert forall i | i in q.pool && q.Alongside(i) :: i in q.AlongsideList();
    assert forall i | i in q.AlongsideList() :: i in q.pool && q.Alongside(i) && i < |q.rows|;
  }

  /** The end beside the records alongside is the earliest of what bounds it there. */
  lemma FirstBoundIs(q: Query, t: Instant)
    ensures q.EndAfter([]).Some? ==> var e := q.EndAfter([]).value;
              q.span.invalidAt == Some(e) || StartOfLater(q, e) || EndOfAlongside(q, e)
    ensures q.span.invalidAt == Some(t) || StartOfLater(q, t) || EndOfAlongside(q, t)
            ==> q.EndAfter([]).Some? && q.EndAfter([]).value <= t
  {
    var end := q.EndAlongside(q.AlongsideList());
    assert q.EndAfter([]) == end;
    LaterStartIs(q, t);
    AlongsideListIs(q, t);
    EndAlongsideIs(q, q.AlongsideList(), t);
    if StartOfLater(q, t) {
      EndAlongsideIs(q, q.AlongsideList(), q.LaterStart().value);
    }
    if end.Some? {
      AlongsideListIs(q, end.value);
    }
  }

  /** The end of a new edge is the earliest of its bounds, and it has none exactly when there are none. */
  lemma EndIsEarliestBound(q: Query, t: Instant)
    requires q.Decide().Inserts?
    ensures q.Decide().end.Some? ==> Bounds(q, q.Decide().end.value)
    ensures Bounds(q, t) ==> q.Decide().end.Some? && q.Decide().end.value <= t
  {
    InsertsWhatIsJudged(q);
    var ended := q.Judged().ended;
    EarliestOfAll(q, ended, t);
  }

  lemma EarliestOfAll(q: Query, ended: seq<nat>, t: Instant)
    ensures q.EndAfter(ended).Some? ==> var e := q.EndAfter(ended).value;
              q.span.invalidAt == Some(e) || StartOfLater(q, e) || EndOfAlongside(q, e) || EndedBound(q, ended, e)
    ensures q.span.invalidAt == Some(t) || StartOfLater(q, t) || EndOfAlongside(q, t) || EndedBound(q, ended, t)
            ==> q.EndAfter(ended).Some? && q.EndAfter(ended).value <= t
  {
    FirstBoundIs(q, t);
    EndAfterIs(q, ended, t);
    if q.EndAfter([]).Some? {
      EndAfterIs(q, ended, q.EndAfter([]).value);
    }
  }

  /* ---------- a statement that is already recorded ---------- */

  /** The row names the episode among its evidence. */
  predicate Cites(f: Fact, id: Id) {
    id in f.episodes
  }

  /** Reinforcing cites the episode, touches no other row, and makes a row active nowhere it was not. */
  lemma ReinforceOnlyCites(ctx: Context, w: Work, i: nat, end: Option<Instant>, j: nat, at: Instant, asOf: Instant)
    requires i < |w.rows| && j < |w.rows| && ctx.now <= asOf && !IsRetracted(w.rows[i])
    requires w.rows[j].createdAt <= asOf && (w.rows[j].expiredAt.Some? ==> w.rows[j].expiredAt.value <= asOf)
    ensures var rows := Reinforce(ctx, w, i, end).rows;
            && |rows| == |w.rows|
            && (i < ctx.base ==> Cites(rows[i], ctx.episode.id))
            && (j != i ==> rows[j] == w.rows[j])
            && (ActiveAt(rows[j], at, asOf) ==> ActiveAt(w.rows[j], at, asOf))
            && (w.rows[j].invalidAt.Some? ==> rows[j].invalidAt == w.rows[j].invalidAt)
  {
  }

  /**
   * A statement that a record already makes over the same time adds no row,
   * whatever the judge would say: such a record gains the episode as evidence,
   * every other is untouched, and an end it has stays.
   */
  lemma RepeatIsEvidence(ctx: Context, w: Work, c: Candidate, i: nat) returns (k: nat)
    requires i in Ask(ctx, Load(ctx, w, c.src), c).pool && Ask(ctx, Load(ctx, w, c.src), c).Covering(i)
    ensures var q := Ask(ctx, Load(ctx, w, c.src), c);
            && k in q.pool && q.Covering(k) && k < |w.rows|
            && |ResolveFact(ctx, w, c).rows| == |w.rows|
            && (k < ctx.base ==> Cites(ResolveFact(ctx, w, c).rows[k], ctx.episode.id))
            && (forall j | 0 <= j < |w.rows| && j != k :: ResolveFact(ctx, w, c).rows[j] == w.rows[j])
            && (w.rows[k].invalidAt.Some? ==> ResolveFact(ctx, w, c).rows[k].invalidAt == w.rows[k].invalidAt)
  {
    var loaded := Load(ctx, w, c.src);
    var q := Ask(ctx, loaded, c);
    assert loaded.rows == w.rows;
    k := q.FirstCovering().value;
    CoveringIsReinforced(ctx, loaded, q, k);
    ReinforceTouchesOne(ctx, loaded, k, q.span.invalidAt);
  }

  lemma CoveringIsReinforced(ctx: Context, w: Work, q: Query, k: nat)
    requires q.rows == w.rows && q.FirstCovering() == Some(k)
    ensures q.Decide() == Reinforces(k) && k < |w.rows|
    ensures Act(ctx, w, q.c, q.span, q.Decide()) == Reinforce(ctx, w, k, q.span.invalidAt)
  {
  }

  lemma ReinforceTouchesOne(ctx: Context, w: Work, k: nat, end: Option<Instant>)
    requires k < |w.rows|
    ensures var rows := Reinforce(ctx, w, k, end).rows;
            && |rows| == |w.rows|
            && (k < ctx.base ==> Cites(rows[k], ctx.episode.id))
            && (forall j | 0 <= j < |w.rows| && j != k :: rows[j] == w.rows[j])
            && (w.rows[k].invalidAt.Some? ==> rows[k].invalidAt == w.rows[k].invalidAt)
  {
  }

  /**
   * Nothing becomes active at an instant where it was not: a document added
   * late does not bring back a relation that has ended.
   */
  lemma RepeatRevivesNothing(ctx: Context, w: Work, c: Candidate, i: nat, j: nat, at: Instant, asOf: Instant)
    requires i in Ask(ctx, Load(ctx, w, c.src), c).pool && Ask(ctx, Load(ctx, w, c.src), c).Covering(i)
    requires j < |w.rows| && ctx.now <= asOf
    requires w.rows[j].createdAt <= asOf && (w.rows[j].expiredAt.Some? ==> w.rows[j].expiredAt.value <= asOf)
    ensures |ResolveFact(ctx, w, c).rows| == |w.rows|
    ensures ActiveAt(ResolveFact(ctx, w, c).rows[j], at, asOf) ==> ActiveAt(w.rows[j], at, asOf)
  {
    var k := RepeatIsEvidence(ctx, w, c, i);
    var loaded := Load(ctx, w, c.src);
    if j == k {
      ReinforceOnlyCites(ctx, loaded, Ask(ctx, loaded, c).FirstCovering().value, SpanOf(ctx, c).invalidAt, j, at, asOf);
    }
  }

  /** A new edge ends by the start of every later record of the same relationship, so the two never overlap. */
  lemma EarlierStintEndsInTime(q: Query, i: nat)
    requires q.Decide().Inserts? && i in q.pool && q.LaterRecord(i)
    ensures q.Decide().end.Some? && q.Decide().end.value <= q.rows[i].validAt.value
  {
    EndIsBounded(q, q.Judged().ended);
    assert q.Nearest(q.pool).Some?;
  }

  /* ---------- an explicit invalidation ---------- */

  /** The instant the invalidation states, or the episode's if it states none. */
  function EndOf(ctx: Context, inv: Invalidation): Instant {
    if inv.invalidAt.Some? then inv.invalidAt.value else ctx.episode.validAt
  }

  /** The row is one the invalidation names, true right before its end and not over by then. */
  predicate Named(ctx: Context, inv: Invalidation, f: Fact)
    requires inv.src.Some? && inv.tgt.Some?
  {
    && ((f.source == inv.src.value && f.target == inv.tgt.value) || (f.source == inv.tgt.value && f.target == inv.src.value))
    && (inv.relation.None? || f.relation == inv.relation.value)
    && (f.validAt.Some? ==> f.validAt.value < EndOf(ctx, inv))
    && !IsRetracted(f)
  }

  predicate EndedAt(ctx: Context, inv: Invalidation, f: Fact)
    requires inv.src.Some? && inv.tgt.Some?
  {
    Named(ctx, inv, f) && f.invalidAt == Some(EndOf(ctx, inv))
  }

  lemma OneRowEnds(ctx: Context, w: Work, inv: Invalidation, i: nat, k: nat)
    requires inv.src.Some? && inv.tgt.Some? && i < |w.rows| && k < |w.rows|
    requires w.rows[i].validAt.Some? || i < ctx.base
    ensures var rows := InvalidateRow(ctx, w, inv, false, k).rows;
            && |rows| == |w.rows| && rows[i].validAt == w.rows[i].validAt
            && (k != i ==> rows[i] == w.rows[i])
            && (EndedAt(ctx, inv, w.rows[i]) ==> rows[i] == w.rows[i])
            && (k == i && Named(ctx, inv, w.rows[i]) && (w.rows[i].invalidAt.Some? ==> EndOf(ctx, inv) < w.rows[i].invalidAt.value) ==>
                  EndedAt(ctx, inv, rows[i]))
  {
  }

  lemma {:induction false} RowsEnd(ctx: Context, w: Work, inv: Invalidation, s: seq<nat>, i: nat)
    requires inv.src.Some? && inv.tgt.Some? && i < |w.rows| && (w.rows[i].validAt.Some? || i < ctx.base)
    requires forall k | k in s :: k < |w.rows|
    requires Named(ctx, inv, w.rows[i]) && (w.rows[i].invalidAt.Some? ==> EndOf(ctx, inv) < w.rows[i].invalidAt.value)
    ensures var rows := InvalidateRows(ctx, w, inv, false, s).rows;
            && |rows| == |w.rows| && rows[i].validAt == w.rows[i].validAt
            && (if i in s then EndedAt(ctx, inv, rows[i]) else rows[i] == w.rows[i])
  {
    if s != [] {
      var init, last := s[..|s| - 1], s[|s| - 1];
      assert s == init + [last];
      assert last in s && forall k | k in init :: k in s;
      RowsEnd(ctx, w, inv, init, i);
      OneRowEnds(ctx, InvalidateRows(ctx, w, inv, false, init), inv, i, last);
    }
  }

  /**
   * An invalidation whose endpoints are known ends, at the instant it states
   * (or at the episode's), every record it names that began before and was
   * not over by then; one naming no relation ends all of the pair's.
   */
  lemma InvalidationEndsWhatItNames(ctx: Context, w: Work, inv: Invalidation, i: nat)
    requires inv.src.Some? && inv.tgt.Some? && i < |w.rows| && (w.rows[i].validAt.Some? || i < ctx.base)
    requires LoadedInv(ctx, w)
    requires Named(ctx, inv, w.rows[i]) && (w.rows[i].invalidAt.Some? ==> EndOf(ctx, inv) < w.rows[i].invalidAt.value)
    ensures i < |ApplyInvalidation(ctx, w, inv, false).rows|
    ensures ApplyInvalidation(ctx, w, inv, false).rows[i].invalidAt == Some(EndOf(ctx, inv))
  {
    var loaded := Load(ctx, w, inv.src.value);
    LoadKeepsLoaded(ctx, w, inv.src.value);
    assert i in loaded.loaded && Touches(loaded.rows[i], inv.src.value);
    RowsEnd(ctx, loaded, inv, Pool(loaded, inv.src.value), i);
  }

  /* ---------- repeats within one reply ---------- */

  /**
   * Exactly which plans are one statement: the same pair, the same way round,
   * and the same window, under another relation, in the same or nearly the
   * same words.
   */
  lemma RepeatsIff(ctx: Context, kept: Candidate, c: Candidate)
    ensures var a, b := Window(ctx.episode, kept.validAt, kept.invalidAt), Window(ctx.episode, c.validAt, c.invalidAt);
            Repeats(ctx, kept, c)
            <==> && kept.src == c.src && kept.tgt == c.tgt && kept.relation != c.relation
                 && a.validAt == b.validAt && a.invalidAt == b.invalidAt
                 && (kept.text == c.text || (kept.vector, c.vector) in ctx.repeats)
  {
  }

  /** Going through the plans in order, one is kept exactly if none kept before it says the same. */
  lemma KeptInOrder(ctx: Context, plans: seq<Candidate>, c: Candidate)
    ensures var kept := CollapseRepeats(ctx, plans);
            && CollapseRepeats(ctx, []) == []
            && CollapseRepeats(ctx, plans + [c])
               == kept + if exists k | 0 <= k < |kept| :: Repeats(ctx, kept[k], c) then [] else [c]
  {
    assert (plans + [c])[..|plans|] == plans;
  }

  predicate NoRepeats(ctx: Context, kept: seq<Candidate>) {
    forall i, j | 0 <= i < j < |kept| :: !Repeats(ctx, kept[i], kept[j])
  }

  predicate KeptOrRepeats(ctx: Context, kept: seq<Candidate>, p: Candidate) {
    p in kept || exists i | 0 <= i < |kept| :: Repeats(ctx, kept[i], p)
  }

  lemma AppendNoRepeat(ctx: Context, kept: seq<Candidate>, c: Candidate)
    requires NoRepeats(ctx, kept) && forall i | 0 <= i < |kept| :: !Repeats(ctx, kept[i], c)
    ensures NoRepeats(ctx, kept + [c])
  {
    var longer := kept + [c];
    forall i, j | 0 <= i < j < |longer|
      ensures !Repeats(ctx, longer[i], longer[j])
    {
      assert longer[i] == kept[i];
      assert longer[j] == if j < |kept| then kept[j] else c;
    }
  }

  lemma StillKeptOrRepeats(ctx: Context, kept: seq<Candidate>, longer: seq<Candidate>, p: Candidate)
    requires kept <= longer && KeptOrRepeats(ctx, kept, p)
    ensures KeptOrRepeats(ctx, longer, p)
  {
    if p !in kept {
      var i :| 0 <= i < |kept| && Repeats(ctx, kept[i], p);
      assert longer[i] == kept[i];
    }
  }

  /** No kept plan repeats an earlier one, and every plan is kept or repeats a kept one. */
  lemma {:induction false} CollapseKeepsOneOfEach(ctx: Context, plans: seq<Candidate>)
    ensures NoRepeats(ctx, CollapseRepeats(ctx, plans))
    ensures forall p | p in plans :: KeptOrRepeats(ctx, CollapseRepeats(ctx, plans), p)
  {
    if plans != [] {
      var init, last := plans[..|plans| - 1], plans[|plans| - 1];
      assert plans == init + [last];
      CollapseKeepsOneOfEach(ctx, init);
      var before, kept := CollapseRepeats(ctx, init), CollapseRepeats(ctx, plans);
      if exists k | 0 <= k < |before| :: Repeats(ctx, before[k], last) {
        assert kept == before;
      } else {
        assert kept == before + [last];
        AppendNoRepeat(ctx, before, last);
      }
      forall p | p in plans
        ensures KeptOrRepeats(ctx, kept, p)
      {
        if p in init {
          StillKeptOrRepeats(ctx, before, kept, p);
        }
      }
    }
  }
}
