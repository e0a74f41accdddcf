/**
 * What an explicit invalidation does to every row, in the fields of the row,
 * the invalidation and the reply (applyInvalidation in src/pipeline/ingest.ts).
 */
module Endings {
  import opened Wrappers
  import opened Temporal
  import opened Facts
  import opened Resolution
  import opened OneValue

  /* ---------- which rows, and where they end ---------- */

  /** The row connects the pair, either way round, by the named relation or by any if none is named. */
  predicate Concerns(inv: Invalidation, f: Fact) {
    && inv.src.Some? && inv.tgt.Some?
    && ((f.source == inv.src.value && f.target == inv.tgt.value) || (f.source == inv.tgt.value && f.target == inv.src.value))
    && (inv.relation.Some? ==> f.relation == inv.relation.value)
    && !IsRetracted(f)
  }

  /** The reply tells of a stint of this relation between the two, over by then. */
  predicate TellsOfStint(ctx: Context, inv: Invalidation)
    requires inv.src.Some? && inv.tgt.Some? && inv.relation.Some? && inv.invalidAt.Some?
  {
    exists k | 0 <= k < |ctx.plans| ::
      var p := ctx.plans[k];
      var end := Window(ctx.episode, p.validAt, p.invalidAt).invalidAt;
      && ((p.src == inv.src.value && p.tgt == inv.tgt.value) || (p.src == inv.tgt.value && p.tgt == inv.src.value))
      && p.relation == inv.relation.value && end.Some? && end.value <= inv.invalidAt.value
  }

  /**
   * A stored note was out of date when it was written: its start is its own
   * writing and comes after an end that the invalidation itself dates, for a
   * relation it names, with no stint in the reply that the end may belong to.
   */
  predicate OutOfDate(ctx: Context, inv: Invalidation, f: Fact, stored: bool) {
    && stored && Concerns(inv, f) && inv.relation.Some? && inv.invalidAt.Some?
    && f.marks.startFromEpisode && f.validAt.Some? && inv.invalidAt.value < f.validAt.value
    && !TellsOfStint(ctx, inv)
  }

  /** Where a row that still holds at the invalidation's instant ends; a stored one that began right there ends after it. */
  function EndGiven(ctx: Context, inv: Invalidation, f: Fact, stored: bool): Option<Instant> {
    var at := if inv.invalidAt.Some? then inv.invalidAt.value else ctx.episode.validAt;
    if !Concerns(inv, f) || (!stored && f.validAt.None?) then None
    else if (f.validAt.None? || f.validAt.value < at) && (f.invalidAt.None? || at < f.invalidAt.value) then Some(at)
    else if stored && f.validAt == Some(at) then
      var end := if ctx.episode.validAt > at then ctx.episode.validAt else at + 1;
      if f.invalidAt.None? || end < f.invalidAt.value then Some(end) else None
    else None
  }

  /** A row with a new end: a stored one says when that was learned, from which episode, and what its end was before the run. */
  function WithEnd(ctx: Context, f: Fact, end: Instant, stored: bool, before: Option<Instant>): Fact {
    var g := f.(invalidAt := Some(end));
    if stored then
      g.(expiredAt := Some(ctx.now), marks := g.marks.(closedByEpisode := Some(ctx.episode.id), previousEnd := before))
    else g
  }

  /** The row once the invalidation is applied; `before` is the end it had before the run. */
  function Target(ctx: Context, inv: Invalidation, outdatedOnly: bool, f: Fact, stored: bool, before: Option<Instant>): Fact {
    if OutOfDate(ctx, inv, f, stored) then
      var g := WithEnd(ctx, f, f.validAt.value, true, before);
      g.(marks := g.marks.(outdatedWhenWritten := true))
    else if !outdatedOnly && EndGiven(ctx, inv, f, stored).Some? then
      WithEnd(ctx, f, EndGiven(ctx, inv, f, stored).value, stored, before)
    else f
  }

  function Before(w: Work, i: nat): Option<Instant>
    requires i < |w.rows|
  {
    if i in w.invalidated then w.rows[i].marks.previousEnd else w.rows[i].invalidAt
  }

  /* ---------- one row at a time ---------- */

  lemma StintIsTold(ctx: Context, inv: Invalidation)
    requires inv.src.Some? && inv.tgt.Some? && inv.relation.Some? && inv.invalidAt.Some?
    ensures RecordsStint(ctx, inv.src.value, inv.tgt.value, inv.relation.value, inv.invalidAt.value) <==> TellsOfStint(ctx, inv)
  {
    if k :| 0 <= k < |ctx.plans| && StintOver(ctx, ctx.plans[k], inv.src.value, inv.tgt.value, inv.relation.value, inv.invalidAt.value) {
      assert ctx.plans[k].relation == inv.relation.value;
    }
    if TellsOfStint(ctx, inv) {
      var k :| 0 <= k < |ctx.plans| &&
        var p := ctx.plans[k];
        var end := Window(ctx.episode, p.validAt, p.invalidAt).invalidAt;
        && ((p.src == inv.src.value && p.tgt == inv.tgt.value) || (p.src == inv.tgt.value && p.tgt == inv.src.value))
        && p.relation == inv.relation.value && end.Some? && end.value <= inv.invalidAt.value;
      assert StintOver(ctx, ctx.plans[k], inv.src.value, inv.tgt.value, inv.relation.value, inv.invalidAt.value);
    }
  }

  lemma OutdatesIff(ctx: Context, inv: Invalidation, f: Fact)
    requires Concerns(inv, f)
    ensures OutOfDate(ctx, inv, f, true)
            <==> Outdates(ctx, inv) && f.marks.startFromEpisode && f.validAt.Some? && InvalidationEnd(ctx, inv) < f.validAt.value
  {
    if inv.relation.Some? && inv.invalidAt.Some? {
      StintIsTold(ctx, inv);
    }
  }

  lemma EndGivenIs(ctx: Context, inv: Invalidation, f: Fact, stored: bool)
    requires Concerns(inv, f)
    requires stored || (f.validAt.Some? && f.validAt.value < InvalidationEnd(ctx, inv))
    ensures EndGiven(ctx, inv, f, stored) == EndFor(ctx.episode, f, InvalidationEnd(ctx, inv))
  {
  }

  /** A step on row k leaves the others, and what is known of them. */
  ghost predicate OnlyRow(w: Work, r: Work, k: nat) {
    && |r.rows| == |w.rows|
    && (forall i | 0 <= i < |w.rows| && i != k :: r.rows[i] == w.rows[i])
    && (forall i: nat | i != k :: i in r.invalidated <==> i in w.invalidated)
  }

  lemma CloseIs(ctx: Context, w: Work, i: nat, at: Instant)
    requires i < |w.rows|
    ensures OnlyRow(w, Close(ctx, w, i, at), i)
    ensures Close(ctx, w, i, at).rows[i] == WithEnd(ctx, w.rows[i], at, i < ctx.base, Before(w, i))
    ensures i < ctx.base ==> i in Close(ctx, w, i, at).invalidated
  {
  }

  lemma OutdateIs(ctx: Context, w: Work, i: nat)
    requires i < ctx.base && i < |w.rows| && w.rows[i].validAt.Some?
    ensures OnlyRow(w, Outdate(ctx, w, i), i)
    ensures var g := WithEnd(ctx, w.rows[i], w.rows[i].validAt.value, true, Before(w, i));
            Outdate(ctx, w, i).rows[i] == g.(marks := g.marks.(outdatedWhenWritten := true))
  {
    CloseIs(ctx, w, i, w.rows[i].validAt.value);
  }

  lemma RowIs(ctx: Context, w: Work, inv: Invalidation, outdatedOnly: bool, i: nat)
    requires inv.src.Some? && inv.tgt.Some? && i < |w.rows|
    ensures var r := InvalidateRow(ctx, w, inv, outdatedOnly, i);
            && OnlyRow(w, r, i)
            && r.rows[i] == Target(ctx, inv, outdatedOnly, w.rows[i], i < ctx.base, Before(w, i))
  {
    var f, end, stored := w.rows[i], InvalidationEnd(ctx, inv), i < ctx.base;
    if Concerns(inv, f) && (stored || (f.validAt.Some? && f.validAt.value < end)) {
      OutdatesIff(ctx, inv, f);
      EndGivenIs(ctx, inv, f, stored);
      if stored && f.validAt.Some? {
        OutdateIs(ctx, w, i);
      }
      if EndFor(ctx.episode, f, end).Some? {
        CloseIs(ctx, w, i, EndFor(ctx.episode, f, end).value);
      }
    }
  }

  /** Applied once more, an invalidation finds nothing to do. */
  lemma TargetIsFinal(
      ctx: Context, inv: Invalidation, outdatedOnly: bool, f: Fact, stored: bool,
      before: Option<Instant>, later: Option<Instant>)
    ensures var g := Target(ctx, inv, outdatedOnly, f, stored, before);
            Target(ctx, inv, outdatedOnly, g, stored, later) == g
  {
  }

  lemma {:induction false} RowsAre(ctx: Context, w: Work, inv: Invalidation, outdatedOnly: bool, s: seq<nat>, i: nat)
    requires inv.src.Some? && inv.tgt.Some? && i < |w.rows| && forall k | k in s :: k < |w.rows|
    ensures var r := InvalidateRows(ctx, w, inv, outdatedOnly, s);
            && |r.rows| == |w.rows|
            && r.rows[i] == (if i in s then Target(ctx, inv, outdatedOnly, w.rows[i], i < ctx.base, Before(w, i)) else w.rows[i])
            && (i !in s ==> (i in r.invalidated <==> i in w.invalidated))
  {
    if s != [] {
      var init, last := s[..|s| - 1], s[|s| - 1];
      assert s == init + [last];
      assert last in s && forall k | k in init :: k in s;
      RowsAre(ctx, w, inv, outdatedOnly, init, i);
      var r := InvalidateRows(ctx, w, inv, outdatedOnly, init);
      RowIs(ctx, r, inv, outdatedOnly, last);
      if last == i && i in init {
        TargetIsFinal(ctx, inv, outdatedOnly, w.rows[i], i < ctx.base, Before(w, i), Before(r, i));
      }
    }
  }

  /* ---------- the whole invalidation ---------- */

  /** Every row of the store and of the run, once the invalidation is applied in either pass. */
  lemma InvalidationIs(ctx: Context, w: Work, inv: Invalidation, outdatedOnly: bool, i: nat)
    requires LoadedInv(ctx, w) && i < |w.rows|
    ensures |ApplyInvalidation(ctx, w, inv, outdatedOnly).rows| == |w.rows|
    ensures ApplyInvalidation(ctx, w, inv, outdatedOnly).rows[i]
            == Target(ctx, inv, outdatedOnly, w.rows[i], i < ctx.base, Before(w, i))
  {
    if inv.src.Some? && inv.tgt.Some? {
      LoadKeepsLoaded(ctx, w, inv.src.value);
      var loaded := Load(ctx, w, inv.src.value);
      RowsAre(ctx, loaded, inv, outdatedOnly, Pool(loaded, inv.src.value), i);
      assert Concerns(inv, w.rows[i]) ==> Touches(loaded.rows[i], inv.src.value);
    }
  }

  /** Exactly which rows the first pass empties: the stored notes that were out of date when they were written. */
  lemma FirstPassEmptiesIff(ctx: Context, w: Work, inv: Invalidation, i: nat)
    requires LoadedInv(ctx, w) && i < |w.rows|
    ensures var g := ApplyInvalidation(ctx, w, inv, true).rows[i];
            && (g != w.rows[i] <==> OutOfDate(ctx, inv, w.rows[i], i < ctx.base))
            && (g != w.rows[i] ==> g.invalidAt == g.validAt == w.rows[i].validAt && g.marks.outdatedWhenWritten)
  {
    InvalidationIs(ctx, w, inv, true, i);
  }
}
