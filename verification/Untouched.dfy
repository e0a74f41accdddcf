/**
 * What a run leaves alone, in any store: a stored row that is not marked as
 * changed is as it was read, and only stored rows are so marked.
 */
module Untouched {
  import opened Wrappers
  import opened Temporal
  import opened Facts
  import opened Resolution

  predicate OnlyDirty(ctx: Context, stored: seq<Fact>, w: Work) {
    && |stored| == ctx.base <= |w.rows|
    && (forall i | i in w.dirty :: i < ctx.base)
    && (forall i | 0 <= i < ctx.base && i !in w.dirty :: w.rows[i] == stored[i])
  }

  lemma CloseMarks(ctx: Context, stored: seq<Fact>, w: Work, i: nat, at: Instant)
    requires OnlyDirty(ctx, stored, w) && i < |w.rows|
    ensures OnlyDirty(ctx, stored, Close(ctx, w, i, at))
  {
  }

  lemma OutdateMarks(ctx: Context, stored: seq<Fact>, w: Work, i: nat)
    requires OnlyDirty(ctx, stored, w) && i < |w.rows| && w.rows[i].validAt.Some?
    ensures OnlyDirty(ctx, stored, Outdate(ctx, w, i))
  {
    CloseMarks(ctx, stored, w, i, w.rows[i].validAt.value);
  }

  /** A moved start is marked by the citation that follows it. */
  lemma ReinforceMarks(ctx: Context, stored: seq<Fact>, before: Work, w: Work, i: nat, end: Option<Instant>)
    requires OnlyDirty(ctx, stored, before) && i < |before.rows|
    requires |w.rows| == |before.rows| && w == before.(rows := before.rows[i := w.rows[i]])
    ensures OnlyDirty(ctx, stored, Reinforce(ctx, w, i, end))
  {
    var cited, f := Cite(ctx, w, i), w.rows[i];
    assert OnlyDirty(ctx, stored, cited);
    if end.Some? && f.invalidAt.None? && (f.validAt.None? || end.value > f.validAt.value) {
      CloseMarks(ctx, stored, cited, i, end.value);
    }
  }

  lemma {:induction false} CloseEndedMarks(ctx: Context, stored: seq<Fact>, w: Work, ended: seq<nat>, at: Instant)
    requires OnlyDirty(ctx, stored, w)
    ensures OnlyDirty(ctx, stored, CloseEnded(ctx, w, ended, at))
  {
    if ended != [] {
      var r, i := CloseEnded(ctx, w, ended[..|ended| - 1], at), ended[|ended| - 1];
      CloseEndedMarks(ctx, stored, w, ended[..|ended| - 1], at);
      if i < |r.rows| && EndFor(ctx.episode, r.rows[i], at).Some? {
        CloseMarks(ctx, stored, r, i, EndFor(ctx.episode, r.rows[i], at).value);
      }
    }
  }

  lemma AddEdgeMarks(ctx: Context, stored: seq<Fact>, w: Work, c: Candidate, end: Option<Instant>, ended: seq<nat>)
    requires OnlyDirty(ctx, stored, w) && (ended != [] ==> SpanOf(ctx, c).validAt.Some?)
    ensures OnlyDirty(ctx, stored, Act(ctx, w, c, SpanOf(ctx, c), Inserts(end, ended)))
  {
    if ended != [] {
      CloseEndedMarks(ctx, stored, w, ended, SpanOf(ctx, c).validAt.value);
    }
  }

  lemma ResolveMarks(ctx: Context, stored: seq<Fact>, w: Work, c: Candidate)
    requires OnlyDirty(ctx, stored, w)
    ensures OnlyDirty(ctx, stored, ResolveFact(ctx, w, c))
  {
    var loaded, span := Load(ctx, w, c.src), SpanOf(ctx, c);
    match Ask(ctx, loaded, c).Decide() {
      case Reinforces(i) => ReinforceMarks(ctx, stored, loaded, loaded, i, span.invalidAt);
      case MovesStart(i) =>
        ReinforceMarks(ctx, stored, loaded, MoveStart(loaded, i, span.validAt, StartFromEpisode(ctx, span)), i, span.invalidAt);
      case Inserts(end, ended) =>
        assert ended != [] ==> ended[0] in ended;
        AddEdgeMarks(ctx, stored, loaded, c, end, ended);
    }
  }

  lemma InvalidateRowMarks(ctx: Context, stored: seq<Fact>, w: Work, inv: Invalidation, outdatedOnly: bool, i: nat)
    requires OnlyDirty(ctx, stored, w) && inv.src.Some? && inv.tgt.Some?
    ensures OnlyDirty(ctx, stored, InvalidateRow(ctx, w, inv, outdatedOnly, i))
  {
    var end := InvalidationEnd(ctx, inv);
    if i < |w.rows| {
      if w.rows[i].validAt.Some? {
        OutdateMarks(ctx, stored, w, i);
      }
      if EndFor(ctx.episode, w.rows[i], end).Some? {
        CloseMarks(ctx, stored, w, i, EndFor(ctx.episode, w.rows[i], end).value);
      }
    }
  }

  lemma {:induction false} InvalidateRowsMarks(
      ctx: Context, stored: seq<Fact>, w: Work, inv: Invalidation, outdatedOnly: bool, s: seq<nat>)
    requires OnlyDirty(ctx, stored, w) && inv.src.Some? && inv.tgt.Some?
    ensures OnlyDirty(ctx, stored, InvalidateRows(ctx, w, inv, outdatedOnly, s))
  {
    if s != [] {
      InvalidateRowsMarks(ctx, stored, w, inv, outdatedOnly, s[..|s| - 1]);
      InvalidateRowMarks(ctx, stored, InvalidateRows(ctx, w, inv, outdatedOnly, s[..|s| - 1]), inv, outdatedOnly, s[|s| - 1]);
    }
  }

  lemma {:induction false} InvalidationsMark(
      ctx: Context, stored: seq<Fact>, w: Work, invs: seq<Invalidation>, outdatedOnly: bool)
    requires OnlyDirty(ctx, stored, w)
    ensures OnlyDirty(ctx, stored, ApplyInvalidations(ctx, w, invs, outdatedOnly))
  {
    if invs != [] {
      InvalidationsMark(ctx, stored, w, invs[..|invs| - 1], outdatedOnly);
      var before, inv := ApplyInvalidations(ctx, w, invs[..|invs| - 1], outdatedOnly), invs[|invs| - 1];
      if inv.src.Some? && inv.tgt.Some? {
        var loaded := Load(ctx, before, inv.src.value);
        InvalidateRowsMarks(ctx, stored, loaded, inv, outdatedOnly, Pool(loaded, inv.src.value));
      }
    }
  }

  lemma {:induction false} ResolveFactsMark(ctx: Context, stored: seq<Fact>, w: Work, plans: seq<Candidate>)
    requires OnlyDirty(ctx, stored, w)
    ensures OnlyDirty(ctx, stored, ResolveFacts(ctx, w, plans))
  {
    if plans != [] {
      ResolveFactsMark(ctx, stored, w, plans[..|plans| - 1]);
      ResolveMarks(ctx, stored, ResolveFacts(ctx, w, plans[..|plans| - 1]), plans[|plans| - 1]);
    }
  }

  /** Everything a run does before it repairs vectors. */
  function Unrepaired(r: RunInput, stored: seq<Fact>): Work {
    var ctx := ContextOf(r, |stored|);
    var resolved := ResolveFacts(ctx, ApplyInvalidations(ctx, Start(stored), r.invalidations, true), CollapseRepeats(ctx, r.plans));
    ApplyInvalidations(ctx, resolved, r.invalidations, false)
  }

  lemma DirtyIsStored(r: RunInput, stored: seq<Fact>)
    ensures OnlyDirty(ContextOf(r, |stored|), stored, Unrepaired(r, stored))
  {
    var ctx := ContextOf(r, |stored|);
    assert OnlyDirty(ctx, stored, Start(stored));
    InvalidationsMark(ctx, stored, Start(stored), r.invalidations, true);
    var outdated := ApplyInvalidations(ctx, Start(stored), r.invalidations, true);
    ResolveFactsMark(ctx, stored, outdated, CollapseRepeats(ctx, r.plans));
    InvalidationsMark(ctx, stored, ResolveFacts(ctx, outdated, CollapseRepeats(ctx, r.plans)), r.invalidations, false);
  }

  /** In any store, writing the created and the changed rows is writing all of them. */
  lemma RunWritesAll(r: RunInput, stored: seq<Fact>)
    ensures OnlyDirty(ContextOf(r, |stored|), stored, Execute(r, stored))
  {
    DirtyIsStored(r, stored);
  }
}
