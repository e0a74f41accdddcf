/**
 * The map of facts a run works on: in which order a statement, an invalidation
 * and the judge meet them, and each of them once.
 */
module WorkingMaps {
  import opened Wrappers
  import opened Temporal
  import opened Facts
  import opened Resolution
  import opened OneValue

  predicate MapOk(w: Work) {
    Distinct(w.loaded) && forall k | 0 <= k < |w.loaded| :: w.loaded[k] < |w.rows|
  }

  /* ---------- the order ---------- */

  /** The store lists row i before row j among the facts of the entity. */
  predicate ListedBefore(listing: map<(Id, nat), int>, entity: Id, i: nat, j: nat) {
    var p := if (entity, i) in listing then listing[(entity, i)] else 0;
    var q := if (entity, j) in listing then listing[(entity, j)] else 0;
    p < q || (p == q && i < j)
  }

  predicate InListedOrder(listing: map<(Id, nat), int>, entity: Id, s: seq<nat>) {
    forall a, b | 0 <= a < b < |s| :: ListedBefore(listing, entity, s[a], s[b])
  }

  lemma {:induction false} PlacedInOrder(listing: map<(Id, nat), int>, entity: Id, i: nat, s: seq<nat>)
    requires InListedOrder(listing, entity, s) && forall k | 0 <= k < |s| :: s[k] < i
    ensures InListedOrder(listing, entity, Placed(listing, entity, i, s))
  {
    if s != [] {
      var init, last := s[..|s| - 1], s[|s| - 1];
      if PlaceOf(listing, entity, i) < PlaceOf(listing, entity, last) {
        PlacedInOrder(listing, entity, i, init);
        var r := Placed(listing, entity, i, init);
        forall k | 0 <= k < |r|
          ensures ListedBefore(listing, entity, r[k], last)
        {
          assert r[k] in r;
          assert r[k] != i ==> r[k] in init;
        }
      }
    }
  }

  lemma {:induction false} ListedInOrder(listing: map<(Id, nat), int>, rows: seq<Fact>, entity: Id, n: nat)
    requires n <= |rows|
    ensures InListedOrder(listing, entity, Listed(listing, rows, entity, n))
  {
    if n > 0 {
      ListedInOrder(listing, rows, entity, n - 1);
      var r := Listed(listing, rows, entity, n - 1);
      assert forall k | 0 <= k < |r| :: r[k] in r;
      PlacedInOrder(listing, entity, n - 1, r);
    }
  }

  lemma {:induction false} NotLoadedInOrder(listing: map<(Id, nat), int>, entity: Id, listed: seq<nat>, loaded: seq<nat>)
    requires InListedOrder(listing, entity, listed)
    ensures InListedOrder(listing, entity, NotLoaded(listed, loaded)) && Distinct(NotLoaded(listed, loaded))
  {
    if listed != [] {
      var init, last := listed[..|listed| - 1], listed[|listed| - 1];
      NotLoadedInOrder(listing, entity, init, loaded);
      var r := NotLoaded(init, loaded);
      assert forall k | 0 <= k < |r| :: r[k] in r && r[k] in init;
    }
  }

  /** Loading an entity puts its facts behind all others, in the order in which the store lists them. */
  lemma LoadAppends(ctx: Context, w: Work, entity: Id)
    requires ctx.base <= |w.rows|
    ensures var after := Load(ctx, w, entity).loaded;
            w.loaded <= after && InListedOrder(ctx.listing, entity, after[|w.loaded|..])
  {
    if entity !in w.loadedFor {
      var listed := Listed(ctx.listing, w.rows, entity, ctx.base);
      ListedInOrder(ctx.listing, w.rows, entity, ctx.base);
      NotLoadedInOrder(ctx.listing, entity, listed, w.loaded);
      assert Load(ctx, w, entity).loaded[|w.loaded|..] == NotLoaded(listed, w.loaded);
    }
  }

  /* ---------- each fact once, in every run ---------- */

  lemma LoadKeepsMap(ctx: Context, w: Work, entity: Id)
    requires ctx.base <= |w.rows| && MapOk(w)
    ensures MapOk(Load(ctx, w, entity)) && w.loaded <= Load(ctx, w, entity).loaded
  {
    if entity !in w.loadedFor {
      var listed := Listed(ctx.listing, w.rows, entity, ctx.base);
      ListedInOrder(ctx.listing, w.rows, entity, ctx.base);
      NotLoadedInOrder(ctx.listing, entity, listed, w.loaded);
      var r := NotLoaded(listed, w.loaded);
      assert forall k | 0 <= k < |r| :: r[k] in r && r[k] in listed && r[k] !in w.loaded;
    }
  }

  /** What one step of a run keeps. */
  predicate Grown(ctx: Context, before: Work, after: Work) {
    ctx.base <= |after.rows| && MapOk(after) && before.loaded <= after.loaded
  }

  lemma ActGrows(ctx: Context, w: Work, c: Candidate, span: Span, d: Decision)
    requires ctx.base <= |w.rows| && MapOk(w)
    requires d.Reinforces? || d.MovesStart? ==> d.i < |w.rows|
    requires d.MovesStart? || (d.Inserts? && d.ended != []) ==> span.validAt.Some?
    ensures Grown(ctx, w, Act(ctx, w, c, span, d))
  {
    match d {
      case Reinforces(i) =>
        ReinforceKeepsMap(ctx, w, i, span.invalidAt);
      case MovesStart(i) =>
        var moved := MoveStart(w, i, span.validAt, StartFromEpisode(ctx, span));
        ReinforceKeepsMap(ctx, moved, i, span.invalidAt);
      case Inserts(end, ended) =>
        if ended != [] {
          CloseEndedKeepsMap(ctx, w, ended, span.validAt.value);
        }
    }
  }

  lemma ResolveGrows(ctx: Context, w: Work, c: Candidate)
    requires ctx.base <= |w.rows| && MapOk(w)
    ensures Grown(ctx, w, ResolveFact(ctx, w, c))
  {
    LoadKeepsMap(ctx, w, c.src);
    var loaded := Load(ctx, w, c.src);
    var d := Ask(ctx, loaded, c).Decide();
    assert d.Inserts? && d.ended != [] ==> d.ended[0] in d.ended;
    ActGrows(ctx, loaded, c, SpanOf(ctx, c), d);
  }

  lemma {:induction false} ResolveFactsGrow(ctx: Context, w: Work, plans: seq<Candidate>)
    requires ctx.base <= |w.rows| && MapOk(w)
    ensures Grown(ctx, w, ResolveFacts(ctx, w, plans))
  {
    if plans != [] {
      ResolveFactsGrow(ctx, w, plans[..|plans| - 1]);
      ResolveGrows(ctx, ResolveFacts(ctx, w, plans[..|plans| - 1]), plans[|plans| - 1]);
    }
  }

  lemma {:induction false} InvalidationsGrow(ctx: Context, w: Work, invs: seq<Invalidation>, outdatedOnly: bool)
    requires ctx.base <= |w.rows| && MapOk(w)
    ensures Grown(ctx, w, ApplyInvalidations(ctx, w, invs, outdatedOnly))
  {
    if invs != [] {
      var before, inv := ApplyInvalidations(ctx, w, invs[..|invs| - 1], outdatedOnly), invs[|invs| - 1];
      InvalidationsGrow(ctx, w, invs[..|invs| - 1], outdatedOnly);
      if inv.src.Some? && inv.tgt.Some? {
        LoadKeepsMap(ctx, before, inv.src.value);
        var l := Load(ctx, before, inv.src.value);
        InvalidateRowsKeepsMap(ctx, l, inv, outdatedOnly, Pool(l, inv.src.value));
      }
    }
  }

  lemma PoolIsDistinct(ctx: Context, w: Work, c: Candidate)
    requires ctx.base <= |w.rows| && MapOk(w)
    ensures var q := Ask(ctx, Load(ctx, w, c.src), c); Distinct(q.pool) && Distinct(q.ShownList())
  {
    LoadKeepsMap(ctx, w, c.src);
    var loaded := Load(ctx, w, c.src);
    var q := Ask(ctx, loaded, c);
    SelectIsDistinct(loaded.loaded, PoolTest(loaded.rows, c.src));
    SelectIsDistinct(q.pool, (i: nat) => q.Shown(i));
  }

  lemma MapBefore(r: RunInput, stored: seq<Fact>, k: nat)
    requires k <= |CollapseRepeats(ContextOf(r, |stored|), r.plans)|
    ensures MapOk(WorkBefore(r, stored, k)) && |stored| <= |WorkBefore(r, stored, k).rows|
  {
    var ctx := ContextOf(r, |stored|);
    InvalidationsGrow(ctx, Start(stored), r.invalidations, true);
    var w := ApplyInvalidations(ctx, Start(stored), r.invalidations, true);
    ResolveFactsGrow(ctx, w, CollapseRepeats(ctx, r.plans)[..k]);
  }

  lemma OneMoreStatement(ctx: Context, w: Work, plans: seq<Candidate>, k: nat)
    requires k < |plans|
    ensures ResolveFacts(ctx, w, plans[..k + 1]) == ResolveFact(ctx, ResolveFacts(ctx, w, plans[..k]), plans[k])
  {
    assert plans[..k + 1][..k] == plans[..k];
  }

  /**
   * At every statement of every run, the facts it meets are met once each, and
   * the judge is shown none of them twice, so an index it answers stands for
   * one fact; and the map only grows, at its end.
   */
  lemma EachFactOnce(r: RunInput, stored: seq<Fact>, k: nat)
    requires k < |CollapseRepeats(ContextOf(r, |stored|), r.plans)|
    ensures var ctx := ContextOf(r, |stored|);
            var c := CollapseRepeats(ctx, r.plans)[k];
            var q := Ask(ctx, Load(ctx, WorkBefore(r, stored, k), c.src), c);
            Distinct(q.pool) && Distinct(q.ShownList())
    ensures WorkBefore(r, stored, k).loaded <= WorkBefore(r, stored, k + 1).loaded
  {
    var ctx := ContextOf(r, |stored|);
    var plans, w := CollapseRepeats(ctx, r.plans), WorkBefore(r, stored, k);
    MapBefore(r, stored, k);
    PoolIsDistinct(ctx, w, plans[k]);
    OneMoreStatement(ctx, ApplyInvalidations(ctx, Start(stored), r.invalidations, true), plans, k);
    ResolveGrows(ctx, w, plans[k]);
  }
}
