/**
 * Forgetting an episode undoes its ingestion: for every reply and every
 * verdict, whatever was active before the run is active again.
 */
module Undo {
  import opened Wrappers
  import opened Temporal
  import opened Facts
  import opened Resolution
  import opened RunInvariant
  import opened Corrections
  import opened Forgetting

  /** What a reader sees of an active row. */
  datatype Statement = Statement(
    source: Id, target: Id, relation: string, text: string,
    validAt: Option<Instant>, invalidAt: Option<Instant>)

  function StatementOf(f: Fact): Statement {
    Statement(f.source, f.target, f.relation, f.text, f.validAt, f.invalidAt)
  }

  /** How often (once, or not) the row says `s` at `at`, as known at `asOf`. */
  function Seen(f: Fact, at: Instant, asOf: Instant, s: Statement): nat {
    if ActiveAt(f, at, asOf) && StatementOf(f) == s then 1 else 0
  }

  /** How many rows say `s`: the multiplicity of `s` among the statements true at `at`, as known at `asOf`. */
  function SeenIn(facts: seq<Fact>, at: Instant, asOf: Instant, s: Statement): nat {
    if facts == [] then 0 else SeenIn(facts[..|facts| - 1], at, asOf, s) + Seen(facts[|facts| - 1], at, asOf, s)
  }

  lemma SeenInOneMore(facts: seq<Fact>, f: Fact, at: Instant, asOf: Instant, s: Statement)
    ensures SeenIn(facts + [f], at, asOf, s) == SeenIn(facts, at, asOf, s) + Seen(f, at, asOf, s)
  {
    assert (facts + [f])[..|facts|] == facts;
  }

  lemma {:induction false} SeenInBoth(a: seq<Fact>, b: seq<Fact>, at: Instant, asOf: Instant, s: Statement)
    ensures SeenIn(a + b, at, asOf, s) == SeenIn(a, at, asOf, s) + SeenIn(b, at, asOf, s)
  {
    if b == [] {
      assert a + b == a;
    } else {
      SeenInBoth(a, b[..|b| - 1], at, asOf, s);
      assert (a + b)[..|a + b| - 1] == a + b[..|b| - 1];
    }
  }

  /** What is seen of row i once episode `id` is forgotten: of the row itself, and of its copy. */
  function SeenAfter(facts: seq<Fact>, id: Id, now: Instant, i: nat, at: Instant, asOf: Instant, s: Statement): nat
    requires i < |facts|
  {
    Seen(RowAfter(facts, i, id, now, |facts| + Rank(facts, id, now, i)), at, asOf, s) +
    (if FateOf(facts, i, id).Reopens? then Seen(CopyAfter(facts, i, id, now), at, asOf, s) else 0)
  }

  function SeenOf(u: Outcome, at: Instant, asOf: Instant, s: Statement): nat {
    SeenIn(u.rows, at, asOf, s) + SeenIn(u.copies, at, asOf, s)
  }

  lemma SeenStep(facts: seq<Fact>, id: Id, now: Instant, i: nat, at: Instant, asOf: Instant, s: Statement)
    requires i < |facts|
    ensures SeenOf(ForgetUpTo(facts, id, now, i + 1), at, asOf, s)
            == SeenOf(ForgetUpTo(facts, id, now, i), at, asOf, s) + SeenAfter(facts, id, now, i, at, asOf, s)
  {
    var u := ForgetUpTo(facts, id, now, i);
    assert Rank(facts, id, now, i) == |u.copies|;
    SeenExtended(u, FateOf(facts, i, id), facts[i], |facts|, i, id, now, at, asOf, s);
  }

  lemma SeenExtended(u: Outcome, fate: Fate, f: Fact, n: nat, i: nat, id: Id, now: Instant,
                     at: Instant, asOf: Instant, s: Statement)
    ensures SeenOf(Extended(u, fate, f, n, i, id, now), at, asOf, s)
            == SeenOf(u, at, asOf, s)
               + Seen(RowFor(f, fate, id, now, n + |u.copies|), at, asOf, s)
               + if fate.Reopens? then Seen(CopyOf(Unlinked(f, id), i, fate.end, now), at, asOf, s) else 0
  {
    var copy := if fate.Reopens? then [CopyOf(Unlinked(f, id), i, fate.end, now)] else [];
    var row := RowFor(f, fate, id, now, n + |u.copies|);
    SeenWithCopy(u, row, copy, at, asOf, s);
    assert Extended(u, fate, f, n, i, id, now) == Outcome(u.rows + [row], if copy == [] then u.copies else u.copies + copy);
  }

  lemma SeenWithCopy(u: Outcome, row: Fact, copy: seq<Fact>, at: Instant, asOf: Instant, s: Statement)
    requires |copy| <= 1
    ensures SeenOf(Outcome(u.rows + [row], if copy == [] then u.copies else u.copies + copy), at, asOf, s)
            == SeenOf(u, at, asOf, s) + Seen(row, at, asOf, s) + if copy == [] then 0 else Seen(copy[0], at, asOf, s)
  {
    SeenInOneMore(u.rows, row, at, asOf, s);
    if copy != [] {
      assert copy == [copy[0]];
      SeenInOneMore(u.copies, copy[0], at, asOf, s);
    }
  }

  function Sum(parts: seq<nat>, k: nat): nat
    requires k <= |parts|
  {
    if k == 0 then 0 else Sum(parts, k - 1) + parts[k - 1]
  }

  lemma {:induction false} SeenUpTo(
      facts: seq<Fact>, id: Id, now: Instant, parts: seq<nat>, k: nat, at: Instant, asOf: Instant, s: Statement)
    requires k <= |facts| == |parts|
    requires forall i | 0 <= i < |facts| :: parts[i] == SeenAfter(facts, id, now, i, at, asOf, s)
    ensures SeenOf(ForgetUpTo(facts, id, now, k), at, asOf, s) == Sum(parts, k)
  {
    if k > 0 {
      SeenUpTo(facts, id, now, parts, k - 1, at, asOf, s);
      SeenStep(facts, id, now, k - 1, at, asOf, s);
    }
  }

  lemma {:induction false} SumIsSeen(parts: seq<nat>, stored: seq<Fact>, k: nat, at: Instant, asOf: Instant, s: Statement)
    requires k <= |stored| <= |parts|
    requires forall i | 0 <= i < |stored| :: parts[i] == Seen(stored[i], at, asOf, s)
    ensures Sum(parts, k) == SeenIn(stored[..k], at, asOf, s)
  {
    if k > 0 {
      SumIsSeen(parts, stored, k - 1, at, asOf, s);
      assert stored[..k][..k - 1] == stored[..k - 1];
    }
  }

  lemma {:induction false} SumOfZeros(parts: seq<nat>, from: nat, k: nat)
    requires from <= k <= |parts|
    requires forall i | from <= i < k :: parts[i] == 0
    ensures Sum(parts, k) == Sum(parts, from)
  {
    if k > from {
      SumOfZeros(parts, from, k - 1);
    }
  }

  /** If each row, with its copy, is seen as the stored one was, so are they together. */
  lemma SeenTogether(facts: seq<Fact>, id: Id, now: Instant, stored: seq<Fact>, at: Instant, asOf: Instant, s: Statement)
    requires |stored| <= |facts|
    requires forall i | 0 <= i < |facts| ::
               SeenAfter(facts, id, now, i, at, asOf, s) == if i < |stored| then Seen(stored[i], at, asOf, s) else 0
    ensures SeenIn(ForgetFacts(facts, id, now), at, asOf, s) == SeenIn(stored, at, asOf, s)
  {
    var parts := seq(|facts|, (i: nat) => if i < |stored| then Seen(stored[i], at, asOf, s) else 0);
    SeenUpTo(facts, id, now, parts, |facts|, at, asOf, s);
    SumIsSeen(parts, stored, |stored|, at, asOf, s);
    SumOfZeros(parts, |stored|, |facts|);
    var r := ForgetUpTo(facts, id, now, |facts|);
    SeenInBoth(r.rows, r.copies, at, asOf, s);
    assert stored[..|stored|] == stored;
  }

  /** An episode that has not run: no row cites it, and none was closed by it. */
  predicate NeverRan(facts: seq<Fact>, id: Id) {
    forall i | 0 <= i < |facts| :: id !in facts[i].episodes && facts[i].marks.closedByEpisode != Some(id)
  }

  /** A run and the forgetting of its episode, later. */
  datatype Undoing = Undoing(stored: seq<Fact>, run: RunInput, forgotAt: Instant) {
    predicate Valid() {
      StoreOk(stored, run.now) && NeverRan(stored, run.episode.id) && run.now <= forgotAt
    }

    function Ingested(): seq<Fact> {
      Execute(run, stored).rows
    }

    function Forgotten(): seq<Fact> {
      ForgetFacts(Ingested(), run.episode.id, forgotAt)
    }

    /** What is seen of ingested row i afterwards: of itself, and of its copy. */
    function After(i: nat, at: Instant, asOf: Instant, s: Statement): nat {
      if i >= |Ingested()| then 0 else SeenAfter(Ingested(), run.episode.id, forgotAt, i, at, asOf, s)
    }

    /** The run did not move the start of stored row i. */
    predicate StartUnmoved(i: nat)
      requires i < |stored|
    {
      i < |Ingested()| && Ingested()[i].validAt == stored[i].validAt
    }

    /** The run closed stored row i. */
    predicate Closed(i: nat) {
      i < |Ingested()| && Ingested()[i].marks.closedByEpisode == Some(run.episode.id)
    }

    /**
     * No surviving value takes over from stored row i if the run closed it:
     * each later one begins no sooner than the row ended before the run, and
     * none holds at the start of a row the run emptied.
     */
    predicate NothingTakesOver(i: nat)
      requires i < |stored|
    {
      && i < |Ingested()|
      && (Closed(i) ==>
            && (forall j | 0 <= j < |Ingested()| && LaterValue(Ingested(), i, j, run.episode.id) ::
                  stored[i].invalidAt.Some? && stored[i].invalidAt.value <= Ingested()[j].validAt.value)
            && (IsOutdated(Ingested()[i]) && Ingested()[i].validAt.Some? ==>
                  forall j | 0 <= j < |Ingested()| && OtherValue(Ingested(), i, j, run.episode.id) ::
                    !Covers(Ingested()[j], Ingested()[i].validAt.value)))
    }
  }

  lemma IngestedKept(u: Undoing)
    requires u.Valid()
    ensures RowsInv(ContextOf(u.run, |u.stored|), u.stored, Execute(u.run, u.stored))
    ensures |u.stored| <= |u.Ingested()|
  {
    RunKeeps(u.run, u.stored);
  }

  /** A stored row the run may have touched: one that never cited the episode, narrowed or closed since. */
  predicate RunRow(ctx: Context, f0: Fact, f: Fact) {
    && RowOk(f0, ctx.now)
    && ctx.episode.id !in f0.episodes && f0.marks.closedByEpisode != Some(ctx.episode.id)
    && RowKept(ctx, f0, f, !IsRetracted(f0), f.marks.closedByEpisode == Some(ctx.episode.id))
  }

  lemma IngestedRow(u: Undoing, i: nat)
    requires u.Valid() && i < |u.stored|
    ensures i < |u.Ingested()|
    ensures RunRow(ContextOf(u.run, |u.stored|), u.stored[i], u.Ingested()[i])
  {
    IngestedKept(u);
    var w := Execute(u.run, u.stored);
    assert RowKept(ContextOf(u.run, |u.stored|), u.stored[i], w.rows[i], i in w.dirty, i in w.invalidated);
    assert RowOk(u.stored[i], u.run.now);
  }

  /** A row the run created is seen at no instant once the episode is forgotten. */
  lemma CreatedIsUnseen(ctx: Context, facts: seq<Fact>, i: nat, forgotAt: Instant, at: Instant, asOf: Instant, s: Statement)
    requires i < |facts| && NewRow(ctx, facts[i]) && ctx.now <= forgotAt <= asOf
    ensures SeenAfter(facts, ctx.episode.id, forgotAt, i, at, asOf, s) == 0
  {
    OnlyFromIsCitedAlone(facts[i], ctx.episode.id);
  }

  lemma {:induction false} WithoutAppended(s: seq<Id>, id: Id)
    requires id !in s
    ensures Without(s + [id], id) == s
  {
    assert (s + [id])[..|s|] == s;
  }

  /** What forgetting does to a stored row after the run: reopens or leaves what the run closed, and nothing else. */
  lemma RunRowFate(ctx: Context, f0: Fact, facts: seq<Fact>, i: nat)
    requires i < |facts| && RunRow(ctx, f0, facts[i])
    ensures var id := ctx.episode.id;
            var closed := facts[i].marks.closedByEpisode == Some(id);
            && Unlinked(facts[i], id).episodes == f0.episodes
            && (FateOf(facts, i, id).Reopens? <==> closed && !Replaced(facts, i, id))
            && (FateOf(facts, i, id).Reopens? ==> FateOf(facts, i, id).end == ReopenedEnd(facts, i, id))
            && !FateOf(facts, i, id).Retracts?
  {
    WithoutAppended(f0.episodes, ctx.episode.id);
    OnlyFromIsCitedAlone(facts[i], ctx.episode.id);
  }

  /** The row a stored row survives as: its copy if it was reopened, else itself. */
  function SurvivorOf(facts: seq<Fact>, id: Id, now: Instant, i: nat): Fact
    requires i < |facts|
  {
    if FateOf(facts, i, id).Reopens? then CopyAfter(facts, i, id, now) else Unlinked(facts[i], id)
  }

  lemma SeenAsSurvivor(ctx: Context, f0: Fact, facts: seq<Fact>, i: nat, forgotAt: Instant, at: Instant, asOf: Instant, s: Statement)
    requires i < |facts| && RunRow(ctx, f0, facts[i]) && ctx.now <= forgotAt <= asOf
    ensures SeenAfter(facts, ctx.episode.id, forgotAt, i, at, asOf, s)
         == Seen(SurvivorOf(facts, ctx.episode.id, forgotAt, i), at, asOf, s)
  {
    var id := ctx.episode.id;
    RunRowFate(ctx, f0, facts, i);
    if FateOf(facts, i, id).Reopens? {
      var previous := RowAfter(facts, i, id, forgotAt, |facts| + Rank(facts, id, forgotAt, i));
      SupersededIsRetracted(facts[i], |facts| + Rank(facts, id, forgotAt, i), forgotAt);
      RetractedNeverActive(previous, at, asOf);
      assert Seen(previous, at, asOf, s) == 0;
    }
  }

  /** The row's end is back: no surviving value takes over from it, or cuts its copy short. */
  predicate EndBack(facts: seq<Fact>, id: Id, i: nat, before: Option<Instant>)
    requires i < |facts|
  {
    facts[i].marks.closedByEpisode == Some(id) ==> !Replaced(facts, i, id) && ReopenedEnd(facts, i, id) == before
  }

  /** A stored row whose start and end come back is seen exactly as before the run. */
  lemma RestoredIsSeenAsBefore(
      ctx: Context, f0: Fact, facts: seq<Fact>, i: nat, forgotAt: Instant, at: Instant, asOf: Instant, s: Statement)
    requires i < |facts| && RunRow(ctx, f0, facts[i]) && ctx.now <= forgotAt <= asOf
    requires facts[i].validAt == f0.validAt && EndBack(facts, ctx.episode.id, i, f0.invalidAt)
    ensures SeenAfter(facts, ctx.episode.id, forgotAt, i, at, asOf, s) == Seen(f0, at, asOf, s)
  {
    SeenAsSurvivor(ctx, f0, facts, i, forgotAt, at, asOf, s);
    RunRowFate(ctx, f0, facts, i);
    var survivor := SurvivorOf(facts, ctx.episode.id, forgotAt, i);
    assert StatementOf(survivor) == StatementOf(f0);
    assert ActiveAt(survivor, at, asOf) == ActiveAt(f0, at, asOf);
  }

  /** An instant at which a row that is not retracted is active. */
  function SomeInstant(f: Fact): Instant {
    if f.validAt.Some? then f.validAt.value else if f.invalidAt.Some? then f.invalidAt.value - 1 else 0
  }

  /** A row whose start was moved or whose end does not come back is missed at some instant. */
  lemma UnrestoredIsMissed(ctx: Context, f0: Fact, facts: seq<Fact>, i: nat, forgotAt: Instant)
    requires i < |facts| && RunRow(ctx, f0, facts[i]) && ctx.now <= forgotAt
    requires facts[i].validAt != f0.validAt || !EndBack(facts, ctx.episode.id, i, f0.invalidAt)
    ensures SeenAfter(facts, ctx.episode.id, forgotAt, i, SomeInstant(f0), forgotAt, StatementOf(f0))
         != Seen(f0, SomeInstant(f0), forgotAt, StatementOf(f0))
  {
    SeenAsSurvivor(ctx, f0, facts, i, forgotAt, SomeInstant(f0), forgotAt, StatementOf(f0));
    RunRowFate(ctx, f0, facts, i);
    var survivor := SurvivorOf(facts, ctx.episode.id, forgotAt, i);
    assert survivor.validAt != f0.validAt || survivor.invalidAt != f0.invalidAt;
    assert Seen(f0, SomeInstant(f0), forgotAt, StatementOf(f0)) == 1;
  }

  /** The end that forgetting computes is the one from before the run exactly when nothing takes over. */
  lemma EndBackIff(u: Undoing, i: nat)
    requires u.Valid() && i < |u.stored|
    ensures i < |u.Ingested()|
    ensures EndBack(u.Ingested(), u.run.episode.id, i, u.stored[i].invalidAt) <==> u.NothingTakesOver(i)
  {
    IngestedRow(u, i);
    var facts, id := u.Ingested(), u.run.episode.id;
    if u.Closed(i) {
      LaterEndsIff(facts, i, id, u.stored[i].invalidAt);
    }
  }

  /** A bound on where the later values begin, in terms of the earliest. */
  lemma LaterEndsIff(facts: seq<Fact>, i: nat, id: Id, before: Option<Instant>)
    requires i < |facts|
    ensures Earliest(before, NextValue(facts, i, id)) == before
            <==> forall j | 0 <= j < |facts| && LaterValue(facts, i, j, id) ::
                   before.Some? && before.value <= facts[j].validAt.value
  {
    var next := NextValue(facts, i, id);
    if next.Some? {
      var j :| 0 <= j < |facts| && LaterValue(facts, i, j, id) && facts[j].validAt == next;
    }
  }

  /**
   * Exactly when forgetting restores one stored row, at every instant and
   * every later knowledge time: its start was not moved, and no surviving
   * value takes over from it.
   */
  lemma RowRestoredIff(u: Undoing, i: nat)
    requires u.Valid() && i < |u.stored|
    ensures (forall at, asOf, s | u.forgotAt <= asOf :: u.After(i, at, asOf, s) == Seen(u.stored[i], at, asOf, s))
            <==> u.StartUnmoved(i) && u.NothingTakesOver(i)
  {
    IngestedRow(u, i);
    EndBackIff(u, i);
    var ctx, f0, facts := ContextOf(u.run, |u.stored|), u.stored[i], u.Ingested();
    if u.StartUnmoved(i) && u.NothingTakesOver(i) {
      forall at, asOf, s | u.forgotAt <= asOf
        ensures u.After(i, at, asOf, s) == Seen(f0, at, asOf, s)
      {
        RestoredIsSeenAsBefore(ctx, f0, facts, i, u.forgotAt, at, asOf, s);
      }
    } else {
      UnrestoredIsMissed(ctx, f0, facts, i, u.forgotAt);
      var s := StatementOf(f0);
      assert u.After(i, SomeInstant(f0), u.forgotAt, s) != Seen(f0, SomeInstant(f0), u.forgotAt, s);
    }
  }

  /**
   * Forgetting undoes ingesting. If the run moved no stored start and no
   * surviving value takes over from a fact it closed, then at every instant,
   * for every knowledge time from the forgetting on, each statement is seen as
   * often as in the store before the run, for any reply and any verdicts.
   */
  lemma ForgettingUndoesIngesting(u: Undoing, at: Instant, asOf: Instant, s: Statement)
    requires u.Valid() && u.forgotAt <= asOf
    requires forall i | 0 <= i < |u.stored| :: u.StartUnmoved(i) && u.NothingTakesOver(i)
    ensures SeenIn(u.Forgotten(), at, asOf, s) == SeenIn(u.stored, at, asOf, s)
  {
    IngestedKept(u);
    var ctx, facts, id := ContextOf(u.run, |u.stored|), u.Ingested(), u.run.episode.id;
    forall i | 0 <= i < |facts|
      ensures SeenAfter(facts, id, u.forgotAt, i, at, asOf, s)
           == if i < |u.stored| then Seen(u.stored[i], at, asOf, s) else 0
    {
      if i < |u.stored| {
        IngestedRow(u, i);
        EndBackIff(u, i);
        assert u.StartUnmoved(i) && u.NothingTakesOver(i);
        RestoredIsSeenAsBefore(ctx, u.stored[i], facts, i, u.forgotAt, at, asOf, s);
      } else {
        CreatedIsUnseen(ctx, facts, i, u.forgotAt, at, asOf, s);
      }
    }
    SeenTogether(facts, id, u.forgotAt, u.stored, at, asOf, s);
  }

  /** No value that survives begins after a closed fact, and none holds at an outdated one's start. */
  predicate NoSurvivor(u: Undoing, i: nat) {
    var facts, id := u.Ingested(), u.run.episode.id;
    && i < |facts|
    && (forall j | 0 <= j < |facts| :: !LaterValue(facts, i, j, id))
    && (IsOutdated(facts[i]) ==>
          forall j | 0 <= j < |facts| && OtherValue(facts, i, j, id) ::
            facts[i].validAt.Some? ==> !Covers(facts[j], facts[i].validAt.value))
  }

  /** Where no value survives, the end comes back, even when the run closed the fact several times. */
  lemma NoSurvivorRestoresEnd(u: Undoing, i: nat)
    requires u.Valid() && i < |u.stored|
    requires u.StartUnmoved(i) && (u.Closed(i) ==> NoSurvivor(u, i))
    ensures u.NothingTakesOver(i) && EndBack(u.Ingested(), u.run.episode.id, i, u.stored[i].invalidAt)
  {
    IngestedRow(u, i);
    EndBackIff(u, i);
  }

  /** In particular when nothing that survives follows a closed fact, however often the run closed it. */
  lemma UndoneWithoutSurvivors(u: Undoing, at: Instant, asOf: Instant, s: Statement)
    requires u.Valid() && u.forgotAt <= asOf
    requires forall i | 0 <= i < |u.stored| :: u.StartUnmoved(i) && (u.Closed(i) ==> NoSurvivor(u, i))
    ensures SeenIn(u.Forgotten(), at, asOf, s) == SeenIn(u.stored, at, asOf, s)
  {
    forall i | 0 <= i < |u.stored|
      ensures u.StartUnmoved(i) && u.NothingTakesOver(i)
    {
      IngestedRow(u, i);
      assert u.StartUnmoved(i);
      NoSurvivorRestoresEnd(u, i);
    }
    ForgettingUndoesIngesting(u, at, asOf, s);
  }
}
