/**
 * What forgetting an episode does to every row, in the fields of the rows
 * (forgetEpisode in src/pipeline/ingest.ts).
 */
module Closures {
  import opened Wrappers
  import opened Temporal
  import opened Facts
  import opened RunInvariant
  import opened Corrections
  import opened Forgetting

  /* ---------- evidence ---------- */

  /** Something other than the episode supports the row, or nothing is on record at all. */
  predicate StandsWithout(f: Fact, id: Id) {
    f.episodes == [] || exists k | 0 <= k < |f.episodes| :: f.episodes[k] != id
  }

  /** Taking an episode from the evidence drops it wherever it is named, and keeps the rest in order. */
  lemma {:induction false} WithoutOfBoth(a: seq<Id>, b: seq<Id>, id: Id)
    ensures Without(a + b, id) == Without(a, id) + Without(b, id)
    ensures Without([id], id) == [] && forall other: nat | other != id :: Without([other], id) == [other]
  {
    if b == [] {
      assert a + b == a;
    } else {
      assert (a + b)[..|a + b| - 1] == a + b[..|b| - 1];
      WithoutOfBoth(a, b[..|b| - 1], id);
    }
  }

  /* ---------- the values that keep a closure ---------- */

  /** g stands without the episode as another value of f's slot, which cannot hold both. */
  predicate Rival(f: Fact, g: Fact, id: Id) {
    && g.source == f.source && g.relation == f.relation
    && g.validAt.Some? && !IsRetracted(g) && StandsWithout(g, id)
    && (|| f.relation == "WORKS_AT" || f.relation == "HAS_ROLE" || f.relation == "HAS_TITLE"
        || f.relation == "LIVES_IN" || f.relation == "REPORTS_TO"
        || f.marks.replacesPrevious || g.marks.replacesPrevious)
  }

  /** g begins after f did, or with it and was learned later; after f's end, if f's start is unknown. */
  predicate Follows(f: Fact, g: Fact) {
    && g.validAt.Some?
    && if f.validAt.Some? then
         g.validAt.value > f.validAt.value || (g.validAt.value == f.validAt.value && g.createdAt > f.createdAt)
       else f.invalidAt.Some? && g.validAt.value >= f.invalidAt.value
  }

  /** An end that the episode gave the row and nobody has undone, of a row that stands without it. */
  predicate MadeClosure(f: Fact, id: Id) {
    && f.marks.closedByEpisode == Some(id) && f.invalidAt.Some? && f.marks.reopenedAs.None?
    && (IsRetracted(f) ==> f.marks.outdatedWhenWritten) && StandsWithout(f, id)
  }

  /** A rival takes over by the row's end; of an emptied row, it holds where the row was to start. */
  predicate KeptClosed(facts: seq<Fact>, i: nat, id: Id)
    requires i < |facts|
  {
    var f := facts[i];
    exists j | 0 <= j < |facts| && j != i :: Rival(f, facts[j], id) &&
      if f.marks.outdatedWhenWritten then
        && f.validAt.Some? && facts[j].validAt.value <= f.validAt.value
        && (facts[j].invalidAt.Some? ==> f.validAt.value < facts[j].invalidAt.value)
      else
        Follows(f, facts[j]) && f.invalidAt.Some? && facts[j].validAt.value <= f.invalidAt.value
  }

  /** What the copy of a reopened row must end by: the end before the episode, and every later rival's start. */
  predicate BoundsCopy(facts: seq<Fact>, i: nat, id: Id, t: Instant)
    requires i < |facts|
  {
    var f := facts[i];
    || (f.marks.previousEnd == Some(t) && (f.validAt.Some? ==> f.validAt.value < t))
    || exists j | 0 <= j < |facts| && j != i :: Rival(f, facts[j], id) && Follows(f, facts[j]) && facts[j].validAt == Some(t)
  }

  /* ---------- the definitions agree ---------- */

  lemma StandsIff(f: Fact, id: Id)
    ensures StandsWithout(f, id) <==> !(id in f.episodes && Without(f.episodes, id) == [])
  {
    OnlyFromIsCitedAlone(f, id);
  }

  lemma RivalIff(facts: seq<Fact>, i: nat, j: nat, id: Id)
    requires i < |facts| && j < |facts|
    ensures OtherValue(facts, i, j, id) <==> j != i && Rival(facts[i], facts[j], id)
    ensures LaterValue(facts, i, j, id) <==> j != i && Rival(facts[i], facts[j], id) && Follows(facts[i], facts[j])
  {
  }

  lemma MadeIff(f: Fact, id: Id)
    ensures MadeClosure(f, id)
            <==> IsClosed(f) && f.marks.closedByEpisode == Some(id) && !(id in f.episodes && Without(f.episodes, id) == [])
  {
    StandsIff(f, id);
  }

  lemma OutdatedKeptIff(facts: seq<Fact>, i: nat, id: Id)
    requires i < |facts| && IsOutdated(facts[i])
    ensures Replaced(facts, i, id) <==> KeptClosed(facts, i, id)
  {
    forall j | 0 <= j < |facts|
      ensures OtherValue(facts, i, j, id) <==> j != i && Rival(facts[i], facts[j], id)
    {
      RivalIff(facts, i, j, id);
    }
  }

  lemma ReplacedIffKept(facts: seq<Fact>, i: nat, id: Id, now: Instant)
    requires i < |facts| && RowOk(facts[i], now) && MadeClosure(facts[i], id)
    ensures Replaced(facts, i, id) <==> KeptClosed(facts, i, id)
  {
    if IsOutdated(facts[i]) {
      OutdatedKeptIff(facts, i, id);
    } else {
      forall j | 0 <= j < |facts|
        ensures LaterValue(facts, i, j, id) <==> j != i && Rival(facts[i], facts[j], id) && Follows(facts[i], facts[j])
      {
        RivalIff(facts, i, j, id);
      }
    }
  }

  lemma CopyEndIs(facts: seq<Fact>, i: nat, id: Id, t: Instant)
    requires i < |facts|
    ensures ReopenedEnd(facts, i, id).Some? ==> BoundsCopy(facts, i, id, ReopenedEnd(facts, i, id).value)
    ensures BoundsCopy(facts, i, id, t) ==> ReopenedEnd(facts, i, id).Some? && ReopenedEnd(facts, i, id).value <= t
  {
    forall j | 0 <= j < |facts|
      ensures LaterValue(facts, i, j, id) <==> j != i && Rival(facts[i], facts[j], id) && Follows(facts[i], facts[j])
    {
      RivalIff(facts, i, j, id);
    }
  }

  /** Exactly which list of the result a row is in. */
  lemma FateIff(facts: seq<Fact>, i: nat, id: Id, now: Instant)
    requires i < |facts| && RowOk(facts[i], now)
    ensures var f, fate := facts[i], FateOf(facts, i, id);
            var emptied := f.marks.outdatedWhenWritten && f.invalidAt.Some? && f.marks.reopenedAs.None?;
            && (fate.Retracts? <==> !StandsWithout(f, id) && (IsRetracted(f) ==> emptied))
            && (fate.StaysClosed? <==> MadeClosure(f, id) && KeptClosed(facts, i, id))
            && (fate.Reopens? <==> MadeClosure(f, id) && !KeptClosed(facts, i, id))
            && (fate.Unlinks? <==> id in f.episodes && StandsWithout(f, id) && !MadeClosure(f, id))
  {
    StandsIff(facts[i], id);
    MadeIff(facts[i], id);
    if MadeClosure(facts[i], id) {
      ReplacedIffKept(facts, i, id, now);
    }
  }

  /* ---------- what becomes of the rows ---------- */

  /** A copy of the row as it was before the episode closed it, on the evidence that is left. */
  predicate CopyOfRow(f: Fact, copy: Fact, i: nat, id: Id, now: Instant) {
    && copy.source == f.source && copy.target == f.target && copy.relation == f.relation && copy.text == f.text
    && copy.vector == f.vector && copy.episodes == Without(f.episodes, id) && copy.validAt == f.validAt
    && copy.createdAt == now && copy.expiredAt.None?
    && copy.marks == Marks(None, None, false, f.marks.startFromEpisode, f.marks.replacesPrevious, None, Some(i))
  }

  /** The row withdrawn in favour of its copy, with everything else as it was. */
  predicate WithdrawnFor(f: Fact, g: Fact, k: nat, now: Instant) {
    && g == f.(invalidAt := g.invalidAt, expiredAt := g.expiredAt, marks := f.marks.(reopenedAs := Some(k)))
    && if IsRetracted(f) then g.invalidAt == f.invalidAt && g.expiredAt == f.expiredAt
       else g.invalidAt == f.validAt && g.expiredAt == Some(now)
  }

  /** A closure the episode made stays exactly where a rival keeps it; then the row only loses the episode. */
  lemma KeptClosureStays(facts: seq<Fact>, id: Id, now: Instant, i: nat)
    requires StoreOk(facts, now) && i < |facts| && MadeClosure(facts[i], id) && KeptClosed(facts, i, id)
    ensures |facts| <= |ForgetFacts(facts, id, now)|
    ensures ForgetFacts(facts, id, now)[i] == facts[i].(episodes := Without(facts[i].episodes, id))
    ensures forall k | |facts| <= k < |ForgetFacts(facts, id, now)| :: ForgetFacts(facts, id, now)[k].marks.reopenedFrom != Some(i)
  {
    MadeIff(facts[i], id);
    ReplacedIffKept(facts, i, id, now);
    RowsAfter(facts, id, now, |facts|, i);
    NoCopy(facts, id, now, i);
  }

  lemma NoCopy(facts: seq<Fact>, id: Id, now: Instant, i: nat)
    requires i < |facts| && !FateOf(facts, i, id).Reopens?
    ensures forall k | |facts| <= k < |ForgetFacts(facts, id, now)| :: ForgetFacts(facts, id, now)[k].marks.reopenedFrom != Some(i)
  {
    forall k | |facts| <= k < |ForgetFacts(facts, id, now)|
      ensures ForgetFacts(facts, id, now)[k].marks.reopenedFrom != Some(i)
    {
      var j := CopyComesFrom(facts, id, now, |facts|, k - |facts|);
    }
  }

  /** Every other closure it made is undone: the row is withdrawn, and a copy ends as early as anything requires. */
  lemma OtherClosureIsUndone(facts: seq<Fact>, id: Id, now: Instant, i: nat, t: Instant) returns (k: nat)
    requires StoreOk(facts, now) && i < |facts| && MadeClosure(facts[i], id) && !KeptClosed(facts, i, id)
    ensures |facts| <= k < |ForgetFacts(facts, id, now)|
    ensures var after := ForgetFacts(facts, id, now);
            && WithdrawnFor(facts[i], after[i], k, now) && CopyOfRow(facts[i], after[k], i, id, now)
            && (after[k].invalidAt.Some? ==> BoundsCopy(facts, i, id, after[k].invalidAt.value))
            && (BoundsCopy(facts, i, id, t) ==> after[k].invalidAt.Some? && after[k].invalidAt.value <= t)
  {
    MadeIff(facts[i], id);
    ReplacedIffKept(facts, i, id, now);
    CopyEndIs(facts, i, id, t);
    RowsAfter(facts, id, now, |facts|, i);
    k := |facts| + Rank(facts, id, now, i);
    CopyIsAt(facts, id, now, i);
  }

  /** Where a relation holds several values, and no value of the slot says otherwise, every closure is undone, up to its old end. */
  lemma ManyValuedIsReopened(facts: seq<Fact>, id: Id, now: Instant, i: nat) returns (k: nat)
    requires StoreOk(facts, now) && i < |facts| && MadeClosure(facts[i], id)
    requires facts[i].relation !in ["WORKS_AT", "HAS_ROLE", "HAS_TITLE", "LIVES_IN", "REPORTS_TO"]
    requires forall j | 0 <= j < |facts| && facts[j].source == facts[i].source && facts[j].relation == facts[i].relation ::
               !facts[j].marks.replacesPrevious
    ensures |facts| <= k < |ForgetFacts(facts, id, now)|
    ensures var f, copy := facts[i], ForgetFacts(facts, id, now)[k];
            && CopyOfRow(f, copy, i, id, now)
            && copy.invalidAt == if f.marks.previousEnd.Some? && (f.validAt.Some? ==> f.validAt.value < f.marks.previousEnd.value)
                                 then f.marks.previousEnd else None
  {
    forall j | 0 <= j < |facts|
      ensures !Rival(facts[i], facts[j], id)
    {
      assert "WORKS_AT" in ["WORKS_AT", "HAS_ROLE", "HAS_TITLE", "LIVES_IN", "REPORTS_TO"];
    }
    k := OtherClosureIsUndone(facts, id, now, i, facts[i].marks.previousEnd.GetOr(0));
  }

  /** A row that only the episode supports is withdrawn; one that was withdrawn already stays as it is, unless it was emptied. */
  lemma UnsupportedIsWithdrawn(facts: seq<Fact>, id: Id, now: Instant, i: nat)
    requires i < |facts| && !StandsWithout(facts[i], id)
    ensures |facts| <= |ForgetFacts(facts, id, now)|
    ensures var f, g := facts[i], ForgetFacts(facts, id, now)[i];
            var emptied := f.marks.outdatedWhenWritten && f.invalidAt.Some? && f.marks.reopenedAs.None?;
            if IsRetracted(f) && !emptied then g == f
            else g == f.(invalidAt := f.validAt, expiredAt := if emptied then f.expiredAt else Some(now),
                         marks := f.marks.(closedByEpisode := None, previousEnd := None, outdatedWhenWritten := false))
  {
    StandsIff(facts[i], id);
    RowsAfter(facts, id, now, |facts|, i);
  }

  /** Any other row only loses the episode. */
  lemma OthersLoseTheEpisode(facts: seq<Fact>, id: Id, now: Instant, i: nat)
    requires i < |facts| && StandsWithout(facts[i], id) && !MadeClosure(facts[i], id)
    ensures |facts| <= |ForgetFacts(facts, id, now)|
    ensures ForgetFacts(facts, id, now)[i] == facts[i].(episodes := Without(facts[i].episodes, id))
    ensures forall k | |facts| <= k < |ForgetFacts(facts, id, now)| :: ForgetFacts(facts, id, now)[k].marks.reopenedFrom != Some(i)
  {
    StandsIff(facts[i], id);
    MadeIff(facts[i], id);
    RowsAfter(facts, id, now, |facts|, i);
    NoCopy(facts, id, now, i);
  }
}
