/**
 * What forgetEpisode leaves behind, for every store and every episode.
 */
module Forgetting {
  import opened Wrappers
  import opened Temporal
  import opened Facts
  import opened RunInvariant
  import opened Corrections

  /** How many copies are added before row i is dealt with. */
  function Rank(facts: seq<Fact>, id: Id, now: Instant, i: nat): nat
    requires i <= |facts|
  {
    |ForgetUpTo(facts, id, now, i).copies|
  }

  lemma {:induction false} OutcomeGrows(facts: seq<Fact>, id: Id, now: Instant, i: nat, k: nat)
    requires i <= k <= |facts|
    ensures ForgetUpTo(facts, id, now, i).rows <= ForgetUpTo(facts, id, now, k).rows
    ensures ForgetUpTo(facts, id, now, i).copies <= ForgetUpTo(facts, id, now, k).copies
  {
    if i < k {
      OutcomeGrows(facts, id, now, i, k - 1);
      ExtendedGrows(ForgetUpTo(facts, id, now, k - 1), FateOf(facts, k - 1, id), facts[k - 1], |facts|, k - 1, id, now);
    }
  }

  lemma ExtendedGrows(u: Outcome, fate: Fate, f: Fact, n: nat, i: nat, id: Id, now: Instant)
    ensures u.rows <= Extended(u, fate, f, n, i, id, now).rows
    ensures u.copies <= Extended(u, fate, f, n, i, id, now).copies
  {
  }

  lemma NextRow(facts: seq<Fact>, id: Id, now: Instant, i: nat)
    requires i < |facts|
    ensures var next := ForgetUpTo(facts, id, now, i + 1);
            && next.rows[i] == RowAfter(facts, i, id, now, |facts| + Rank(facts, id, now, i))
            && (FateOf(facts, i, id).Reopens? ==>
                  next.copies == ForgetUpTo(facts, id, now, i).copies + [CopyAfter(facts, i, id, now)])
  {
  }

  /** What becomes of row i, and of its copy. */
  lemma RowsAfter(facts: seq<Fact>, id: Id, now: Instant, k: nat, i: nat)
    requires i < k <= |facts|
    ensures ForgetUpTo(facts, id, now, k).rows[i] == RowAfter(facts, i, id, now, |facts| + Rank(facts, id, now, i))
    ensures FateOf(facts, i, id).Reopens? ==>
              && Rank(facts, id, now, i) < |ForgetUpTo(facts, id, now, k).copies|
              && ForgetUpTo(facts, id, now, k).copies[Rank(facts, id, now, i)] == CopyAfter(facts, i, id, now)
  {
    OutcomeGrows(facts, id, now, i + 1, k);
    NextRow(facts, id, now, i);
    InPrefix(ForgetUpTo(facts, id, now, i + 1), ForgetUpTo(facts, id, now, k), i, Rank(facts, id, now, i));
  }

  lemma InPrefix(early: Outcome, late: Outcome, i: nat, c: nat)
    requires early.rows <= late.rows && early.copies <= late.copies && i < |early.rows|
    ensures late.rows[i] == early.rows[i]
    ensures c < |early.copies| ==> c < |late.copies| && late.copies[c] == early.copies[c]
  {
  }

  /** Every added copy is the copy of exactly one reopened row. */
  lemma {:induction false} CopyComesFrom(facts: seq<Fact>, id: Id, now: Instant, k: nat, c: nat) returns (i: nat)
    requires k <= |facts| && c < |ForgetUpTo(facts, id, now, k).copies|
    ensures i < k && FateOf(facts, i, id).Reopens? && Rank(facts, id, now, i) == c
    ensures ForgetUpTo(facts, id, now, k).copies[c] == CopyAfter(facts, i, id, now)
  {
    if c < |ForgetUpTo(facts, id, now, k - 1).copies| {
      i := CopyComesFrom(facts, id, now, k - 1, c);
    } else {
      i := k - 1;
    }
  }

  lemma OnlyFromIsCitedAlone(f: Fact, id: Id)
    ensures OnlyFrom(f, id) <==> id in f.episodes && Without(f.episodes, id) == []
  {
    if OnlyFrom(f, id) {
      assert f.episodes[0] == id;
    }
  }

  /** A closure made by the episode, of a row that others still support. */
  predicate OpenClosure(f: Fact, id: Id) {
    IsClosed(f) && f.marks.closedByEpisode == Some(id) && !OnlyFrom(f, id)
  }

  /**
   * A reopened row's copy starts where the row did and outlasts the end the
   * episode gave it, also when the next value begins at the row's own start.
   */
  lemma CopyOutlastsClosure(facts: seq<Fact>, i: nat, id: Id, now: Instant)
    requires StoreOk(facts, now) && i < |facts| && FateOf(facts, i, id).Reopens?
    ensures !IsRetracted(CopyAfter(facts, i, id, now)) && RowOk(CopyAfter(facts, i, id, now), now)
    ensures CopyAfter(facts, i, id, now).invalidAt.Some?
            ==> facts[i].invalidAt.value < CopyAfter(facts, i, id, now).invalidAt.value
  {
    OnlyFromIsCitedAlone(facts[i], id);
    var f, next := facts[i], NextValue(facts, i, id);
    if IsOutdated(f) && next.Some? {
      // had such a value begun where f did, it would hold there, and f would stay closed
      var j :| 0 <= j < |facts| && LaterValue(facts, i, j, id) && facts[j].validAt == next;
      assert RowOk(facts[j], now);
    }
  }

  /** A value another episode supports outlives the forgetting, as itself or as its reopened copy. */
  lemma OtherValueSurvives(facts: seq<Fact>, i: nat, j: nat, id: Id, now: Instant) returns (k: nat)
    requires StoreOk(facts, now) && i < |facts| && j < |facts| && OtherValue(facts, i, j, id)
    ensures k < |ForgetFacts(facts, id, now)|
    ensures Survives(ForgetFacts(facts, id, now)[k], facts[i], facts[j], id)
  {
    RowsAfter(facts, id, now, |facts|, j);
    ValueSurvives(facts, i, j, id, now, |facts| + Rank(facts, id, now, j));
    k := if FateOf(facts, j, id).Reopens? then |facts| + Rank(facts, id, now, j) else j;
  }

  lemma ValueSurvives(facts: seq<Fact>, i: nat, j: nat, id: Id, now: Instant, copy: nat)
    requires StoreOk(facts, now) && i < |facts| && j < |facts| && OtherValue(facts, i, j, id)
    ensures Survives(
              if FateOf(facts, j, id).Reopens? then CopyAfter(facts, j, id, now) else RowAfter(facts, j, id, now, copy),
              facts[i], facts[j], id)
  {
    OnlyFromIsCitedAlone(facts[j], id);
    if FateOf(facts, j, id).Reopens? {
      CopyOutlastsClosure(facts, j, id, now);
    }
  }

  /** g's value still holds in f's slot, on evidence other than the episode, over all of g's window. */
  predicate Survives(row: Fact, f: Fact, g: Fact, id: Id) {
    && SameSlot(row, f.source, f.relation)
    && !IsRetracted(row) && id !in row.episodes && row.episodes != []
    && row.validAt == g.validAt
    && (row.invalidAt.Some? ==> g.invalidAt.Some? && g.invalidAt.value <= row.invalidAt.value)
  }

  /** Nothing is deleted, and no row's statement, start or learning date changes. */
  lemma ForgetDeletesNothing(facts: seq<Fact>, id: Id, now: Instant, i: nat)
    requires i < |facts|
    ensures |facts| <= |ForgetFacts(facts, id, now)|
    ensures SameRecord(facts[i], ForgetFacts(facts, id, now)[i])
  {
    RowsAfter(facts, id, now, |facts|, i);
  }

  predicate SameRecord(f: Fact, g: Fact) {
    && g.source == f.source && g.target == f.target && g.relation == f.relation && g.text == f.text
    && g.vector == f.vector && g.validAt == f.validAt && g.createdAt == f.createdAt
  }

  /** Whatever still cites the episode is retracted. */
  lemma ForgottenIsNotEvidence(facts: seq<Fact>, id: Id, now: Instant, k: nat)
    requires StoreOk(facts, now)
    requires k < |ForgetFacts(facts, id, now)| && id in ForgetFacts(facts, id, now)[k].episodes
    ensures k < |facts| && IsRetracted(ForgetFacts(facts, id, now)[k])
  {
    var r := ForgetUpTo(facts, id, now, |facts|);
    if k < |facts| {
      RowsAfter(facts, id, now, |facts|, k);
      assert RowOk(facts[k], now);
    } else {
      var i := CopyComesFrom(facts, id, now, |facts|, k - |facts|);
    }
  }

  /** Two reopened rows never share a copy. */
  lemma RanksDiffer(facts: seq<Fact>, id: Id, now: Instant, i: nat, j: nat)
    requires i < j < |facts| && FateOf(facts, i, id).Reopens?
    ensures Rank(facts, id, now, i) < Rank(facts, id, now, j)
  {
    RowsAfter(facts, id, now, j, i);
  }

  /** Each added row is the copy of one reopened row, which names it; it holds, on other evidence. */
  lemma AddedIsOneCopy(facts: seq<Fact>, id: Id, now: Instant, k: nat) returns (i: nat)
    requires StoreOk(facts, now) && |facts| <= k < |ForgetFacts(facts, id, now)|
    ensures i < |facts| && FateOf(facts, i, id).Reopens?
    ensures ForgetFacts(facts, id, now)[i].marks.reopenedAs == Some(k) && IsRetracted(ForgetFacts(facts, id, now)[i])
    ensures IsStandingCopy(facts[i], ForgetFacts(facts, id, now)[k], i, id, now)
  {
    i := CopyComesFrom(facts, id, now, |facts|, k - |facts|);
    RowsAfter(facts, id, now, |facts|, i);
    CopyOutlastsClosure(facts, i, id, now);
    SupersededIsRetracted(facts[i], k, now);
  }

  predicate IsStandingCopy(f: Fact, copy: Fact, i: nat, id: Id, now: Instant) {
    && copy.marks.reopenedFrom == Some(i) && copy.marks.closedByEpisode.None?
    && !IsRetracted(copy) && copy.episodes != [] && id !in copy.episodes
    && copy.createdAt == now && SameRecord(f.(createdAt := now), copy)
  }

  /** No two reopened rows share a copy. */
  lemma CopiesAreNotShared(facts: seq<Fact>, id: Id, now: Instant, i: nat, j: nat)
    requires i < j < |facts|
    requires FateOf(facts, i, id).Reopens? && FateOf(facts, j, id).Reopens?
    ensures ForgetFacts(facts, id, now)[i].marks.reopenedAs != ForgetFacts(facts, id, now)[j].marks.reopenedAs
  {
    NamesItsCopy(facts, id, now, i);
    NamesItsCopy(facts, id, now, j);
    RanksDiffer(facts, id, now, i, j);
  }

  lemma NamesItsCopy(facts: seq<Fact>, id: Id, now: Instant, i: nat)
    requires i < |facts| && FateOf(facts, i, id).Reopens?
    ensures ForgetFacts(facts, id, now)[i].marks.reopenedAs == Some(|facts| + Rank(facts, id, now, i))
  {
    RowsAfter(facts, id, now, |facts|, i);
  }

  lemma SupersededIsRetracted(f: Fact, copy: nat, now: Instant)
    ensures IsRetracted(Superseded(f, copy, now)) && Superseded(f, copy, now).marks.reopenedAs == Some(copy)
  {
  }

  /** The closure of row i is undone: row k is its copy, open or with the end it had before. */
  predicate ReopenedOnce(facts: seq<Fact>, id: Id, after: seq<Fact>, i: nat, k: nat)
    requires i < |facts| <= |after| && k < |after|
  {
    && |facts| <= k && after[k].marks.reopenedFrom == Some(i) && after[i].marks.reopenedAs == Some(k)
    && after[k].validAt == facts[i].validAt && after[k].invalidAt == ReopenedEnd(facts, i, id)
    && (after[k].invalidAt.Some? && facts[i].invalidAt.Some? ==> facts[i].invalidAt.value < after[k].invalidAt.value)
  }

  /** Row k, a value of row i's slot on other evidence, takes over by its end (for an outdated row: at its start). */
  predicate TakenOver(facts: seq<Fact>, id: Id, after: seq<Fact>, i: nat, k: nat)
    requires i < |facts| <= |after| && k < |after|
  {
    && after[i] == Unlinked(facts[i], id)
    && SameSlot(after[k], facts[i].source, facts[i].relation) && !IsRetracted(after[k])
    && id !in after[k].episodes && after[k].episodes != [] && after[k].validAt.Some?
    && (if IsOutdated(facts[i]) then facts[i].validAt.Some? && Covers(after[k], facts[i].validAt.value)
        else facts[i].invalidAt.Some? && after[k].validAt.value <= facts[i].invalidAt.value)
  }

  lemma ClosureIsTakenOver(facts: seq<Fact>, id: Id, now: Instant, i: nat) returns (k: nat)
    requires StoreOk(facts, now) && i < |facts| && OpenClosure(facts[i], id) && Replaced(facts, i, id)
    ensures |facts| <= |ForgetFacts(facts, id, now)| && k < |ForgetFacts(facts, id, now)|
    ensures TakenOver(facts, id, ForgetFacts(facts, id, now), i, k)
  {
    OnlyFromIsCitedAlone(facts[i], id);
    RowsAfter(facts, id, now, |facts|, i);
    var j := Taker(facts, i, id, now);
    k := OtherValueSurvives(facts, i, j, id, now);
  }

  lemma ClosureIsReopened(facts: seq<Fact>, id: Id, now: Instant, i: nat) returns (k: nat)
    requires StoreOk(facts, now) && i < |facts| && OpenClosure(facts[i], id) && !Replaced(facts, i, id)
    ensures |facts| <= |ForgetFacts(facts, id, now)| && k < |ForgetFacts(facts, id, now)|
    ensures ReopenedOnce(facts, id, ForgetFacts(facts, id, now), i, k)
  {
    OnlyFromIsCitedAlone(facts[i], id);
    NamesItsCopy(facts, id, now, i);
    k := |facts| + Rank(facts, id, now, i);
    CopyIsAt(facts, id, now, i);
    CopyOutlastsClosure(facts, i, id, now);
  }

  lemma CopyIsAt(facts: seq<Fact>, id: Id, now: Instant, i: nat)
    requires i < |facts| && FateOf(facts, i, id).Reopens?
    ensures |facts| + Rank(facts, id, now, i) < |ForgetFacts(facts, id, now)|
    ensures ForgetFacts(facts, id, now)[|facts| + Rank(facts, id, now, i)] == CopyAfter(facts, i, id, now)
  {
    RowsAfter(facts, id, now, |facts|, i);
  }

  /** Every closure the episode made is undone once, or stays because a surviving value takes over. */
  lemma ClosureIsSettled(facts: seq<Fact>, id: Id, now: Instant, i: nat) returns (k: nat)
    requires StoreOk(facts, now) && i < |facts| && OpenClosure(facts[i], id)
    ensures |facts| <= |ForgetFacts(facts, id, now)| && k < |ForgetFacts(facts, id, now)|
    ensures if Replaced(facts, i, id) then TakenOver(facts, id, ForgetFacts(facts, id, now), i, k)
            else ReopenedOnce(facts, id, ForgetFacts(facts, id, now), i, k)
  {
    if Replaced(facts, i, id) {
      k := ClosureIsTakenOver(facts, id, now, i);
    } else {
      k := ClosureIsReopened(facts, id, now, i);
    }
  }

  /** The value that replaces a closed row. */
  lemma Taker(facts: seq<Fact>, i: nat, id: Id, now: Instant) returns (j: nat)
    requires StoreOk(facts, now) && i < |facts| && OpenClosure(facts[i], id) && Replaced(facts, i, id)
    ensures j < |facts| && OtherValue(facts, i, j, id)
    ensures var f := facts[i];
            if IsOutdated(f) then f.validAt.Some? && Covers(facts[j], f.validAt.value)
            else facts[j].validAt.value <= f.invalidAt.value
  {
    var f := facts[i];
    if IsOutdated(f) {
      j :| 0 <= j < |facts| && OtherValue(facts, i, j, id) && f.validAt.Some? && Covers(facts[j], f.validAt.value);
    } else {
      j :| 0 <= j < |facts| && LaterValue(facts, i, j, id) && facts[j].validAt == NextValue(facts, i, id);
    }
  }

  lemma RowAfterOk(facts: seq<Fact>, i: nat, id: Id, now: Instant, copy: nat)
    requires i < |facts| && RowOk(facts[i], now)
    ensures RowOk(RowAfter(facts, i, id, now, copy), now)
  {
    OnlyFromIsCitedAlone(facts[i], id);
  }

  /** No window that was not empty is emptied, but by a dated retraction. */
  lemma ForgetKeepsWindows(facts: seq<Fact>, id: Id, now: Instant)
    requires StoreOk(facts, now) && Windowed(facts)
    ensures Windowed(ForgetFacts(facts, id, now))
  {
    var after := ForgetFacts(facts, id, now);
    forall k | 0 <= k < |after|
      ensures WellFormed(after[k])
    {
      if k < |facts| {
        RowsAfter(facts, id, now, |facts|, k);
        RowAfterIsWindowed(facts, k, id, now, |facts| + Rank(facts, id, now, k));
      } else {
        var i := CopyComesFrom(facts, id, now, |facts|, k - |facts|);
        CopyOutlastsClosure(facts, i, id, now);
      }
    }
  }

  lemma RowAfterIsWindowed(facts: seq<Fact>, i: nat, id: Id, now: Instant, copy: nat)
    requires i < |facts| && RowOk(facts[i], now) && WellFormed(facts[i])
    ensures WellFormed(RowAfter(facts, i, id, now, copy))
  {
    OnlyFromIsCitedAlone(facts[i], id);
  }

  /** The store stays well formed. */
  lemma ForgetKeepsStore(facts: seq<Fact>, id: Id, now: Instant)
    requires StoreOk(facts, now)
    ensures StoreOk(ForgetFacts(facts, id, now), now)
  {
    var after := ForgetFacts(facts, id, now);
    forall k | 0 <= k < |after|
      ensures RowOk(after[k], now)
    {
      if k < |facts| {
        RowsAfter(facts, id, now, |facts|, k);
        RowAfterOk(facts, k, id, now, |facts| + Rank(facts, id, now, k));
      } else {
        var i := CopyComesFrom(facts, id, now, |facts|, k - |facts|);
        CopyOutlastsClosure(facts, i, id, now);
      }
    }
  }
}
