/**
 * What forgetting an episode reports beside the rows it changes: closures
 * without a marker, summaries put back, and entities left with nothing.
 */
module ForgetReports {
  import opened Wrappers
  import opened Temporal
  import opened Facts
  import opened RunInvariant
  import opened Corrections
  import opened Forgetting
  import opened Closures

  /* ---------- closures from before the marker ---------- */

  /** The episode's run added a row at this instant. */
  predicate WroteAt(facts: seq<Fact>, id: Id, t: Instant) {
    exists j | 0 <= j < |facts| ::
      && facts[j].episodes != [] && facts[j].episodes[0] == id
      && facts[j].marks.reopenedFrom.None? && facts[j].createdAt == t
  }

  /** Row i looks closed by the episode's run, but no episode is named on it. */
  predicate Unmarked(facts: seq<Fact>, i: nat, id: Id)
    requires i < |facts|
  {
    var f := facts[i];
    && !(id in f.episodes && Without(f.episodes, id) == [])
    && IsClosed(f) && f.marks.closedByEpisode.None?
    && f.expiredAt.Some? && WroteAt(facts, id, f.expiredAt.value)
  }

  /** A closure that is only reported stays: the row loses the episode as evidence, and nothing else. */
  lemma UnmarkedStaysClosed(facts: seq<Fact>, i: nat, id: Id, now: Instant)
    requires i < |facts| && Unmarked(facts, i, id)
    ensures i < |ForgetFacts(facts, id, now)| && ForgetFacts(facts, id, now)[i] == Unlinked(facts[i], id)
    ensures forall k | |facts| <= k < |ForgetFacts(facts, id, now)| :: !CopyNames(facts, id, now, k, i)
  {
    RowsAfter(facts, id, now, |facts|, i);
    assert id !in facts[i].episodes ==> Unlinked(facts[i], id) == facts[i];
    forall k | |facts| <= k < |ForgetFacts(facts, id, now)|
      ensures !CopyNames(facts, id, now, k, i)
    {
      var j := CopyComesFrom(facts, id, now, |facts|, k - |facts|);
      assert j != i;
    }
  }

  /** Added row k is a copy of row i. */
  predicate CopyNames(facts: seq<Fact>, id: Id, now: Instant, k: nat, i: nat) {
    k < |ForgetFacts(facts, id, now)| && ForgetFacts(facts, id, now)[k].marks.reopenedFrom == Some(i)
  }

  /**
   * Exactly which closures are only reported: of rows that stand without the
   * episode, by an end nobody has undone and no episode is named for, learned
   * at an instant at which the episode's run added a row of its own.
   */
  lemma UnmarkedIff(facts: seq<Fact>, i: nat, id: Id)
    requires i < |facts|
    ensures var f := facts[i];
            Unmarked(facts, i, id)
            <==> && StandsWithout(f, id) && f.invalidAt.Some? && f.marks.closedByEpisode.None? && f.marks.reopenedAs.None?
                 && (IsRetracted(f) ==> f.marks.outdatedWhenWritten)
                 && exists j | 0 <= j < |facts| ::
                      && |facts[j].episodes| > 0 && facts[j].episodes[0] == id && facts[j].marks.reopenedFrom.None?
                      && f.expiredAt == Some(facts[j].createdAt)
  {
    StandsIff(facts[i], id);
    var learned := facts[i].expiredAt;
    if learned.Some? && WroteAt(facts, id, learned.value) {
      var j :| 0 <= j < |facts| && facts[j].episodes != [] && facts[j].episodes[0] == id
        && facts[j].marks.reopenedFrom.None? && facts[j].createdAt == learned.value;
      assert learned == Some(facts[j].createdAt);
    }
  }

  /* ---------- entities ---------- */

  /** An entity's summary, who wrote it and what it replaced, and who created the entity. */
  datatype Node = Node(uuid: Id, summary: string, summaryBy: Option<Id>, previousSummary: Option<string>,
                       createdBy: Option<Id>)

  /** The summary from before the episode, if the episode wrote the one there is. */
  function Restored(e: Node, id: Id): Node {
    var before := e.previousSummary.GetOr("");
    if e.summaryBy == Some(id) && before != e.summary
    then e.(summary := before, summaryBy := None, previousSummary := None)
    else e
  }

  /** A row that counts before the forget, and is not withdrawn by it, touches the entity. */
  predicate Used(facts: seq<Fact>, id: Id, entity: Id) {
    exists i | 0 <= i < |facts| :: !IsRetracted(facts[i]) && !FateOf(facts, i, id).Retracts? && Touches(facts[i], entity)
  }

  /** The entities whose summary changes, as they become. */
  function Summaries(entities: seq<Node>, id: Id): seq<Node> {
    if entities == [] then []
    else
      var e := entities[|entities| - 1];
      Summaries(entities[..|entities| - 1], id) + if Restored(e, id) != e then [Restored(e, id)] else []
  }

  function AllRestored(entities: seq<Node>, id: Id): seq<Node> {
    seq(|entities|, i requires 0 <= i < |entities| => Restored(entities[i], id))
  }

  /** Putting summaries back once is enough, and leaves none that the episode wrote over another. */
  lemma RestoringIsFinal(e: Node, id: Id)
    ensures Restored(Restored(e, id), id) == Restored(e, id)
    ensures Restored(e, id) != e <==> e.summaryBy == Some(id) && e.summary != e.previousSummary.GetOr("")
    ensures e.summaryBy == Some(id) ==> Restored(e, id).summary == e.previousSummary.GetOr("")
    ensures Restored(e, id) != e ==> Restored(e, id).summaryBy.None? && Restored(e, id).previousSummary.None?
    ensures e.summaryBy != Some(id) ==> Restored(e, id) == e
  {
  }

  predicate Orphaned(facts: seq<Fact>, id: Id, e: Node) {
    e.createdBy == Some(id) && Restored(e, id).summary == "" && !Used(facts, id, e.uuid)
  }

  /** Exactly which summaries are put back, in which order, and what every entity becomes. */
  lemma {:induction false} SummariesAre(entities: seq<Node>, id: Id, e: Node)
    ensures Summaries(entities + [e], id)
            == Summaries(entities, id)
               + if e.summaryBy == Some(id) && e.summary != e.previousSummary.GetOr("")
                 then [e.(summary := e.previousSummary.GetOr(""), summaryBy := None, previousSummary := None)] else []
    ensures Summaries([], id) == []
    ensures |AllRestored(entities, id)| == |entities|
    ensures forall k | 0 <= k < |entities| ::
              AllRestored(entities, id)[k]
              == if entities[k].summaryBy == Some(id) && entities[k].summary != entities[k].previousSummary.GetOr("")
                 then entities[k].(summary := entities[k].previousSummary.GetOr(""), summaryBy := None, previousSummary := None)
                 else entities[k]
  {
    assert (entities + [e])[..|entities|] == entities;
  }

  /**
   * Exactly which entities are reported as left with nothing: created by the
   * episode, without a summary once it is put back, and touched by no row
   * that is not retracted, but those that only the episode supports.
   */
  lemma OrphanedIff(facts: seq<Fact>, id: Id, e: Node)
    ensures Orphaned(facts, id, e)
            <==> && e.createdBy == Some(id)
                 && (if e.summaryBy == Some(id) then e.previousSummary.GetOr("") == "" else e.summary == "")
                 && forall i | 0 <= i < |facts| && (facts[i].source == e.uuid || facts[i].target == e.uuid) ::
                      IsRetracted(facts[i]) || !StandsWithout(facts[i], id)
  {
    forall i | 0 <= i < |facts|
      ensures FateOf(facts, i, id).Retracts? && !IsRetracted(facts[i]) <==> !IsRetracted(facts[i]) && !StandsWithout(facts[i], id)
    {
      StandsIff(facts[i], id);
    }
  }

  /** After the forget some row that is not retracted touches the entity. */
  predicate HasFact(after: seq<Fact>, entity: Id) {
    exists k | 0 <= k < |after| :: !IsRetracted(after[k]) && Touches(after[k], entity)
  }

  /** The forget reopens a row whose window the episode had emptied, and which touches the entity. */
  predicate RevivesOutdated(facts: seq<Fact>, id: Id, entity: Id) {
    exists i | 0 <= i < |facts| :: FateOf(facts, i, id).Reopens? && IsRetracted(facts[i]) && Touches(facts[i], entity)
  }

  /** A row that survives is one that counted and stays, or an emptied one that is reopened. */
  lemma SurvivingRow(facts: seq<Fact>, id: Id, now: Instant, i: nat)
    requires StoreOk(facts, now) && i < |facts|
    ensures i < |ForgetFacts(facts, id, now)|
    ensures !IsRetracted(ForgetFacts(facts, id, now)[i])
            <==> !IsRetracted(facts[i]) && !FateOf(facts, i, id).Retracts? && !FateOf(facts, i, id).Reopens?
    ensures FateOf(facts, i, id).Reopens? ==>
              && |facts| + Rank(facts, id, now, i) < |ForgetFacts(facts, id, now)|
              && ForgetFacts(facts, id, now)[|facts| + Rank(facts, id, now, i)] == CopyAfter(facts, i, id, now)
              && !IsRetracted(CopyAfter(facts, i, id, now))
  {
    RowsAfter(facts, id, now, |facts|, i);
    if FateOf(facts, i, id).Reopens? {
      SupersededIsRetracted(facts[i], |facts| + Rank(facts, id, now, i), now);
      CopyOutlastsClosure(facts, i, id, now);
    }
  }

  /**
   * Exactly when an entity that no counted row used still has a fact after the
   * forget: a row the episode had emptied is reopened on it.
   */
  lemma UnusedHasFactIff(facts: seq<Fact>, id: Id, now: Instant, entity: Id)
    requires StoreOk(facts, now) && !Used(facts, id, entity)
    ensures HasFact(ForgetFacts(facts, id, now), entity) <==> RevivesOutdated(facts, id, entity)
  {
    var after := ForgetFacts(facts, id, now);
    if k: nat :| k < |after| && !IsRetracted(after[k]) && Touches(after[k], entity) {
      var i := k;
      if k < |facts| {
        SurvivingRow(facts, id, now, k);
        ForgetDeletesNothing(facts, id, now, k);
      } else {
        i := CopyComesFrom(facts, id, now, |facts|, k - |facts|);
      }
      assert Touches(facts[i], entity);
      assert FateOf(facts, i, id).Reopens? && IsRetracted(facts[i]);
    }
    if i: nat :| i < |facts| && FateOf(facts, i, id).Reopens? && IsRetracted(facts[i]) && Touches(facts[i], entity) {
      SurvivingRow(facts, id, now, i);
      assert Touches(CopyAfter(facts, i, id, now), entity);
    }
  }
}
