/**
 * What a correction by hand makes readers see, before and after it is known.
 */
module Amendments {
  import opened Wrappers
  import opened Temporal
  import opened Facts
  import opened RunInvariant
  import opened Corrections

  predicate Within(start: Option<Instant>, end: Option<Instant>, at: Instant) {
    (start.None? || start.value <= at) && (end.None? || at < end.value)
  }

  /**
   * From now on the fact holds up to the end it was given, or never if it was
   * retracted; about earlier knowledge times it answers at least as it did,
   * and exactly so if it had no end. Its closure is no episode's any more.
   */
  lemma EndIsKnownFromNow(f: Fact, end: Option<Instant>, retract: bool, now: Instant, at: Instant, asOf: Instant)
    requires RowOk(f, now) && InvalidatedRow(f, end, retract, now).Ok?
    ensures var g := InvalidatedRow(f, end, retract, now).value;
            && RowOk(g, now) && g.marks.closedByEpisode.None?
            && (now <= asOf ==> (ActiveAt(g, at, asOf) <==> !retract && Within(f.validAt, Some(end.GetOr(now)), at)))
            && (asOf < now && ActiveAt(f, at, asOf) ==> ActiveAt(g, at, asOf))
            && (asOf < now && f.invalidAt.None? ==> (ActiveAt(g, at, asOf) <==> ActiveAt(f, at, asOf)))
  {
  }

  /**
   * Exactly when a fact can be ended by hand: it is there and not retracted,
   * and, unless it is retracted now, the end lies after its start and before
   * the end it has, which must not be past. Then nothing else about it changes.
   */
  lemma CanBeEndedIff(facts: seq<Fact>, i: nat, at: Option<Instant>, retract: bool, now: Instant)
    ensures var r := InvalidateFact(facts, i, at, retract, now);
            var end := if at.Some? then at.value else now;
            && (r.Ok? <==> && i < |facts| && !IsRetracted(facts[i])
                           && (retract || (&& (facts[i].validAt.Some? ==> facts[i].validAt.value < end)
                                           && (facts[i].invalidAt.Some? ==> end < facts[i].invalidAt.value && now < facts[i].invalidAt.value))))
            && (r == Err(NotFound) <==> i >= |facts|)
            && (r.Ok? ==> && |r.value| == |facts| && (forall j | 0 <= j < |facts| && j != i :: r.value[j] == facts[j])
                          && var f, g := facts[i], r.value[i];
                             && g.source == f.source && g.target == f.target && g.relation == f.relation && g.text == f.text
                             && g.vector == f.vector && g.episodes == f.episodes && g.validAt == f.validAt
                             && g.createdAt == f.createdAt && g.expiredAt == Some(now)
                             && g.invalidAt == (if retract then f.validAt else Some(end))
                             && g.marks == f.marks.(closedByEpisode := None, previousEnd := None))
  {
  }

  /** The marks a copy inherits: none that says how the old row was closed, and every other. */
  predicate InheritedMarks(from: Marks, i: nat, marks: Marks) {
    && marks.replacesPrevious == from.replacesPrevious && marks.startFromEpisode == from.startFromEpisode
    && marks.reopenedFrom == Some(i) && marks.reopenedAs.None?
    && marks.closedByEpisode.None? && marks.previousEnd.None? && !marks.outdatedWhenWritten
  }

  /**
   * Exactly when a fact can be reopened, and what is then added and kept: a
   * copy of the same statement, start and evidence, learned now, with the end
   * asked for; and the old row withdrawn, if it was not, naming its copy.
   */
  lemma ReopenedIs(facts: seq<Fact>, i: nat, end: Option<Instant>, now: Instant)
    ensures var r := ReopenFact(facts, i, end, now);
            && (r.Ok? <==> && i < |facts| && facts[i].marks.reopenedAs.None?
                           && (IsRetracted(facts[i]) || facts[i].invalidAt.Some?)
                           && (end.Some? && facts[i].validAt.Some? ==> facts[i].validAt.value < end.value))
            && (r == Err(NotFound) <==> i >= |facts|)
            && (r.Ok? ==>
                  && |r.value| == |facts| + 1
                  && (forall j | 0 <= j < |facts| && j != i :: r.value[j] == facts[j])
                  && var f, previous, copy := facts[i], r.value[i], r.value[|facts|];
                     && copy.source == f.source && copy.target == f.target && copy.relation == f.relation
                     && copy.text == f.text && copy.vector == f.vector && copy.episodes == f.episodes
                     && copy.validAt == f.validAt && copy.invalidAt == end
                     && copy.createdAt == now && copy.expiredAt.None? && InheritedMarks(f.marks, i, copy.marks)
                     && previous == f.(invalidAt := previous.invalidAt, expiredAt := previous.expiredAt,
                                       marks := f.marks.(reopenedAs := Some(|facts|)))
                     && (if IsRetracted(f) then previous.invalidAt == f.invalidAt && previous.expiredAt == f.expiredAt
                         else previous.invalidAt == f.validAt && previous.expiredAt == Some(now)))
  {
  }

  /**
   * For knowledge times from the reopening on, the old row is active nowhere
   * and its copy exactly over the window it was given; for earlier ones the
   * copy is active nowhere. No other row changes, and the old row is done with:
   * it cannot be reopened once more.
   */
  lemma ReopenMovesBelief(facts: seq<Fact>, i: nat, end: Option<Instant>, now: Instant, at: Instant, asOf: Instant)
    requires StoreOk(facts, now) && ReopenFact(facts, i, end, now).Ok?
    ensures i < |facts| && |ReopenFact(facts, i, end, now).value| == |facts| + 1
    ensures var rows := ReopenFact(facts, i, end, now).value;
            && (now <= asOf ==> !ActiveAt(rows[i], at, asOf)
                                && (ActiveAt(rows[|facts|], at, asOf) <==> Within(facts[i].validAt, end, at)))
            && (asOf < now ==> !ActiveAt(rows[|facts|], at, asOf)
                               && (ActiveAt(facts[i], at, asOf) ==> ActiveAt(rows[i], at, asOf)))
            && (forall j | 0 <= j < |facts| && j != i :: rows[j] == facts[j])
            && (forall again :: !CanReopen(rows[i], again))
  {
    assert RowOk(facts[i], now);
    var rows := ReopenFact(facts, i, end, now).value;
    assert rows[i] == Superseded(facts[i], |facts|, now) && rows[|facts|] == CopyOf(facts[i], i, end, now);
    if now <= asOf {
      assert IsRetracted(rows[i]);
      RetractedNeverActive(rows[i], at, asOf);
    }
  }
}
