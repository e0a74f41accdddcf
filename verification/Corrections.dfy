/**
 * The three corrections of src/pipeline/ingest.ts: invalidateFact, reopenFact
 * and forgetEpisode, as functions of a group's rows. A correction that cannot
 * be applied says why and changes nothing.
 */
module Corrections {
  import opened Wrappers
  import opened Temporal
  import opened Facts

  datatype Failure = NotFound | Conflict

  /* ---------- invalidateFact ---------- */

  /** Ends the fact at `at` (default now), or retracts it. */
  function InvalidatedRow(f: Fact, at: Option<Instant>, retract: bool, now: Instant): Result<Fact, Failure> {
    var end := at.GetOr(now);
    if IsRetracted(f) then Err(Conflict)
    else if retract then
      Ok(f.(invalidAt := f.validAt, expiredAt := Some(now), marks := WithoutEpisodeClosure(f.marks)))
    else if f.invalidAt.Some? && (f.invalidAt.value <= end || f.invalidAt.value <= now) then Err(Conflict)
    else if f.validAt.Some? && end <= f.validAt.value then Err(Conflict)
    else Ok(f.(invalidAt := Some(end), expiredAt := Some(now), marks := WithoutEpisodeClosure(f.marks)))
  }

  function InvalidateFact(facts: seq<Fact>, i: nat, at: Option<Instant>, retract: bool, now: Instant)
    : Result<seq<Fact>, Failure>
  {
    if i >= |facts| then Err(NotFound)
    else match InvalidatedRow(facts[i], at, retract, now)
      case Err(e) => Err(e)
      case Ok(row) => Ok(facts[i := row])
  }

  /* ---------- reopenFact ---------- */

  /** What takes a reopened row's place, with the end it should have had. */
  function CopyOf(found: Fact, i: nat, end: Option<Instant>, now: Instant): Fact {
    found.(invalidAt := end, createdAt := now, expiredAt := None,
           marks := WithoutClosure(found.marks).(reopenedFrom := Some(i)))
  }

  /** The reopened row itself: retracted, unless it is already. */
  function Superseded(found: Fact, copy: nat, now: Instant): Fact {
    var marked := found.(marks := found.marks.(reopenedAs := Some(copy)));
    if IsRetracted(found) then marked else marked.(invalidAt := found.validAt, expiredAt := Some(now))
  }

  predicate CanReopen(f: Fact, end: Option<Instant>) {
    && f.marks.reopenedAs.None?
    && (IsRetracted(f) || f.invalidAt.Some?)
    && !(end.Some? && f.validAt.Some? && end.value <= f.validAt.value)
  }

  function ReopenFact(facts: seq<Fact>, i: nat, end: Option<Instant>, now: Instant): Result<seq<Fact>, Failure> {
    if i >= |facts| then Err(NotFound)
    else if !CanReopen(facts[i], end) then Err(Conflict)
    else Ok(facts[i := Superseded(facts[i], |facts|, now)] + [CopyOf(facts[i], i, end, now)])
  }

  /* ---------- forgetEpisode ---------- */

  function Without(s: seq<Id>, id: Id): (r: seq<Id>)
    ensures id !in r
    ensures forall e | e in s && e != id :: e in r
    ensures r == [] <==> forall k | 0 <= k < |s| :: s[k] == id
    ensures id !in s ==> r == s
  {
    if s == [] then []
    else
      var r := Without(s[..|s| - 1], id);
      assert s == s[..|s| - 1] + [s[|s| - 1]];
      if s[|s| - 1] == id then r else r + [s[|s| - 1]]
  }

  /** The row has an end that nobody has undone; an outdated one counts, although its window is empty. */
  predicate IsClosed(f: Fact) {
    f.invalidAt.Some? && (!IsRetracted(f) || IsOutdated(f)) && f.marks.reopenedAs.None?
  }

  /** The row without the episode among its evidence. */
  function Unlinked(f: Fact, id: Id): Fact {
    f.(episodes := Without(f.episodes, id))
  }

  /** Withdraws a row that nothing else supports. */
  function RetractedRow(f: Fact, now: Instant): Fact {
    f.(invalidAt := f.validAt,
       expiredAt := if IsClosed(f) && IsOutdated(f) then f.expiredAt else Some(now),
       marks := WithoutEpisodeClosure(f.marks).(outdatedWhenWritten := false))
  }

  /** The end the row had before the episode closed it. */
  function EndBefore(f: Fact): Option<Instant> {
    if f.marks.previousEnd.Some? && (f.validAt.None? || f.marks.previousEnd.value > f.validAt.value)
    then f.marks.previousEnd else None
  }

  /** Where the reopened copy of row i ends. */
  function ReopenedEnd(facts: seq<Fact>, i: nat, id: Id): Option<Instant>
    requires i < |facts|
  {
    Earliest(EndBefore(facts[i]), NextValue(facts, i, id))
  }

  /** Row i's end would stand without the episode, because of another value that does. */
  predicate Replaced(facts: seq<Fact>, i: nat, id: Id)
    requires i < |facts|
  {
    var f := facts[i];
    if IsOutdated(f) then
      exists j | 0 <= j < |facts| :: OtherValue(facts, i, j, id) && f.validAt.Some? && Covers(facts[j], f.validAt.value)
    else
      var next, end := NextValue(facts, i, id), ReopenedEnd(facts, i, id);
      next.Some? && end.Some? && f.invalidAt.Some? && end.value <= f.invalidAt.value
  }

  /** What forgetting does to one row. */
  datatype Fate =
    | Left
    | Retracts
    | Unlinks
    | StaysClosed
    | Reopens(end: Option<Instant>)

  function FateOf(facts: seq<Fact>, i: nat, id: Id): Fate
    requires i < |facts|
  {
    var f := facts[i];
    var cited := id in f.episodes;
    if cited && Without(f.episodes, id) == [] then
      if IsRetracted(f) && !(IsClosed(f) && IsOutdated(f)) then Left else Retracts
    else if IsClosed(f) && f.marks.closedByEpisode == Some(id) then
      if Replaced(facts, i, id) then StaysClosed else Reopens(ReopenedEnd(facts, i, id))
    else if cited then Unlinks
    else Left
  }

  /** The row f once the episode is forgotten; `copy` is where its reopened copy goes. */
  function RowFor(f: Fact, fate: Fate, id: Id, now: Instant, copy: nat): Fact {
    match fate
    case Left => f
    case Retracts => RetractedRow(f, now)
    case Unlinks => Unlinked(f, id)
    case StaysClosed => Unlinked(f, id)
    case Reopens(_) => Superseded(f, copy, now)
  }

  function RowAfter(facts: seq<Fact>, i: nat, id: Id, now: Instant, copy: nat): Fact
    requires i < |facts|
  {
    RowFor(facts[i], FateOf(facts, i, id), id, now, copy)
  }

  function CopyAfter(facts: seq<Fact>, i: nat, id: Id, now: Instant): Fact
    requires i < |facts| && FateOf(facts, i, id).Reopens?
  {
    CopyOf(Unlinked(facts[i], id), i, FateOf(facts, i, id).end, now)
  }

  /** The first k rows after forgetting, and the copies of those it reopened, in their order. */
  datatype Outcome = Outcome(rows: seq<Fact>, copies: seq<Fact>)

  /** The outcome with one more row f, at position i of n. */
  function Extended(u: Outcome, fate: Fate, f: Fact, n: nat, i: nat, id: Id, now: Instant): Outcome {
    Outcome(u.rows + [RowFor(f, fate, id, now, n + |u.copies|)],
            if fate.Reopens? then u.copies + [CopyOf(Unlinked(f, id), i, fate.end, now)] else u.copies)
  }

  function ForgetUpTo(facts: seq<Fact>, id: Id, now: Instant, k: nat): (r: Outcome)
    requires k <= |facts|
    ensures |r.rows| == k
  {
    if k == 0 then Outcome([], [])
    else
      Extended(ForgetUpTo(facts, id, now, k - 1), FateOf(facts, k - 1, id), facts[k - 1], |facts|, k - 1, id, now)
  }

  function ForgetFacts(facts: seq<Fact>, id: Id, now: Instant): seq<Fact> {
    var r := ForgetUpTo(facts, id, now, |facts|);
    r.rows + r.copies
  }
}
