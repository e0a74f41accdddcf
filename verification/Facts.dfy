/**
 * Fact rows and the pure helpers of src/pipeline/ingest.ts.
 *
 * A store holds one group's rows in insertion order, so a row's position
 * stands for its uuid: fresh for an added row, and fixed by every update.
 * A relation name stands for its normalised form.
 */
module Facts {
  import opened Wrappers
  import opened Temporal

  type Id = nat
  type Vector = nat

  const DAY_MS := 86_400_000
  const SINGLE_VALUED: set<string> := {"WORKS_AT", "HAS_ROLE", "HAS_TITLE", "LIVES_IN", "REPORTS_TO"}

  /** The attributes the code reads back. */
  datatype Marks = Marks(
    closedByEpisode: Option<Id>,
    previousEnd: Option<Instant>,
    outdatedWhenWritten: bool,
    startFromEpisode: bool,
    replacesPrevious: bool,
    reopenedAs: Option<nat>,
    reopenedFrom: Option<nat>)

  const NO_MARKS := Marks(None, None, false, false, false, None, None)

  datatype Fact = Fact(
    source: Id,
    target: Id,
    relation: string,
    text: string,
    vector: Option<Vector>,
    episodes: seq<Id>,
    validAt: Option<Instant>,
    invalidAt: Option<Instant>,
    createdAt: Instant,
    expiredAt: Option<Instant>,
    marks: Marks)

  function StampsOf(f: Fact): Stamps {
    Stamps(f.validAt, f.invalidAt, Some(f.createdAt), f.expiredAt)
  }

  predicate ActiveAt(f: Fact, at: Instant, asOf: Instant) {
    IsFactActive(StampsOf(f), at, asOf)
  }

  /** Closed at or before its own start, or withdrawn with no end on record. */
  predicate IsRetracted(f: Fact) {
    if f.invalidAt.Some? then f.validAt.Some? && f.invalidAt.value <= f.validAt.value else f.expiredAt.Some?
  }

  predicate IsOutdated(f: Fact) {
    f.marks.outdatedWhenWritten
  }

  /** Does the half-open window contain t? */
  predicate Covers(f: Fact, t: Instant) {
    (f.validAt.None? || f.validAt.value <= t) && (f.invalidAt.None? || t < f.invalidAt.value)
  }

  /** Active at the clock, or active from a start that is still ahead. */
  predicate IsLive(f: Fact, now: Instant) {
    ActiveAt(f, now, now) || (f.validAt.Some? && f.validAt.value > now && ActiveAt(f, f.validAt.value, now))
  }

  predicate Touches(f: Fact, entity: Id) {
    f.source == entity || f.target == entity
  }

  predicate Connects(f: Fact, a: Id, b: Id) {
    (f.source == a && f.target == b) || (f.source == b && f.target == a)
  }

  predicate SameSlot(f: Fact, source: Id, relation: string) {
    f.source == source && f.relation == relation
  }

  function Earliest(a: Option<Instant>, b: Option<Instant>): (e: Option<Instant>)
    ensures e == a || e == b
    ensures e.None? <==> a.None? && b.None?
    ensures a.Some? ==> e.value <= a.value
    ensures b.Some? ==> e.value <= b.value
  {
    if a.None? then b else if b.None? then a else if a.value <= b.value then a else b
  }

  function WithStart(m: Marks, fromEpisode: bool): Marks {
    m.(startFromEpisode := fromEpisode)
  }

  /** Without the marker of a closure made by an ingestion. */
  function WithoutEpisodeClosure(m: Marks): Marks {
    m.(closedByEpisode := None, previousEnd := None)
  }

  /** Without anything that says how the row was closed: what a reopened copy inherits. */
  function WithoutClosure(m: Marks): Marks {
    WithoutEpisodeClosure(m).(outdatedWhenWritten := false, reopenedAs := None)
  }

  /** `id` is the only episode the row cites. */
  predicate OnlyFrom(f: Fact, id: Id) {
    f.episodes != [] && forall k | 0 <= k < |f.episodes| :: f.episodes[k] == id
  }

  /* ---------- the other values of a one-value slot ---------- */

  /** Row j is another value of row i's slot that holds without episode `id`, in a slot with one value at a time. */
  predicate OtherValue(facts: seq<Fact>, i: nat, j: nat, id: Id)
    requires i < |facts| && j < |facts|
  {
    var f, g := facts[i], facts[j];
    && j != i
    && g.validAt.Some?
    && SameSlot(g, f.source, f.relation)
    && !IsRetracted(g)
    && !OnlyFrom(g, id)
    && (f.relation in SINGLE_VALUED || f.marks.replacesPrevious || g.marks.replacesPrevious)
  }

  /** Does g begin after f (or at its start, written later; or after its end, when its start is unknown)? */
  predicate BeginsAfter(f: Fact, g: Fact)
    requires g.validAt.Some?
  {
    if f.validAt.Some? then
      g.validAt.value > f.validAt.value || (g.validAt == f.validAt && g.createdAt > f.createdAt)
    else f.invalidAt.Some? && g.validAt.value >= f.invalidAt.value
  }

  predicate LaterValue(facts: seq<Fact>, i: nat, j: nat, id: Id)
    requires i < |facts| && j < |facts|
  {
    OtherValue(facts, i, j, id) && BeginsAfter(facts[i], facts[j])
  }

  /** The start of the earliest later value among the first k rows. */
  function NextValueUpTo(facts: seq<Fact>, i: nat, id: Id, k: nat): (next: Option<Instant>)
    requires i < |facts| && k <= |facts|
    ensures next.None? <==> forall j | 0 <= j < k :: !LaterValue(facts, i, j, id)
    ensures next.Some? ==> exists j :: 0 <= j < k && LaterValue(facts, i, j, id) && facts[j].validAt == next
    ensures next.Some? ==> forall j | 0 <= j < k && LaterValue(facts, i, j, id) :: next.value <= facts[j].validAt.value
  {
    if k == 0 then None
    else
      var next := NextValueUpTo(facts, i, id, k - 1);
      if LaterValue(facts, i, k - 1, id) then Earliest(next, facts[k - 1].validAt) else next
  }

  function NextValue(facts: seq<Fact>, i: nat, id: Id): Option<Instant>
    requires i < |facts|
  {
    NextValueUpTo(facts, i, id, |facts|)
  }

  /** The earliest start among the later values, found in one pass. */
  method FindNextValue(facts: seq<Fact>, i: nat, id: Id) returns (next: Option<Instant>)
    requires i < |facts|
    ensures next == NextValue(facts, i, id)
    ensures next.None? <==> forall j | 0 <= j < |facts| :: !LaterValue(facts, i, j, id)
  {
    next := None;
    for j := 0 to |facts|
      invariant next == NextValueUpTo(facts, i, id, j)
    {
      if OtherValue(facts, i, j, id) {
        if BeginsAfter(facts[i], facts[j]) {
          next := Earliest(next, facts[j].validAt);
        }
      }
    }
  }

  /* ---------- windows ---------- */

  /** A non-empty window or an unknown bound, or a retraction that says when it was made. */
  predicate WellFormed(f: Fact) {
    f.validAt.Some? && f.invalidAt.Some? && f.invalidAt.value <= f.validAt.value
    ==> f.invalidAt == f.validAt && f.expiredAt.Some?
  }

  /** A window contains exactly the instants at which a row is active while its end is as it was written. */
  lemma CoversIff(f: Fact, t: Instant)
    ensures Covers(f, t) <==> ActiveAt(f.(expiredAt := None), t, f.createdAt)
  {
  }

  /** Exactly the rows that were never true, once all about them is known, are retracted. */
  lemma RetractedIff(f: Fact, asOf: Instant)
    requires f.createdAt <= asOf && (f.expiredAt.Some? ==> f.expiredAt.value <= asOf)
    ensures IsRetracted(f) <==> forall at :: !ActiveAt(f, at, asOf)
  {
    if !IsRetracted(f) {
      var at := if f.validAt.Some? then f.validAt.value else if f.invalidAt.Some? then f.invalidAt.value - 1 else 0;
      assert ActiveAt(f, at, asOf);
    }
  }

  /** Exactly the rows that are true now or will be are live. */
  lemma LiveIff(f: Fact, now: Instant)
    ensures IsLive(f, now) <==> exists at :: at >= now && ActiveAt(f, at, now)
  {
    if at :| at >= now && ActiveAt(f, at, now) {
      assert f.validAt.Some? && f.validAt.value > now ==> ActiveAt(f, f.validAt.value, now);
    }
    if IsLive(f, now) {
      assert ActiveAt(f, now, now) || ActiveAt(f, f.validAt.value, now);
    }
  }

  /** A retracted row is active at no instant once its retraction is known. */
  lemma RetractedNeverActive(f: Fact, at: Instant, asOf: Instant)
    requires IsRetracted(f)
    requires f.createdAt <= asOf && (f.expiredAt.Some? ==> f.expiredAt.value <= asOf)
    ensures !ActiveAt(f, at, asOf)
  {
  }
}
