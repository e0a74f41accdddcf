/**
 * The operations of IngestPipeline (src/pipeline/ingest.ts) on one group's
 * rows and episodes, one operation at a time.
 */
module IngestPipelines {
  import opened Wrappers
  import opened Temporal
  import opened Facts
  import opened Resolution
  import opened RunInvariant
  import opened Corrections
  import opened Forgetting
  import opened History
  import opened Episodes
  import opened ForgetReports
  import opened EpisodeRuns
  import opened Untouched

  /** The rows a forget changes, before anything is written. */
  datatype ForgetResult = ForgetResult(
    retracted: seq<(nat, Fact)>,
    unlinked: seq<(nat, Fact)>,
    reopened: seq<(nat, Fact, Fact)>,
    stillClosed: seq<nat>)

  /** What a forget answers: the changes, and what it only reports. */
  datatype ForgetReport = ForgetReport(
    changes: ForgetResult,
    unmarked: seq<nat>,
    summaries: seq<Node>,
    orphaned: seq<Node>)

  /** Each update writes the row's state in the outcome. */
  ghost predicate Writes(updates: seq<(nat, Fact)>, u: Outcome) {
    forall k | 0 <= k < |updates| :: updates[k].0 < |u.rows| && updates[k].1 == u.rows[updates[k].0]
  }

  /** The pairs are the outcome's copies, in order, each with its row's state. */
  ghost predicate Pairs(reopened: seq<(nat, Fact, Fact)>, u: Outcome) {
    && |reopened| == |u.copies|
    && forall k | 0 <= k < |reopened| ::
         reopened[k].0 < |u.rows| && reopened[k].1 == u.rows[reopened[k].0] && reopened[k].2 == u.copies[k]
  }

  ghost predicate Noticed(r: ForgetResult, i: nat) {
    || (exists k | 0 <= k < |r.retracted| :: r.retracted[k].0 == i)
    || (exists k | 0 <= k < |r.unlinked| :: r.unlinked[k].0 == i)
    || (exists k | 0 <= k < |r.reopened| :: r.reopened[k].0 == i)
  }

  /** The result writes the outcome for the rows gone over so far, and lists every row that changes. */
  ghost predicate ResultFor(r: ForgetResult, u: Outcome, facts: seq<Fact>) {
    && |u.rows| <= |facts|
    && Writes(r.retracted, u) && Writes(r.unlinked, u) && Pairs(r.reopened, u)
    && forall i | 0 <= i < |u.rows| && u.rows[i] != facts[i] :: Noticed(r, i)
  }

  /** The closures the result leaves in place are exactly those a surviving value took over. */
  ghost predicate StillClosedFor(s: seq<nat>, facts: seq<Fact>, id: Id, n: nat)
    requires n <= |facts|
  {
    forall i :: i in s <==> 0 <= i < n && FateOf(facts, i, id).StaysClosed?
  }

  predicate IsUpdated(updates: seq<(nat, Fact)>, i: nat) {
    exists k | 0 <= k < |updates| :: updates[k].0 == i
  }

  predicate IsReplaced(pairs: seq<(nat, Fact, Fact)>, i: nat) {
    exists k | 0 <= k < |pairs| :: pairs[k].0 == i
  }

  /** The rows the result withdraws are exactly those the episode alone supported. */
  ghost predicate RetractedFor(updates: seq<(nat, Fact)>, facts: seq<Fact>, id: Id, n: nat)
    requires n <= |facts|
  {
    forall i: nat :: IsUpdated(updates, i) <==> i < n && FateOf(facts, i, id).Retracts?
  }

  /** The row has other evidence, and is not reopened. */
  predicate OnlyLosesEvidence(facts: seq<Fact>, i: nat, id: Id)
    requires i < |facts|
  {
    FateOf(facts, i, id).Unlinks? || (FateOf(facts, i, id).StaysClosed? && id in facts[i].episodes)
  }

  /** The rows listed as losing the episode are exactly those that cite it with others and are not reopened. */
  ghost predicate UnlinkedFor(updates: seq<(nat, Fact)>, facts: seq<Fact>, id: Id, n: nat)
    requires n <= |facts|
  {
    forall i: nat :: IsUpdated(updates, i) <==> i < n && OnlyLosesEvidence(facts, i, id)
  }

  /** The rows listed as reopened are exactly those whose closure is undone. */
  ghost predicate ReopenedFor(pairs: seq<(nat, Fact, Fact)>, facts: seq<Fact>, id: Id, n: nat)
    requires n <= |facts|
  {
    forall i: nat :: IsReplaced(pairs, i) <==> i < n && FateOf(facts, i, id).Reopens?
  }

  lemma OneMoreUpdated(updates: seq<(nat, Fact)>, update: (nat, Fact))
    ensures forall j: nat :: IsUpdated(updates + [update], j) <==> IsUpdated(updates, j) || j == update.0
  {
    var longer := updates + [update];
    assert longer[|updates|] == update;
    forall j: nat | IsUpdated(updates, j)
      ensures IsUpdated(longer, j)
    {
      var k :| 0 <= k < |updates| && updates[k].0 == j;
      assert longer[k].0 == j;
    }
  }

  lemma OneMoreReplaced(pairs: seq<(nat, Fact, Fact)>, pair: (nat, Fact, Fact))
    ensures forall j: nat :: IsReplaced(pairs + [pair], j) <==> IsReplaced(pairs, j) || j == pair.0
  {
    var longer := pairs + [pair];
    assert longer[|pairs|] == pair;
    forall j: nat | IsReplaced(pairs, j)
      ensures IsReplaced(longer, j)
    {
      var k :| 0 <= k < |pairs| && pairs[k].0 == j;
      assert longer[k].0 == j;
    }
  }

  lemma ListsNoted(r: ForgetResult, facts: seq<Fact>, id: Id, now: Instant, i: nat)
    requires i < |facts|
    requires RetractedFor(r.retracted, facts, id, i) && UnlinkedFor(r.unlinked, facts, id, i) && ReopenedFor(r.reopened, facts, id, i)
    ensures var r' := Noted(r, FateOf(facts, i, id), facts[i], |facts|, i, id, now);
            && RetractedFor(r'.retracted, facts, id, i + 1) && UnlinkedFor(r'.unlinked, facts, id, i + 1)
            && ReopenedFor(r'.reopened, facts, id, i + 1)
  {
    var f := facts[i];
    OneMoreUpdated(r.retracted, (i, RetractedRow(f, now)));
    OneMoreUpdated(r.unlinked, (i, Unlinked(f, id)));
    var fate := FateOf(facts, i, id);
    if fate.Reopens? {
      OneMoreReplaced(r.reopened, (i, Superseded(f, |facts| + |r.reopened|, now), CopyOf(Unlinked(f, id), i, fate.end, now)));
    }
  }

  /** The result with one more row noted down; `n` is the number of rows. */
  function Noted(r: ForgetResult, fate: Fate, f: Fact, n: nat, i: nat, id: Id, now: Instant): ForgetResult {
    match fate
    case Left => r
    case Retracts => r.(retracted := r.retracted + [(i, RetractedRow(f, now))])
    case Unlinks => r.(unlinked := r.unlinked + [(i, Unlinked(f, id))])
    case StaysClosed =>
      r.(stillClosed := r.stillClosed + [i],
         unlinked := if id in f.episodes then r.unlinked + [(i, Unlinked(f, id))] else r.unlinked)
    case Reopens(end) =>
      r.(reopened := r.reopened + [(i, Superseded(f, n + |r.reopened|, now), CopyOf(Unlinked(f, id), i, end, now))])
  }

  lemma WritesStay(updates: seq<(nat, Fact)>, u: Outcome, u': Outcome)
    requires Writes(updates, u) && u.rows <= u'.rows
    ensures Writes(updates, u')
  {
  }

  lemma WritesOneMore(updates: seq<(nat, Fact)>, u: Outcome, update: (nat, Fact))
    requires Writes(updates, u) && update.0 < |u.rows| && update.1 == u.rows[update.0]
    ensures Writes(updates + [update], u) && (updates + [update])[|updates|].0 == update.0
  {
  }

  lemma PairsOneMore(pairs: seq<(nat, Fact, Fact)>, u: Outcome, u': Outcome, pair: (nat, Fact, Fact))
    requires Pairs(pairs, u) && u.rows <= u'.rows && u'.copies == u.copies + [pair.2]
    requires pair.0 < |u'.rows| && pair.1 == u'.rows[pair.0]
    ensures Pairs(pairs + [pair], u') && (pairs + [pair])[|pairs|].0 == pair.0
  {
  }

  /** Noting down a fate writes the row's state, and its copy if it is reopened. */
  lemma NotedIsWritten(r: ForgetResult, u: Outcome, fate: Fate, facts: seq<Fact>, i: nat, id: Id, now: Instant)
    requires i == |u.rows| < |facts| && ResultFor(r, u, facts)
    ensures ResultFor(Noted(r, fate, facts[i], |facts|, i, id, now),
                      Extended(u, fate, facts[i], |facts|, i, id, now), facts)
  {
    var f := facts[i];
    var r' := Noted(r, fate, f, |facts|, i, id, now);
    var u' := Extended(u, fate, f, |facts|, i, id, now);
    WritesStay(r.retracted, u, u');
    WritesStay(r.unlinked, u, u');
    match fate {
      case Left =>
      case Retracts => WritesOneMore(r.retracted, u', (i, RetractedRow(f, now)));
      case Unlinks => WritesOneMore(r.unlinked, u', (i, Unlinked(f, id)));
      case StaysClosed =>
        if id in f.episodes {
          WritesOneMore(r.unlinked, u', (i, Unlinked(f, id)));
        }
      case Reopens(end) =>
        PairsOneMore(r.reopened, u, u', (i, Superseded(f, |facts| + |r.reopened|, now), CopyOf(Unlinked(f, id), i, end, now)));
    }
    ListedStays(r, r', u, u', facts);
  }

  lemma StillClosedNoted(r: ForgetResult, facts: seq<Fact>, id: Id, now: Instant, i: nat)
    requires i < |facts| && StillClosedFor(r.stillClosed, facts, id, i)
    ensures StillClosedFor(Noted(r, FateOf(facts, i, id), facts[i], |facts|, i, id, now).stillClosed, facts, id, i + 1)
  {
  }

  /** Writing down one more row keeps what was listed. */
  lemma ListedStays(r: ForgetResult, r': ForgetResult, u: Outcome, u': Outcome, facts: seq<Fact>)
    requires ResultFor(r, u, facts) && |u.rows| < |facts|
    requires |u'.rows| == |u.rows| + 1 && u.rows <= u'.rows && u.copies <= u'.copies
    requires r.retracted <= r'.retracted && r.unlinked <= r'.unlinked && r.reopened <= r'.reopened
    requires Writes(r'.retracted, u') && Writes(r'.unlinked, u') && Pairs(r'.reopened, u')
    requires u'.rows[|u.rows|] != facts[|u.rows|] ==> Noticed(r', |u.rows|)
    ensures ResultFor(r', u', facts)
  {
    forall i | 0 <= i < |u'.rows| && u'.rows[i] != facts[i]
      ensures Noticed(r', i)
    {
      if i < |u.rows| {
        assert u'.rows[i] == u.rows[i];
        if k: nat :| k < |r.retracted| && r.retracted[k].0 == i {
          assert r'.retracted[k].0 == i;
        } else if k: nat :| k < |r.unlinked| && r.unlinked[k].0 == i {
          assert r'.unlinked[k].0 == i;
        } else {
          var k: nat :| k < |r.reopened| && r.reopened[k].0 == i;
          assert r'.reopened[k].0 == i;
        }
      }
    }
  }

  /** The result of going over the first i rows. */
  ghost predicate UpTo(r: ForgetResult, facts: seq<Fact>, id: Id, now: Instant, i: nat)
    requires i <= |facts|
  {
    && ResultFor(r, ForgetUpTo(facts, id, now, i), facts)
    && StillClosedFor(r.stillClosed, facts, id, i) && RetractedFor(r.retracted, facts, id, i)
    && UnlinkedFor(r.unlinked, facts, id, i) && ReopenedFor(r.reopened, facts, id, i)
  }

  lemma OneMoreNoted(r: ForgetResult, facts: seq<Fact>, id: Id, now: Instant, i: nat)
    requires i < |facts| && UpTo(r, facts, id, now, i)
    ensures UpTo(Noted(r, FateOf(facts, i, id), facts[i], |facts|, i, id, now), facts, id, now, i + 1)
  {
    NotedIsWritten(r, ForgetUpTo(facts, id, now, i), FateOf(facts, i, id), facts, i, id, now);
    StillClosedNoted(r, facts, id, now, i);
    ListsNoted(r, facts, id, now, i);
  }

  /** The closures without a marker that are reported. */
  ghost predicate UnmarkedFor(s: seq<nat>, facts: seq<Fact>, id: Id, n: nat)
    requires n <= |facts|
  {
    forall i :: i in s <==> 0 <= i < n && Unmarked(facts, i, id)
  }

  lemma UnmarkedNoted(s: seq<nat>, facts: seq<Fact>, id: Id, i: nat, lacksMarker: bool)
    requires i < |facts| && UnmarkedFor(s, facts, id, i) && lacksMarker == Unmarked(facts, i, id)
    ensures UnmarkedFor(if lacksMarker then s + [i] else s, facts, id, i + 1)
  {
  }

  /** The entities reported as left with nothing, as the forget leaves them. */
  ghost predicate OrphanedFor(s: seq<Node>, facts: seq<Fact>, entities: seq<Node>, id: Id) {
    forall n :: n in s <==> exists e :: e in entities && Orphaned(facts, id, e) && n == Restored(e, id)
  }

  lemma OneMoreOrphaned(s: seq<Node>, facts: seq<Fact>, entities: seq<Node>, e: Node, id: Id)
    requires OrphanedFor(s, facts, entities, id)
    ensures OrphanedFor(if Orphaned(facts, id, e) then s + [Restored(e, id)] else s, facts, entities + [e], id)
  {
    var r := if Orphaned(facts, id, e) then s + [Restored(e, id)] else s;
    forall n
      ensures n in r <==> exists d :: d in entities + [e] && Orphaned(facts, id, d) && n == Restored(d, id)
    {
      if d :| d in entities + [e] && Orphaned(facts, id, d) && n == Restored(d, id) {
        assert d in entities || d == e;
      }
      if n in s {
        var d :| d in entities && Orphaned(facts, id, d) && n == Restored(d, id);
        assert d in entities + [e];
      }
      assert e in entities + [e];
    }
  }

  lemma OneMoreRestored(entities: seq<Node>, e: Node, id: Id)
    ensures AllRestored(entities + [e], id) == AllRestored(entities, id) + [Restored(e, id)]
    ensures Summaries(entities + [e], id) == Summaries(entities, id) + if Restored(e, id) != e then [Restored(e, id)] else []
  {
    assert (entities + [e])[..|entities|] == entities;
  }

  lemma WroteOneMore(facts: seq<Fact>, f: Fact, id: Id)
    ensures forall t :: WroteAt(facts + [f], id, t) <==> WroteAt(facts, id, t) || WroteAt([f], id, t)
    ensures forall t :: WroteAt([f], id, t)
              <==> (f.episodes != [] && f.episodes[0] == id && f.marks.reopenedFrom.None? && f.createdAt == t)
  {
    var longer := facts + [f];
    assert [f][0] == f;
    forall t
      ensures WroteAt(longer, id, t) <==> WroteAt(facts, id, t) || WroteAt([f], id, t)
    {
      if j: nat :| j < |facts| && facts[j].episodes != [] && facts[j].episodes[0] == id
                   && facts[j].marks.reopenedFrom.None? && facts[j].createdAt == t {
        assert longer[j] == facts[j];
      }
      assert longer[|facts|] == f;
    }
  }

  class IngestPipeline {
    var facts: seq<Fact>
    var entities: seq<Node>
    var episodes: map<Id, Status>
    /** the clock of the last operation */
    ghost var clock: Instant

    ghost predicate Valid()
      reads this
    {
      StoreOk(facts, clock)
    }

    constructor (start: Instant)
      ensures Valid() && facts == [] && entities == [] && episodes == map[] && clock == start
    {
      facts, entities, episodes, clock := [], [], map[], start;
    }

    method UpdateFact(i: nat, f: Fact)
      requires i < |facts|
      modifies this`facts
      ensures facts == old(facts)[i := f]
    {
      facts := facts[i := f];
    }

    method AddFact(f: Fact)
      modifies this`facts
      ensures facts == old(facts) + [f]
    {
      facts := facts + [f];
    }

    /**
     * Resolves the episode's reply in memory, then writes what it created and
     * changed; an attempt that fails (the model, the embedder, a vector's
     * length) writes no row.
     */
    method Process(run: RunInput, fails: bool)
      modifies this
      ensures facts == if fails then old(facts) else Execute(run, old(facts)).rows
      ensures episodes == old(episodes)[run.episode.id := if fails then Failed else Processed]
      ensures clock == run.now && entities == old(entities)
      ensures old(Valid()) && old(clock) <= run.now ==> Valid()
      ensures old(Valid() && Windowed(facts)) && old(clock) <= run.now && (fails || run.episode.validAt <= run.now)
              ==> Windowed(facts)
    {
      if Valid() && clock <= run.now {
        StoreOkLater(facts, clock, run.now);
        RunKeepsStore(run, facts);
        if Windowed(facts) && run.episode.validAt <= run.now {
          RunKeepsWindows(run, facts);
        }
      }
      clock := run.now;
      if fails {
        episodes := episodes[run.episode.id := Failed];
        return;
      }
      var resolution := new EpisodeRun(run, facts);
      resolution.Execute(run);
      RunWritesAll(run, facts);
      Write(resolution);
      episodes := episodes[run.episode.id := Processed];
    }

    /** Adds the created rows and updates the changed ones: every other row is as it was read. */
    method Write(resolution: EpisodeRun)
      requires resolution.Valid() && OnlyDirty(resolution.ctx, facts, resolution.State())
      modifies this`facts
      ensures facts == resolution.work
    {
      ghost var before := facts;
      var work, base := resolution.work, |facts|;
      for i := base to |work|
        invariant base <= i <= |work| && facts == before + work[base..i]
      {
        assert work[base..i + 1] == work[base..i] + [work[i]];
        AddFact(work[i]);
      }
      var rest := resolution.dirtyFacts;
      while rest != {}
        invariant rest <= resolution.dirtyFacts && |facts| == |work|
        invariant forall k | base <= k < |work| :: facts[k] == work[k]
        invariant forall k | 0 <= k < base :: facts[k] == if k in resolution.dirtyFacts - rest then work[k] else before[k]
        decreases rest
      {
        var i :| i in rest;
        UpdateFact(i, work[i]);
        rest := rest - {i};
      }
      assert facts == work;
    }

    /** Ends or retracts a fact by hand. */
    method InvalidateFact(i: nat, at: Option<Instant>, retract: bool, now: Instant) returns (r: Result<Fact, Failure>)
      modifies this
      ensures old(Valid()) && old(clock) <= now ==> Valid() && (old(Windowed(facts)) ==> Windowed(facts))
      ensures clock == now && episodes == old(episodes) && entities == old(entities)
      ensures match Corrections.InvalidateFact(old(facts), i, at, retract, now)
              case Ok(after) => facts == after && r == Ok(after[i])
              case Err(e) => facts == old(facts) && r == Err(e)
    {
      if Valid() && clock <= now {
        StoreOkLater(facts, clock, now);
        ApplyKeepsStore(facts, Invalidate(i, at, retract, now));
        if Windowed(facts) {
          ApplyKeepsWindows(facts, Invalidate(i, at, retract, now));
        }
      }
      clock := now;
      if i >= |facts| {
        return Err(NotFound);
      }
      if IsRetracted(facts[i]) {
        return Err(Conflict);
      }
      var f := facts[i].(marks := WithoutEpisodeClosure(facts[i].marks));
      if retract {
        f := f.(invalidAt := f.validAt);
      } else {
        var end := at.GetOr(now);
        if f.invalidAt.Some? && (f.invalidAt.value <= end || f.invalidAt.value <= now) {
          return Err(Conflict);
        }
        if f.validAt.Some? && end <= f.validAt.value {
          return Err(Conflict);
        }
        f := f.(invalidAt := Some(end));
      }
      f := f.(expiredAt := Some(now));
      UpdateFact(i, f);
      return Ok(f);
    }

    /** Retracts a wrongly closed row and adds a corrected copy. */
    method ReopenFact(i: nat, end: Option<Instant>, now: Instant) returns (r: Result<nat, Failure>)
      modifies this
      ensures old(Valid()) && old(clock) <= now ==> Valid() && (old(Windowed(facts)) ==> Windowed(facts))
      ensures clock == now && episodes == old(episodes) && entities == old(entities)
      ensures match Corrections.ReopenFact(old(facts), i, end, now)
              case Ok(after) => facts == after && r == Ok(|old(facts)|)
              case Err(e) => facts == old(facts) && r == Err(e)
    {
      if Valid() && clock <= now {
        StoreOkLater(facts, clock, now);
        ApplyKeepsStore(facts, Reopen(i, end, now));
        if Windowed(facts) {
          ApplyKeepsWindows(facts, Reopen(i, end, now));
        }
      }
      clock := now;
      if i >= |facts| {
        return Err(NotFound);
      }
      var found := facts[i];
      if found.marks.reopenedAs.Some? {
        return Err(Conflict);
      }
      if !IsRetracted(found) && found.invalidAt.None? {
        return Err(Conflict);
      }
      if end.Some? && found.validAt.Some? && end.value <= found.validAt.value {
        return Err(Conflict);
      }
      var copy := |facts|;
      UpdateFact(i, Superseded(found, copy, now));
      AddFact(CopyOf(found, i, end, now));
      return Ok(copy);
    }

    /** Takes back what the episode contributed; it keeps its record, as forgotten. */
    method ForgetEpisode(id: Id, now: Instant) returns (r: Result<ForgetReport, Failure>)
      modifies this
      ensures old(Valid()) && old(clock) <= now ==> Valid() && (old(Windowed(facts)) ==> Windowed(facts))
      ensures clock == now
      ensures id !in old(episodes) ==> r == Err(NotFound)
      ensures id in old(episodes) && old(episodes)[id] == Forgotten ==> r == Err(Conflict)
      ensures r.Err? ==> facts == old(facts) && episodes == old(episodes) && entities == old(entities)
      ensures id in old(episodes) && old(episodes)[id] != Forgotten ==>
                && r.Ok? && facts == ForgetFacts(old(facts), id, now)
                && episodes == old(episodes)[id := Forgotten]
                && entities == AllRestored(old(entities), id)
                && UpTo(r.value.changes, old(facts), id, now, |old(facts)|)
                && UnmarkedFor(r.value.unmarked, old(facts), id, |old(facts)|)
                && r.value.summaries == Summaries(old(entities), id)
                && OrphanedFor(r.value.orphaned, old(facts), old(entities), id)
    {
      if Valid() && clock <= now {
        StoreOkLater(facts, clock, now);
        ForgetKeepsStore(facts, id, now);
        if Windowed(facts) {
          ForgetKeepsWindows(facts, id, now);
        }
      }
      clock := now;
      if id !in episodes {
        return Err(NotFound);
      }
      if episodes[id] == Forgotten {
        return Err(Conflict);
      }
      var changes := FatesOf(id, now);
      var unmarked := FindUnmarked(id);
      var restored, summaries, orphaned := EntitiesAfter(id, changes.retracted);
      Commit(changes, id, now);
      entities := restored;
      episodes := episodes[id := Forgotten];
      return Ok(ForgetReport(changes, unmarked, summaries, orphaned));
    }

    /** The instants at which the episode's run added rows. */
    method Written(id: Id) returns (written: set<Instant>)
      ensures forall t :: t in written <==> WroteAt(facts, id, t)
    {
      written := {};
      for j := 0 to |facts|
        invariant forall t :: t in written <==> WroteAt(facts[..j], id, t)
      {
        var f := facts[j];
        assert facts[..j + 1] == facts[..j] + [f];
        WroteOneMore(facts[..j], f, id);
        if f.episodes != [] && f.episodes[0] == id && f.marks.reopenedFrom.None? {
          written := written + {f.createdAt};
        }
      }
      assert facts[..|facts|] == facts;
    }

    /** Goes over the rows; nothing is changed yet. */
    method FatesOf(id: Id, now: Instant) returns (r: ForgetResult)
      ensures UpTo(r, facts, id, now, |facts|)
    {
      r := ForgetResult([], [], [], []);
      for i := 0 to |facts|
        invariant UpTo(r, facts, id, now, i)
      {
        r := NoteRow(r, i, id, now);
      }
    }

    /** The rows that look closed by the episode's run, without naming it. */
    method FindUnmarked(id: Id) returns (unmarked: seq<nat>)
      ensures UnmarkedFor(unmarked, facts, id, |facts|)
    {
      unmarked := [];
      var written := Written(id);
      for i := 0 to |facts|
        invariant UnmarkedFor(unmarked, facts, id, i)
      {
        var lacksMarker := LooksClosed(id, written, i);
        UnmarkedNoted(unmarked, facts, id, i, lacksMarker);
        if lacksMarker {
          unmarked := unmarked + [i];
        }
      }
    }

    /** Notes down row i's fate. */
    method NoteRow(before: ForgetResult, i: nat, id: Id, now: Instant) returns (r: ForgetResult)
      requires i < |facts| && UpTo(before, facts, id, now, i)
      ensures UpTo(r, facts, id, now, i + 1)
    {
      var fate := FindFate(id, i);
      OneMoreNoted(before, facts, id, now, i);
      r := WithFate(before, fate, i, id, now);
    }

    /** Does row i look closed by a run that wrote at these instants, without naming it? */
    method LooksClosed(id: Id, written: set<Instant>, i: nat) returns (lacksMarker: bool)
      requires i < |facts| && forall t :: t in written <==> WroteAt(facts, id, t)
      ensures lacksMarker == Unmarked(facts, i, id)
    {
      var f := facts[i];
      if id in f.episodes && Without(f.episodes, id) == [] {
        return false;
      }
      return IsClosed(f) && f.marks.closedByEpisode.None? && f.expiredAt.Some? && f.expiredAt.value in written;
    }

    /** Is the entity touched by a row that counts and is not withdrawn? */
    method FindUse(id: Id, retracted: seq<(nat, Fact)>, entity: Id) returns (used: bool)
      requires RetractedFor(retracted, facts, id, |facts|)
      ensures used == Used(facts, id, entity)
    {
      for i := 0 to |facts|
        invariant forall j | 0 <= j < i ::
                    !(!IsRetracted(facts[j]) && !FateOf(facts, j, id).Retracts? && Touches(facts[j], entity))
      {
        if !IsRetracted(facts[i]) && !IsUpdated(retracted, i) && Touches(facts[i], entity) {
          return true;
        }
      }
      return false;
    }

    /** The entities as they become, those that change, and those left with nothing. */
    method EntitiesAfter(id: Id, retracted: seq<(nat, Fact)>)
      returns (restored: seq<Node>, summaries: seq<Node>, orphaned: seq<Node>)
      requires RetractedFor(retracted, facts, id, |facts|)
      ensures restored == AllRestored(entities, id) && summaries == Summaries(entities, id)
      ensures OrphanedFor(orphaned, facts, entities, id)
    {
      restored, summaries, orphaned := [], [], [];
      for i := 0 to |entities|
        invariant restored == AllRestored(entities[..i], id) && summaries == Summaries(entities[..i], id)
        invariant OrphanedFor(orphaned, facts, entities[..i], id)
      {
        var e := entities[i];
        assert entities[..i + 1] == entities[..i] + [e];
        OneMoreRestored(entities[..i], e, id);
        OneMoreOrphaned(orphaned, facts, entities[..i], e, id);
        var node := Restored(e, id);
        restored := restored + [node];
        if node != e {
          summaries := summaries + [node];
        }
        var used := FindUse(id, retracted, e.uuid);
        if e.createdBy == Some(id) && node.summary == "" && !used {
          orphaned := orphaned + [node];
        }
      }
      assert entities[..|entities|] == entities;
    }

    /** Which of the cases row i is. */
    method FindFate(id: Id, i: nat) returns (fate: Fate)
      requires i < |facts|
      ensures fate == FateOf(facts, i, id)
    {
      var f := facts[i];
      var others := Without(f.episodes, id);
      var cited := id in f.episodes;
      if cited && others == [] {
        return if IsRetracted(f) && !(IsClosed(f) && IsOutdated(f)) then Left else Retracts;
      }
      if IsClosed(f) && f.marks.closedByEpisode == Some(id) {
        var next := FindNextValue(facts, i, id);
        if Replaced(facts, i, id) {
          return StaysClosed;
        }
        return Reopens(Earliest(EndBefore(f), next));
      }
      return if cited then Unlinks else Left;
    }

    /** Notes down what happens to row i. */
    method WithFate(before: ForgetResult, fate: Fate, i: nat, id: Id, now: Instant) returns (r: ForgetResult)
      requires i < |facts|
      ensures r == Noted(before, fate, facts[i], |facts|, i, id, now)
    {
      var f := facts[i];
      match fate {
        case Left => r := before;
        case Retracts => r := before.(retracted := before.retracted + [(i, RetractedRow(f, now))]);
        case Unlinks => r := before.(unlinked := before.unlinked + [(i, Unlinked(f, id))]);
        case StaysClosed =>
          r := before.(stillClosed := before.stillClosed + [i]);
          if id in f.episodes {
            r := r.(unlinked := r.unlinked + [(i, Unlinked(f, id))]);
          }
        case Reopens(end) =>
          var previous := Superseded(f, |facts| + |before.reopened|, now);
          r := before.(reopened := before.reopened + [(i, previous, CopyOf(Unlinked(f, id), i, end, now))]);
      }
    }

    /** Writes new states of rows. */
    method UpdateFacts(updates: seq<(nat, Fact)>, ghost u: Outcome)
      requires Writes(updates, u) && |u.rows| <= |facts|
      modifies this`facts
      ensures |facts| == |old(facts)|
      ensures forall i | 0 <= i < |facts| :: facts[i] == old(facts)[i] || (i < |u.rows| && facts[i] == u.rows[i])
      ensures forall k | 0 <= k < |updates| :: facts[updates[k].0] == u.rows[updates[k].0]
      ensures forall i | 0 <= i < |u.rows| && old(facts)[i] == u.rows[i] :: facts[i] == u.rows[i]
    {
      for k := 0 to |updates|
        invariant |facts| == |old(facts)|
        invariant forall i | 0 <= i < |facts| :: facts[i] == old(facts)[i] || (i < |u.rows| && facts[i] == u.rows[i])
        invariant forall j | 0 <= j < k :: facts[updates[j].0] == u.rows[updates[j].0]
      {
        UpdateFact(updates[k].0, updates[k].1);
      }
    }

    /** Writes the reopened rows, and adds their copies. */
    method AddCopies(reopened: seq<(nat, Fact, Fact)>, ghost u: Outcome)
      requires Pairs(reopened, u) && |u.rows| == |facts|
      modifies this`facts
      ensures |facts| == |u.rows| + |u.copies| && facts[|u.rows|..] == u.copies
      ensures forall i | 0 <= i < |u.rows| :: facts[i] == old(facts)[i] || facts[i] == u.rows[i]
      ensures forall k | 0 <= k < |reopened| :: facts[reopened[k].0] == u.rows[reopened[k].0]
    {
      for k := 0 to |reopened|
        invariant |facts| == |u.rows| + k && facts[|u.rows|..] == u.copies[..k]
        invariant forall i | 0 <= i < |u.rows| :: facts[i] == old(facts)[i] || facts[i] == u.rows[i]
        invariant forall j | 0 <= j < k :: facts[reopened[j].0] == u.rows[reopened[j].0]
      {
        UpdateFact(reopened[k].0, reopened[k].1);
        AddFact(reopened[k].2);
        assert u.copies[..k + 1] == u.copies[..k] + [reopened[k].2];
      }
      assert u.copies[..|u.copies|] == u.copies;
    }

    /** Writes the result in one transaction. */
    method Commit(r: ForgetResult, id: Id, now: Instant)
      requires ResultFor(r, ForgetUpTo(facts, id, now, |facts|), facts)
      modifies this`facts
      ensures facts == ForgetFacts(old(facts), id, now)
    {
      ghost var u := ForgetUpTo(facts, id, now, |facts|);
      UpdateFacts(r.retracted, u);
      UpdateFacts(r.unlinked, u);
      AddCopies(r.reopened, u);
      forall i | 0 <= i < |u.rows|
        ensures facts[i] == u.rows[i]
      {
        assert u.rows[i] != old(facts)[i] ==> Noticed(r, i);
      }
      assert facts == facts[..|u.rows|] + facts[|u.rows|..];
      assert facts[..|u.rows|] == u.rows;
    }
  }
}
