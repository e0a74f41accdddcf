/**
 * What one ingestion run does to a group's facts (EpisodeRun in
 * src/pipeline/ingest.ts), as functions of its inputs. The language model's
 * reply and its verdicts are inputs, and so are the pairs of vectors that are
 * similar enough.
 */
module Resolution {
  import opened Wrappers
  import opened Temporal
  import opened Facts

  datatype Episode = Episode(id: Id, validAt: Instant, createdAt: Instant)

  /** What the provider may answer: a verdict, the index list or the boolean of older contracts, or anything else. */
  datatype Answer =
    | Verdict(ended: seq<int>, same: Option<seq<int>>)
    | Indexes(indexes: seq<int>)
    | Everything
    | Nothing

  /** A fact of the reply whose endpoints were resolved, with the answer the judge gives about it. */
  datatype Candidate = Candidate(
    src: Id,
    tgt: Id,
    relation: string,
    text: string,
    vector: Vector,
    validAt: Option<Instant>,
    invalidAt: Option<Instant>,
    replacesPrevious: bool,
    answer: Answer)

  /** An invalidation of the reply; an endpoint that could not be resolved is None. */
  datatype Invalidation = Invalidation(
    src: Option<Id>,
    tgt: Option<Id>,
    relation: Option<string>,
    invalidAt: Option<Instant>)

  /**
   * What stays fixed during a run: `base` is the number of stored rows, so
   * that row i was created by the run exactly when base <= i. `reembedded`
   * gives, for a vector of another length and its text, the vector it becomes;
   * `listing` the places in which the store lists the facts of an entity.
   */
  datatype Context = Context(
    episode: Episode,
    now: Instant,
    paraphrases: set<(Vector, Vector)>,
    repeats: set<(Vector, Vector)>,
    reembedded: map<(Vector, string), Vector>,
    listing: map<(Id, nat), int>,
    plans: seq<Candidate>,
    base: nat)

  /**
   * What a run updates. `rows` are the stored rows followed by the created
   * ones; `loaded` lists the rows in its working map, in insertion order.
   */
  datatype Work = Work(
    rows: seq<Fact>,
    loadedFor: set<Id>,
    loaded: seq<nat>,
    dirty: set<nat>,
    reinforced: seq<nat>,
    invalidated: seq<nat>)

  /* ---------- Array.prototype.filter and find ---------- */

  function Select(s: seq<nat>, p: nat -> bool): (r: seq<nat>)
    ensures forall i :: i in r <==> i in s && p(i)
  {
    if s == [] then []
    else
      var r := Select(s[..|s| - 1], p);
      if p(s[|s| - 1]) then r + [s[|s| - 1]] else r
  }

  predicate Distinct(s: seq<nat>) {
    forall a, b | 0 <= a < b < |s| :: s[a] != s[b]
  }

  lemma {:induction false} SelectIsDistinct(s: seq<nat>, p: nat -> bool)
    requires Distinct(s)
    ensures Distinct(Select(s, p))
  {
    if s != [] {
      assert s[|s| - 1] !in s[..|s| - 1];
      SelectIsDistinct(s[..|s| - 1], p);
    }
  }

  function Find(s: seq<nat>, p: nat -> bool): (r: Option<nat>)
    ensures r.None? <==> forall i | i in s :: !p(i)
    ensures r.Some? ==> r.value in s && p(r.value)
  {
    if s == [] then None else if p(s[0]) then Some(s[0]) else Find(s[1..], p)
  }

  /* ---------- windows ---------- */

  datatype Span = Span(validAt: Option<Instant>, invalidAt: Option<Instant>, datedByEpisode: bool)

  /** A window has a bound, and never ends before it starts. */
  function Window(ep: Episode, start: Option<Instant>, end: Option<Instant>): (w: Span)
    ensures w.validAt.Some? || w.invalidAt.Some?
    ensures w.validAt.Some? && w.invalidAt.Some? ==> w.validAt.value < w.invalidAt.value
    ensures w.invalidAt == end || (end.Some? && end == start && w.invalidAt == Some(end.value + DAY_MS))
    ensures w.validAt == start || w.validAt.None? || w.datedByEpisode
    ensures w.validAt.None? <==> end.Some? && (if start.Some? then end.value < start.value else end.value <= ep.validAt)
    ensures w.datedByEpisode <==> start.None? && w.validAt.Some?
    ensures w.datedByEpisode ==> w.validAt == Some(ep.validAt)
  {
    if start.None? then
      if end.Some? && end.value <= ep.validAt then Span(None, end, false)
      else Span(Some(ep.validAt), end, true)
    else if end.Some? && end.value == start.value then Span(start, Some(start.value + DAY_MS), false)
    else if end.Some? && end.value < start.value then Span(None, end, false)
    else Span(start, end, false)
  }

  /** Less than a day lies between the episode's date and its saving. */
  predicate DatedWhenWritten(ep: Episode) {
    -DAY_MS < ep.validAt - ep.createdAt < DAY_MS
  }

  /* ---------- the judge's answer ---------- */

  /** The distinct records the indexes pick, in the order they are first named. */
  function Pick(indexes: seq<int>, existing: seq<nat>): (r: seq<nat>)
    ensures forall i :: i in r <==> exists k :: k in indexes && 0 <= k < |existing| && existing[k] == i
    ensures forall a, b | 0 <= a < b < |r| :: r[a] != r[b]
  {
    if indexes == [] then []
    else
      var init, k := indexes[..|indexes| - 1], indexes[|indexes| - 1];
      assert indexes == init + [k];
      var r := Pick(init, existing);
      if 0 <= k < |existing| && existing[k] !in r then r + [existing[k]] else r
  }

  datatype Judgement = Judgement(ended: seq<nat>, restates: Option<seq<nat>>)

  /** `existing` never repeats a record: it is filtered out of a map's values. */
  function ReadVerdict(answer: Answer, existing: seq<nat>): (j: Judgement)
    ensures forall i | i in j.ended :: i in existing
    ensures j.restates.Some? <==> answer.Verdict? && answer.same.Some?
    ensures j.restates.Some? ==> forall i | i in j.restates.value :: i in existing
  {
    match answer
    case Verdict(ended, None) => Judgement(Pick(ended, existing), None)
    case Verdict(ended, Some(same)) => Judgement(Pick(ended, existing), Some(Pick(same, existing)))
    case Indexes(indexes) => Judgement(Pick(indexes, existing), None)
    case Everything => Judgement(existing, None)
    case Nothing => Judgement([], None)
  }

  predicate Names(indexes: seq<int>, existing: seq<nat>, i: nat) {
    exists k :: k in indexes && 0 <= k < |existing| && existing[k] == i
  }

  /** The answer says that record i ended. */
  predicate SaysEnded(answer: Answer, existing: seq<nat>, i: nat) {
    match answer
    case Verdict(ended, _) => Names(ended, existing, i)
    case Indexes(indexes) => Names(indexes, existing, i)
    case Everything => i in existing
    case Nothing => false
  }

  /** Exactly the records the answer says ended are ended, and exactly those it says are the same are called restated. */
  lemma VerdictIsAsAnswered(answer: Answer, existing: seq<nat>, i: nat)
    ensures i in ReadVerdict(answer, existing).ended <==> SaysEnded(answer, existing, i)
    ensures var restates := ReadVerdict(answer, existing).restates;
            && (restates.Some? <==> answer.Verdict? && answer.same.Some?)
            && (restates.Some? ==> (i in restates.value <==> Names(answer.same.value, existing, i)))
  {
  }

  /* ---------- what a candidate is to the records it may meet ---------- */

  /** A candidate, its window and the records of its source's facts. */
  datatype Query = Query(ctx: Context, rows: seq<Fact>, pool: seq<nat>, c: Candidate, span: Span) {
    /** The instant the statement speaks about. */
    function Moment(): Instant
      requires span.validAt.Some? || span.invalidAt.Some?
    {
      if span.validAt.Some? then span.validAt.value else span.invalidAt.value - 1
    }

    /** A record of this source, relation and target. */
    predicate Record(i: nat) {
      && i < |rows|
      && SameSlot(rows[i], c.src, c.relation)
      && rows[i].target == c.tgt
      && !IsRetracted(rows[i])
    }

    /** The record says the same thing, word for word or nearly. */
    predicate Same(i: nat)
      requires i < |rows|
    {
      rows[i].text == c.text || (rows[i].vector.Some? && (rows[i].vector.value, c.vector) in ctx.paraphrases)
    }

    predicate Holds(i: nat)
      requires i < |rows|
    {
      (span.validAt.Some? || span.invalidAt.Some?) &&
      (Covers(rows[i], Moment()) || (span.datedByEpisode && rows[i].invalidAt == Some(Moment())))
    }

    predicate Covering(i: nat) {
      Record(i) && Same(i) && Holds(i)
    }

    predicate LaterRecord(i: nat) {
      span.validAt.Some? && Record(i) && rows[i].validAt.Some? && rows[i].validAt.value > span.validAt.value
    }

    /** The first of the earliest later records in `s`. */
    function Nearest(s: seq<nat>): (r: Option<nat>)
      ensures r.Some? ==> r.value in s && LaterRecord(r.value)
      ensures r.Some? ==> forall i | i in s && LaterRecord(i) :: rows[r.value].validAt.value <= rows[i].validAt.value
      ensures r.None? ==> forall i | i in s :: !LaterRecord(i)
    {
      if s == [] then None
      else
        var r, i := Nearest(s[..|s| - 1]), s[|s| - 1];
        if LaterRecord(i) && (r.None? || rows[i].validAt.value < rows[r.value].validAt.value) then Some(i) else r
    }

    /** Something in the slot ended between the candidate's start and the later record's. */
    predicate Transition(later: nat)
      requires LaterRecord(later)
    {
      exists i | i in pool ::
        && i < |rows| && i != later && SameSlot(rows[i], c.src, c.relation)
        && rows[i].invalidAt.Some?
        && span.validAt.value < rows[i].invalidAt.value <= rows[later].validAt.value
    }

    /** The statement and `later` are one relationship that began sooner than was recorded. */
    predicate StartsEarlier(later: nat) {
      && LaterRecord(later)
      && Same(later)
      && !(span.invalidAt.Some? && span.invalidAt.value < rows[later].validAt.value)
      && !Transition(later)
    }

    predicate Restated(i: nat) {
      i < ctx.base && Record(i) && !Same(i) && Holds(i)
    }

    predicate Exclusive(f: Fact)
      requires span.validAt.Some?
    {
      || c.replacesPrevious
      || c.relation in SINGLE_VALUED
      || (f.marks.replacesPrevious && f.validAt.Some? && f.validAt.value > span.validAt.value)
    }

    /** A record the judge is shown. */
    predicate Shown(i: nat) {
      && span.validAt.Some?
      && i < ctx.base && i < |rows|
      && !IsRetracted(rows[i])
      && !(Record(i) && Same(i))
      && (IsLive(rows[i], ctx.now) || Covers(rows[i], span.validAt.value))
      && (|| Connects(rows[i], c.src, c.tgt)
          || (SameSlot(rows[i], c.src, c.relation) && rows[i].target != c.tgt && Exclusive(rows[i])))
    }

    function ShownList(): seq<nat> {
      Select(pool, (i: nat) => Shown(i))
    }

    function Judged(): (j: Judgement)
      ensures forall i | i in j.ended :: i in pool && Shown(i)
    {
      if ShownList() == [] then Judgement([], None) else ReadVerdict(c.answer, ShownList())
    }

    /** A record the judge saw and called neither ended nor restated. */
    predicate Alongside(i: nat) {
      && Judged().restates.Some?
      && Restated(i) && i !in Judged().ended
      && i in ShownList() && i !in Judged().restates.value
    }

    predicate SameRelationship(i: nat) {
      Restated(i) && i !in Judged().ended && !Alongside(i)
    }

    /** The start of the later record, where an earlier stint must end. */
    function LaterStart(): Option<Instant> {
      match Nearest(pool)
      case None => None
      case Some(later) => rows[later].validAt
    }

    function AlongsideList(): seq<nat> {
      Select(pool, (i: nat) => Alongside(i))
    }

    function EndAlongside(s: seq<nat>): Option<Instant> {
      if s == [] then Earliest(span.invalidAt, LaterStart())
      else
        var i := s[|s| - 1];
        Earliest(EndAlongside(s[..|s| - 1]), if i < |rows| then rows[i].invalidAt else None)
    }

    /** The new edge's end once the records `s` the verdict ends are taken into account. */
    function EndAfter(s: seq<nat>): Option<Instant> {
      if s == [] then EndAlongside(AlongsideList())
      else
        var end, i := EndAfter(s[..|s| - 1]), s[|s| - 1];
        if i >= |rows| || span.validAt.None? then end
        else if rows[i].validAt.Some? && rows[i].validAt.value > span.validAt.value then Earliest(end, rows[i].validAt)
        else if EndFor(ctx.episode, rows[i], span.validAt.value).None? then end
        else Earliest(end, rows[i].invalidAt)
    }

    function FirstCovering(): (r: Option<nat>)
      ensures r.None? <==> forall i | i in pool :: !Covering(i)
      ensures r.Some? ==> r.value in pool && Covering(r.value)
    {
      Find(pool, (i: nat) => Covering(i))
    }

    function FirstSameRelationship(): (r: Option<nat>)
      ensures r.None? <==> forall i | i in pool :: !SameRelationship(i)
      ensures r.Some? ==> r.value in pool && SameRelationship(r.value)
    {
      Find(pool, (i: nat) => SameRelationship(i))
    }

    function Decide(): (d: Decision)
      ensures d.Reinforces? ==> d.i in pool && Record(d.i)
      ensures d.MovesStart? ==> d.i in pool && LaterRecord(d.i) && StartsEarlier(d.i)
      ensures d.Inserts? ==> forall i | i in d.ended :: i in pool && Shown(i)
    {
      match FirstCovering()
      case Some(i) => Reinforces(i)
      case None =>
        var later := Nearest(pool);
        if later.Some? && StartsEarlier(later.value) then MovesStart(later.value)
        else match FirstSameRelationship()
          case Some(i) => Reinforces(i)
          case None => Inserts(EndAfter(Judged().ended), Judged().ended)
    }
  }

  /** What a candidate turns out to be. */
  datatype Decision =
    | Reinforces(i: nat)
    | MovesStart(i: nat)
    | Inserts(end: Option<Instant>, ended: seq<nat>)

  /** Where a fact that began at the change itself can end: at the episode's date, or just after. */
  function AfterStart(ep: Episode, at: Instant): Instant {
    if ep.validAt > at then ep.validAt else at + 1
  }

  /** The end that a change at `at` gives f, if it can end f at all. */
  function EndFor(ep: Episode, f: Fact, at: Instant): (e: Option<Instant>)
    ensures e.Some? ==> f.invalidAt.None? || e.value < f.invalidAt.value
    ensures e.Some? ==> f.validAt.None? || f.validAt.value < e.value
    ensures e.Some? ==> at <= e.value
    ensures e == Some(at) <==> Covers(f, at) && f.validAt != Some(at)
    ensures f.validAt == Some(at) && e.Some? ==> e.value == AfterStart(ep, at)
    ensures e.None? <==> !Covers(f, at) || (f.validAt == Some(at) && f.invalidAt.Some? && f.invalidAt.value <= AfterStart(ep, at))
  {
    if f.invalidAt.Some? && f.invalidAt.value <= at then None
    else if f.validAt.None? || f.validAt.value < at then Some(at)
    else if f.validAt.value > at then None
    else
      var end := AfterStart(ep, f.validAt.value);
      if f.invalidAt.Some? && f.invalidAt.value <= end then None else Some(end)
  }

  /* ---------- updates of the working rows ---------- */

  function Close(ctx: Context, w: Work, i: nat, at: Instant): Work
    requires i < |w.rows|
  {
    var f := w.rows[i];
    if i >= ctx.base then w.(rows := w.rows[i := f.(invalidAt := Some(at))])
    else
      var before := if i in w.invalidated then f.marks.previousEnd else f.invalidAt;
      var closed := f.(
        invalidAt := Some(at),
        expiredAt := Some(ctx.now),
        marks := f.marks.(closedByEpisode := Some(ctx.episode.id), previousEnd := before));
      w.(rows := w.rows[i := closed],
         dirty := w.dirty + {i},
         invalidated := if i in w.invalidated then w.invalidated else w.invalidated + [i])
  }

  function Outdate(ctx: Context, w: Work, i: nat): Work
    requires i < |w.rows| && w.rows[i].validAt.Some?
  {
    var closed := Close(ctx, w, i, w.rows[i].validAt.value);
    closed.(rows := closed.rows[i := closed.rows[i].(marks := closed.rows[i].marks.(outdatedWhenWritten := true))])
  }

  function Cite(ctx: Context, w: Work, i: nat): Work
    requires i < |w.rows|
  {
    var f, id := w.rows[i], ctx.episode.id;
    if i >= ctx.base then w
    else
      w.(rows := if id in f.episodes then w.rows else w.rows[i := f.(episodes := f.episodes + [id])],
         dirty := w.dirty + {i},
         reinforced := if i in w.reinforced then w.reinforced else w.reinforced + [i])
  }

  function Reinforce(ctx: Context, w: Work, i: nat, end: Option<Instant>): Work
    requires i < |w.rows|
  {
    var cited, f := Cite(ctx, w, i), w.rows[i];
    if end.Some? && f.invalidAt.None? && (f.validAt.None? || end.value > f.validAt.value) then
      Close(ctx, cited, i, end.value)
    else cited
  }

  function MoveStart(w: Work, i: nat, start: Option<Instant>, fromEpisode: bool): Work
    requires i < |w.rows|
  {
    var f := w.rows[i];
    w.(rows := w.rows[i := f.(validAt := start, marks := WithStart(f.marks, fromEpisode))])
  }

  function CloseEnded(ctx: Context, w: Work, ended: seq<nat>, at: Instant): (r: Work)
    ensures |r.rows| == |w.rows|
  {
    if ended == [] then w
    else
      var r, i := CloseEnded(ctx, w, ended[..|ended| - 1], at), ended[|ended| - 1];
      if i >= |r.rows| || (r.rows[i].validAt.Some? && r.rows[i].validAt.value > at) then r
      else match EndFor(ctx.episode, r.rows[i], at)
        case None => r
        case Some(end) => Close(ctx, r, i, end)
  }

  function NewEdge(ctx: Context, c: Candidate, span: Span, end: Option<Instant>): Fact {
    Fact(c.src, c.tgt, c.relation, c.text, Some(c.vector), [ctx.episode.id], span.validAt, end, ctx.now, None,
         NO_MARKS.(replacesPrevious := c.replacesPrevious, startFromEpisode := StartFromEpisode(ctx, span)))
  }

  predicate StartFromEpisode(ctx: Context, span: Span) {
    span.datedByEpisode && DatedWhenWritten(ctx.episode)
  }

  function Act(ctx: Context, w: Work, c: Candidate, span: Span, d: Decision): Work
    requires d.Reinforces? || d.MovesStart? ==> d.i < |w.rows|
    requires d.MovesStart? || (d.Inserts? && d.ended != []) ==> span.validAt.Some?
  {
    match d
    case Reinforces(i) => Reinforce(ctx, w, i, span.invalidAt)
    case MovesStart(i) =>
      Reinforce(ctx, MoveStart(w, i, span.validAt, StartFromEpisode(ctx, span)), i, span.invalidAt)
    case Inserts(end, ended) =>
      var closed := if ended == [] then w else CloseEnded(ctx, w, ended, span.validAt.value);
      closed.(rows := closed.rows + [NewEdge(ctx, c, span, end)], loaded := closed.loaded + [|closed.rows|])
  }

  /* ---------- the steps of a run ---------- */

  function PlaceOf(listing: map<(Id, nat), int>, entity: Id, i: nat): int {
    if (entity, i) in listing then listing[(entity, i)] else 0
  }

  /** Puts row i into a listing, behind every row whose place is not later. */
  function Placed(listing: map<(Id, nat), int>, entity: Id, i: nat, s: seq<nat>): (r: seq<nat>)
    ensures forall k :: k in r <==> k == i || k in s
  {
    if s == [] then [i]
    else
      var init, last := s[..|s| - 1], s[|s| - 1];
      assert s == init + [last];
      if PlaceOf(listing, entity, i) < PlaceOf(listing, entity, last) then Placed(listing, entity, i, init) + [last]
      else s + [i]
  }

  /** What the store answers of the first n rows: those that touch `entity`, in any order it likes. */
  function Listed(listing: map<(Id, nat), int>, rows: seq<Fact>, entity: Id, n: nat): (r: seq<nat>)
    requires n <= |rows|
    ensures forall i :: i in r <==> 0 <= i < n && Touches(rows[i], entity)
  {
    if n == 0 then []
    else
      var r := Listed(listing, rows, entity, n - 1);
      if Touches(rows[n - 1], entity) then Placed(listing, entity, n - 1, r) else r
  }

  /** What is listed and not in the map, each once. */
  function NotLoaded(listed: seq<nat>, loaded: seq<nat>): (r: seq<nat>)
    ensures forall i :: i in r <==> i in listed && i !in loaded
  {
    if listed == [] then []
    else
      var init, last := listed[..|listed| - 1], listed[|listed| - 1];
      assert listed == init + [last];
      var r := NotLoaded(init, loaded);
      if last in loaded || last in r then r else r + [last]
  }

  /** The working map once the facts touching `entity` are loaded. */
  function Load(ctx: Context, w: Work, entity: Id): Work {
    if entity in w.loadedFor || ctx.base > |w.rows| then w
    else
      w.(loadedFor := w.loadedFor + {entity},
         loaded := w.loaded + NotLoaded(Listed(ctx.listing, w.rows, entity, ctx.base), w.loaded))
  }

  function PoolTest(rows: seq<Fact>, entity: Id): nat -> bool {
    (i: nat) => i < |rows| && Touches(rows[i], entity)
  }

  /** The facts of the map that touch `entity`. */
  function Pool(w: Work, entity: Id): seq<nat> {
    Select(w.loaded, PoolTest(w.rows, entity))
  }

  function SpanOf(ctx: Context, c: Candidate): Span {
    Window(ctx.episode, c.validAt, c.invalidAt)
  }

  function Ask(ctx: Context, w: Work, c: Candidate): Query {
    Query(ctx, w.rows, Pool(w, c.src), c, SpanOf(ctx, c))
  }

  function ResolveFact(ctx: Context, w: Work, c: Candidate): Work {
    var loaded := Load(ctx, w, c.src);
    var d := Ask(ctx, loaded, c).Decide();
    assert d.Inserts? && d.ended != [] ==> d.ended[0] in d.ended;
    Act(ctx, loaded, c, SpanOf(ctx, c), d)
  }

  /** Some plan of the reply is a stint of the pair, closed no later than `end`. */
  predicate RecordsStint(ctx: Context, a: Id, b: Id, relation: string, end: Instant) {
    exists k | 0 <= k < |ctx.plans| :: StintOver(ctx, ctx.plans[k], a, b, relation, end)
  }

  predicate StintOver(ctx: Context, p: Candidate, a: Id, b: Id, relation: string, end: Instant) {
    && ((p.src == a && p.tgt == b) || (p.src == b && p.tgt == a))
    && p.relation == relation
    && SpanOf(ctx, p).invalidAt.Some?
    && SpanOf(ctx, p).invalidAt.value <= end
  }

  /** Does the invalidation outdate notes whose value had ended before they were written? */
  predicate Outdates(ctx: Context, inv: Invalidation) {
    && inv.src.Some? && inv.tgt.Some? && inv.invalidAt.Some? && inv.relation.Some?
    && !RecordsStint(ctx, inv.src.value, inv.tgt.value, inv.relation.value, inv.invalidAt.value)
  }

  function InvalidationEnd(ctx: Context, inv: Invalidation): Instant {
    inv.invalidAt.GetOr(ctx.episode.validAt)
  }

  /** What the invalidation does to one fact of its source. */
  function InvalidateRow(ctx: Context, w: Work, inv: Invalidation, outdatedOnly: bool, i: nat): (r: Work)
    requires inv.src.Some? && inv.tgt.Some?
    ensures |r.rows| == |w.rows|
  {
    var end := InvalidationEnd(ctx, inv);
    if i >= |w.rows| then w
    else
      var f := w.rows[i];
      if || !Connects(f, inv.src.value, inv.tgt.value)
         || (inv.relation.Some? && f.relation != inv.relation.value)
         || IsRetracted(f) then w
      else if i >= ctx.base && !(f.validAt.Some? && f.validAt.value < end) then w
      else if Outdates(ctx, inv) && f.marks.startFromEpisode && f.validAt.Some? && end < f.validAt.value then
        Outdate(ctx, w, i)
      else if outdatedOnly then w
      else match EndFor(ctx.episode, f, end)
        case None => w
        case Some(at) => Close(ctx, w, i, at)
  }

  function InvalidateRows(ctx: Context, w: Work, inv: Invalidation, outdatedOnly: bool, s: seq<nat>): (r: Work)
    requires inv.src.Some? && inv.tgt.Some?
    ensures |r.rows| == |w.rows|
  {
    if s == [] then w
    else InvalidateRow(ctx, InvalidateRows(ctx, w, inv, outdatedOnly, s[..|s| - 1]), inv, outdatedOnly, s[|s| - 1])
  }

  function ApplyInvalidation(ctx: Context, w: Work, inv: Invalidation, outdatedOnly: bool): Work {
    if inv.src.None? || inv.tgt.None? then w
    else
      var loaded := Load(ctx, w, inv.src.value);
      InvalidateRows(ctx, loaded, inv, outdatedOnly, Pool(loaded, inv.src.value))
  }

  function ApplyInvalidations(ctx: Context, w: Work, invs: seq<Invalidation>, outdatedOnly: bool): Work {
    if invs == [] then w
    else ApplyInvalidation(ctx, ApplyInvalidations(ctx, w, invs[..|invs| - 1], outdatedOnly), invs[|invs| - 1], outdatedOnly)
  }

  function ResolveFacts(ctx: Context, w: Work, plans: seq<Candidate>): Work {
    if plans == [] then w
    else ResolveFact(ctx, ResolveFacts(ctx, w, plans[..|plans| - 1]), plans[|plans| - 1])
  }

  /* ---------- one statement repeated in one reply ---------- */

  /** Two plans that differ in nothing but the name of their relation. */
  predicate Repeats(ctx: Context, kept: Candidate, c: Candidate) {
    && kept.src == c.src && kept.tgt == c.tgt && kept.relation != c.relation
    && SpanOf(ctx, kept).validAt == SpanOf(ctx, c).validAt
    && SpanOf(ctx, kept).invalidAt == SpanOf(ctx, c).invalidAt
    && (kept.text == c.text || (kept.vector, c.vector) in ctx.repeats)
  }

  function CollapseRepeats(ctx: Context, plans: seq<Candidate>): (kept: seq<Candidate>)
    ensures forall p | p in kept :: p in plans
  {
    if plans == [] then []
    else
      var kept, c := CollapseRepeats(ctx, plans[..|plans| - 1]), plans[|plans| - 1];
      if exists k | 0 <= k < |kept| :: Repeats(ctx, kept[k], c) then kept else kept + [c]
  }

  /* ---------- a whole run ---------- */

  /** A run's inputs: the episode, the reply with its verdicts, and the clock. */
  datatype RunInput = RunInput(
    episode: Episode,
    now: Instant,
    paraphrases: set<(Vector, Vector)>,
    repeats: set<(Vector, Vector)>,
    reembedded: map<(Vector, string), Vector>,
    listing: map<(Id, nat), int>,
    plans: seq<Candidate>,
    invalidations: seq<Invalidation>)

  function ContextOf(r: RunInput, base: nat): Context {
    Context(r.episode, r.now, r.paraphrases, r.repeats, r.reembedded, r.listing, r.plans, base)
  }

  function Start(stored: seq<Fact>): Work {
    Work(stored, {}, [], {}, [], [])
  }

  /** The row with a vector of the current length. */
  function Repaired(ctx: Context, f: Fact): Fact {
    if f.vector.Some? && (f.vector.value, f.text) in ctx.reembedded
    then f.(vector := Some(ctx.reembedded[(f.vector.value, f.text)]))
    else f
  }

  /** Whatever the run rewrites is embedded again if its vector is stale. */
  function Repair(ctx: Context, w: Work): Work {
    w.(rows := seq(|w.rows|, i requires 0 <= i < |w.rows| => if i in w.dirty then Repaired(ctx, w.rows[i]) else w.rows[i]))
  }

  function Execute(r: RunInput, stored: seq<Fact>): Work {
    var ctx := ContextOf(r, |stored|);
    var outdated := ApplyInvalidations(ctx, Start(stored), r.invalidations, true);
    var resolved := ResolveFacts(ctx, outdated, CollapseRepeats(ctx, r.plans));
    Repair(ctx, ApplyInvalidations(ctx, resolved, r.invalidations, false))
  }
}
