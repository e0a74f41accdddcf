/**
 * The cache of resolved principals, between requests, store reads, store
 * writes made anywhere and invalidations (src/server/access.ts).
 */
module PrincipalCaches {
  import opened Wrappers
  import opened Rights
  import opened Tokens

  /** An entry's longest life, in milliseconds. */
  const CACHE_MS := 30_000

  /** A secret's hash, or a token's id: what an entry is found by. */
  datatype Key = SecretHash(hash: string) | TokenId(id: string)

  /* ---------- the cache itself ---------- */

  datatype Cached = Cached(principal: Principal, until: int)

  /** Invalidations are counted, so that a load which began before one can be told from a later one. */
  datatype Cache = Cache(entries: map<Key, Cached>, generation: nat)

  function Hit(c: Cache, key: Key, now: int): Option<Principal> {
    if key in c.entries && c.entries[key].until > now then Some(c.entries[key].principal) else None
  }

  function Missed(c: Cache, key: Key): Cache {
    c.(entries := c.entries - {key})
  }

  function Until(now: int, expiresAt: Option<int>): int {
    if expiresAt.Some? && expiresAt.value < now + CACHE_MS then expiresAt.value else now + CACHE_MS
  }

  function Filled(c: Cache, key: Key, generation: nat, principal: Principal, until: int): Cache {
    if generation == c.generation then c.(entries := c.entries[key := Cached(principal, until)]) else c
  }

  function Cleared(c: Cache): Cache {
    Cache(map[], c.generation + 1)
  }

  /* ---------- what surrounds it ---------- */

  datatype Store = Store(tokens: map<Key, Token>, users: map<string, User>)

  function FindToken(s: Store, key: Key): Option<Token> {
    if key in s.tokens then Some(s.tokens[key]) else None
  }

  function GrantsOf(s: Store, name: string): seq<Grant> {
    if name in s.users then s.users[name].grants else []
  }

  /** The user as one read found it, with the grants a later one found. */
  function UserRead(s: Store, later: Store, name: string): Option<User> {
    if name in s.users then Some(s.users[name].(grants := GrantsOf(later, name))) else None
  }

  /** The store's contents after one write, and when that was. */
  datatype Version = Version(store: Store, at: int)

  /** Which versions a load read, and when it read the first. */
  datatype Seen = Seen(token: nat, user: nat, grants: nat, time: int)

  datatype Stage = Asked | HasToken(t: Token, seen: Seen) | HasUser(t: Token, u: User, seen: Seen)

  /** A request in progress or answered; `floor` is the version the last invalidation before it followed. */
  datatype Call =
    | Loading(key: Key, start: int, floor: nat, generation: nat, stage: Stage)
    | Answered(key: Key, start: int, floor: nat, seen: Seen, result: Option<Principal>)

  /** `origins` says which versions each cached entry was read from. */
  datatype State = State(cache: Cache, origins: map<Key, Seen>, log: seq<Version>, clock: int, floor: nat,
                         calls: map<nat, Call>)

  datatype Event =
    | Tick(now: int)
    | Begin(id: nat, key: Key)
    | ReadToken(id: nat)
    | ReadUser(id: nat)
    | ReadGrants(id: nat)
    | Fail(id: nat)
    | Write(store: Store)
    | Invalidate

  function Initial(store: Store, now: int): State {
    State(Cache(map[], 0), map[], [Version(store, now)], now, 0, map[])
  }

  function Last(s: State): nat
    requires |s.log| > 0
  {
    |s.log| - 1
  }

  function Current(s: State): Store
    requires |s.log| > 0
  {
    s.log[Last(s)].store
  }

  /** Ends a load: the answer, and the cache filled if nothing was invalidated meanwhile. */
  function Finished(s: State, id: nat, c: Call, t: Token, user: Option<User>, seen: Seen): State
    requires c.Loading?
  {
    var result := Resolve(t, user, c.start);
    var answered := s.(calls := s.calls[id := Answered(c.key, c.start, c.floor, seen, result)]);
    if result.None? then answered
    else
      answered.(cache := Filled(s.cache, c.key, c.generation, result.value, Until(c.start, t.expiresAt)),
                origins := if c.generation == s.cache.generation then s.origins[c.key := seen] else s.origins)
  }

  function Begun(s: State, id: nat, key: Key): State {
    var hit := Hit(s.cache, key, s.clock);
    if hit.Some? && key in s.origins then
      s.(calls := s.calls[id := Answered(key, s.clock, s.floor, s.origins[key], hit)])
    else
      s.(cache := Missed(s.cache, key),
         calls := s.calls[id := Loading(key, s.clock, s.floor, s.cache.generation, Asked)])
  }

  function TokenRead(s: State, id: nat, c: Call): State
    requires |s.log| > 0 && c.Loading? && c.stage.Asked?
  {
    var seen := Seen(Last(s), Last(s), Last(s), s.clock);
    match FindToken(Current(s), c.key)
    case None => s.(calls := s.calls[id := Answered(c.key, c.start, c.floor, seen, None)])
    case Some(t) =>
      if t.revoked || Expired(t, c.start) then Finished(s, id, c, t, None, seen)
      else s.(calls := s.calls[id := c.(stage := HasToken(t, seen))])
  }

  function UserFound(s: State, id: nat, c: Call): State
    requires |s.log| > 0 && c.Loading? && c.stage.HasToken?
  {
    var t := c.stage.t;
    var seen := c.stage.seen.(user := Last(s), grants := Last(s));
    var user := UserRead(Current(s), Current(s), t.user);
    if user.None? || user.value.disabled || user.value.admin then Finished(s, id, c, t, user, seen)
    else s.(calls := s.calls[id := c.(stage := HasUser(t, user.value, seen))])
  }

  function GrantsFound(s: State, id: nat, c: Call): State
    requires |s.log| > 0 && c.Loading? && c.stage.HasUser?
  {
    var user := c.stage.u.(grants := GrantsOf(Current(s), c.stage.t.user));
    Finished(s, id, c, c.stage.t, Some(user), c.stage.seen.(grants := Last(s)))
  }

  /** The call's next store read comes back. */
  function Advanced(s: State, e: Event, id: nat, c: Call): State
    requires |s.log| > 0 && c.Loading?
  {
    match c.stage
    case Asked => if e.ReadToken? then TokenRead(s, id, c) else s
    case HasToken(_, _) => if e.ReadUser? then UserFound(s, id, c) else s
    case HasUser(_, _, _) => if e.ReadGrants? then GrantsFound(s, id, c) else s
  }

  /** One event; one that cannot happen changes nothing. */
  function Step(s: State, e: Event): State
    requires |s.log| > 0
  {
    match e
    case Tick(now) => if now >= s.clock then s.(clock := now) else s
    case Begin(id, key) => if id in s.calls then s else Begun(s, id, key)
    case Fail(id) => if id in s.calls && s.calls[id].Loading? then s.(calls := s.calls - {id}) else s
    case Write(store) => s.(log := s.log + [Version(store, s.clock)])
    case Invalidate => s.(cache := Cleared(s.cache), origins := map[], floor := Last(s))
    case _ => if e.id in s.calls && s.calls[e.id].Loading? then Advanced(s, e, e.id, s.calls[e.id]) else s
  }

  function Replay(store: Store, now: int, events: seq<Event>): (s: State)
    ensures |s.log| > 0
  {
    if events == [] then Initial(store, now)
    else Step(Replay(store, now, events[..|events| - 1]), events[|events| - 1])
  }

  /* ---------- one request, left alone ---------- */

  /** What the store says of the key: the holder's rights, while the token is valid and its user is there. */
  function Answer(store: Store, key: Key, now: int): Option<Principal> {
    if key !in store.tokens then None
    else
      var t := store.tokens[key];
      if t.revoked || (t.expiresAt.Some? && t.expiresAt.value <= now) || t.user !in store.users then None
      else if store.users[t.user].disabled then None
      else Some(PrincipalOf(t, store.users[t.user]))
  }

  /** The state once a request begins and the store answers its reads. */
  function Requested(s: State, id: nat, key: Key): State
    requires |s.log| > 0
  {
    var begun := Step(s, Begin(id, key));
    var token := Step(begun, ReadToken(id));
    Step(Step(token, ReadUser(id)), ReadGrants(id))
  }

  /** A cached principal whose time is not over answers at once, and nothing is cached. */
  lemma FreshEntryAnswers(s: State, id: nat, key: Key)
    requires |s.log| > 0 && id !in s.calls && key in s.cache.entries && key in s.origins
    requires s.clock < s.cache.entries[key].until
    ensures var begun := Step(s, Begin(id, key));
            && id in begun.calls && begun.calls[id].Answered? && begun.calls[id].start == s.clock
            && begun.calls[id].result == Some(s.cache.entries[key].principal) && begun.cache == s.cache
  {
  }

  /**
   * Otherwise the stale entry is dropped, and a request that nothing
   * interferes with is answered from the store, and cached for as long as the
   * token lasts, and for no more than 30 seconds.
   */
  lemma LoadAnswers(s: State, id: nat, key: Key)
    requires |s.log| > 0 && id !in s.calls
    requires key in s.cache.entries ==> s.cache.entries[key].until <= s.clock
    ensures key !in Step(s, Begin(id, key)).cache.entries
    ensures var done := Requested(s, id, key);
            && id in done.calls && done.calls[id].Answered? && done.calls[id].start == s.clock
            && done.calls[id].result == Answer(s.log[|s.log| - 1].store, key, s.clock)
            && Refreshed(done.cache, s.cache, key, Answer(s.log[|s.log| - 1].store, key, s.clock),
                         if key in s.log[|s.log| - 1].store.tokens then s.log[|s.log| - 1].store.tokens[key].expiresAt
                         else None,
                         s.clock)
  {
    var begun := Step(s, Begin(id, key));
    MissIsLoaded(s, id, key);
    LoadGoesOn(begun, id, begun.calls[id]);
  }

  /** One key's entry is what was just read, and the others are as they were. */
  ghost predicate Refreshed(c: Cache, before: Cache, key: Key,
                            answer: Option<Principal>, expiresAt: Option<int>, now: int) {
    && c.generation == before.generation
    && (answer.None? ==> key !in c.entries)
    && (answer.Some? ==>
          && key in c.entries && c.entries[key].principal == answer.value
          && c.entries[key].until
             == if expiresAt.Some? && expiresAt.value < now + 30_000 then expiresAt.value else now + 30_000)
    && forall k | k != key :: (k in c.entries <==> k in before.entries)
                              && (k in before.entries ==> c.entries[k] == before.entries[k])
  }

  lemma MissIsLoaded(s: State, id: nat, key: Key)
    requires |s.log| > 0 && id !in s.calls
    requires key in s.cache.entries ==> s.cache.entries[key].until <= s.clock
    ensures var begun := Step(s, Begin(id, key));
            && begun.log == s.log && begun.clock == s.clock && id in begun.calls
            && begun.calls[id] == Loading(key, s.clock, s.floor, s.cache.generation, Asked)
            && begun.cache.generation == s.cache.generation && key !in begun.cache.entries
            && forall k | k != key :: (k in begun.cache.entries <==> k in s.cache.entries)
                                      && (k in s.cache.entries ==> begun.cache.entries[k] == s.cache.entries[k])
  {
  }

  /** The call is over with this answer, cached if there is one. */
  predicate Settled(s: State, before: State, id: nat, c: Call, t: Token, answer: Option<Principal>)
    requires c.Loading?
  {
    && s.log == before.log && s.clock == before.clock
    && id in s.calls && s.calls[id].Answered? && s.calls[id].result == answer && s.calls[id].start == c.start
    && s.cache == if answer.None? then before.cache
                  else Filled(before.cache, c.key, c.generation, answer.value, Until(c.start, t.expiresAt))
  }

  lemma TokenAnswers(s: State, id: nat, c: Call)
    requires |s.log| > 0 && id in s.calls && s.calls[id] == c && c.Loading? && c.stage.Asked?
    ensures var done := Step(s, ReadToken(id));
            var store := s.log[|s.log| - 1].store;
            && done.log == s.log && done.cache == s.cache && done.clock == s.clock && id in done.calls
            && if c.key !in store.tokens || store.tokens[c.key].revoked || Expired(store.tokens[c.key], c.start)
               then done.calls[id].Answered? && done.calls[id].result.None? && done.calls[id].start == c.start
               else exists seen :: done.calls[id] == c.(stage := HasToken(store.tokens[c.key], seen))
  {
    var seen := Seen(Last(s), Last(s), Last(s), s.clock);
    if c.key in Current(s).tokens {
      var t := Current(s).tokens[c.key];
      if !t.revoked && !Expired(t, c.start) {
        assert Step(s, ReadToken(id)).calls[id] == c.(stage := HasToken(t, seen));
      }
    }
  }

  lemma UserAnswers(s: State, id: nat, c: Call)
    requires |s.log| > 0 && id in s.calls && s.calls[id] == c && c.Loading? && c.stage.HasToken?
    requires !c.stage.t.revoked && !Expired(c.stage.t, c.start)
    ensures var done := Step(s, ReadUser(id));
            var users, t := s.log[|s.log| - 1].store.users, c.stage.t;
            if t.user !in users || users[t.user].disabled then Settled(done, s, id, c, t, None)
            else if users[t.user].admin then Settled(done, s, id, c, t, Some(PrincipalOf(t, users[t.user])))
            else
              && done.log == s.log && done.cache == s.cache && done.clock == s.clock && id in done.calls
              && exists seen :: done.calls[id] == c.(stage := HasUser(t, users[t.user], seen))
  {
    var users, t := Current(s).users, c.stage.t;
    var seen := c.stage.seen.(user := Last(s), grants := Last(s));
    if t.user in users {
      assert users[t.user].(grants := users[t.user].grants) == users[t.user];
      if !users[t.user].disabled && !users[t.user].admin {
        assert Step(s, ReadUser(id)).calls[id] == c.(stage := HasUser(t, users[t.user], seen));
      }
    }
  }

  lemma GrantsAnswer(s: State, id: nat, c: Call)
    requires |s.log| > 0 && id in s.calls && s.calls[id] == c && c.Loading? && c.stage.HasUser?
    requires !c.stage.t.revoked && !Expired(c.stage.t, c.start) && !c.stage.u.disabled
    requires var users := s.log[|s.log| - 1].store.users;
             c.stage.t.user in users && users[c.stage.t.user] == c.stage.u
    ensures Settled(Step(s, ReadGrants(id)), s, id, c, c.stage.t, Some(PrincipalOf(c.stage.t, c.stage.u)))
  {
    assert c.stage.u.(grants := c.stage.u.grants) == c.stage.u;
  }

  /** Once a call is answered no read changes it. */
  lemma AnsweredStays(s: State, id: nat)
    requires |s.log| > 0 && id in s.calls && s.calls[id].Answered?
    ensures Step(s, ReadUser(id)) == s && Step(s, ReadGrants(id)) == s
  {
  }

  lemma LoadGoesOn(s: State, id: nat, c: Call)
    requires |s.log| > 0 && id in s.calls && s.calls[id] == c && c.Loading? && c.stage.Asked?
    ensures var done := Step(Step(Step(s, ReadToken(id)), ReadUser(id)), ReadGrants(id));
            var answer := Answer(s.log[|s.log| - 1].store, c.key, c.start);
            && id in done.calls && done.calls[id].Answered? && done.calls[id].result == answer
            && done.calls[id].start == c.start
            && done.cache == if answer.None? then s.cache
                             else Filled(s.cache, c.key, c.generation, answer.value,
                                         Until(c.start, s.log[|s.log| - 1].store.tokens[c.key].expiresAt))
  {
    var token := Step(s, ReadToken(id));
    TokenAnswers(s, id, c);
    if token.calls[id].Answered? {
      AnsweredStays(token, id);
    } else {
      LoadEnds(token, id, token.calls[id]);
    }
  }

  lemma LoadEnds(s: State, id: nat, c: Call)
    requires |s.log| > 0 && id in s.calls && s.calls[id] == c && c.Loading? && c.stage.HasToken?
    requires !c.stage.t.revoked && !Expired(c.stage.t, c.start)
    ensures var users, t := s.log[|s.log| - 1].store.users, c.stage.t;
            Settled(Step(Step(s, ReadUser(id)), ReadGrants(id)), s, id, c, t,
                    if t.user !in users || users[t.user].disabled then None else Some(PrincipalOf(t, users[t.user])))
  {
    var user := Step(s, ReadUser(id));
    UserAnswers(s, id, c);
    if user.calls[id].Answered? {
      AnsweredStays(user, id);
    } else {
      GrantsAnswer(user, id, user.calls[id]);
    }
  }

  /**
   * What a write leaves in the store is answered from the next request on
   * after an invalidation, and without one from the instant at which the key's
   * entry runs out.
   */
  lemma WritesAreAnswered(s: State, store: Store, id: nat, key: Key, now: int)
    requires |s.log| > 0 && id !in s.calls && now >= s.clock
    ensures var done := Requested(Step(Step(s, Event.Write(store)), Invalidate), id, key);
            id in done.calls && done.calls[id].Answered? && done.calls[id].result == Answer(store, key, s.clock)
    ensures key !in s.cache.entries || s.cache.entries[key].until <= now ==>
              var done := Requested(Step(Step(s, Event.Write(store)), Tick(now)), id, key);
              id in done.calls && done.calls[id].Answered? && done.calls[id].result == Answer(store, key, now)
  {
    LoadAnswers(Step(Step(s, Event.Write(store)), Invalidate), id, key);
    if key !in s.cache.entries || s.cache.entries[key].until <= now {
      LoadAnswers(Step(Step(s, Event.Write(store)), Tick(now)), id, key);
    }
  }

  /** A load that fails leaves no call and nothing cached; its key can be asked for again. */
  lemma FailedLoadLeavesNothing(s: State, id: nat)
    requires |s.log| > 0 && id in s.calls
    ensures var after := Step(s, Fail(id));
            && after.cache == s.cache && after.log == s.log
            && (id in after.calls <==> s.calls[id].Answered?)
            && forall other | other in s.calls && other != id :: other in after.calls && after.calls[other] == s.calls[other]
  {
  }

  /* ---------- the invariant ---------- */

  /** What a load of the key answers a request starting at `now` when it reads these versions. */
  function Outcome(log: seq<Version>, key: Key, seen: Seen, now: int): Option<Principal>
    requires seen.token < |log| && seen.user < |log| && seen.grants < |log|
  {
    match FindToken(log[seen.token].store, key)
    case None => None
    case Some(t) => Resolve(t, UserRead(log[seen.user].store, log[seen.grants].store, t.user), now)
  }

  /** The versions were the latest when they were read, and none is older than `floor`. */
  predicate SeenOk(s: State, seen: Seen, floor: nat) {
    && floor <= seen.token <= seen.user <= seen.grants < |s.log| && seen.time <= s.clock
    && forall i | seen.token < i < |s.log| :: s.log[i].at >= seen.time
  }

  ghost predicate EntryOk(s: State, key: Key)
    requires key in s.cache.entries
  {
    && key in s.origins
    && var seen, e := s.origins[key], s.cache.entries[key];
    && SeenOk(s, seen, s.floor)
    && e.until <= seen.time + CACHE_MS
    && forall now: int | now < e.until :: Outcome(s.log, key, seen, now) == Some(e.principal)
  }

  predicate TokenOk(s: State, c: Call, t: Token, seen: Seen) {
    && SeenOk(s, seen, c.floor) && seen.time >= c.start
    && FindToken(s.log[seen.token].store, c.key) == Some(t) && !t.revoked && !Expired(t, c.start)
  }

  predicate StageOk(s: State, c: Call)
    requires c.Loading?
  {
    match c.stage
    case Asked => true
    case HasToken(t, seen) => TokenOk(s, c, t, seen)
    case HasUser(t, u, seen) =>
      && TokenOk(s, c, t, seen)
      && UserRead(s.log[seen.user].store, s.log[seen.user].store, t.user) == Some(u) && !u.disabled && !u.admin
  }

  predicate AnswerOk(s: State, c: Call)
    requires c.Answered?
  {
    && SeenOk(s, c.seen, c.floor)
    && c.seen.time > c.start - CACHE_MS
    && c.result == Outcome(s.log, c.key, c.seen, c.start)
  }

  predicate CallOk(s: State, c: Call) {
    && c.floor <= s.floor && c.start <= s.clock
    && match c
       case Loading(_, _, _, generation, _) =>
         StageOk(s, c) && generation <= s.cache.generation && (generation == s.cache.generation ==> c.floor == s.floor)
       case Answered(_, _, _, _, _) => AnswerOk(s, c)
  }

  ghost predicate Inv(s: State) {
    && s.floor < |s.log|
    && (forall key | key in s.cache.entries :: EntryOk(s, key))
    && (forall id | id in s.calls :: CallOk(s, s.calls[id]))
  }

  /* ---------- it holds in every run ---------- */

  /** What every step respects: time, versions and generations only grow. */
  predicate Later(s: State, after: State) {
    && s.log <= after.log && s.clock <= after.clock && s.floor <= after.floor
    && (forall i | |s.log| <= i < |after.log| :: after.log[i].at >= s.clock)
    && s.cache.generation <= after.cache.generation
    && (s.cache.generation == after.cache.generation ==> s.floor == after.floor)
  }

  lemma SeenStays(s: State, after: State, seen: Seen, floor: nat)
    requires Later(s, after) && SeenOk(s, seen, floor)
    ensures SeenOk(after, seen, floor)
  {
    forall i | seen.token < i < |after.log|
      ensures after.log[i].at >= seen.time
    {
      if i < |s.log| {
        assert after.log[i] == s.log[i];
      }
    }
  }

  lemma CallStays(s: State, after: State, c: Call)
    requires Later(s, after) && CallOk(s, c)
    ensures CallOk(after, c)
  {
    match c
    case Loading(_, _, floor, _, stage) =>
      if !stage.Asked? {
        SeenStays(s, after, stage.seen, floor);
      }
    case Answered(_, _, floor, seen, _) => SeenStays(s, after, seen, floor);
  }

  lemma EntryStays(s: State, after: State, key: Key)
    requires Later(s, after) && s.floor == after.floor
    requires key in s.cache.entries && EntryOk(s, key)
    requires key in after.cache.entries && after.cache.entries[key] == s.cache.entries[key]
    requires key in after.origins && after.origins[key] == s.origins[key]
    ensures EntryOk(after, key)
  {
    var seen := s.origins[key];
    SeenStays(s, after, seen, s.floor);
    forall now: int | now < after.cache.entries[key].until
      ensures Outcome(after.log, key, seen, now) == Some(after.cache.entries[key].principal)
    {
      assert Outcome(s.log, key, seen, now) == Some(s.cache.entries[key].principal);
    }
  }

  lemma FinishedKeepsInv(s: State, id: nat, c: Call, t: Token, user: Option<User>, seen: Seen)
    requires Inv(s) && CallOk(s, c) && c.Loading?
    requires SeenOk(s, seen, c.floor) && c.start <= seen.time
    requires FindToken(s.log[seen.token].store, c.key) == Some(t)
    requires Resolve(t, user, c.start) == Outcome(s.log, c.key, seen, c.start)
    ensures Inv(Finished(s, id, c, t, user, seen))
  {
    var after := Finished(s, id, c, t, user, seen);
    forall i | i in after.calls
      ensures CallOk(after, after.calls[i])
    {
      if i != id {
        CallStays(s, after, s.calls[i]);
      } else {
        SeenStays(s, after, seen, c.floor);
      }
    }
    forall key | key in after.cache.entries
      ensures EntryOk(after, key)
    {
      if key in s.cache.entries && after.cache.entries[key] == s.cache.entries[key] && after.origins == s.origins {
        EntryStays(s, after, key);
      } else if key != c.key {
        EntryStays(s, after, key);
      } else {
        SeenStays(s, after, seen, c.floor);
      }
    }
  }

  /** A call that is replaced, with the cache and the versions as they are. */
  lemma CallChangeKeepsInv(s: State, id: nat, c: Call)
    requires Inv(s) && CallOk(s, c)
    ensures Inv(s.(calls := s.calls[id := c]))
  {
    var after := s.(calls := s.calls[id := c]);
    forall key | key in after.cache.entries
      ensures EntryOk(after, key)
    {
      EntryStays(s, after, key);
    }
    forall i | i in after.calls
      ensures CallOk(after, after.calls[i])
    {
      CallStays(s, after, after.calls[i]);
    }
  }

  lemma BeginKeepsInv(s: State, id: nat, key: Key)
    requires Inv(s) && |s.log| > 0
    ensures Inv(Begun(s, id, key))
  {
    var hit := Hit(s.cache, key, s.clock);
    if hit.Some? && key in s.origins {
      assert EntryOk(s, key);
      CallChangeKeepsInv(s, id, Answered(key, s.clock, s.floor, s.origins[key], hit));
    } else {
      var missed := s.(cache := Missed(s.cache, key));
      forall k | k in missed.cache.entries
        ensures EntryOk(missed, k)
      {
        EntryStays(s, missed, k);
      }
      forall i | i in missed.calls
        ensures CallOk(missed, missed.calls[i])
      {
        CallStays(s, missed, missed.calls[i]);
      }
      CallChangeKeepsInv(missed, id, Loading(key, s.clock, s.floor, s.cache.generation, Asked));
    }
  }

  lemma TokenReadKeepsInv(s: State, id: nat, c: Call)
    requires Inv(s) && |s.log| > 0 && CallOk(s, c) && c.Loading? && c.stage.Asked?
    ensures Inv(TokenRead(s, id, c))
  {
    var seen := Seen(Last(s), Last(s), Last(s), s.clock);
    match FindToken(Current(s), c.key)
    case None => CallChangeKeepsInv(s, id, Answered(c.key, c.start, c.floor, seen, None));
    case Some(t) =>
      if t.revoked || Expired(t, c.start) {
        FinishedKeepsInv(s, id, c, t, None, seen);
      } else {
        CallChangeKeepsInv(s, id, c.(stage := HasToken(t, seen)));
      }
  }

  lemma UserFoundKeepsInv(s: State, id: nat, c: Call)
    requires Inv(s) && |s.log| > 0 && CallOk(s, c) && c.Loading? && c.stage.HasToken?
    ensures Inv(UserFound(s, id, c))
  {
    var t := c.stage.t;
    var seen := c.stage.seen.(user := Last(s), grants := Last(s));
    var user := UserRead(Current(s), Current(s), t.user);
    if user.None? || user.value.disabled || user.value.admin {
      FinishedKeepsInv(s, id, c, t, user, seen);
    } else {
      CallChangeKeepsInv(s, id, c.(stage := HasUser(t, user.value, seen)));
    }
  }

  lemma GrantsFoundKeepsInv(s: State, id: nat, c: Call)
    requires Inv(s) && |s.log| > 0 && CallOk(s, c) && c.Loading? && c.stage.HasUser?
    ensures Inv(GrantsFound(s, id, c))
  {
    var t, u := c.stage.t, c.stage.u;
    var user := u.(grants := GrantsOf(Current(s), t.user));
    var seen := c.stage.seen.(grants := Last(s));
    assert UserRead(s.log[seen.user].store, Current(s), t.user) == Some(user);
    FinishedKeepsInv(s, id, c, t, Some(user), seen);
  }

  /** Steps that leave the entries alone, or drop them all. */
  lemma SurroundingsKeepInv(s: State, e: Event)
    requires Inv(s) && |s.log| > 0
    requires e.Tick? || e.Fail? || e.Write? || e.Invalidate?
    ensures Inv(Step(s, e))
  {
    var after := Step(s, e);
    assert Later(s, after);
    forall i | i in after.calls
      ensures CallOk(after, after.calls[i])
    {
      CallStays(s, after, s.calls[i]);
    }
    if !e.Invalidate? {
      forall key | key in after.cache.entries
        ensures EntryOk(after, key)
      {
        EntryStays(s, after, key);
      }
    }
  }

  lemma StepKeepsInv(s: State, e: Event)
    requires Inv(s) && |s.log| > 0
    ensures Inv(Step(s, e))
  {
    match e
    case Tick(_) => SurroundingsKeepInv(s, e);
    case Begin(id, key) => if id !in s.calls { BeginKeepsInv(s, id, key); }
    case Fail(_) => SurroundingsKeepInv(s, e);
    case Write(_) => SurroundingsKeepInv(s, e);
    case Invalidate => SurroundingsKeepInv(s, e);
    case _ =>
      if e.id in s.calls && s.calls[e.id].Loading? {
        var c := s.calls[e.id];
        if c.stage.Asked? { TokenReadKeepsInv(s, e.id, c); }
        else if c.stage.HasToken? { UserFoundKeepsInv(s, e.id, c); }
        else { GrantsFoundKeepsInv(s, e.id, c); }
      }
  }

  lemma {:induction false} ReachableInv(store: Store, now: int, events: seq<Event>)
    ensures Inv(Replay(store, now, events))
  {
    if events != [] {
      ReachableInv(store, now, events[..|events| - 1]);
      StepKeepsInv(Replay(store, now, events[..|events| - 1]), events[|events| - 1]);
    }
  }

  /* ---------- what it means for an answer ---------- */

  /**
   * Every answer, cached or not, is what some versions of the store give for
   * the request's own starting time: none older than the last invalidation
   * before the request, and none that leaves out a write made CACHE_MS or
   * longer before it.
   */
  lemma AnswersAreFresh(store: Store, now: int, events: seq<Event>, id: nat)
    requires var s := Replay(store, now, events); id in s.calls && s.calls[id].Answered?
    ensures var s := Replay(store, now, events);
            var c := s.calls[id];
            && c.floor <= c.seen.token <= c.seen.user <= c.seen.grants < |s.log|
            && (forall i | 0 <= i < |s.log| && s.log[i].at <= c.start - CACHE_MS :: i <= c.seen.token)
            && c.result == Outcome(s.log, c.key, c.seen, c.start)
  {
    ReachableInv(store, now, events);
    var s := Replay(store, now, events);
    assert CallOk(s, s.calls[id]);
  }

  /** A request that starts after an invalidation reads no version older than the one it followed. */
  lemma {:induction false} LaterRequestsReadNothingOlder(store: Store, now: int, before: seq<Event>,
                                                         after: seq<Event>, id: nat)
    requires id !in Replay(store, now, before).calls
    requires id in Replay(store, now, before + [Invalidate] + after).calls
    ensures var s := Replay(store, now, before);
            var c := Replay(store, now, before + [Invalidate] + after).calls[id];
            && c.floor >= Last(s)
            && (c.Answered? ==> c.seen.token >= Last(s))
  {
    var s := Replay(store, now, before);
    FloorOnlyRises(store, now, before, after, id);
    var events := before + [Invalidate] + after;
    if Replay(store, now, events).calls[id].Answered? {
      AnswersAreFresh(store, now, events, id);
    }
  }

  lemma {:induction false} FloorOnlyRises(store: Store, now: int, before: seq<Event>, after: seq<Event>, id: nat)
    requires id !in Replay(store, now, before).calls
    ensures var s := Replay(store, now, before + [Invalidate] + after);
            && s.floor >= Last(Replay(store, now, before))
            && (id in s.calls ==> s.calls[id].floor >= Last(Replay(store, now, before)))
  {
    var events := before + [Invalidate] + after;
    if after == [] {
      assert events == before + [Invalidate] && events[..|events| - 1] == before;
    } else {
      assert events[..|events| - 1] == before + [Invalidate] + after[..|after| - 1];
      FloorOnlyRises(store, now, before, after[..|after| - 1], id);
      ReachableInv(store, now, events[..|events| - 1]);
      FloorStep(Replay(store, now, events[..|events| - 1]), events[|events| - 1], id);
    }
  }

  lemma FloorStep(s: State, e: Event, id: nat)
    requires Inv(s) && |s.log| > 0
    ensures Step(s, e).floor >= s.floor
    ensures id in Step(s, e).calls ==>
              Step(s, e).calls[id].floor == if id in s.calls then s.calls[id].floor else s.floor
  {
    if (e.ReadToken? || e.ReadUser? || e.ReadGrants?) && e.id in s.calls && s.calls[e.id].Loading? {
      AdvancedKeepsFloor(s, e, e.id, s.calls[e.id]);
    }
  }

  lemma AdvancedKeepsFloor(s: State, e: Event, id: nat, c: Call)
    requires |s.log| > 0 && c.Loading? && id in s.calls && s.calls[id] == c
    ensures var after := Advanced(s, e, id, c);
            && after.floor == s.floor && after.calls.Keys == s.calls.Keys
            && forall i | i in s.calls :: after.calls[i].floor == s.calls[i].floor
  {
  }

  /** What the store, read at one moment, answers a request. */
  function Direct(s: Store, key: Key, now: int): Option<Principal> {
    match FindToken(s, key)
    case None => None
    case Some(t) => Resolve(t, UserRead(s, s, t.user), now)
  }

  /**
   * A request that starts after an invalidation gets what the store itself
   * answers, if the store did not change between that invalidation and the answer.
   */
  lemma ChangesMadeHereAreSeen(store: Store, now: int, events: seq<Event>, id: nat, current: Store)
    requires var s := Replay(store, now, events);
             && id in s.calls && s.calls[id].Answered?
             && forall i | s.calls[id].floor <= i <= s.calls[id].seen.grants < |s.log| :: s.log[i].store == current
    ensures var c := Replay(store, now, events).calls[id];
            c.result == Direct(current, c.key, c.start)
  {
    AnswersAreFresh(store, now, events, id);
  }

  /** No principal is returned to a request that starts once its token, as it was read, has expired. */
  lemma NothingAfterExpiry(store: Store, now: int, events: seq<Event>, id: nat)
    requires var s := Replay(store, now, events);
             id in s.calls && s.calls[id].Answered? && s.calls[id].result.Some?
    ensures var s := Replay(store, now, events);
            var c := s.calls[id];
            && c.seen.token < |s.log| && FindToken(s.log[c.seen.token].store, c.key).Some?
            && var t := FindToken(s.log[c.seen.token].store, c.key).value;
            !t.revoked && !Expired(t, c.start)
  {
    AnswersAreFresh(store, now, events, id);
  }

  /* ---------- the object ---------- */

  /** The cache's own part of the protocol; the store reads happen between `Lookup` and `Fill`. */
  class PrincipalCache {
    var entries: map<Key, Cached>
    var generation: nat

    ghost function Now(): Cache
      reads this
    {
      Cache(entries, generation)
    }

    constructor ()
      ensures Now() == Cache(map[], 0)
    {
      entries, generation := map[], 0;
    }

    /** A fresh entry, or the generation to fill the cache with later. */
    method Lookup(key: Key, now: int) returns (hit: Option<Principal>, asked: nat)
      modifies this
      ensures hit == Hit(old(Now()), key, now) && asked == old(generation)
      ensures Now() == if hit.Some? then old(Now()) else Missed(old(Now()), key)
    {
      asked := generation;
      if key in entries && entries[key].until > now {
        return Some(entries[key].principal), asked;
      }
      entries := entries - {key};
      hit := None;
    }

    method Fill(key: Key, asked: nat, principal: Principal, now: int, expiresAt: Option<int>)
      modifies this
      ensures Now() == Filled(old(Now()), key, asked, principal, Until(now, expiresAt))
    {
      var until := now + CACHE_MS;
      if expiresAt.Some? && expiresAt.value < until {
        until := expiresAt.value;
      }
      if asked == generation {
        entries := entries[key := Cached(principal, until)];
      }
    }

    method Invalidate()
      modifies this
      ensures Now() == Cleared(old(Now()))
    {
      generation := generation + 1;
      entries := map[];
    }
  }
}
