/**
 * Tokens, the rights they resolve to, and the tokens their holders mint for
 * themselves (src/server/access.ts).
 */
module Tokens {
  import opened Wrappers
  import opened Rights

  datatype User = User(name: string, admin: bool, disabled: bool, defaultGroup: string, grants: seq<Grant>)

  datatype Token = Token(user: string, groups: Option<seq<string>>, role: Option<Role>,
                         defaultGroup: Option<string>, expiresAt: Option<int>, revoked: bool)

  /** What a caller asks of a new token; `until` is its expiry, counted from the request. */
  datatype Request = Request(groups: Option<seq<string>>, role: Option<Role>,
                             defaultGroup: Option<string>, until: Option<int>)

  datatype Refusal = OutOfReach

  /* ---------- resolving a token ---------- */

  predicate Restricted(t: Token) {
    t.groups.Some? || t.role.Some?
  }

  /** The caller a token of the user stands for. */
  function PrincipalOf(t: Token, u: User): Principal {
    Principal(t.defaultGroup.GetOr(u.defaultGroup), if u.admin then Any else Listed(u.grants),
              u.admin && !Restricted(t), Restriction(t.groups, t.role))
  }

  predicate Expired(t: Token, now: int) {
    t.expiresAt.Some? && t.expiresAt.value <= now
  }

  function Resolve(t: Token, user: Option<User>, now: int): Option<Principal> {
    if t.revoked || Expired(t, now) then None
    else if user.None? || user.value.disabled then None
    else Some(PrincipalOf(t, user.value))
  }

  /* ---------- minting ---------- */

  function Overlaps(asked: seq<string>, reach: seq<string>): seq<Option<string>> {
    if asked == [] then []
    else
      var a := asked[|asked| - 1];
      Overlaps(asked[..|asked| - 1], reach)
      + seq(|reach|, j requires 0 <= j < |reach| => IntersectPatterns(a, reach[j]))
  }

  /** The list without repetitions, in order of first appearance. */
  function Unique<T(==,!new)>(s: seq<T>): (r: seq<T>)
    ensures forall x :: x in r <==> x in s
    ensures forall i, j | 0 <= i < j < |r| :: r[i] != r[j]
  {
    if s == [] then []
    else
      var r, x := Unique(s[..|s| - 1]), s[|s| - 1];
      assert s == s[..|s| - 1] + [x];
      if x in r then r else r + [x]
  }

  function Defined<T(!new)>(s: seq<Option<T>>): (r: seq<T>)
    ensures forall x :: x in r <==> Some(x) in s
  {
    if s == [] then []
    else
      var r, x := Defined(s[..|s| - 1]), s[|s| - 1];
      assert s == s[..|s| - 1] + [x];
      if x.Some? then r + [x.value] else r
  }

  function Narrowed(asked: seq<string>, reach: seq<string>): seq<string> {
    Defined(Unique(Overlaps(asked, reach)))
  }

  function MintedGroups(reach: Option<seq<string>>, asked: Option<seq<string>>): Option<seq<string>> {
    if asked.None? && reach.None? then None
    else if reach.None? then asked
    else Some(Narrowed(asked.GetOr(reach.value), reach.value))
  }

  function MintedRole(cap: Option<Role>, asked: Option<Role>): Option<Role> {
    if cap == Some(Reader) || asked == Some(Reader) then Some(Reader)
    else if asked.Some? then asked
    else cap
  }

  function Earlier(a: Option<int>, b: Option<int>): Option<int> {
    if a.Some? && b.Some? then (if a.value < b.value then a else b)
    else if a.Some? then a
    else b
  }

  /** Minting: `own` is the token presented, and the result narrows it. */
  function CreateMyToken(p: Principal, own: Token, r: Request): Result<Token, Refusal> {
    var groups := MintedGroups(p.restriction.groups, r.groups);
    if p.restriction.groups.Some? && groups == Some([]) then Err(OutOfReach)
    else
      Ok(Token(own.user, groups, MintedRole(p.restriction.role, r.role), r.defaultGroup,
               Earlier(r.until, own.expiresAt), false))
  }

  /** What the input schema accepts: some well-formed patterns, and no owner cap. */
  predicate Accepted(r: Request) {
    && (r.groups.Some? ==> |r.groups.value| > 0 && AllWellFormed(r.groups.value))
    && r.role != Some(Owner)
  }

  predicate AllWellFormed(patterns: seq<string>) {
    forall k | 0 <= k < |patterns| :: WellFormed(patterns[k])
  }

  predicate WellFormedToken(t: Token) {
    t.groups.Some? ==> |t.groups.value| > 0 && AllWellFormed(t.groups.value)
  }

  /* ---------- what the groups of a minted token are ---------- */

  lemma {:induction false} OverlapsAre(asked: seq<string>, reach: seq<string>, x: Option<string>)
    ensures x in Overlaps(asked, reach)
            <==> exists a, b :: a in asked && b in reach && IntersectPatterns(a, b) == x
  {
    if asked != [] {
      var rest, a := asked[..|asked| - 1], asked[|asked| - 1];
      assert asked == rest + [a];
      OverlapsAre(rest, reach, x);
      var row := seq(|reach|, j requires 0 <= j < |reach| => IntersectPatterns(a, reach[j]));
      if b :| b in reach && IntersectPatterns(a, b) == x {
        var j :| 0 <= j < |reach| && reach[j] == b;
        assert row[j] == x;
      }
    }
  }

  lemma NarrowedAre(asked: seq<string>, reach: seq<string>, g: string)
    ensures g in Narrowed(asked, reach)
            <==> exists a, b :: a in asked && b in reach && IntersectPatterns(a, b) == Some(g)
  {
    OverlapsAre(asked, reach, Some(g));
  }

  predicate Reaches(patterns: seq<string>, group: string) {
    exists a :: a in patterns && Matches(a, group)
  }

  lemma ReachesIsWithin(patterns: seq<string>, group: string)
    ensures Reaches(patterns, group) <==> Within(Some(patterns), group)
  {
    if k :| 0 <= k < |patterns| && Matches(patterns[k], group) {
      assert patterns[k] in patterns;
    }
  }

  /** The narrowed list reaches exactly the groups that both lists reach. */
  lemma NarrowedReaches(asked: seq<string>, reach: seq<string>, group: string)
    requires AllWellFormed(asked) && AllWellFormed(reach)
    ensures Reaches(Narrowed(asked, reach), group) <==> Reaches(asked, group) && Reaches(reach, group)
  {
    if g :| g in Narrowed(asked, reach) && Matches(g, group) {
      NarrowedAre(asked, reach, g);
      var a, b :| a in asked && b in reach && IntersectPatterns(a, b) == Some(g);
      IntersectionOfWellFormed(a, b);
    }
    if a, b :| a in asked && Matches(a, group) && b in reach && Matches(b, group) {
      IntersectionOfWellFormed(a, b);
      var g := IntersectPatterns(a, b).value;
      NarrowedAre(asked, reach, g);
      assert g in Narrowed(asked, reach) && Matches(g, group);
    }
  }

  lemma NarrowedAreWellFormed(asked: seq<string>, reach: seq<string>)
    requires AllWellFormed(asked) && AllWellFormed(reach)
    ensures AllWellFormed(Narrowed(asked, reach))
  {
    forall k | 0 <= k < |Narrowed(asked, reach)|
      ensures WellFormed(Narrowed(asked, reach)[k])
    {
      var g := Narrowed(asked, reach)[k];
      NarrowedAre(asked, reach, g);
      var a, b :| a in asked && b in reach && IntersectPatterns(a, b) == Some(g);
      IntersectionOfWellFormed(a, b);
    }
  }

  /* ---------- one step ---------- */

  /** The groups of a minted token: both those within reach and those asked for. */
  lemma MintedReaches(reach: Option<seq<string>>, asked: Option<seq<string>>, group: string)
    requires reach.Some? ==> AllWellFormed(reach.value)
    requires asked.Some? ==> AllWellFormed(asked.value)
    ensures Within(MintedGroups(reach, asked), group) <==> Within(reach, group) && Within(asked, group)
  {
    if reach.Some? {
      var list := asked.GetOr(reach.value);
      NarrowedReaches(list, reach.value, group);
      ReachesIsWithin(list, group);
      ReachesIsWithin(reach.value, group);
      ReachesIsWithin(Narrowed(list, reach.value), group);
    }
  }

  lemma MintedCap(role: Role, cap: Option<Role>, asked: Option<Role>)
    requires asked != Some(Owner)
    ensures Lower(role, MintedRole(cap, asked)) == Lower(Lower(role, cap), asked)
  {
    assert Rank(Reader) == 1 && Rank(Writer) == 2 && Rank(Owner) == 3;
  }

  function CappedBy(role: Option<Role>, cap: Option<Role>): Option<Role> {
    if role.None? then None else Some(Lower(role.value, cap))
  }

  /**
   * A minted token's role is, in every group and for whatever the user holds
   * by then, exactly the minting token's role there, kept to the groups and
   * the cap that were asked for.
   */
  lemma MintedRoleIn(t: Token, asker: User, r: Request, u: User, group: string)
    requires WellFormedToken(t) && Accepted(r)
    requires CreateMyToken(PrincipalOf(t, asker), t, r).Ok?
    ensures var minted := CreateMyToken(PrincipalOf(t, asker), t, r).value;
            RoleIn(PrincipalOf(minted, u), group)
            == if Within(r.groups, group) then CappedBy(RoleIn(PrincipalOf(t, u), group), r.role) else None
  {
    MintedReaches(t.groups, r.groups, group);
    var held := Highest(HeldGrants(PrincipalOf(t, u)), group);
    if held.Some? {
      MintedCap(held.value, t.role, r.role);
    }
  }

  /**
   * Whom a token stands for: its user in its own group, or the user's if it
   * names none; holding everything if the user is an admin, and an admin's
   * rights only through a token without limits.
   */
  lemma PrincipalIs(t: Token, u: User)
    ensures var p := PrincipalOf(t, u);
            && p.defaultGroup == (if t.defaultGroup.Some? then t.defaultGroup.value else u.defaultGroup)
            && p.held == (if u.admin then Any else Listed(u.grants))
            && (p.admin <==> u.admin && t.groups.None? && t.role.None?)
            && p.restriction.groups == t.groups && p.restriction.role == t.role
  {
  }

  /** Only a token limited to some groups can be refused another. */
  lemma UnlimitedIsNotRefused(p: Principal, own: Token, r: Request)
    requires p.restriction.groups.None?
    ensures CreateMyToken(p, own, r).Ok? && CreateMyToken(p, own, r).value.groups == r.groups
  {
  }

  /** A minted token is its holder's own, fresh, and expires with the token presented or when it was asked to, if that is sooner. */
  lemma MintedExpiresIff(p: Principal, own: Token, r: Request, now: int)
    requires CreateMyToken(p, own, r).Ok?
    ensures var minted := CreateMyToken(p, own, r).value;
            && (Expired(minted, now) <==> Expired(own, now) || (r.until.Some? && r.until.value <= now))
            && minted.user == own.user && minted.defaultGroup == r.defaultGroup && !minted.revoked
  {
  }

  /** A token resolves exactly while it is not revoked and not expired, and its user exists and is not disabled. */
  lemma ResolvesIff(t: Token, user: Option<User>, now: int)
    ensures Resolve(t, user, now).Some?
            <==> !t.revoked && (t.expiresAt.None? || now < t.expiresAt.value) && user.Some? && !user.value.disabled
  {
  }

  lemma MintedIsWellFormed(t: Token, u: User, r: Request)
    requires WellFormedToken(t) && Accepted(r)
    requires CreateMyToken(PrincipalOf(t, u), t, r).Ok?
    ensures WellFormedToken(CreateMyToken(PrincipalOf(t, u), t, r).value)
  {
    if t.groups.Some? {
      NarrowedAreWellFormed(r.groups.GetOr(t.groups.value), t.groups.value);
    }
  }

  /** A request is refused exactly when no group at all is both asked for and within reach. */
  lemma RefusedIff(t: Token, u: User, r: Request)
    requires WellFormedToken(t) && Accepted(r)
    ensures CreateMyToken(PrincipalOf(t, u), t, r).Err?
            <==> forall g: string :: !(Within(t.groups, g) && Within(r.groups, g))
  {
    match t.groups {
      case None =>
        if r.groups.Some? {
          var g := FirstIsReached(r.groups.value);
        } else {
          assert Within(t.groups, "") && Within(r.groups, "");
        }
      case Some(reach) =>
        var asked := r.groups.GetOr(reach);
        NarrowedIsEmptyIff(asked, reach);
        assert forall g: string :: Within(t.groups, g) && Within(r.groups, g)
                                   <==> Within(Some(asked), g) && Within(Some(reach), g);
    }
  }

  lemma NarrowedIsEmptyIff(asked: seq<string>, reach: seq<string>)
    requires AllWellFormed(asked) && AllWellFormed(reach)
    ensures Narrowed(asked, reach) == []
            <==> forall g: string :: !(Within(Some(asked), g) && Within(Some(reach), g))
  {
    NarrowedAreWellFormed(asked, reach);
    forall g: string
      ensures Within(Some(asked), g) && Within(Some(reach), g) <==> Reaches(Narrowed(asked, reach), g)
    {
      NarrowedReaches(asked, reach, g);
      ReachesIsWithin(asked, g);
      ReachesIsWithin(reach, g);
    }
    if Narrowed(asked, reach) != [] {
      var g := FirstIsReached(Narrowed(asked, reach));
      assert Within(Some(asked), g) && Within(Some(reach), g);
    }
  }

  lemma FirstIsReached(patterns: seq<string>) returns (g: string)
    requires |patterns| > 0 && AllWellFormed(patterns)
    ensures Reaches(patterns, g) && Within(Some(patterns), g)
  {
    g := Example(patterns[0]);
    ReachesIsWithin(patterns, g);
  }

  /* ---------- any chain of tokens ---------- */

  /** The state of the user when it asked, and what it asked for. */
  datatype Minting = Minting(user: User, request: Request)

  /** The token at the end of a chain, each minted by a caller holding the one before; none if one was refused. */
  function Chain(t: Token, steps: seq<Minting>): Option<Token> {
    if steps == [] then Some(t)
    else
      var parent, step := Chain(t, steps[..|steps| - 1]), steps[|steps| - 1];
      if parent.None? then None
      else
        match CreateMyToken(PrincipalOf(parent.value, step.user), parent.value, step.request)
        case Ok(minted) => Some(minted)
        case Err(_) => None
  }

  predicate AllAccepted(steps: seq<Minting>) {
    forall i | 0 <= i < |steps| :: Accepted(steps[i].request)
  }

  /** The group is within every request of the chain. */
  predicate WithinAll(steps: seq<Minting>, group: string) {
    forall i | 0 <= i < |steps| :: Within(steps[i].request.groups, group)
  }

  /** The role, capped by every request of the chain. */
  function CappedByAll(role: Option<Role>, steps: seq<Minting>): Option<Role> {
    if steps == [] then role else CappedBy(CappedByAll(role, steps[..|steps| - 1]), steps[|steps| - 1].request.role)
  }

  lemma {:induction false} ChainIsWellFormed(t: Token, steps: seq<Minting>)
    requires WellFormedToken(t) && AllAccepted(steps) && Chain(t, steps).Some?
    ensures WellFormedToken(Chain(t, steps).value)
  {
    if steps != [] {
      var rest, step := steps[..|steps| - 1], steps[|steps| - 1];
      ChainIsWellFormed(t, rest);
      MintedIsWellFormed(Chain(t, rest).value, step.user, step.request);
    }
  }

  lemma WithinOneMore(rest: seq<Minting>, step: Minting, group: string)
    ensures WithinAll(rest + [step], group) <==> WithinAll(rest, group) && Within(step.request.groups, group)
  {
    var steps := rest + [step];
    assert forall i | 0 <= i < |rest| :: steps[i] == rest[i];
    assert steps[|rest|] == step;
  }

  /** The exact role, in any group, of a token at the end of any chain of requests. */
  lemma {:induction false} ChainRoleIn(t: Token, steps: seq<Minting>, u: User, group: string)
    requires WellFormedToken(t) && AllAccepted(steps) && Chain(t, steps).Some?
    ensures RoleIn(PrincipalOf(Chain(t, steps).value, u), group)
            == if WithinAll(steps, group) then CappedByAll(RoleIn(PrincipalOf(t, u), group), steps) else None
  {
    if steps != [] {
      var rest, step := steps[..|steps| - 1], steps[|steps| - 1];
      ChainRoleIn(t, rest, u, group);
      ChainIsWellFormed(t, rest);
      MintedRoleIn(Chain(t, rest).value, step.user, step.request, u, group);
      WithinOneMore(rest, step, group);
      assert steps == rest + [step];
    }
  }

  predicate AtMost(a: Option<Role>, b: Option<Role>) {
    a.Some? ==> b.Some? && Rank(a.value) <= Rank(b.value)
  }

  lemma {:induction false} CapsOnlyLower(role: Option<Role>, steps: seq<Minting>)
    ensures AtMost(CappedByAll(role, steps), role)
  {
    if steps != [] {
      CapsOnlyLower(role, steps[..|steps| - 1]);
    }
  }

  /** Some request of the chain asked for an expiry that has passed. */
  predicate AskedToExpire(steps: seq<Minting>, now: int) {
    exists k | 0 <= k < |steps| :: steps[k].request.until.Some? && steps[k].request.until.value <= now
  }

  lemma AskedOneMore(rest: seq<Minting>, step: Minting, now: int)
    ensures AskedToExpire(rest + [step], now)
            <==> AskedToExpire(rest, now) || (step.request.until.Some? && step.request.until.value <= now)
  {
    var steps := rest + [step];
    assert steps[|rest|] == step && forall k | 0 <= k < |rest| :: steps[k] == rest[k];
    if k :| 0 <= k < |rest| && rest[k].request.until.Some? && rest[k].request.until.value <= now {
      assert steps[k] == rest[k];
    }
  }

  /** Exactly when the last token of a chain has expired: the first has, or a request asked for it. */
  lemma {:induction false} ChainExpiresIff(t: Token, steps: seq<Minting>, now: int)
    requires Chain(t, steps).Some?
    ensures Expired(Chain(t, steps).value, now) <==> Expired(t, now) || AskedToExpire(steps, now)
  {
    if steps != [] {
      var rest, step := steps[..|steps| - 1], steps[|steps| - 1];
      assert steps == rest + [step];
      ChainExpiresIff(t, rest, now);
      var parent := Chain(t, rest).value;
      MintedExpiresIff(PrincipalOf(parent, step.user), parent, step.request, now);
      AskedOneMore(rest, step, now);
    }
  }

  lemma {:induction false} ChainKeepsHolder(t: Token, steps: seq<Minting>)
    requires Chain(t, steps).Some?
    ensures var last := Chain(t, steps).value;
            && last.user == t.user && (Restricted(t) ==> Restricted(last))
            && (steps != [] ==> last.defaultGroup == steps[|steps| - 1].request.defaultGroup && !last.revoked)
  {
    if steps != [] {
      ChainKeepsHolder(t, steps[..|steps| - 1]);
    }
  }

  /**
   * Attenuation over any chain: the last token is worth at most the first in
   * every group, is an admin's only if the first was, and resolves exactly
   * while the first is not expired, no request's expiry has passed, and its
   * user is there.
   */
  lemma TokensAttenuate(t: Token, steps: seq<Minting>, u: User, group: string, now: int)
    requires WellFormedToken(t) && AllAccepted(steps) && Chain(t, steps).Some?
    ensures var last := Chain(t, steps).value;
            && AtMost(RoleIn(PrincipalOf(last, u), group), RoleIn(PrincipalOf(t, u), group))
            && (PrincipalOf(last, u).admin ==> PrincipalOf(t, u).admin)
            && (Resolve(last, Some(u), now).Some? && !t.revoked ==> Resolve(t, Some(u), now).Some?)
            && (steps != [] ==>
                  (Resolve(last, Some(u), now).Some? <==> !Expired(t, now) && !AskedToExpire(steps, now) && !u.disabled))
  {
    ChainRoleIn(t, steps, u, group);
    CapsOnlyLower(RoleIn(PrincipalOf(t, u), group), steps);
    ChainExpiresIff(t, steps, now);
    ChainKeepsHolder(t, steps);
  }
}
