/**
 * Group patterns, roles and what a caller may do (src/server/auth.ts).
 */
module Rights {
  import opened Wrappers

  datatype Role = Reader | Writer | Owner

  function Rank(r: Role): nat {
    match r case Reader => 1 case Writer => 2 case Owner => 3
  }

  datatype Grant = Grant(pattern: string, role: Role)

  /** The limits a token puts on its user: a list of groups, a highest role, or neither. */
  datatype Restriction = Restriction(groups: Option<seq<string>>, role: Option<Role>)

  datatype Held = Any | Listed(grants: seq<Grant>)

  datatype Principal = Principal(defaultGroup: string, held: Held, admin: bool, restriction: Restriction)

  /* ---------- patterns ---------- */

  predicate IsPrefix(p: string) {
    |p| > 0 && p[|p| - 1] == '*'
  }

  function Stem(p: string): string
    requires IsPrefix(p)
  {
    p[..|p| - 1]
  }

  predicate Matches(pattern: string, group: string) {
    if IsPrefix(pattern) then Stem(pattern) <= group else pattern == group
  }

  /** The overlap of two patterns, where the code finds one. */
  function IntersectPatterns(a: string, b: string): Option<string> {
    if !IsPrefix(a) then if Matches(b, a) then Some(a) else None
    else if !IsPrefix(b) then if Matches(a, b) then Some(b) else None
    else if Stem(a) <= b then Some(b)
    else if Stem(b) <= a then Some(a)
    else None
  }

  /** The name or prefix the input schemas accept: a star only at the end. */
  predicate WellFormed(p: string) {
    |p| > 0 && forall i | 0 <= i < |p| - 1 :: p[i] != '*'
  }

  ghost predicate DenotesIntersection(r: Option<string>, a: string, b: string) {
    forall g: string :: (r.Some? && Matches(r.value, g)) <==> (Matches(a, g) && Matches(b, g))
  }

  lemma PrefixesCompare(a: string, b: string, g: string)
    requires a <= g && b <= g
    ensures a <= b || b <= a
  {
    if |a| <= |b| {
      assert a == g[..|a|] && b[..|a|] == g[..|a|];
    } else {
      assert b == g[..|b|] && a[..|b|] == g[..|b|];
    }
  }

  /**
   * Exactly when the intersection of two patterns is exact: always, except
   * when the first is the second, itself a prefix, with one more star.
   */
  lemma IntersectionIsExactIff(a: string, b: string)
    ensures DenotesIntersection(IntersectPatterns(a, b), a, b) <==> !(IsPrefix(b) && a == b + "*")
  {
    var r := IntersectPatterns(a, b);
    if IsPrefix(b) && a == b + "*" {
      assert Stem(a) == b && r == Some(b);
      assert Matches(b, Stem(b)) && !Matches(a, Stem(b));
    } else if IsPrefix(a) && IsPrefix(b) {
      forall g: string
        ensures (r.Some? && Matches(r.value, g)) <==> (Matches(a, g) && Matches(b, g))
      {
        BothPrefixes(a, b, g);
      }
    }
  }

  /** A group that the overlap of "**" and "*" matches, although "**" does not. */
  lemma StarredPrefixIsInexact()
    ensures IntersectPatterns("**", "*") == Some("*")
    ensures Matches("*", "x") && !Matches("**", "x")
    ensures !DenotesIntersection(IntersectPatterns("**", "*"), "**", "*")
  {
    assert Stem("**") == "*" && Stem("*") == "";
    assert "x"[..1] == "x" && "*"[0] != "x"[0];
    assert "**" == "*" + "*";
    IntersectionIsExactIff("**", "*");
  }

  lemma BothPrefixes(a: string, b: string, g: string)
    requires IsPrefix(a) && IsPrefix(b) && a != b + "*"
    ensures var r := IntersectPatterns(a, b);
            (r.Some? && Matches(r.value, g)) <==> (Matches(a, g) && Matches(b, g))
  {
    assert a == Stem(a) + "*" && b == Stem(b) + "*";
    var x, y := Stem(a), Stem(b);
    assert x <= a && y <= b;
    if x <= b {
      assert x == b ==> a == b + "*";
      assert x <= y;
    } else if y <= a {
      assert |y| != |a|;
      assert y <= x;
    } else if x <= g && y <= g {
      PrefixesCompare(x, y, g);
    }
  }

  /** On the patterns the input schemas accept it is always exact, and one of the two. */
  lemma IntersectionOfWellFormed(a: string, b: string)
    requires WellFormed(a) && WellFormed(b)
    ensures DenotesIntersection(IntersectPatterns(a, b), a, b)
    ensures IntersectPatterns(a, b).Some? ==> WellFormed(IntersectPatterns(a, b).value)
  {
    IntersectionIsExactIff(a, b);
    if a == b + "*" {
      OneStar(a, b);
    }
  }

  lemma OneStar(a: string, b: string)
    requires WellFormed(a) && |b| > 0 && a == b + "*"
    ensures !IsPrefix(b)
  {
    assert a[|b| - 1] == b[|b| - 1];
  }

  /* ---------- roles ---------- */

  function Lower(a: Role, cap: Option<Role>): Role {
    if cap.Some? && Rank(cap.value) < Rank(a) then cap.value else a
  }

  function HeldGrants(p: Principal): seq<Grant> {
    if p.held.Any? then [Grant("*", Owner)] else p.held.grants
  }

  /** The highest role among the grants that match. */
  function Highest(grants: seq<Grant>, group: string): (r: Option<Role>)
    ensures r.None? <==> forall i | 0 <= i < |grants| :: !Matches(grants[i].pattern, group)
    ensures r.Some? ==> exists i :: 0 <= i < |grants| && Matches(grants[i].pattern, group) && grants[i].role == r.value
    ensures r.Some? ==> forall i | 0 <= i < |grants| && Matches(grants[i].pattern, group) ::
                          Rank(grants[i].role) <= Rank(r.value)
  {
    if grants == [] then None
    else
      var r, g := Highest(grants[..|grants| - 1], group), grants[|grants| - 1];
      if Matches(g.pattern, group) && (r.None? || Rank(g.role) > Rank(r.value)) then Some(g.role) else r
  }

  predicate Within(groups: Option<seq<string>>, group: string) {
    groups.None? || exists k | 0 <= k < |groups.value| :: Matches(groups.value[k], group)
  }

  function RoleIn(p: Principal, group: string): Option<Role> {
    match Highest(HeldGrants(p), group)
    case None => None
    case Some(role) =>
      if !Within(p.restriction.groups, group) then None else Some(Lower(role, p.restriction.role))
  }

  /** One pass over the grants finds the role. */
  method FindRoleIn(p: Principal, group: string) returns (r: Option<Role>)
    ensures r == RoleIn(p, group)
  {
    var role: Option<Role> := None;
    var grants := HeldGrants(p);
    for i := 0 to |grants|
      invariant role == Highest(grants[..i], group)
    {
      assert grants[..i + 1][..i] == grants[..i];
      var g := grants[i];
      if Matches(g.pattern, group) && (role.None? || Rank(g.role) > Rank(role.value)) {
        role := Some(g.role);
      }
    }
    assert grants[..|grants|] == grants;
    if role.None? {
      return None;
    }
    if !Within(p.restriction.groups, group) {
      return None;
    }
    return Some(Lower(role.value, p.restriction.role));
  }

  datatype Need = Read | Write | Manage

  function Needed(n: Need): Role {
    match n case Read => Reader case Write => Writer case Manage => Owner
  }

  predicate AtLeast(role: Option<Role>, need: Need) {
    role.Some? && Rank(role.value) >= Rank(Needed(need))
  }

  predicate Permits(p: Principal, group: string, need: Need) {
    AtLeast(RoleIn(p, group), need)
  }

  datatype NotPermitted = NoDefaultGroup | UnknownGroup | RoleTooLow(group: string, need: Need)

  /** Chooses a request's group, the default if none is named, and checks the role it needs. */
  function ResolveGroup(p: Principal, requested: Option<string>, need: Need): Result<string, NotPermitted> {
    var named := requested.Some? && requested.value != "";
    var group := if named then requested.value else p.defaultGroup;
    var role := RoleIn(p, group);
    if role.None? then Err(if named then UnknownGroup else NoDefaultGroup)
    else if !AtLeast(role, need) then Err(RoleTooLow(group, need))
    else Ok(group)
  }

  /**
   * What a refused request is told: a group it named and cannot read is
   * unknown, without one there is no default group, and a role too low says
   * which was needed.
   */
  lemma RefusalIs(p: Principal, requested: Option<string>, need: Need)
    ensures var named := requested.Some? && |requested.value| > 0;
            var group := if named then requested.value else p.defaultGroup;
            var role := RoleIn(p, group);
            ResolveGroup(p, requested, need)
            == if role.None? then Err(if named then UnknownGroup else NoDefaultGroup)
               else if (need == Write && role.value == Reader) || (need == Manage && role.value != Owner) then Err(RoleTooLow(group, need))
               else Ok(group)
  {
  }

  /* ---------- the grants as one list ---------- */

  /** What is left of a grant's pattern within each of a token's groups. */
  function Cuts(own: string, groups: seq<string>): set<string> {
    set g | g in groups && IntersectPatterns(own, g).Some? :: IntersectPatterns(own, g).value
  }

  /** The grant contributes the pattern to the list: itself, or cut down to one of the token's groups. */
  predicate Contributes(p: Principal, i: nat, pattern: string) {
    && i < |HeldGrants(p)|
    && (match p.restriction.groups
        case None => pattern == HeldGrants(p)[i].pattern
        case Some(groups) => pattern in Cuts(HeldGrants(p)[i].pattern, groups))
  }

  function RoleOf(p: Principal, i: nat): Role
    requires i < |HeldGrants(p)|
  {
    Lower(HeldGrants(p)[i].role, p.restriction.role)
  }

  /** `out` holds, of the first n grants, each contributed pattern with the highest role that contributes it. */
  ghost predicate IsEffective(out: map<string, Role>, p: Principal, n: nat)
    requires n <= |HeldGrants(p)|
  {
    && (forall pattern | pattern in out ::
          exists i :: 0 <= i < n && Contributes(p, i, pattern) && RoleOf(p, i) == out[pattern])
    && (forall i, pattern | 0 <= i < n && Contributes(p, i, pattern) ::
          pattern in out && Rank(RoleOf(p, i)) <= Rank(out[pattern]))
  }

  /** Adds a pattern, or raises its role. */
  function Raised(out: map<string, Role>, pattern: string, role: Role): map<string, Role> {
    if pattern !in out || Rank(role) > Rank(out[pattern]) then out[pattern := role] else out
  }

  /** One pass over the grants, and for each over the token's groups, fills the map. */
  method EffectiveGrants(p: Principal) returns (out: map<string, Role>)
    ensures IsEffective(out, p, |HeldGrants(p)|)
  {
    out := map[];
    var grants, within := HeldGrants(p), p.restriction.groups;
    for i := 0 to |grants|
      invariant IsEffective(out, p, i)
    {
      var role := Lower(grants[i].role, p.restriction.role);
      ghost var before := out;
      if within.None? {
        out := Raised(out, grants[i].pattern, role);
        RaisedIsEffective(out, before, p, i);
      } else {
        for k := 0 to |within.value|
          invariant Extends(out, before, role, Cuts(grants[i].pattern, within.value[..k]))
        {
          CutsOneMore(grants[i].pattern, within.value, k);
          var pattern := IntersectPatterns(grants[i].pattern, within.value[k]);
          if pattern.Some? {
            out := Raised(out, pattern.value, role);
          }
        }
        assert within.value[..|within.value|] == within.value;
        ExtendedIsEffective(out, before, p, i);
      }
    }
  }

  lemma CutsOneMore(own: string, groups: seq<string>, k: nat)
    requires k < |groups|
    ensures var pattern := IntersectPatterns(own, groups[k]);
            Cuts(own, groups[..k + 1]) == Cuts(own, groups[..k]) + if pattern.Some? then {pattern.value} else {}
  {
    assert groups[..k + 1] == groups[..k] + [groups[k]];
  }

  /** `out` is `before` with the cuts added, or raised to the role. */
  ghost predicate Extends(out: map<string, Role>, before: map<string, Role>, role: Role, cuts: set<string>) {
    && (forall pattern | pattern in before :: pattern in out && Rank(before[pattern]) <= Rank(out[pattern]))
    && (forall pattern | pattern in out ::
          (pattern in before && out[pattern] == before[pattern]) || (out[pattern] == role && pattern in cuts))
    && (forall pattern | pattern in cuts :: pattern in out && Rank(role) <= Rank(out[pattern]))
  }

  lemma ExtendedIsEffective(out: map<string, Role>, before: map<string, Role>, p: Principal, i: nat)
    requires p.restriction.groups.Some? && i < |HeldGrants(p)|
    requires IsEffective(before, p, i)
    requires Extends(out, before, RoleOf(p, i), Cuts(HeldGrants(p)[i].pattern, p.restriction.groups.value))
    ensures IsEffective(out, p, i + 1)
  {
    forall pattern | pattern in out
      ensures exists j :: 0 <= j < i + 1 && Contributes(p, j, pattern) && RoleOf(p, j) == out[pattern]
    {
      if pattern in before && out[pattern] == before[pattern] {
        var j :| 0 <= j < i && Contributes(p, j, pattern) && RoleOf(p, j) == before[pattern];
        assert 0 <= j < i + 1 && Contributes(p, j, pattern) && RoleOf(p, j) == out[pattern];
      } else {
        assert Contributes(p, i, pattern) && RoleOf(p, i) == out[pattern];
      }
    }
  }

  lemma RaisedIsEffective(out: map<string, Role>, before: map<string, Role>, p: Principal, i: nat)
    requires p.restriction.groups.None? && i < |HeldGrants(p)| && IsEffective(before, p, i)
    requires out == Raised(before, HeldGrants(p)[i].pattern, RoleOf(p, i))
    ensures IsEffective(out, p, i + 1)
  {
    forall pattern | pattern in out
      ensures exists j :: 0 <= j < i + 1 && Contributes(p, j, pattern) && RoleOf(p, j) == out[pattern]
    {
      if pattern in before && out[pattern] == before[pattern] {
        var j :| 0 <= j < i && Contributes(p, j, pattern) && RoleOf(p, j) == before[pattern];
        assert 0 <= j < i + 1 && Contributes(p, j, pattern) && RoleOf(p, j) == out[pattern];
      } else {
        assert Contributes(p, i, pattern) && RoleOf(p, i) == out[pattern];
      }
    }
  }

  /** The patterns of the caller's grants, and of its token's groups, are ones the input schemas accept. */
  predicate WellFormedPrincipal(p: Principal) {
    && (forall i | 0 <= i < |HeldGrants(p)| :: WellFormed(HeldGrants(p)[i].pattern))
    && (p.restriction.groups.Some? ==>
          forall k | 0 <= k < |p.restriction.groups.value| :: WellFormed(p.restriction.groups.value[k]))
  }

  /** A grant reaches a group exactly through some pattern it contributes. */
  lemma ContributionsReach(p: Principal, i: nat, group: string)
    requires WellFormedPrincipal(p) && i < |HeldGrants(p)|
    ensures Matches(HeldGrants(p)[i].pattern, group) && Within(p.restriction.groups, group)
            <==> exists pattern :: Contributes(p, i, pattern) && Matches(pattern, group)
  {
    var own := HeldGrants(p)[i].pattern;
    match p.restriction.groups {
      case None => assert Contributes(p, i, own);
      case Some(groups) =>
        forall k | 0 <= k < |groups|
          ensures DenotesIntersection(IntersectPatterns(own, groups[k]), own, groups[k])
        {
          IntersectionOfWellFormed(own, groups[k]);
        }
        if Matches(own, group) && Within(p.restriction.groups, group) {
          var k :| 0 <= k < |groups| && Matches(groups[k], group);
          var pattern := IntersectPatterns(own, groups[k]).value;
          assert Contributes(p, i, pattern) && Matches(pattern, group);
        }
    }
  }

  /** An effective grant that matches is worth no more than the role, and one is worth as much. */
  lemma EffectiveIsAtMost(p: Principal, out: map<string, Role>, group: string, pattern: string)
    requires WellFormedPrincipal(p) && IsEffective(out, p, |HeldGrants(p)|)
    requires pattern in out && Matches(pattern, group)
    ensures RoleIn(p, group).Some? && Rank(out[pattern]) <= Rank(RoleIn(p, group).value)
  {
    var j :| 0 <= j < |HeldGrants(p)| && Contributes(p, j, pattern) && RoleOf(p, j) == out[pattern];
    ContributionsReach(p, j, group);
  }

  lemma RoleIsEffective(p: Principal, out: map<string, Role>, group: string) returns (pattern: string)
    requires WellFormedPrincipal(p) && IsEffective(out, p, |HeldGrants(p)|) && RoleIn(p, group).Some?
    ensures pattern in out && Matches(pattern, group) && out[pattern] == RoleIn(p, group).value
  {
    var grants := HeldGrants(p);
    var i :| 0 <= i < |grants| && Matches(grants[i].pattern, group) && Some(grants[i].role) == Highest(grants, group);
    ContributionsReach(p, i, group);
    pattern :| Contributes(p, i, pattern) && Matches(pattern, group);
    EffectiveIsAtMost(p, out, group, pattern);
  }

  /**
   * The two computations of a caller's rights agree on every group: the role
   * is the highest of the effective grants that match, and none if none does.
   */
  lemma EffectiveGrantsAgree(p: Principal, out: map<string, Role>, group: string)
    requires WellFormedPrincipal(p) && IsEffective(out, p, |HeldGrants(p)|)
    ensures RoleIn(p, group).None? <==> forall pattern | pattern in out :: !Matches(pattern, group)
    ensures forall role :: RoleIn(p, group) == Some(role) ==>
              && (exists pattern :: pattern in out && Matches(pattern, group) && out[pattern] == role)
              && (forall pattern | pattern in out && Matches(pattern, group) :: Rank(out[pattern]) <= Rank(role))
  {
    forall pattern | pattern in out && Matches(pattern, group)
      ensures RoleIn(p, group).Some? && Rank(out[pattern]) <= Rank(RoleIn(p, group).value)
    {
      EffectiveIsAtMost(p, out, group, pattern);
    }
    if RoleIn(p, group).Some? {
      var pattern := RoleIsEffective(p, out, group);
    }
  }

  /**
   * A request is let into a group exactly when an effective grant matches it
   * at the role needed, and a group that no effective grant matches is
   * answered as if it did not exist.
   */
  lemma ResolveGroupIff(p: Principal, out: map<string, Role>, requested: Option<string>, need: Need, group: string)
    requires WellFormedPrincipal(p) && IsEffective(out, p, |HeldGrants(p)|)
    requires group == (if requested.GetOr("") == "" then p.defaultGroup else requested.value)
    ensures ResolveGroup(p, requested, need) == Ok(group)
            <==> exists pattern | pattern in out :: Matches(pattern, group) && Rank(out[pattern]) >= Rank(Needed(need))
    ensures ResolveGroup(p, requested, need) in {Err(NoDefaultGroup), Err(UnknownGroup)}
            <==> forall pattern | pattern in out :: !Matches(pattern, group)
    ensures ResolveGroup(p, requested, need).Ok? ==> ResolveGroup(p, requested, need).value == group
  {
    EffectiveGrantsAgree(p, out, group);
  }

  predicate CanWrite(out: map<string, Role>) {
    exists pattern | pattern in out :: Rank(out[pattern]) >= Rank(Writer)
  }

  /** A name the input schemas accept for a group. */
  predicate IsGroupName(g: string) {
    |g| > 0 && forall i | 0 <= i < |g| :: g[i] != '*'
  }

  /** Some group a well-formed pattern matches. */
  function Example(pattern: string): (g: string)
    requires WellFormed(pattern)
    ensures Matches(pattern, g) && IsGroupName(g)
  {
    if IsPrefix(pattern) then Stem(pattern) + "x" else pattern
  }

  /** A caller can write somewhere exactly when there is a group it may write in. */
  lemma CanWriteIff(p: Principal, out: map<string, Role>)
    requires WellFormedPrincipal(p) && IsEffective(out, p, |HeldGrants(p)|)
    ensures CanWrite(out) <==> exists g: string :: IsGroupName(g) && Permits(p, g, Write)
  {
    if CanWrite(out) {
      var pattern :| pattern in out && Rank(out[pattern]) >= Rank(Writer);
      ContributedIsWellFormed(p, out, pattern);
      var g := Example(pattern);
      EffectiveIsAtMost(p, out, g, pattern);
      assert IsGroupName(g) && Permits(p, g, Write);
    }
    if g: string :| IsGroupName(g) && Permits(p, g, Write) {
      var pattern := RoleIsEffective(p, out, g);
    }
  }

  lemma ContributedIsWellFormed(p: Principal, out: map<string, Role>, pattern: string)
    requires WellFormedPrincipal(p) && IsEffective(out, p, |HeldGrants(p)|) && pattern in out
    ensures WellFormed(pattern)
  {
    var i :| 0 <= i < |HeldGrants(p)| && Contributes(p, i, pattern) && RoleOf(p, i) == out[pattern];
    if p.restriction.groups.Some? {
      var groups := p.restriction.groups.value;
      var k :| 0 <= k < |groups| && Some(pattern) == IntersectPatterns(HeldGrants(p)[i].pattern, groups[k]);
      IntersectionOfWellFormed(HeldGrants(p)[i].pattern, groups[k]);
    }
  }
}
