/** The permission engine (internal/rbac/rbac.go): wildcard matching, permissions resolved over
    the role graph with one shared set of seen names and a cache of resolved roles, and the two
    ways of asking for inherited roles. */
module RbacEngine {
  import opened Results
  import opened RoleGraph
  import RbacPolicy
  import Permissions

  // ----- permissions -----

  function FirstColon(p: string): nat
    ensures FirstColon(p) <= |p|
  {
    if p == "" || p[0] == ':' then 0 else 1 + FirstColon(p[1..])
  }

  function Resource(p: string): string {
    p[..FirstColon(p)]
  }

  /** Everything after the first colon, nothing when there is none. */
  function Action(p: string): string {
    if FirstColon(p) == |p| then "" else p[FirstColon(p) + 1..]
  }

  predicate Matches(p: string, target: string) {
    (Resource(p) == "*" || Resource(p) == Resource(target)) && (Action(p) == "*" || Action(p) == Action(target))
  }

  predicate AnyMatches(ps: seq<string>, target: string)
    ensures AnyMatches(ps, target) <==> Permissions.SomePermits(ps, target)
  {
    AnyIsSome(ps, target);
    exists i :: 0 <= i < |ps| && Matches(ps[i], target)
  }

  lemma PartsPush(c: char, p: string, resource: string, action: string)
    requires c != ':' && Permissions.HasParts(p, resource, action)
    ensures Permissions.HasParts([c] + p, [c] + resource, action)
  {
    if p == resource + ":" + action {
      assert [c] + p == [c] + resource + ":" + action;
    }
  }

  lemma PartsStep(p: string)
    requires p != "" && p[0] != ':'
    ensures p == [p[0]] + p[1..] && Resource(p) == [p[0]] + Resource(p[1..]) && Action(p) == Action(p[1..])
  {
    var k := FirstColon(p[1..]);
    assert k < |p[1..]| ==> p[k + 2..] == p[1..][k + 1..];
  }

  lemma {:induction false} PartsAre(p: string)
    ensures Permissions.HasParts(p, Resource(p), Action(p))
    decreases |p|
  {
    if p != "" && p[0] != ':' {
      PartsAre(p[1..]);
      PartsStep(p);
      PartsPush(p[0], p[1..], Resource(p[1..]), Action(p[1..]));
    }
  }

  /** Matching is what the parts permit. */
  lemma MatchesIsPermits(p: string, target: string)
    ensures Matches(p, target) <==> Permissions.Permits(p, target)
  {
    PartsAre(p);
    PartsAre(target);
    Permissions.PermitsByParts(p, Resource(p), Action(p), target, Resource(target), Action(target));
  }

  lemma AnyIsSome(ps: seq<string>, target: string)
    ensures (exists i :: 0 <= i < |ps| && Matches(ps[i], target)) <==> Permissions.SomePermits(ps, target)
  {
    forall i | 0 <= i < |ps|
      ensures Matches(ps[i], target) <==> Permissions.Permits(ps[i], target)
    {
      MatchesIsPermits(ps[i], target);
    }
    if Permissions.SomePermits(ps, target) {
      var p :| p in ps && Permissions.Permits(p, target);
      var i :| 0 <= i < |ps| && ps[i] == p;
      assert Matches(ps[i], target);
    }
  }

  datatype User = User(roles: seq<string>, permissions: seq<string>)

  /** Whom the roles themselves entitle: a direct permission, or one of a role reachable from the
      user's. */
  ghost predicate Granted(g: Roles, user: User, target: string) {
    Permissions.SomePermits(user.permissions, target)
    || exists r :: r in g && Reachable(g, user.roles, r) && Permissions.SomePermits(g[r].permissions, target)
  }

  // ----- resolution -----

  type Cache = map<string, seq<string>>

  /** Resolved permissions with the seen names and the cache afterwards. */
  datatype Resolved = Resolved(perms: seq<string>, seen: set<string>, cache: Cache)

  function ResolveAll(g: Roles, roots: seq<string>, seen: set<string>, cache: Cache): (r: Resolved)
    ensures seen <= r.seen
    decreases g.Keys - seen, |roots|
  {
    if roots == [] then Resolved([], seen, cache)
    else
      var first := ResolveOne(g, roots[0], seen, cache);
      var rest := ResolveAll(g, roots[1..], first.seen, first.cache);
      Resolved(first.perms + rest.perms, rest.seen, rest.cache)
  }

  /** One role: nothing if already seen, then the cache, then the role with its parents. */
  function ResolveOne(g: Roles, root: string, seen: set<string>, cache: Cache): (r: Resolved)
    ensures seen + {root} <= r.seen
    decreases g.Keys - seen, 0
  {
    if root in seen then Resolved([], seen, cache)
    else if root in cache then Resolved(cache[root], seen + {root}, cache)
    else if root !in g then Resolved([], seen + {root}, cache)
    else
      var inner := ResolveAll(g, g[root].parents, seen + {root}, cache);
      var perms := g[root].permissions + inner.perms;
      Resolved(perms, inner.seen, inner.cache[root := perms])
  }

  // ----- the engine object -----

  /** A set of names shared by the recursive calls of one request. */
  class Seen {
    var names: set<string>

    constructor ()
      ensures names == {}
    {
      names := {};
    }
  }

  class Engine {
    var storage: Roles
    var rolePermissions: Cache

    constructor (storage: Roles)
      ensures this.storage == storage && rolePermissions == map[]
    {
      this.storage := storage;
      rolePermissions := map[];
    }

    method ResolveRolePermissions(roleName: string, seen: Seen) returns (perms: seq<string>)
      modifies this`rolePermissions, seen
      ensures Resolved(perms, seen.names, rolePermissions)
           == ResolveOne(storage, roleName, old(seen.names), old(rolePermissions))
      decreases storage.Keys - seen.names, 0
    {
      if roleName in seen.names {
        return [];
      }
      seen.names := seen.names + {roleName};
      if roleName in rolePermissions {
        return rolePermissions[roleName];
      }
      if roleName !in storage {
        return [];
      }
      var parentPerms := ResolveParents(storage[roleName].parents, seen);
      perms := storage[roleName].permissions + parentPerms;
      rolePermissions := rolePermissions[roleName := perms];
    }

    /** The loop over a role's parents, and over a user's roles. */
    method ResolveParents(roles: seq<string>, seen: Seen) returns (perms: seq<string>)
      modifies this`rolePermissions, seen
      ensures Resolved(perms, seen.names, rolePermissions)
           == ResolveAll(storage, roles, old(seen.names), old(rolePermissions))
      decreases storage.Keys - seen.names, 1 + |roles|
    {
      perms := [];
      ghost var all := ResolveAll(storage, roles, seen.names, rolePermissions);
      assert roles[0..] == roles && [] + all.perms == all.perms;
      for i := 0 to |roles|
        invariant old(seen.names) <= seen.names
        invariant var rest := ResolveAll(storage, roles[i..], seen.names, rolePermissions);
          all == Resolved(perms + rest.perms, rest.seen, rest.cache)
      {
        assert roles[i..][1..] == roles[i + 1..];
        ghost var before := perms;
        var more := ResolveRolePermissions(roles[i], seen);
        perms := perms + more;
        ghost var rest := ResolveAll(storage, roles[i + 1..], seen.names, rolePermissions);
        assert before + (more + rest.perms) == perms + rest.perms;
      }
      assert roles[|roles|..] == [] && perms + [] == perms;
    }

    method ResolveUserPermissions(roles: seq<string>) returns (perms: seq<string>)
      modifies this`rolePermissions
      ensures var r := ResolveAll(storage, roles, {}, old(rolePermissions));
        perms == r.perms && rolePermissions == r.cache
    {
      var seen := new Seen();
      perms := ResolveParents(roles, seen);
    }

    method CheckPermission(user: Option<User>, permission: string) returns (granted: bool)
      modifies this`rolePermissions
      ensures user.None? ==> !granted
      ensures user.Some? ==>
        granted == (Permissions.SomePermits(user.value.permissions, permission)
                    || Permissions.SomePermits(
                         ResolveAll(storage, user.value.roles, {}, old(rolePermissions)).perms, permission))
      ensures rolePermissions == AfterCheck(storage, old(rolePermissions), user, permission)
      ensures user.None? || Permissions.SomePermits(user.value.permissions, permission) ==>
        rolePermissions == old(rolePermissions)
    {
      if user.None? {
        return false;
      }
      var direct := user.value.permissions;
      for i := 0 to |direct|
        invariant forall j :: 0 <= j < i ==> !Matches(direct[j], permission)
      {
        if Matches(direct[i], permission) {
          assert AnyMatches(direct, permission);
          return true;
        }
      }
      var perms := ResolveUserPermissions(user.value.roles);
      for i := 0 to |perms|
        invariant forall j :: 0 <= j < i ==> !Matches(perms[j], permission)
      {
        if Matches(perms[i], permission) {
          assert AnyMatches(perms, permission);
          return true;
        }
      }
      assert !AnyMatches(direct, permission) && !AnyMatches(perms, permission);
      granted := false;
    }

    method InvalidateCache()
      modifies this`rolePermissions
      ensures rolePermissions == map[]
    {
      rolePermissions := map[];
    }

    method CollectRoles(roots: seq<string>, seen: Seen, sofar: seq<string>) returns (roles: seq<string>)
      modifies seen
      ensures roles == sofar + Visit(storage, roots, old(seen.names))
      ensures seen.names == old(seen.names) + Names(Visit(storage, roots, old(seen.names)))
      decreases storage.Keys - seen.names, |roots|
    {
      roles := sofar;
      ghost var all := Visit(storage, roots, seen.names);
      assert roots[0..] == roots && sofar + all == roles + all;
      for i := 0 to |roots|
        invariant old(seen.names) <= seen.names
        invariant sofar + all == roles + Visit(storage, roots[i..], seen.names)
        invariant old(seen.names) + Names(all) == seen.names + Names(Visit(storage, roots[i..], seen.names))
      {
        assert roots[i..][1..] == roots[i + 1..];
        if roots[i] in seen.names {
          continue;
        }
        ghost var before, marked := roles, seen.names;
        ghost var first := VisitOne(storage, roots[i], marked);
        seen.names := seen.names + {roots[i]};
        roles := roles + [roots[i]];
        if roots[i] in storage {
          roles := CollectRoles(storage[roots[i]].parents, seen, roles);
        }
        assert roles == before + first && seen.names == marked + Names(first);
        ghost var rest := Visit(storage, roots[i + 1..], seen.names);
        assert before + (first + rest) == roles + rest;
        NamesAppend(first, rest);
      }
      assert roots[|roots|..] == [] && roles + [] == roles;
    }

    /** All effective roles, on any storage, cyclic or not. */
    method GetUserRoles(user: Option<User>) returns (roles: seq<string>)
      ensures user.None? ==> roles == []
      ensures user.Some? ==> roles == Visit(storage, user.value.roles, {})
    {
      if user.None? {
        return [];
      }
      var seen := new Seen();
      roles := CollectRoles(user.value.roles, seen, []);
      assert [] + Visit(storage, user.value.roles, {}) == roles;
    }

    /** Whether `parentRole` inherits `targetRole`. There is no seen set: it terminates because
        the storage is acyclic. */
    method HasInheritedRole(parentRole: string, targetRole: string) returns (r: bool)
      requires Acyclic(storage)
      ensures r <==> Reachable(storage, Parents(storage, parentRole), targetRole)
      decreases Ancestors(storage, parentRole)
    {
      var parents := Parents(storage, parentRole);
      ReachesIsReachable(storage, parents, targetRole);
      if parentRole !in storage {
        return false;
      }
      for i := 0 to |parents|
        invariant !Reaches(storage, parents[..i], targetRole)
      {
        ReachesOneMore(storage, parents, i, targetRole);
        if parents[i] == targetRole {
          return true;
        }
        AncestorsShrink(storage, parentRole, parents[i]);
        var found := HasInheritedRole(parents[i], targetRole);
        if found {
          return true;
        }
      }
      assert parents[..|parents|] == parents;
      r := false;
    }

    method CheckRole(user: Option<User>, roleName: string) returns (r: bool)
      requires Acyclic(storage)
      ensures r <==> user.Some? && roleName in Visit(storage, user.value.roles, {})
    {
      if user.None? {
        return false;
      }
      var roles := user.value.roles;
      VisitIsReachability(storage, roles);
      ReachesIsReachable(storage, roles, roleName);
      for i := 0 to |roles|
        invariant roleName !in roles[..i]
      {
        if roles[i] == roleName {
          ReachesOneMore(storage, roles, i, roleName);
          return true;
        }
      }
      for i := 0 to |roles|
        invariant !Reaches(storage, roles[..i], roleName)
      {
        ReachesOneMore(storage, roles, i, roleName);
        var found := HasInheritedRole(roles[i], roleName);
        if found {
          return true;
        }
      }
      assert roles[..|roles|] == roles;
      r := false;
    }
  }

  // ----- reaching a role from one of several -----

  /** One of the roles is `to` or inherits it. */
  ghost predicate Reaches(g: Roles, roles: seq<string>, to: string) {
    roles != [] && (Reaches(g, roles[..|roles| - 1], to)
      || roles[|roles| - 1] == to || Reachable(g, Parents(g, roles[|roles| - 1]), to))
  }

  lemma {:induction false} ReachesIsReachable(g: Roles, roles: seq<string>, to: string)
    ensures Reaches(g, roles, to) <==> Reachable(g, roles, to)
    decreases |roles|
  {
    if Reaches(g, roles, to) {
      var rest, last := roles[..|roles| - 1], roles[|roles| - 1];
      if Reaches(g, rest, to) {
        ReachesIsReachable(g, rest, to);
        ReachableMore(g, rest, roles, to);
      } else if last == to {
        ReachableSelf(g, roles, to);
      } else {
        ReachableStep(g, roles, last, to);
      }
    }
    if Reachable(g, roles, to) {
      var i := FirstStep(g, roles, to);
      ReachesBy(g, roles, i, to);
    }
  }

  lemma {:induction false} ReachesBy(g: Roles, roles: seq<string>, i: nat, to: string)
    requires i < |roles| && (roles[i] == to || Reachable(g, Parents(g, roles[i]), to))
    ensures Reaches(g, roles, to)
    decreases |roles|
  {
    if i < |roles| - 1 {
      ReachesBy(g, roles[..|roles| - 1], i, to);
    }
  }

  /** One role more; if it reaches `to`, so do all of them. */
  lemma ReachesOneMore(g: Roles, roles: seq<string>, i: nat, to: string)
    requires i < |roles|
    ensures Reaches(g, roles[..i + 1], to)
       <==> Reaches(g, roles[..i], to) || roles[i] == to || Reachable(g, Parents(g, roles[i]), to)
    ensures roles[i] == to || Reachable(g, Parents(g, roles[i]), to) ==> Reaches(g, roles, to)
  {
    assert roles[..i + 1][..i] == roles[..i];
    if roles[i] == to || Reachable(g, Parents(g, roles[i]), to) {
      ReachesBy(g, roles, i, to);
    }
  }

  /** The cache after a check: untouched when a direct permission already answers. */
  function AfterCheck(g: Roles, cache: Cache, user: Option<User>, permission: string): Cache {
    if user.None? || AnyMatches(user.value.permissions, permission) then cache
    else ResolveAll(g, user.value.roles, {}, cache).cache
  }

  // ----- termination of the search without a seen set -----

  ghost function Ancestors(g: Roles, name: string): set<string> {
    Names(Visit(g, Parents(g, name), {}))
  }

  lemma AncestorsAreReachable(g: Roles, name: string, r: string)
    ensures r in Ancestors(g, name) <==> Reachable(g, Parents(g, name), r)
  {
    VisitIsReachability(g, Parents(g, name));
  }

  lemma AncestorsShrink(g: Roles, name: string, parent: string)
    requires Acyclic(g) && parent in Parents(g, name)
    ensures Ancestors(g, parent) < Ancestors(g, name)
  {
    forall r | r in Ancestors(g, parent)
      ensures r in Ancestors(g, name)
    {
      AncestorsAreReachable(g, parent, r);
      ReachableStep(g, Parents(g, name), parent, r);
      AncestorsAreReachable(g, name, r);
    }
    ReachableSelf(g, Parents(g, name), parent);
    AncestorsAreReachable(g, name, parent);
    AncestorsAreReachable(g, parent, parent);
  }

  lemma NothingReachable(g: Roles, to: string)
    ensures !Reachable(g, [], to)
  {
  }

  /** The first step of a path: `to` is a root, or is reached from the parents of one. */
  lemma FirstStep(g: Roles, from: seq<string>, to: string) returns (i: nat)
    requires Reachable(g, from, to)
    ensures i < |from| && (from[i] == to || Reachable(g, Parents(g, from[i]), to))
  {
    var path :| IsPath(g, path) && path[0] in from && path[|path| - 1] == to;
    i :| 0 <= i < |from| && from[i] == path[0];
    if |path| > 1 {
      RbacPolicy.SubPath(g, path, 1, |path|);
      assert path[0 + 1] in Parents(g, path[0]);
      assert path[1..|path|][0] in Parents(g, from[i]);
    }
  }

  // ----- resolution from an empty cache -----

  /** The permission lists of the named roles, one after the other. */
  function Lists(g: Roles, order: seq<string>): seq<string> {
    if order == [] then []
    else (if order[0] in g then g[order[0]].permissions else []) + Lists(g, order[1..])
  }

  lemma {:induction false} ListsAppend(g: Roles, s: seq<string>, t: seq<string>)
    ensures Lists(g, s + t) == Lists(g, s) + Lists(g, t)
    decreases |s|
  {
    if s == [] {
      assert s + t == t;
    } else {
      assert (s + t)[1..] == s[1..] + t;
      ListsAppend(g, s[1..], t);
    }
  }

  /** While everything cached has been seen, the cache is never consulted, and resolution is the
      plain traversal. */
  lemma {:induction false} ColdAll(g: Roles, roots: seq<string>, seen: set<string>, cache: Cache)
    requires cache.Keys <= seen
    ensures var r := ResolveAll(g, roots, seen, cache); var order := Visit(g, roots, seen);
      r.perms == Lists(g, order) && r.seen == seen + Names(order) && r.cache.Keys <= r.seen
    decreases g.Keys - seen, |roots|
  {
    if roots != [] {
      ColdOne(g, roots[0], seen, cache);
      var first := ResolveOne(g, roots[0], seen, cache);
      ColdAll(g, roots[1..], first.seen, first.cache);
      if roots[0] in seen {
        assert [] + Lists(g, Visit(g, roots[1..], seen)) == Lists(g, Visit(g, roots[1..], seen));
      } else {
        var one := VisitOne(g, roots[0], seen);
        ListsAppend(g, one, Visit(g, roots[1..], first.seen));
        NamesAppend(one, Visit(g, roots[1..], first.seen));
      }
    }
  }

  lemma {:induction false} ColdOne(g: Roles, root: string, seen: set<string>, cache: Cache)
    requires cache.Keys <= seen
    ensures var r := ResolveOne(g, root, seen, cache);
      r.cache.Keys <= r.seen
      && if root in seen then r.perms == [] && r.seen == seen
         else r.perms == Lists(g, VisitOne(g, root, seen)) && r.seen == seen + Names(VisitOne(g, root, seen))
    decreases g.Keys - seen, 0
  {
    if root !in seen {
      if root in g {
        ColdAll(g, g[root].parents, seen + {root}, cache);
        var inner := Visit(g, g[root].parents, seen + {root});
        ListsAppend(g, [root], inner);
        NamesAppend([root], inner);
        assert [root][1..] == [];
      } else {
        assert VisitOne(g, root, seen) == [root] && [root][1..] == [];
      }
    }
  }

  /** From an empty cache, resolution concatenates the permission lists of exactly the reachable
      roles, each role once, cyclic graphs included. */
  lemma ColdResolution(g: Roles, roots: seq<string>)
    ensures ResolveAll(g, roots, {}, map[]).perms == Lists(g, Visit(g, roots, {}))
    ensures NoDuplicates(Visit(g, roots, {}))
    ensures forall r :: r in Visit(g, roots, {}) <==> Reachable(g, roots, r)
  {
    ColdAll(g, roots, {}, map[]);
    VisitIsReachability(g, roots);
  }

  lemma {:induction false} AnyOfLists(g: Roles, order: seq<string>, target: string)
    ensures AnyMatches(Lists(g, order), target)
       <==> exists r :: r in order && r in g && AnyMatches(g[r].permissions, target)
    decreases |order|
  {
    if order != [] {
      var first := if order[0] in g then g[order[0]].permissions else [];
      AnyOfLists(g, order[1..], target);
      AnyOfAppend(first, Lists(g, order[1..]), target);
      assert order == [order[0]] + order[1..];
    }
  }

  lemma AnyOfAppend(ps: seq<string>, qs: seq<string>, target: string)
    ensures AnyMatches(ps + qs, target) <==> AnyMatches(ps, target) || AnyMatches(qs, target)
  {
    if i :| 0 <= i < |ps| && Matches(ps[i], target) {
      assert (ps + qs)[i] == ps[i];
    }
    if i :| 0 <= i < |qs| && Matches(qs[i], target) {
      assert (ps + qs)[|ps| + i] == qs[i];
    }
  }

  /** What CheckPermission answers from a given cache. */
  predicate Answer(g: Roles, cache: Cache, user: User, target: string) {
    AnyMatches(user.permissions, target) || AnyMatches(ResolveAll(g, user.roles, {}, cache).perms, target)
  }

  /** From an empty cache the answer is exactly what the roles entitle to. */
  lemma ColdAnswerIsExact(g: Roles, user: User, target: string)
    ensures Answer(g, map[], user, target) <==> Granted(g, user, target)
  {
    ColdResolution(g, user.roles);
    AnyOfLists(g, Visit(g, user.roles, {}), target);
  }

  // ----- a warm cache never grants more -----

  /** Some role reachable from `roots` lists the permission. */
  ghost predicate Entitled(g: Roles, roots: seq<string>, p: string) {
    exists r :: r in g && Reachable(g, roots, r) && p in g[r].permissions
  }

  /** Every cached list is contained in its role's closure. */
  ghost predicate SoundCache(g: Roles, cache: Cache) {
    forall name, p :: name in cache && p in cache[name] ==> Entitled(g, [name], p)
  }

  lemma EntitledMore(g: Roles, roots: seq<string>, more: seq<string>, p: string)
    requires Entitled(g, roots, p) && forall r :: r in roots ==> r in more
    ensures Entitled(g, more, p)
  {
    var r :| r in g && Reachable(g, roots, r) && p in g[r].permissions;
    ReachableMore(g, roots, more, r);
  }

  lemma EntitledParents(g: Roles, root: string, p: string)
    requires root in g && Entitled(g, g[root].parents, p)
    ensures Entitled(g, [root], p)
  {
    var r :| r in g && Reachable(g, g[root].parents, r) && p in g[r].permissions;
    ReachableStep(g, [root], root, r);
  }

  lemma {:induction false} WarmAll(g: Roles, roots: seq<string>, seen: set<string>, cache: Cache)
    requires SoundCache(g, cache)
    ensures SoundCache(g, ResolveAll(g, roots, seen, cache).cache)
    ensures forall p :: p in ResolveAll(g, roots, seen, cache).perms ==> Entitled(g, roots, p)
    decreases g.Keys - seen, |roots|
  {
    if roots != [] {
      WarmOne(g, roots[0], seen, cache);
      var first := ResolveOne(g, roots[0], seen, cache);
      WarmAll(g, roots[1..], first.seen, first.cache);
      forall p | p in ResolveAll(g, roots, seen, cache).perms
        ensures Entitled(g, roots, p)
      {
        if p in first.perms {
          EntitledMore(g, [roots[0]], roots, p);
        } else {
          EntitledMore(g, roots[1..], roots, p);
        }
      }
    }
  }

  lemma {:induction false} WarmOne(g: Roles, root: string, seen: set<string>, cache: Cache)
    requires SoundCache(g, cache)
    ensures SoundCache(g, ResolveOne(g, root, seen, cache).cache)
    ensures forall p :: p in ResolveOne(g, root, seen, cache).perms ==> Entitled(g, [root], p)
    decreases g.Keys - seen, 0
  {
    if root !in seen && root !in cache && root in g {
      WarmAll(g, g[root].parents, seen + {root}, cache);
      var inner := ResolveAll(g, g[root].parents, seen + {root}, cache);
      forall p | p in g[root].permissions + inner.perms
        ensures Entitled(g, [root], p)
      {
        if p in g[root].permissions {
          ReachableSelf(g, [root], root);
        } else {
          EntitledParents(g, root, p);
        }
      }
    }
  }

  /** A request to the engine; storage does not change between requests. */
  datatype Request = Check(user: Option<User>, permission: string) | Invalidate

  function AfterRequest(g: Roles, cache: Cache, r: Request): Cache {
    match r
    case Check(user, permission) => AfterCheck(g, cache, user, permission)
    case Invalidate => map[]
  }

  function AfterRequests(g: Roles, cache: Cache, rs: seq<Request>): Cache
    decreases |rs|
  {
    if rs == [] then cache else AfterRequests(g, AfterRequest(g, cache, rs[0]), rs[1..])
  }

  lemma {:induction false} RequestsKeepSound(g: Roles, cache: Cache, rs: seq<Request>)
    requires SoundCache(g, cache)
    ensures SoundCache(g, AfterRequests(g, cache, rs))
    decreases |rs|
  {
    if rs != [] {
      if rs[0].Check? && rs[0].user.Some? {
        WarmAll(g, rs[0].user.value.roles, {}, cache);
      }
      RequestsKeepSound(g, AfterRequest(g, cache, rs[0]), rs[1..]);
    }
  }

  /** After any sequence of requests, what the engine grants the roles entitle to. */
  lemma WarmAnswerIsSound(g: Roles, rs: seq<Request>, user: User, target: string)
    requires Answer(g, AfterRequests(g, map[], rs), user, target)
    ensures Granted(g, user, target)
  {
    var cache := AfterRequests(g, map[], rs);
    RequestsKeepSound(g, map[], rs);
    WarmAll(g, user.roles, {}, cache);
    var perms := ResolveAll(g, user.roles, {}, cache).perms;
    if i :| 0 <= i < |perms| && Matches(perms[i], target) {
      assert Entitled(g, user.roles, perms[i]);
      var r :| r in g && Reachable(g, user.roles, r) && perms[i] in g[r].permissions;
      var j :| 0 <= j < |g[r].permissions| && g[r].permissions[j] == perms[i];
    }
  }

  // ----- when a warm cache is exact -----

  /** Every cached list is its role's whole closure, as a set of permissions. */
  ghost predicate CompleteCache(g: Roles, cache: Cache) {
    forall name, p :: name in cache ==> (p in cache[name] <==> Entitled(g, [name], p))
  }

  /** Names not yet seen still have the cache entry they started with. */
  ghost predicate Untouched(start: Cache, cache: Cache, seen: set<string>) {
    forall k :: k !in seen ==> (k in cache <==> k in start) && (k in cache ==> cache[k] == start[k])
  }

  /** Each newly seen name gave its cached list, or its own permissions with its parents seen. */
  ghost predicate Served(g: Roles, start: Cache, added: set<string>, perms: seq<string>, seen: set<string>) {
    forall x :: x in added ==>
      if x in start then forall p :: p in start[x] ==> p in perms
      else (x in g ==> forall p :: p in g[x].permissions ==> p in perms) && forall y :: y in Parents(g, x) ==> y in seen
  }

  lemma {:induction false} ServeAll(g: Roles, roots: seq<string>, seen: set<string>, start: Cache, cache: Cache)
    requires Untouched(start, cache, seen)
    ensures var r := ResolveAll(g, roots, seen, cache);
      (forall x :: x in roots ==> x in r.seen)
      && Served(g, start, r.seen - seen, r.perms, r.seen) && Untouched(start, r.cache, r.seen)
    decreases g.Keys - seen, |roots|
  {
    if roots != [] {
      ServeOne(g, roots[0], seen, start, cache);
      var first := ResolveOne(g, roots[0], seen, cache);
      ServeAll(g, roots[1..], first.seen, start, first.cache);
      assert forall x :: x in roots ==> x == roots[0] || x in roots[1..];
    }
  }

  lemma {:induction false} ServeOne(g: Roles, root: string, seen: set<string>, start: Cache, cache: Cache)
    requires Untouched(start, cache, seen)
    ensures var r := ResolveOne(g, root, seen, cache);
      Served(g, start, r.seen - seen, r.perms, r.seen) && Untouched(start, r.cache, r.seen)
    decreases g.Keys - seen, 0
  {
    if root !in seen && root !in cache && root in g {
      ServeAll(g, g[root].parents, seen + {root}, start, cache);
    }
  }

  /** Along a path that starts at a seen name, every role's permissions have been collected. */
  lemma {:induction false} PathServed(g: Roles, path: seq<string>, start: Cache, perms: seq<string>, seen: set<string>)
    requires IsPath(g, path) && path[0] in seen && Served(g, start, seen, perms, seen) && CompleteCache(g, start)
    ensures var x := path[|path| - 1]; x in g ==> forall p :: p in g[x].permissions ==> p in perms
    decreases |path|
  {
    var x := path[|path| - 1];
    if path[0] in start {
      forall p | x in g && p in g[x].permissions
        ensures p in perms
      {
        assert [path[0]][0] == path[0];
        assert Reachable(g, [path[0]], x);
        assert Entitled(g, [path[0]], p);
      }
    } else if |path| > 1 {
      RbacPolicy.SubPath(g, path, 1, |path|);
      assert path[0 + 1] in Parents(g, path[0]);
      PathServed(g, path[1..|path|], start, perms, seen);
    }
  }

  /** With a complete cache, resolution yields exactly the closure's permissions. */
  lemma CompleteCacheIsExact(g: Roles, roots: seq<string>, cache: Cache, p: string)
    requires CompleteCache(g, cache)
    ensures p in ResolveAll(g, roots, {}, cache).perms <==> Entitled(g, roots, p)
  {
    var r := ResolveAll(g, roots, {}, cache);
    WarmAll(g, roots, {}, cache);
    ServeAll(g, roots, {}, cache, cache);
    assert r.seen - {} == r.seen;
    if Entitled(g, roots, p) {
      var x :| x in g && Reachable(g, roots, x) && p in g[x].permissions;
      var path :| IsPath(g, path) && path[0] in roots && path[|path| - 1] == x;
      PathServed(g, path, cache, r.perms, r.seen);
    }
  }

  /** And completeness is needed: an entry that is not its role's closure is served as it is. */
  lemma WarmExactExactly(g: Roles, cache: Cache)
    ensures CompleteCache(g, cache)
       <==> forall roots, p :: p in ResolveAll(g, roots, {}, cache).perms <==> Entitled(g, roots, p)
  {
    if CompleteCache(g, cache) {
      forall roots, p
        ensures p in ResolveAll(g, roots, {}, cache).perms <==> Entitled(g, roots, p)
      {
        CompleteCacheIsExact(g, roots, cache, p);
      }
    }
    if forall roots, p :: p in ResolveAll(g, roots, {}, cache).perms <==> Entitled(g, roots, p) {
      forall name, p | name in cache
        ensures p in cache[name] <==> Entitled(g, [name], p)
      {
        ResolveSingle(g, name, {}, cache);
        assert p in ResolveAll(g, [name], {}, cache).perms <==> Entitled(g, [name], p);
      }
    }
  }

  // ----- what storage makes warm answers exact -----

  /** Whoever inherits a permission that matches lists one that matches. */
  ghost predicate OwnMatch(g: Roles, target: string) {
    forall r, a :: r in g && a in g && Reachable(g, Parents(g, r), a)
      && Permissions.SomePermits(g[a].permissions, target)
      ==> Permissions.SomePermits(g[r].permissions, target)
  }

  /** A cached list holds at least the role's own permissions. */
  ghost predicate OwnCached(g: Roles, cache: Cache) {
    forall name, p :: name in cache && name in g && p in g[name].permissions ==> p in cache[name]
  }

  lemma {:induction false} OwnAll(g: Roles, roots: seq<string>, seen: set<string>, cache: Cache)
    requires OwnCached(g, cache)
    ensures OwnCached(g, ResolveAll(g, roots, seen, cache).cache)
    decreases g.Keys - seen, |roots|
  {
    if roots != [] {
      OwnOne(g, roots[0], seen, cache);
      var first := ResolveOne(g, roots[0], seen, cache);
      OwnAll(g, roots[1..], first.seen, first.cache);
    }
  }

  lemma {:induction false} OwnOne(g: Roles, root: string, seen: set<string>, cache: Cache)
    requires OwnCached(g, cache)
    ensures OwnCached(g, ResolveOne(g, root, seen, cache).cache)
    decreases g.Keys - seen, 0
  {
    if root !in seen && root !in cache && root in g {
      OwnAll(g, g[root].parents, seen + {root}, cache);
    }
  }

  lemma {:induction false} RequestsKeepOwn(g: Roles, cache: Cache, rs: seq<Request>)
    requires OwnCached(g, cache)
    ensures OwnCached(g, AfterRequests(g, cache, rs))
    decreases |rs|
  {
    if rs != [] {
      if rs[0].Check? && rs[0].user.Some? {
        OwnAll(g, rs[0].user.value.roles, {}, cache);
      }
      RequestsKeepOwn(g, AfterRequest(g, cache, rs[0]), rs[1..]);
    }
  }

  /** A root's own permissions are always collected. */
  lemma RootCollected(g: Roles, roots: seq<string>, cache: Cache, root: string, p: string)
    requires OwnCached(g, cache) && root in roots && root in g && p in g[root].permissions
    ensures p in ResolveAll(g, roots, {}, cache).perms
  {
    ServeAll(g, roots, {}, cache, cache);
    assert root in ResolveAll(g, roots, {}, cache).seen - {};
  }

  /** What the roles grant, one of the user's own roles grants by itself. */
  lemma GrantedByRoot(g: Roles, user: User, target: string) returns (root: string)
    requires OwnMatch(g, target) && Granted(g, user, target) && !AnyMatches(user.permissions, target)
    ensures root in user.roles && root in g && AnyMatches(g[root].permissions, target)
  {
    var r :| r in g && Reachable(g, user.roles, r) && Permissions.SomePermits(g[r].permissions, target);
    var i := FirstStep(g, user.roles, r);
    root := user.roles[i];
    if root != r {
      if root !in g {
        NothingReachable(g, r);
      }
      assert Permissions.SomePermits(g[root].permissions, target);
    }
    assert AnyMatches(g[root].permissions, target);
  }

  lemma OwnMatchIsExact(g: Roles, rs: seq<Request>, user: User, target: string)
    requires OwnMatch(g, target) && Granted(g, user, target)
    ensures Answer(g, AfterRequests(g, map[], rs), user, target)
  {
    if !AnyMatches(user.permissions, target) {
      var cache := AfterRequests(g, map[], rs);
      var root := GrantedByRoot(g, user, target);
      RequestsKeepOwn(g, map[], rs);
      var i :| 0 <= i < |g[root].permissions| && Matches(g[root].permissions[i], target);
      RootCollected(g, user.roles, cache, root, g[root].permissions[i]);
      var perms := ResolveAll(g, user.roles, {}, cache).perms;
      var j :| 0 <= j < |perms| && perms[j] == g[root].permissions[i];
    }
  }

  lemma {:induction false} ResolveSeen(g: Roles, roots: seq<string>, seen: set<string>, cache: Cache)
    requires forall r :: r in roots ==> r in seen
    ensures ResolveAll(g, roots, seen, cache) == Resolved([], seen, cache)
    decreases |roots|
  {
    if roots != [] {
      ResolveSeen(g, roots[1..], seen, cache);
    }
  }

  lemma {:induction false} ResolveAppend(g: Roles, roots: seq<string>, last: string, seen: set<string>, cache: Cache)
    ensures var r := ResolveAll(g, roots, seen, cache);
      ResolveAll(g, roots + [last], seen, cache).cache == ResolveOne(g, last, r.seen, r.cache).cache
    decreases |roots|
  {
    if roots == [] {
      assert [] + [last] == [last] && [last][1..] == [];
    } else {
      var first := ResolveOne(g, roots[0], seen, cache);
      assert (roots + [last])[1..] == roots[1..] + [last];
      ResolveAppend(g, roots[1..], last, first.seen, first.cache);
    }
  }

  /** A user who holds every ancestor of a role before the role itself makes the engine cache the
      role with its own permissions alone. */
  lemma AncestorsFirst(g: Roles, r: string)
    requires Acyclic(g) && r in g
    ensures var warm := ResolveAll(g, Visit(g, Parents(g, r), {}) + [r], {}, map[]).cache;
      r in warm && warm[r] == g[r].permissions
  {
    var order := Visit(g, Parents(g, r), {});
    VisitIsReachability(g, Parents(g, r));
    ColdAll(g, order, {}, map[]);
    var above := ResolveAll(g, order, {}, map[]);
    AncestorsClosed(g, r, order);
    ResolveAppend(g, order, r, {}, map[]);
    forall p | p in g[r].parents
      ensures p in above.seen + {r}
    {
      ReachableSelf(g, Parents(g, r), p);
      RootsSeen(g, order, {}, map[], p);
    }
    ResolveSeen(g, g[r].parents, above.seen + {r}, above.cache);
    assert g[r].permissions + [] == g[r].permissions;
  }

  lemma RootsSeen(g: Roles, roots: seq<string>, seen: set<string>, cache: Cache, root: string)
    requires root in roots
    ensures root in ResolveAll(g, roots, seen, cache).seen
  {
    ServeAll(g, roots, seen, cache, cache);
  }

  /** On acyclic storage a role is not among what its ancestors reach. */
  lemma AncestorsClosed(g: Roles, r: string, order: seq<string>)
    requires Acyclic(g) && forall x :: x in order <==> Reachable(g, Parents(g, r), x)
    ensures r !in Visit(g, order, {})
  {
    VisitIsReachability(g, order);
    if Reachable(g, order, r) {
      var path :| IsPath(g, path) && path[0] in order && path[|path| - 1] == r;
      var inside := Names(order);
      forall x, p | x in inside && p in Parents(g, x)
        ensures p in inside
      {
        ReachableThrough(g, Parents(g, r), x, p);
      }
      PathStaysInside(g, path, inside);
    }
  }

  /** One more step at the end of a path. */
  lemma ReachableThrough(g: Roles, from: seq<string>, via: string, to: string)
    requires Reachable(g, from, via) && to in Parents(g, via)
    ensures Reachable(g, from, to)
  {
    var path :| IsPath(g, path) && path[0] in from && path[|path| - 1] == via;
    var longer := path + [to];
    assert longer[0] == path[0] && longer[|longer| - 1] == to;
    forall i | 0 <= i < |longer| - 1
      ensures longer[i + 1] in Parents(g, longer[i])
    {
      if i < |path| - 1 {
        assert longer[i] == path[i] && longer[i + 1] == path[i + 1];
      }
    }
  }

  lemma InheritorDenied(g: Roles, r: string, a: string, target: string) returns (rs: seq<Request>, user: User)
    requires Acyclic(g) && r in g && a in g && Reachable(g, Parents(g, r), a)
    requires AnyMatches(g[a].permissions, target) && !AnyMatches(g[r].permissions, target)
    ensures Granted(g, user, target) && !Answer(g, AfterRequests(g, map[], rs), user, target)
  {
    var first := User(Visit(g, Parents(g, r), {}) + [r], []);
    rs, user := [Check(Some(first), target)], User([r], []);
    AncestorsFirst(g, r);
    assert rs[1..] == [] && AfterRequests(g, map[], rs) == AfterRequest(g, map[], rs[0]);
    var warm := ResolveAll(g, first.roles, {}, map[]).cache;
    ResolveSingle(g, r, {}, warm);
    ReachableStep(g, [r], r, a);
  }

  /** On acyclic storage a permission is answered exactly, after every history of requests, exactly
      when no role inherits it without listing a match itself. */
  lemma WarmExactStorage(g: Roles, target: string)
    requires Acyclic(g)
    ensures OwnMatch(g, target) <==>
      forall rs, user :: Answer(g, AfterRequests(g, map[], rs), user, target) <==> Granted(g, user, target)
  {
    if OwnMatch(g, target) {
      forall rs, user
        ensures Answer(g, AfterRequests(g, map[], rs), user, target) <==> Granted(g, user, target)
      {
        if Granted(g, user, target) {
          OwnMatchIsExact(g, rs, user, target);
        } else if Answer(g, AfterRequests(g, map[], rs), user, target) {
          WarmAnswerIsSound(g, rs, user, target);
        }
      }
    } else {
      var r, a :| r in g && a in g && Reachable(g, Parents(g, r), a) && AnyMatches(g[a].permissions, target)
        && !AnyMatches(g[r].permissions, target);
      var rs, user := InheritorDenied(g, r, a, target);
    }
  }

  /** But a warm answer can deny: in a diamond of roles, resolving the top caches a list without
      the bottom's permissions for the parent visited second. */
  lemma WarmAnswerCanDeny() returns (g: Roles, first: User, second: User)
    ensures Acyclic(g)
    ensures Granted(g, second, "d:read")
    ensures !Answer(g, AfterRequests(g, map[], [Check(Some(first), "x:x")]), second, "d:read")
  {
    g := map[
      "a" := Role("a", [], ["b", "c"]),
      "b" := Role("b", [], ["d"]),
      "c" := Role("c", [], ["d"]),
      "d" := Role("d", ["d:read"], [])];
    first, second := User(["a"], []), User(["c"], []);
    DiamondAcyclic(g);
    DiamondCache(g);
    assert [Check(Some(first), "x:x")][1..] == [];
    assert AfterRequests(g, map[], [Check(Some(first), "x:x")]) == AfterRequest(g, map[], Check(Some(first), "x:x"));
    DiamondGrants(g, second);
    NothingMatches("d:read");
    NothingMatches("x:x");
    var warm := ResolveAll(g, ["a"], {}, map[]).cache;
    assert ["c"][1..] == [];
    assert ResolveAll(g, ["c"], {}, warm).perms == [];
  }

  lemma NothingMatches(target: string)
    ensures !AnyMatches([], target)
  {
  }

  lemma DiamondGrants(g: Roles, user: User)
    requires IsDiamond(g) && user == User(["c"], [])
    ensures Granted(g, user, "d:read")
  {
    ReachableSelf(g, ["d"], "d");
    ReachableStep(g, ["c"], "c", "d");
    Permissions.PermitsExactly("d", "read", "d", "read");
    assert "d" + ":" + "read" == "d:read" && "d:read" in g["d"].permissions;
    assert Permissions.SomePermits(g["d"].permissions, "d:read");
  }

  ghost predicate IsDiamond(g: Roles) {
    g == map["a" := Role("a", [], ["b", "c"]), "b" := Role("b", [], ["d"]),
             "c" := Role("c", [], ["d"]), "d" := Role("d", ["d:read"], [])]
  }

  lemma ResolveSingle(g: Roles, x: string, seen: set<string>, cache: Cache)
    ensures ResolveAll(g, [x], seen, cache) == ResolveOne(g, x, seen, cache)
  {
    var one := ResolveOne(g, x, seen, cache);
    assert [x][1..] == [] && one.perms + [] == one.perms;
  }

  /** A role whose only parent is already seen is cached with its own permissions alone. */
  lemma ResolveOverSeenParent(g: Roles, x: string, parent: string, seen: set<string>, cache: Cache)
    requires x in g && x !in seen && x !in cache && g[x].parents == [parent] && parent in seen
    ensures ResolveOne(g, x, seen, cache) == Resolved(g[x].permissions, seen + {x}, cache[x := g[x].permissions])
  {
    ResolveSingle(g, parent, seen + {x}, cache);
    assert g[x].permissions + [] == g[x].permissions;
  }

  lemma DiamondCache(g: Roles)
    requires IsDiamond(g)
    ensures var warm := ResolveAll(g, ["a"], {}, map[]).cache; "c" in warm && warm["c"] == []
  {
    ResolveSingle(g, "a", {}, map[]);
    ResolveSingle(g, "d", {"a"} + {"b"}, map[]);
    var d := ResolveOne(g, "d", {"a"} + {"b"}, map[]);
    var b := ResolveOne(g, "b", {"a"}, map[]);
    assert g["b"].parents == ["d"] && g["c"].parents == ["d"];
    assert "c" !in d.seen && "c" !in d.cache && "d" in d.seen;
    assert b.seen == d.seen && b.cache == d.cache["b" := b.perms];
    ResolveOverSeenParent(g, "c", "d", b.seen, b.cache);
    assert ["b", "c"][1..] == ["c"];
    ResolveSingle(g, "c", b.seen, b.cache);
    var inner := ResolveAll(g, ["b", "c"], {"a"}, map[]);
    assert inner.cache == b.cache["c" := []];
    var a := ResolveOne(g, "a", {}, map[]);
    assert {} + {"a"} == {"a"};
    assert a.cache == inner.cache["a" := a.perms];
  }

  lemma DiamondAcyclic(g: Roles)
    requires IsDiamond(g)
    ensures Acyclic(g)
  {
    forall r
      ensures !Reachable(g, Parents(g, r), r)
    {
      if Reachable(g, Parents(g, r), r) {
        var path :| IsPath(g, path) && path[0] in Parents(g, r) && path[|path| - 1] == r;
        if r == "a" {
          PathStaysInside(g, path, {"b", "c", "d"});
        } else {
          PathStaysInside(g, path, {"d"});
        }
      }
    }
  }
}
