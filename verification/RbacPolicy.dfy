/** Role policies (internal/rbac/policy.go): the cycle check is a depth-first search that marks a
    shared set, and every edit that is accepted keeps the inheritance graph acyclic. */
module RbacPolicy {
  import opened Results
  import opened RoleGraph
  import Strings
  import Permissions

  datatype PolicyError = RoleNotFound | RoleAlreadyExists | InvalidPermission | CyclicInheritance | InvalidRoleName

  predicate ValidName(name: string) {
    name != "" && !(' ' in name || '\t' in name || '\n' in name || '\r' in name)
  }

  /** `resource:action`, both parts non-empty. */
  predicate ValidPermission(p: string) {
    var parts := Strings.Split(p, ':');
    |parts| == 2 && parts[0] != "" && parts[1] != ""
  }

  /** Splitting finds one colon exactly in a proper permission. */
  lemma ValidExactly(p: string)
    ensures ValidPermission(p) <==> Permissions.IsProper(p)
  {
    var parts := Strings.Split(p, ':');
    Strings.JoinSplit(p, ':');
    Strings.SplitParts(p, ':');
    if ValidPermission(p) {
      assert parts[1..] == [parts[1]] && p == parts[0] + [':'] + parts[1];
    }
    if Permissions.IsProper(p) {
      var r, a :| ':' !in r && ':' !in a && r != "" && a != "" && p == r + ":" + a;
      assert [r, a][1..] == [a] && Strings.Join([r, a], ':') == p;
      Strings.SplitJoin([r, a], ':');
    }
  }

  /** A name has characters, and none is whitespace. */
  predicate IsName(name: string) {
    |name| > 0 && forall c :: c in name ==> c !in " \t\n\r"
  }

  lemma ValidNameExactly(name: string)
    ensures ValidName(name) <==> IsName(name)
  {
  }

  // ----- edits as functions of the policy -----

  datatype Edit = Add(role: Role) | Replace(role: Role) | Remove(name: string)

  ghost function RoleError(g: Roles, role: Role): Option<PolicyError> {
    if exists p :: p in role.permissions && !Permissions.IsProper(p) then Some(InvalidPermission)
    else if Reachable(g, role.parents, role.name) then Some(CyclicInheritance)
    else None
  }

  /** The error an edit is refused with, if it is. */
  ghost function EditError(g: Roles, e: Edit): Option<PolicyError> {
    match e
    case Add(role) =>
      if !IsName(role.name) then Some(InvalidRoleName)
      else if role.name in g then Some(RoleAlreadyExists)
      else RoleError(g, role)
    case Replace(role) =>
      if !IsName(role.name) then Some(InvalidRoleName)
      else if role.name !in g then Some(RoleNotFound)
      else RoleError(g, role)
    case Remove(name) => if name !in g then Some(RoleNotFound) else None
  }

  function Edited(g: Roles, e: Edit): Roles {
    match e
    case Add(role) => g[role.name := role]
    case Replace(role) => g[role.name := role]
    case Remove(name) => g - {name}
  }

  ghost function AfterEdit(g: Roles, e: Edit): Roles {
    if EditError(g, e).Some? then g else Edited(g, e)
  }

  ghost function AfterEdits(g: Roles, es: seq<Edit>): Roles
    decreases |es|
  {
    if es == [] then g else AfterEdits(AfterEdit(g, es[0]), es[1..])
  }

  // ----- the policy object -----

  /** The set of names a search has marked, shared by its recursive calls. */
  class Marks {
    var names: set<string>

    constructor ()
      ensures names == {}
    {
      names := {};
    }
  }

  /** Everything newly marked leads only to marks, and not to `target`. */
  ghost predicate Cleared(g: Roles, added: set<string>, marked: set<string>, target: string) {
    ClosedUnder(g, added, marked) && forall r :: r in added ==> target !in Parents(g, r)
  }

  class Policy {
    var roles: Roles

    constructor ()
      ensures roles == map[]
    {
      roles := map[];
    }

    /** Search the ancestors of `parents` for `roleName`. */
    method DetectCycle(roleName: string, parents: seq<string>, visited: Marks) returns (cyclic: bool)
      requires roleName !in visited.names
      modifies visited
      ensures old(visited.names) <= visited.names && roleName !in visited.names
      ensures cyclic ==> Reachable(roles, parents, roleName)
      ensures !cyclic ==>
        (forall p :: p in parents ==> p in visited.names)
        && Cleared(roles, visited.names - old(visited.names), visited.names, roleName)
      decreases roles.Keys - visited.names, |parents|
    {
      for i := 0 to |parents|
        invariant old(visited.names) <= visited.names && roleName !in visited.names
        invariant forall j :: 0 <= j < i ==> parents[j] in visited.names
        invariant Cleared(roles, visited.names - old(visited.names), visited.names, roleName)
      {
        var parent := parents[i];
        if parent == roleName {
          ReachableSelf(roles, parents, roleName);
          return true;
        }
        if parent in visited.names {
          continue;
        }
        visited.names := visited.names + {parent};
        if parent in roles {
          var found := DetectCycle(roleName, roles[parent].parents, visited);
          if found {
            ReachableStep(roles, parents, parent, roleName);
            return true;
          }
        }
      }
      cyclic := false;
    }

    /** The check reports a cycle exactly when the role is among its own proposed ancestors. */
    method CheckCyclicInheritance(roleName: string, parents: seq<string>) returns (cyclic: bool)
      ensures cyclic <==> Reachable(roles, parents, roleName)
    {
      var visited := new Marks();
      cyclic := DetectCycle(roleName, parents, visited);
      if !cyclic && Reachable(roles, parents, roleName) {
        ghost var path :| IsPath(roles, path) && path[0] in parents && path[|path| - 1] == roleName;
        PathStaysInside(roles, path, visited.names);
      }
    }

    method CheckRole(role: Role) returns (r: Option<PolicyError>)
      ensures r == RoleError(roles, role)
    {
      for i := 0 to |role.permissions|
        invariant forall j :: 0 <= j < i ==> Permissions.IsProper(role.permissions[j])
      {
        ValidExactly(role.permissions[i]);
        if !ValidPermission(role.permissions[i]) {
          return Some(InvalidPermission);
        }
      }
      var cyclic := CheckCyclicInheritance(role.name, role.parents);
      r := if cyclic then Some(CyclicInheritance) else None;
    }

    method AddRole(role: Role) returns (r: Option<PolicyError>)
      modifies this
      ensures r == EditError(old(roles), Add(role)) && roles == AfterEdit(old(roles), Add(role))
    {
      if !ValidName(role.name) {
        return Some(InvalidRoleName);
      }
      if role.name in roles {
        return Some(RoleAlreadyExists);
      }
      r := CheckRole(role);
      if r.None? {
        roles := roles[role.name := role];
      }
    }

    method UpdateRole(role: Role) returns (r: Option<PolicyError>)
      modifies this
      ensures r == EditError(old(roles), Replace(role)) && roles == AfterEdit(old(roles), Replace(role))
    {
      if !ValidName(role.name) {
        return Some(InvalidRoleName);
      }
      if role.name !in roles {
        return Some(RoleNotFound);
      }
      r := CheckRole(role);
      if r.None? {
        roles := roles[role.name := role];
      }
    }

    method RemoveRole(name: string) returns (r: Option<PolicyError>)
      modifies this
      ensures r == EditError(old(roles), Remove(name)) && roles == AfterEdit(old(roles), Remove(name))
    {
      if name !in roles {
        return Some(RoleNotFound);
      }
      roles := roles - {name};
      r := None;
    }
  }

  // ----- acyclicity -----

  /** A path that never leaves `x` uses the old graph throughout. */
  lemma {:induction false} PathWithout(g: Roles, role: Role, path: seq<string>)
    requires IsPath(g[role.name := role], path)
    requires forall i :: 0 <= i < |path| - 1 ==> path[i] != role.name
    ensures IsPath(g, path)
  {
    forall i | 0 <= i < |path| - 1
      ensures path[i + 1] in Parents(g, path[i])
    {
      assert path[i + 1] in Parents(g[role.name := role], path[i]);
    }
  }

  lemma SubPath(g: Roles, path: seq<string>, i: nat, j: nat)
    requires IsPath(g, path) && i < j <= |path|
    ensures IsPath(g, path[i..j])
  {
    forall k | 0 <= k < j - i - 1
      ensures path[i..j][k + 1] in Parents(g, path[i..j][k])
    {
      assert path[i + k + 1] in Parents(g, path[i + k]);
    }
  }

  /** Follow a path from the proposed parents until it first meets the new role. */
  lemma {:induction false} FirstMeeting(g: Roles, role: Role, path: seq<string>, k: nat)
    requires IsPath(g[role.name := role], path) && path[0] in role.parents
    requires k < |path| && path[k] == role.name
    ensures Reachable(g, role.parents, role.name)
    decreases k
  {
    if j :| 0 <= j < k && path[j] == role.name {
      FirstMeeting(g, role, path, j);
    } else {
      SubPath(g[role.name := role], path, 0, k + 1);
      var prefix := path[0..k + 1];
      PathWithout(g, role, prefix);
      assert prefix[0] in role.parents && prefix[|prefix| - 1] == role.name;
    }
  }

  /** Setting a role that is not among its own ancestors keeps an acyclic graph acyclic. */
  lemma SetKeepsAcyclic(g: Roles, role: Role)
    requires Acyclic(g) && !Reachable(g, role.parents, role.name)
    ensures Acyclic(g[role.name := role])
  {
    var g' := g[role.name := role];
    forall r
      ensures !Reachable(g', Parents(g', r), r)
    {
      if Reachable(g', Parents(g', r), r) {
        var path :| IsPath(g', path) && path[0] in Parents(g', r) && path[|path| - 1] == r;
        if r == role.name {
          FirstMeeting(g, role, path, |path| - 1);
        } else if k :| 0 <= k < |path| && path[k] == role.name {
          CycleThrough(g, role, path, k);
        } else {
          CycleElsewhere(g, role, r, path);
        }
      }
    }
  }

  /** A cycle that does not meet the new role was there before. */
  lemma CycleElsewhere(g: Roles, role: Role, r: string, path: seq<string>)
    requires IsPath(g[role.name := role], path) && r != role.name && path[0] in Parents(g[role.name := role], r)
    requires path[|path| - 1] == r && forall k :: 0 <= k < |path| ==> path[k] != role.name
    ensures Reachable(g, Parents(g, r), r)
  {
    PathWithout(g, role, path);
    assert Parents(g[role.name := role], r) == Parents(g, r);
  }

  /** A cycle through the new role, started elsewhere, turned to start at the new role. */
  lemma CycleThrough(g: Roles, role: Role, path: seq<string>, k: nat)
    requires var g' := g[role.name := role];
      IsPath(g', path) && path[0] in Parents(g', path[|path| - 1]) && path[|path| - 1] != role.name
    requires k < |path| && path[k] == role.name
    ensures Reachable(g, role.parents, role.name)
  {
    var g' := g[role.name := role];
    var front, back := path[0..k + 1], path[k + 1..|path|];
    SubPath(g', path, 0, k + 1);
    SubPath(g', path, k + 1, |path|);
    var turned := back + front;
    assert back[0] == path[k + 1] && path[k + 1] in Parents(g', path[k]);
    forall i | 0 <= i < |turned| - 1
      ensures turned[i + 1] in Parents(g', turned[i])
    {
      if i < |back| - 1 {
        assert turned[i] == back[i] && turned[i + 1] == back[i + 1];
      } else if i == |back| - 1 {
        assert turned[i] == path[|path| - 1] && turned[i + 1] == path[0];
      } else {
        assert turned[i] == front[i - |back|] && turned[i + 1] == front[i - |back| + 1];
      }
    }
    assert turned[|turned| - 1] == role.name;
    FirstMeeting(g, role, turned, |turned| - 1);
  }

  lemma RemoveKeepsAcyclic(g: Roles, name: string)
    requires Acyclic(g)
    ensures Acyclic(g - {name})
  {
    var g' := g - {name};
    forall r
      ensures !Reachable(g', Parents(g', r), r)
    {
      if Reachable(g', Parents(g', r), r) {
        var path :| IsPath(g', path) && path[0] in Parents(g', r) && path[|path| - 1] == r;
        forall i | 0 <= i < |path| - 1
          ensures path[i + 1] in Parents(g, path[i])
        {
          assert path[i + 1] in Parents(g', path[i]);
        }
        assert Reachable(g, Parents(g, r), r);
      }
    }
  }

  lemma EmptyIsAcyclic()
    ensures Acyclic(map[])
  {
  }

  /** Every sequence of edits of an empty policy leaves an acyclic graph, dangling parents included. */
  lemma EditsOfEmptyAreAcyclic(es: seq<Edit>)
    ensures Acyclic(AfterEdits(map[], es))
  {
    EmptyIsAcyclic();
    EditsKeepAcyclic(map[], es);
  }

  /** Every sequence of edits keeps an acyclic graph acyclic. */
  lemma {:induction false} EditsKeepAcyclic(g: Roles, es: seq<Edit>)
    requires Acyclic(g)
    ensures Acyclic(AfterEdits(g, es))
    decreases |es|
  {
    if es != [] {
      if EditError(g, es[0]).None? {
        match es[0] {
          case Add(role) => SetKeepsAcyclic(g, role);
          case Replace(role) => SetKeepsAcyclic(g, role);
          case Remove(name) => RemoveKeepsAcyclic(g, name);
        }
      }
      EditsKeepAcyclic(AfterEdit(g, es[0]), es[1..]);
    }
  }

  /** The check refuses nothing it could accept: what it calls cyclic would close a cycle. */
  lemma RefusedWouldCycle(g: Roles, role: Role)
    requires Reachable(g, role.parents, role.name)
    ensures !Acyclic(g[role.name := role])
  {
    var g' := g[role.name := role];
    var path :| IsPath(g, path) && path[0] in role.parents && path[|path| - 1] == role.name;
    FirstVisit(g, role, path, |path| - 1);
    assert Parents(g', role.name) == role.parents;
  }

  /** Up to its first visit of the role a path of the old graph is one of the new. */
  lemma {:induction false} FirstVisit(g: Roles, role: Role, path: seq<string>, k: nat)
    requires IsPath(g, path) && path[0] in role.parents && k < |path| && path[k] == role.name
    ensures Reachable(g[role.name := role], role.parents, role.name)
    decreases k
  {
    if j :| 0 <= j < k && path[j] == role.name {
      FirstVisit(g, role, path, j);
    } else {
      var g' := g[role.name := role];
      var prefix := path[0..k + 1];
      forall i | 0 <= i < |prefix| - 1
        ensures prefix[i + 1] in Parents(g', prefix[i])
      {
        assert path[i + 1] in Parents(g, path[i]);
      }
      assert prefix[0] in role.parents && prefix[|prefix| - 1] == role.name;
    }
  }
}
