/** Roles as a graph of names: reachability, and depth-first visiting with a shared set of names
    already seen, the traversal behind role listing and permission resolution (internal/rbac/rbac.go). */
module RoleGraph {

  datatype Role = Role(name: string, permissions: seq<string>, parents: seq<string>)

  type Roles = map<string, Role>

  /** A name without a role has no parents. */
  function Parents(g: Roles, name: string): seq<string> {
    if name in g then g[name].parents else []
  }

  // ----- reachability -----

  predicate IsPath(g: Roles, path: seq<string>) {
    path != [] && forall i :: 0 <= i < |path| - 1 ==> path[i + 1] in Parents(g, path[i])
  }

  /** `to` is one of `from`, or is inherited by one of them. */
  ghost predicate Reachable(g: Roles, from: seq<string>, to: string) {
    exists path :: IsPath(g, path) && path[0] in from && path[|path| - 1] == to
  }

  /** No role inherits itself; names of missing roles count too. */
  ghost predicate Acyclic(g: Roles) {
    forall r :: !Reachable(g, Parents(g, r), r)
  }

  /** Every parent of a member is a member. */
  predicate ClosedUnder(g: Roles, names: set<string>, within: set<string>) {
    forall r :: r in names ==> forall p :: p in Parents(g, r) ==> p in within
  }

  lemma {:induction false} PathStaysInside(g: Roles, path: seq<string>, names: set<string>)
    requires IsPath(g, path) && path[0] in names && ClosedUnder(g, names, names)
    ensures path[|path| - 1] in names
    decreases |path|
  {
    if |path| > 1 {
      var rest := path[1..];
      forall i | 0 <= i < |rest| - 1
        ensures rest[i + 1] in Parents(g, rest[i])
      {
        assert path[i + 1 + 1] in Parents(g, path[i + 1]);
      }
      assert path[0 + 1] in Parents(g, path[0]);
      PathStaysInside(g, rest, names);
    }
  }

  lemma ReachableSelf(g: Roles, from: seq<string>, to: string)
    requires to in from
    ensures Reachable(g, from, to)
  {
    assert IsPath(g, [to]);
    assert [to][0] in from;
  }

  /** One more step at the front. */
  lemma ReachableStep(g: Roles, from: seq<string>, via: string, to: string)
    requires via in from && Reachable(g, Parents(g, via), to)
    ensures Reachable(g, from, to)
  {
    var path :| IsPath(g, path) && path[0] in Parents(g, via) && path[|path| - 1] == to;
    var longer := [via] + path;
    assert longer[0] == via && longer[|longer| - 1] == to;
    forall i | 0 <= i < |longer| - 1
      ensures longer[i + 1] in Parents(g, longer[i])
    {
      if i > 0 {
        assert longer[i] == path[i - 1] && longer[i + 1] == path[i - 1 + 1];
      }
    }
  }

  lemma ReachableMore(g: Roles, from: seq<string>, more: seq<string>, to: string)
    requires Reachable(g, from, to) && forall r :: r in from ==> r in more
    ensures Reachable(g, more, to)
  {
    var path :| IsPath(g, path) && path[0] in from && path[|path| - 1] == to;
    assert path[0] in more;
  }

  // ----- depth-first visiting -----

  function Names(order: seq<string>): set<string> {
    set r | r in order
  }

  /** The names newly visited from `roots`, each before its parents. */
  function Visit(g: Roles, roots: seq<string>, seen: set<string>): seq<string>
    decreases g.Keys - seen, |roots|
  {
    if roots == [] then []
    else if roots[0] in seen then Visit(g, roots[1..], seen)
    else
      var first := VisitOne(g, roots[0], seen);
      first + Visit(g, roots[1..], seen + Names(first))
  }

  function VisitOne(g: Roles, root: string, seen: set<string>): seq<string>
    requires root !in seen
    decreases g.Keys - seen, 0
  {
    [root] + (if root in g then Visit(g, g[root].parents, seen + {root}) else [])
  }

  predicate NoDuplicates(order: seq<string>) {
    forall i, j :: 0 <= i < j < |order| ==> order[i] != order[j]
  }

  lemma NoDuplicatesAppend(s: seq<string>, t: seq<string>)
    requires NoDuplicates(s) && NoDuplicates(t) && Names(s) !! Names(t)
    ensures NoDuplicates(s + t)
  {
    forall i, j | 0 <= i < j < |s + t|
      ensures (s + t)[i] != (s + t)[j]
    {
      if i < |s| <= j {
        assert s[i] in Names(s) && t[j - |s|] in Names(t);
      }
    }
  }

  lemma NamesAppend(s: seq<string>, t: seq<string>)
    ensures Names(s + t) == Names(s) + Names(t)
  {
  }

  /** What one visit does: fresh names without repetition, the roots covered, parents covered. */
  ghost predicate Explored(g: Roles, roots: seq<string>, seen: set<string>, order: seq<string>) {
    && NoDuplicates(order) && Names(order) !! seen
    && (forall r :: r in roots ==> r in seen + Names(order))
    && ClosedUnder(g, Names(order), seen + Names(order))
  }

  lemma {:induction false} VisitExplores(g: Roles, roots: seq<string>, seen: set<string>)
    ensures Explored(g, roots, seen, Visit(g, roots, seen))
    decreases g.Keys - seen, |roots|
  {
    if roots != [] {
      if roots[0] in seen {
        VisitExplores(g, roots[1..], seen);
      } else {
        VisitOneExplores(g, roots[0], seen);
        var first := VisitOne(g, roots[0], seen);
        var rest := Visit(g, roots[1..], seen + Names(first));
        VisitExplores(g, roots[1..], seen + Names(first));
        NoDuplicatesAppend(first, rest);
        NamesAppend(first, rest);
      }
      assert forall r :: r in roots ==> r == roots[0] || r in roots[1..];
    }
  }

  lemma {:induction false} VisitOneExplores(g: Roles, root: string, seen: set<string>)
    requires root !in seen
    ensures Explored(g, [root], seen, VisitOne(g, root, seen))
    decreases g.Keys - seen, 0
  {
    var parents := Parents(g, root);
    var inner := if root in g then Visit(g, parents, seen + {root}) else [];
    if root in g {
      VisitExplores(g, parents, seen + {root});
    }
    NoDuplicatesAppend([root], inner);
    NamesAppend([root], inner);
  }

  lemma {:induction false} VisitReaches(g: Roles, roots: seq<string>, seen: set<string>, to: string)
    requires to in Visit(g, roots, seen)
    ensures Reachable(g, roots, to)
    decreases g.Keys - seen, |roots|
  {
    if roots[0] in seen {
      VisitReaches(g, roots[1..], seen, to);
      ReachableMore(g, roots[1..], roots, to);
    } else {
      var first := VisitOne(g, roots[0], seen);
      if to in first {
        if to == roots[0] {
          ReachableSelf(g, roots, to);
        } else {
          VisitReaches(g, g[roots[0]].parents, seen + {roots[0]}, to);
          ReachableStep(g, roots, roots[0], to);
        }
      } else {
        VisitReaches(g, roots[1..], seen + Names(first), to);
        ReachableMore(g, roots[1..], roots, to);
      }
    }
  }

  /** From nothing seen, a visit lists exactly the reachable names, each once, on any graph. */
  lemma VisitIsReachability(g: Roles, roots: seq<string>)
    ensures NoDuplicates(Visit(g, roots, {}))
    ensures forall r :: r in Visit(g, roots, {}) <==> Reachable(g, roots, r)
  {
    var order := Visit(g, roots, {});
    VisitExplores(g, roots, {});
    forall r
      ensures r in order <==> Reachable(g, roots, r)
    {
      if r in order {
        VisitReaches(g, roots, {}, r);
      }
      if Reachable(g, roots, r) {
        var path :| IsPath(g, path) && path[0] in roots && path[|path| - 1] == r;
        PathStaysInside(g, path, Names(order));
      }
    }
  }
}
