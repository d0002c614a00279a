/** What a permission permits, on its parts: a resource without a colon, and the action after the
    first colon, which is empty when there is none. */
module Permissions {

  ghost predicate HasParts(p: string, resource: string, action: string) {
    ':' !in resource && (p == resource + ":" + action || (p == resource && action == ""))
  }

  predicate Covers(part: string, target: string) {
    part == "*" || part == target
  }

  ghost predicate Permits(p: string, target: string) {
    exists r, a, tr, ta :: HasParts(p, r, a) && HasParts(target, tr, ta) && Covers(r, tr) && Covers(a, ta)
  }

  ghost predicate SomePermits(ps: seq<string>, target: string) {
    exists p :: p in ps && Permits(p, target)
  }

  lemma ColonAt(r: string, a: string)
    requires ':' !in r
    ensures var p := r + ":" + a;
      |r| < |p| && p[|r|] == ':' && p[..|r|] == r && p[|r| + 1..] == a && forall i :: 0 <= i < |r| ==> p[i] != ':'
  {
    var p := r + ":" + a;
    assert forall i :: 0 <= i < |r| ==> p[i] == r[i];
  }

  /** The parts are determined. */
  lemma PartsAreUnique(p: string, r: string, a: string, s: string, b: string)
    requires HasParts(p, r, a) && HasParts(p, s, b)
    ensures r == s && a == b
  {
    ColonAt(r, a);
    ColonAt(s, b);
  }

  lemma PermitsByParts(p: string, r: string, a: string, target: string, tr: string, ta: string)
    requires HasParts(p, r, a) && HasParts(target, tr, ta)
    ensures Permits(p, target) <==> Covers(r, tr) && Covers(a, ta)
  {
    if Permits(p, target) {
      var r', a', tr', ta' :|
        HasParts(p, r', a') && HasParts(target, tr', ta') && Covers(r', tr') && Covers(a', ta');
      PartsAreUnique(p, r, a, r', a');
      PartsAreUnique(target, tr, ta, tr', ta');
    }
  }

  /** On permissions written with a colon: both parts must be the wildcard or the target's. */
  lemma PermitsExactly(r: string, a: string, tr: string, ta: string)
    requires ':' !in r && ':' !in tr
    ensures Permits(r + ":" + a, tr + ":" + ta) <==> (r == "*" || r == tr) && (a == "*" || a == ta)
  {
    PermitsByParts(r + ":" + a, r, a, tr + ":" + ta, tr, ta);
  }

  /** A permission without a colon has an empty action: it permits no action but the empty one. */
  lemma PermitsWithoutColon(p: string, tr: string, ta: string)
    requires ':' !in p && ':' !in tr
    ensures Permits(p, tr + ":" + ta) <==> (p == "*" || p == tr) && ta == ""
  {
    PermitsByParts(p, p, "", tr + ":" + ta, tr, ta);
  }

  /** A permission that a role may list: a resource and an action, neither empty, around one colon. */
  ghost predicate IsProper(p: string) {
    exists r, a :: ':' !in r && ':' !in a && r != "" && a != "" && p == r + ":" + a
  }
}
