/** Schema migrations (internal/database/migrate.go) over a transactional database whose every
    operation may fail: what Up, Down and Reset may do, the object that does it, and what any run of
    them keeps. */
module Migrations {
  import opened Results

  datatype Migration = Migration(version: string, upSQL: string, downSQL: string)

  /** The schema, and the rows of schema_migrations. */
  datatype Db<S> = Db(schema: S, applied: set<string>)

  /** The loaded migrations and what a script does to a schema, if it does not fail. */
  datatype System<!S> = System(migrations: seq<Migration>, effect: (string, S) -> Option<S>)

  /** Go's order on strings: byte by byte, a prefix first. */
  predicate Less(a: string, b: string) {
    if b == "" then false
    else if a == "" then true
    else if a[0] != b[0] then a[0] < b[0]
    else Less(a[1..], b[1..])
  }

  /** The first `k` characters are the same; then the smaller character comes first, or the end. */
  predicate DecidedAt(a: string, b: string, k: nat) {
    k <= |a| && k <= |b| && a[..k] == b[..k] && (if k < |a| && k < |b| then a[k] < b[k] else k == |a| < |b|)
  }

  lemma DecidedLater(a: string, b: string, k: nat)
    requires a != "" && b != "" && a[0] == b[0]
    ensures DecidedAt(a, b, k + 1) <==> DecidedAt(a[1..], b[1..], k)
    ensures !DecidedAt(a, b, 0)
  {
    if k < |a| && k < |b| {
      assert a[..k + 1] == [a[0]] + a[1..][..k] && b[..k + 1] == [b[0]] + b[1..][..k];
    }
  }

  lemma DecidedFirst(a: string, b: string, k: nat)
    requires a == "" || b == "" || a[0] != b[0]
    ensures DecidedAt(a, b, k) ==> k == 0
  {
    if 0 < k <= |a| && k <= |b| {
      assert a[..k][0] == a[0] && b[..k][0] == b[0];
    }
  }

  /** The order decides at some first difference. */
  lemma {:induction false} LessExactly(a: string, b: string)
    ensures Less(a, b) <==> exists k: nat :: DecidedAt(a, b, k)
    decreases |a|
  {
    if a != "" && b != "" && a[0] == b[0] {
      LessExactly(a[1..], b[1..]);
      if k: nat :| DecidedAt(a[1..], b[1..], k) {
        DecidedLater(a, b, k);
      }
      if k: nat :| DecidedAt(a, b, k) {
        DecidedLater(a, b, if k > 0 then k - 1 else 0);
      }
    } else {
      assert a[..0] == b[..0];
      assert Less(a, b) ==> DecidedAt(a, b, 0);
      if k: nat :| DecidedAt(a, b, k) {
        DecidedFirst(a, b, k);
      }
    }
  }

  lemma {:induction false} LessTransitive(a: string, b: string, c: string)
    requires Less(a, b) && Less(b, c)
    ensures Less(a, c)
    decreases |a|
  {
    if a != "" && a[0] == b[0] == c[0] {
      LessTransitive(a[1..], b[1..], c[1..]);
    }
  }

  lemma {:induction false} NotLessItself(a: string)
    ensures !Less(a, a)
    decreases |a|
  {
    if a != "" {
      NotLessItself(a[1..]);
    }
  }

  /** Loading sorts by version, and versions are the keys of a map. */
  ghost predicate Sorted(ms: seq<Migration>) {
    forall i, j :: 0 <= i < j < |ms| ==> Less(ms[i].version, ms[j].version)
  }

  // ----- what each operation may do -----

  /** A migration run forward in one transaction. */
  function Applied<S>(sys: System<S>, i: nat, db: Db<S>): Option<Db<S>>
    requires i < |sys.migrations|
  {
    var m := sys.migrations[i];
    if m.upSQL == "" then None else
    var schema :- sys.effect(m.upSQL, db.schema);
    Some(Db(schema, db.applied + {m.version}))
  }

  function RolledBack<S>(sys: System<S>, i: nat, db: Db<S>): Option<Db<S>>
    requires i < |sys.migrations|
  {
    var m := sys.migrations[i];
    if m.downSQL == "" then None else
    var schema :- sys.effect(m.downSQL, db.schema);
    Some(Db(schema, db.applied - {m.version}))
  }

  /** Up from migration `i` on, skipping what `skip` lists: it may stop with an error before any
      migration that cannot be run, or before any at all if a call to the database failed. */
  predicate UpFrom<S(==)>(sys: System<S>, i: nat, skip: set<string>, a: Db<S>, b: Db<S>, ok: bool, faulty: bool)
    requires i <= |sys.migrations|
    decreases |sys.migrations| - i
  {
    if i == |sys.migrations| then ok && b == a
    else if sys.migrations[i].version in skip then UpFrom(sys, i + 1, skip, a, b, ok, faulty)
    else
      || (!ok && b == a && (faulty || Applied(sys, i, a).None?))
      || (Applied(sys, i, a).Some? && UpFrom(sys, i + 1, skip, Applied(sys, i, a).value, b, ok, faulty))
  }

  predicate Up<S(==)>(sys: System<S>, a: Db<S>, b: Db<S>, ok: bool, faulty: bool) {
    (!ok && b == a && faulty) || UpFrom(sys, 0, a.applied, a, b, ok, faulty)
  }

  /** The greatest applied version. */
  ghost predicate IsLast(applied: set<string>, v: string) {
    v in applied && forall w :: w in applied ==> !Less(v, w)
  }

  /** The migration of the greatest version is missing, or cannot be rolled back. */
  ghost predicate NoWayDown<S>(sys: System<S>, a: Db<S>) {
    || (forall i :: 0 <= i < |sys.migrations| ==> !IsLast(a.applied, sys.migrations[i].version))
    || (exists i ::
          0 <= i < |sys.migrations| && IsLast(a.applied, sys.migrations[i].version) && RolledBack(sys, i, a).None?)
  }

  ghost predicate Down<S>(sys: System<S>, a: Db<S>, b: Db<S>, ok: bool, faulty: bool) {
    if !ok then b == a && (faulty || (a.applied != {} && NoWayDown(sys, a)))
    else if a.applied == {} then b == a
    else exists i ::
      0 <= i < |sys.migrations| && IsLast(a.applied, sys.migrations[i].version) && RolledBack(sys, i, a) == Some(b)
  }

  /** Down until nothing is applied, then Up; an error stops it where it is. */
  ghost predicate Reset<S(!new)>(sys: System<S>, a: Db<S>, b: Db<S>, ok: bool, faulty: bool)
    decreases |a.applied|
  {
    if a.applied == {} then Up(sys, a, b, ok, faulty)
    else
      || (!ok && Down(sys, a, b, false, faulty))
      || exists mid ::
           Down(sys, a, mid, true, faulty) && |mid.applied| < |a.applied| && Reset(sys, mid, b, ok, faulty)
  }

  // ----- the migrator -----

  /** One of the calls with these numbers fails. */
  ghost predicate Faulty(works: nat -> bool, from: nat, to: nat) {
    exists k: nat :: from <= k < to && !works(k)
  }

  /** `works` says which of the calls to the database succeed, counted by `calls`. */
  class Migrator<S(!new,==)> {
    const sys: System<S>
    const works: nat -> bool
    var db: Db<S>
    var calls: nat

    constructor (sys: System<S>, works: nat -> bool, db: Db<S>)
      ensures this.sys == sys && this.works == works && this.db == db && calls == 0
    {
      this.sys, this.works, this.db, this.calls := sys, works, db, 0;
    }

    method Call() returns (ok: bool)
      modifies `calls
      ensures calls == old(calls) + 1 && (!ok ==> Faulty(works, old(calls), calls))
    {
      ok := works(calls);
      calls := calls + 1;
    }

    /** Nothing changes unless the script, the bookkeeping and the commit all succeed. */
    method RunMigration(i: nat, up: bool) returns (ok: bool)
      requires i < |sys.migrations|
      modifies `db, `calls
      ensures old(calls) <= calls
      ensures var r := if up then Applied(sys, i, old(db)) else RolledBack(sys, i, old(db));
        if ok then r == Some(db) else db == old(db) && (r.None? || Faulty(works, old(calls), calls))
    {
      var m := sys.migrations[i];
      var begun := Call();
      if !begun {
        return false;
      }
      var script := if up then m.upSQL else m.downSQL;
      if script == "" {
        return false;
      }
      var schema := sys.effect(script, db.schema);
      if schema.None? {
        return false;
      }
      var recorded := Call();
      if !recorded {
        return false;
      }
      var committed := Call();
      if !committed {
        return false;
      }
      db := Db(schema.value, if up then db.applied + {m.version} else db.applied - {m.version});
      ok := true;
    }

    method MigrateUp() returns (ok: bool)
      modifies `db, `calls
      ensures old(calls) <= calls && Up(sys, old(db), db, ok, Faulty(works, old(calls), calls))
    {
      var loaded := Call();
      if !loaded {
        return false;
      }
      var applied := db.applied;
      ok := true;
      for i := 0 to |sys.migrations|
        invariant applied == old(db).applied && old(calls) <= calls
        invariant forall b, done, f ::
          UpFrom(sys, i, applied, db, b, done, f) ==> UpFrom(sys, 0, applied, old(db), b, done, f)
      {
        if sys.migrations[i].version in applied {
          continue;
        }
        ghost var before := calls;
        ok := RunMigration(i, true);
        if !ok {
          assert Faulty(works, before, calls) ==> Faulty(works, old(calls), calls);
          assert UpFrom(sys, i, applied, db, db, false, Faulty(works, old(calls), calls));
          return false;
        }
      }
      ok := true;
    }

    method MigrateDown() returns (ok: bool)
      modifies `db, `calls
      ensures old(calls) <= calls && Down(sys, old(db), db, ok, Faulty(works, old(calls), calls))
      ensures ok && old(db).applied != {} ==> |db.applied| < |old(db).applied|
    {
      var loaded := Call();
      if !loaded {
        return false;
      }
      if db.applied == {} {
        return true;
      }
      var last := Greatest(db.applied);
      for i := 0 to |sys.migrations|
        invariant db == old(db) && old(calls) <= calls
        invariant forall j :: 0 <= j < i ==> sys.migrations[j].version != last
      {
        if sys.migrations[i].version == last {
          ghost var before := calls;
          ok := RunMigration(i, false);
          assert Faulty(works, before, calls) ==> Faulty(works, old(calls), calls);
          return;
        }
      }
      OneLast(db.applied, last);
      ok := false;
    }

    /** The loop over the applied versions, in any order. */
    method Greatest(applied: set<string>) returns (last: string)
      requires applied != {}
      ensures IsLast(applied, last)
    {
      last := "";
      var rest := applied;
      while rest != {}
        invariant rest <= applied
        invariant last == "" || last in applied
        invariant forall w :: w in applied - rest ==> !Less(last, w)
        decreases |rest|
      {
        var v :| v in rest;
        rest := rest - {v};
        if Less(last, v) {
          forall w | w in applied - rest ensures !Less(v, w) {
            if w == v {
              NotLessItself(v);
            } else if Less(v, w) {
              LessTransitive(last, v, w);
            }
          }
          last := v;
        }
      }
      ghost var any :| any in applied;
      assert any in applied - rest && (any == "" || Less("", any));
    }

    method MigrateReset() returns (ok: bool)
      modifies `db, `calls
      ensures old(calls) <= calls && Reset(sys, old(db), db, ok, Faulty(works, old(calls), calls))
    {
      while true
        invariant old(calls) <= calls
        invariant forall b, done, f ::
          (Faulty(works, old(calls), calls) ==> f) && Reset(sys, db, b, done, f) ==> Reset(sys, old(db), b, done, f)
        decreases |db.applied|
      {
        var read := Call();
        if !read {
          FaultStops(sys, db);
          return false;
        }
        if db.applied == {} {
          break;
        }
        ghost var before, since := db, calls;
        var down := MigrateDown();
        assert Faulty(works, since, calls) ==> Faulty(works, old(calls), calls);
        if !down {
          assert Reset(sys, before, db, false, Faulty(works, old(calls), calls));
          return false;
        }
        forall b, done, f | (Faulty(works, old(calls), calls) ==> f) && Reset(sys, db, b, done, f)
          ensures Reset(sys, before, b, done, f)
        {
          assert Down(sys, before, db, true, f);
        }
      }
      ghost var since := calls;
      ghost var before := db;
      ok := MigrateUp();
      UpMore(sys, before, db, ok, Faulty(works, since, calls), Faulty(works, old(calls), calls));
    }
  }

  lemma FaultStops<S(!new)>(sys: System<S>, db: Db<S>)
    ensures Reset(sys, db, db, false, true)
  {
  }

  lemma {:induction false} UpFromMore<S>(
    sys: System<S>, i: nat, skip: set<string>, a: Db<S>, b: Db<S>, ok: bool, faulty: bool, more: bool)
    requires i <= |sys.migrations| && UpFrom(sys, i, skip, a, b, ok, faulty) && (faulty ==> more)
    ensures UpFrom(sys, i, skip, a, b, ok, more)
    decreases |sys.migrations| - i
  {
    if i < |sys.migrations| {
      if sys.migrations[i].version in skip {
        UpFromMore(sys, i + 1, skip, a, b, ok, faulty, more);
      } else if Applied(sys, i, a).Some? && UpFrom(sys, i + 1, skip, Applied(sys, i, a).value, b, ok, faulty) {
        UpFromMore(sys, i + 1, skip, Applied(sys, i, a).value, b, ok, faulty, more);
      }
    }
  }

  lemma UpMore<S>(sys: System<S>, a: Db<S>, b: Db<S>, ok: bool, faulty: bool, more: bool)
    requires Up(sys, a, b, ok, faulty) && (faulty ==> more)
    ensures Up(sys, a, b, ok, more)
  {
    if !(!ok && b == a && faulty) {
      UpFromMore(sys, 0, a.applied, a, b, ok, faulty, more);
    }
  }

  /** Only the greatest version is last. */
  lemma OneLast(applied: set<string>, v: string)
    requires IsLast(applied, v)
    ensures forall w :: IsLast(applied, w) ==> w == v
  {
    forall w | IsLast(applied, w)
      ensures w == v
    {
      LessTotal(v, w);
    }
  }

  lemma {:induction false} LessTotal(a: string, b: string)
    ensures Less(a, b) || Less(b, a) || a == b
    decreases |a|
  {
    if a != "" && b != "" && a[0] == b[0] {
      LessTotal(a[1..], b[1..]);
      assert a == [a[0]] + a[1..] && b == [b[0]] + b[1..];
    }
  }

  // ----- what every run keeps -----

  /** Going down undoes going up. */
  ghost predicate Undoes<S(!new)>(sys: System<S>) {
    forall i, s :: 0 <= i < |sys.migrations| && sys.effect(sys.migrations[i].upSQL, s).Some? ==>
      var t := sys.effect(sys.migrations[i].upSQL, s).value;
      var back := sys.effect(sys.migrations[i].downSQL, t);
      back.Some? ==> back.value == s
  }

  function Versions(ms: seq<Migration>): set<string> {
    set m | m in ms :: m.version
  }

  /** The schema after the first `n` up scripts, in order. */
  function Built<S>(sys: System<S>, base: S, n: nat): Option<S>
    requires n <= |sys.migrations|
  {
    if n == 0 then Some(base)
    else
      var s :- Built(sys, base, n - 1);
      sys.effect(sys.migrations[n - 1].upSQL, s)
  }

  /** The first `n` migrations, and no others, are applied. */
  ghost predicate AtPrefix<S>(sys: System<S>, base: S, db: Db<S>, n: nat) {
    n <= |sys.migrations| && db.applied == Versions(sys.migrations[..n]) && Built(sys, base, n) == Some(db.schema)
  }

  ghost predicate Inv<S>(sys: System<S>, base: S, db: Db<S>) {
    exists n :: AtPrefix(sys, base, db, n)
  }

  lemma VersionsStep(ms: seq<Migration>, n: nat)
    requires n < |ms|
    ensures Versions(ms[..n + 1]) == Versions(ms[..n]) + {ms[n].version}
  {
    assert ms[..n + 1] == ms[..n] + [ms[n]];
  }

  lemma InPrefix(ms: seq<Migration>, n: nat, i: nat)
    requires Sorted(ms) && n <= |ms| && i < |ms|
    ensures ms[i].version in Versions(ms[..n]) <==> i < n
  {
    if i < n {
      assert ms[..n][i] in ms[..n];
    } else if ms[i].version in Versions(ms[..n]) {
      var m :| m in ms[..n] && m.version == ms[i].version;
      var j :| 0 <= j < n && ms[..n][j] == m;
      NotLessItself(m.version);
    }
  }

  /** Up skips the applied prefix, then extends it; without an error it reaches the end. */
  lemma {:induction false} UpFromKeeps<S>(sys: System<S>, base: S, i: nat, k: nat, n: nat, a: Db<S>, b: Db<S>, ok: bool,
                                          faulty: bool)
    requires Sorted(sys.migrations) && k <= |sys.migrations| && i <= |sys.migrations|
    requires AtPrefix(sys, base, a, n) && n == (if i < k then k else i)
    requires UpFrom(sys, i, Versions(sys.migrations[..k]), a, b, ok, faulty)
    ensures Inv(sys, base, b) && (ok ==> AtPrefix(sys, base, b, |sys.migrations|))
    decreases |sys.migrations| - i
  {
    if i < |sys.migrations| {
      InPrefix(sys.migrations, k, i);
      if i < k {
        UpFromKeeps(sys, base, i + 1, k, n, a, b, ok, faulty);
      } else if Applied(sys, i, a).Some? && UpFrom(
          sys, i + 1, Versions(sys.migrations[..k]), Applied(sys, i, a).value, b, ok, faulty) {
        VersionsStep(sys.migrations, i);
        UpFromKeeps(sys, base, i + 1, k, i + 1, Applied(sys, i, a).value, b, ok, faulty);
      }
    }
  }

  lemma UpKeeps<S>(sys: System<S>, base: S, a: Db<S>, b: Db<S>, ok: bool, faulty: bool)
    requires Sorted(sys.migrations) && Inv(sys, base, a) && Up(sys, a, b, ok, faulty)
    ensures Inv(sys, base, b) && (ok ==> AtPrefix(sys, base, b, |sys.migrations|))
  {
    if ok || b != a {
      var n :| AtPrefix(sys, base, a, n);
      UpFromKeeps(sys, base, 0, n, n, a, b, ok, faulty);
    }
  }

  /** The greatest applied version is the last of the prefix. */
  lemma LastOfPrefix(ms: seq<Migration>, n: nat, i: nat)
    requires Sorted(ms) && 0 < n <= |ms| && i < |ms| && IsLast(Versions(ms[..n]), ms[i].version)
    ensures i == n - 1
  {
    InPrefix(ms, n, i);
    InPrefix(ms, n, n - 1);
  }

  lemma NothingApplied(ms: seq<Migration>)
    ensures Versions(ms[..0]) == {}
  {
  }

  lemma RemoveLast(ms: seq<Migration>, n: nat)
    requires Sorted(ms) && n < |ms|
    ensures Versions(ms[..n + 1]) - {ms[n].version} == Versions(ms[..n])
  {
    VersionsStep(ms, n);
    InPrefix(ms, n, n);
  }

  lemma DownFrom<S(!new)>(sys: System<S>, base: S, a: Db<S>, n: nat, i: nat, b: Db<S>)
    requires Sorted(sys.migrations) && Undoes(sys) && i < |sys.migrations|
    requires AtPrefix(sys, base, a, n) && a.applied != {} && IsLast(a.applied, sys.migrations[i].version)
    requires RolledBack(sys, i, a) == Some(b)
    ensures Inv(sys, base, b)
  {
    NothingApplied(sys.migrations);
    LastOfPrefix(sys.migrations, n, i);
    RollBackKeeps(sys, base, a, i, b);
    assert AtPrefix(sys, base, b, i);
  }

  /** Down takes off the last migration of the prefix, schema and bookkeeping both. */
  lemma DownKeeps<S(!new)>(sys: System<S>, base: S, a: Db<S>, b: Db<S>, ok: bool, faulty: bool)
    requires Sorted(sys.migrations) && Undoes(sys) && Inv(sys, base, a) && Down(sys, a, b, ok, faulty)
    ensures Inv(sys, base, b)
  {
    if ok && a.applied != {} {
      var n :| AtPrefix(sys, base, a, n);
      var i :| 0 <= i < |sys.migrations| && IsLast(a.applied, sys.migrations[i].version)
        && RolledBack(sys, i, a) == Some(b);
      DownFrom(sys, base, a, n, i, b);
    }
  }

  lemma RollBackKeeps<S(!new)>(sys: System<S>, base: S, a: Db<S>, i: nat, b: Db<S>)
    requires Sorted(sys.migrations) && Undoes(sys) && i < |sys.migrations|
    requires AtPrefix(sys, base, a, i + 1) && RolledBack(sys, i, a) == Some(b)
    ensures AtPrefix(sys, base, b, i)
  {
    RemoveLast(sys.migrations, i);
    var s := Built(sys, base, i).value;
    assert sys.effect(sys.migrations[i].upSQL, s) == Some(a.schema);
  }

  lemma {:induction false} ResetKeeps<S(!new)>(sys: System<S>, base: S, a: Db<S>, b: Db<S>, ok: bool, faulty: bool)
    requires Sorted(sys.migrations) && Undoes(sys) && Inv(sys, base, a) && Reset(sys, a, b, ok, faulty)
    ensures Inv(sys, base, b) && (ok ==> AtPrefix(sys, base, b, |sys.migrations|))
    decreases |a.applied|
  {
    if ok || b != a {
      if a.applied == {} {
        UpKeeps(sys, base, a, b, ok, faulty);
      } else {
        var mid :|
          Down(sys, a, mid, true, faulty) && |mid.applied| < |a.applied| && Reset(sys, mid, b, ok, faulty);
        DownKeeps(sys, base, a, mid, true, faulty);
        ResetKeeps(sys, base, mid, b, ok, faulty);
      }
    }
  }

  // ----- when they succeed -----

  /** Every script from `n` on exists, and all of them together run. */
  ghost predicate CanBuild<S>(sys: System<S>, base: S, n: nat) {
    && (forall j :: n <= j < |sys.migrations| ==> sys.migrations[j].upSQL != "")
    && Built(sys, base, |sys.migrations|).Some?
  }

  lemma {:induction false} BuiltBefore<S>(sys: System<S>, base: S, n: nat, m: nat)
    requires n <= m <= |sys.migrations| && Built(sys, base, m).Some?
    ensures Built(sys, base, n).Some?
    decreases m - n
  {
    if n < m {
      BuiltBefore(sys, base, n, m - 1);
    }
  }

  lemma {:induction false} UpFromExactly<S>(
    sys: System<S>, base: S, i: nat, k: nat, n: nat, a: Db<S>, b: Db<S>, ok: bool)
    requires Sorted(sys.migrations) && k <= |sys.migrations| && i <= |sys.migrations|
    requires AtPrefix(sys, base, a, n) && n == (if i < k then k else i)
    requires UpFrom(sys, i, Versions(sys.migrations[..k]), a, b, ok, false)
    ensures ok <==> CanBuild(sys, base, n)
    decreases |sys.migrations| - i
  {
    if i < |sys.migrations| {
      InPrefix(sys.migrations, k, i);
      if i < k {
        UpFromExactly(sys, base, i + 1, k, n, a, b, ok);
      } else {
        if Built(sys, base, |sys.migrations|).Some? {
          BuiltBefore(sys, base, i + 1, |sys.migrations|);
        }
        if Applied(sys, i, a).Some? {
          VersionsStep(sys.migrations, i);
          UpFromExactly(sys, base, i + 1, k, i + 1, Applied(sys, i, a).value, b, ok);
        }
      }
    }
  }

  /** If no call to the database fails, Up succeeds exactly when the pending scripts exist and run. */
  lemma UpSucceedsExactly<S>(sys: System<S>, base: S, a: Db<S>, n: nat, b: Db<S>, ok: bool)
    requires Sorted(sys.migrations) && AtPrefix(sys, base, a, n) && Up(sys, a, b, ok, false)
    ensures ok <==> CanBuild(sys, base, n)
  {
    UpFromExactly(sys, base, 0, n, n, a, b, ok);
  }

  lemma PrefixHasLast(ms: seq<Migration>, n: nat)
    requires Sorted(ms) && 0 < n <= |ms|
    ensures IsLast(Versions(ms[..n]), ms[n - 1].version)
  {
    assert ms[..n][n - 1] in ms[..n];
    forall w | w in Versions(ms[..n])
      ensures !Less(ms[n - 1].version, w)
    {
      var m :| m in ms[..n] && m.version == w;
      var j :| 0 <= j < n && ms[..n][j] == m;
      NotLessItself(w);
      if Less(ms[n - 1].version, w) {
        LessTransitive(ms[n - 1].version, w, ms[n - 1].version);
        NotLessItself(ms[n - 1].version);
      }
    }
  }

  /** If no call fails, Down succeeds exactly when the last script down exists and runs. */
  lemma DownSucceedsExactly<S(!new)>(sys: System<S>, base: S, a: Db<S>, n: nat, b: Db<S>, ok: bool)
    requires Sorted(sys.migrations) && AtPrefix(sys, base, a, n) && Down(sys, a, b, ok, false)
    ensures ok <==> n == 0 || RolledBack(sys, n - 1, a).Some?
    ensures ok && n > 0 ==> RolledBack(sys, n - 1, a) == Some(b)
  {
    NothingApplied(sys.migrations);
    if n > 0 {
      PrefixHasLast(sys.migrations, n);
      forall i | 0 <= i < |sys.migrations| && IsLast(a.applied, sys.migrations[i].version)
        ensures i == n - 1
      {
        LastOfPrefix(sys.migrations, n, i);
      }
    }
  }

  /** The script down of migration `i` exists and undoes it. */
  ghost predicate Unwinds<S>(sys: System<S>, base: S, i: nat) {
    && i < |sys.migrations| && sys.migrations[i].downSQL != ""
    && Built(sys, base, i).Some? && Built(sys, base, i + 1).Some?
    && sys.effect(sys.migrations[i].downSQL, Built(sys, base, i + 1).value) == Built(sys, base, i)
  }

  lemma NothingExactly<S>(sys: System<S>, base: S, a: Db<S>, n: nat)
    requires AtPrefix(sys, base, a, n)
    ensures a.applied == {} <==> n == 0
  {
    NothingApplied(sys.migrations);
    if n > 0 {
      assert sys.migrations[..n][0].version in a.applied;
    }
  }

  lemma UnwindStep<S>(sys: System<S>, base: S, a: Db<S>, n: nat)
    requires Sorted(sys.migrations) && n > 0 && AtPrefix(sys, base, a, n) && Unwinds(sys, base, n - 1)
    ensures RolledBack(sys, n - 1, a).Some? && AtPrefix(sys, base, RolledBack(sys, n - 1, a).value, n - 1)
  {
    RemoveLast(sys.migrations, n - 1);
  }

  /** If no call fails, every script down undoes its migration and all scripts up run, Reset succeeds. */
  lemma {:induction false} ResetSucceeds<S(!new)>(sys: System<S>, base: S, a: Db<S>, n: nat, b: Db<S>, ok: bool)
    requires Sorted(sys.migrations) && AtPrefix(sys, base, a, n) && Reset(sys, a, b, ok, false)
    requires CanBuild(sys, base, 0) && forall i: nat :: i < n ==> Unwinds(sys, base, i)
    ensures ok
    decreases n
  {
    NothingExactly(sys, base, a, n);
    if n == 0 {
      UpSucceedsExactly(sys, base, a, 0, b, ok);
    } else {
      var mid := ResetGoesDown(sys, base, a, n, b, ok);
      ResetSucceeds(sys, base, mid, n - 1, b, ok);
    }
  }

  lemma ResetGoesDown<S(!new)>(sys: System<S>, base: S, a: Db<S>, n: nat, b: Db<S>, ok: bool) returns (mid: Db<S>)
    requires Sorted(sys.migrations) && n > 0 && AtPrefix(sys, base, a, n) && Reset(sys, a, b, ok, false)
    requires Unwinds(sys, base, n - 1)
    ensures AtPrefix(sys, base, mid, n - 1) && Reset(sys, mid, b, ok, false)
  {
    NothingExactly(sys, base, a, n);
    UnwindStep(sys, base, a, n);
    if !ok && Down(sys, a, b, false, false) {
      DownSucceedsExactly(sys, base, a, n, b, false);
      assert false;
    }
    mid :| Down(sys, a, mid, true, false) && |mid.applied| < |a.applied| && Reset(sys, mid, b, ok, false);
    DownSucceedsExactly(sys, base, a, n, mid, true);
  }

  datatype Operation = RunUp | RunDown | RunReset

  /** What an operation may do, whatever calls fail. */
  ghost predicate Does<S(!new)>(sys: System<S>, op: Operation, a: Db<S>, b: Db<S>, ok: bool) {
    match op
    case RunUp => Up(sys, a, b, ok, true)
    case RunDown => Down(sys, a, b, ok, true)
    case RunReset => Reset(sys, a, b, ok, true)
  }

  /** States seen when operations are run one after the other, whether they succeed or not. */
  ghost predicate IsRun<S(!new)>(sys: System<S>, ops: seq<Operation>, dbs: seq<Db<S>>) {
    |dbs| == |ops| + 1 && forall i :: 0 <= i < |ops| ==>
      Does(sys, ops[i], dbs[i], dbs[i + 1], true) || Does(sys, ops[i], dbs[i], dbs[i + 1], false)
  }

  /** In any run, with failures anywhere, the applied versions are a prefix of the sorted list and
      the schema is those up scripts applied in order. */
  lemma {:induction false} RunsKeep<S(!new)>(sys: System<S>, base: S, ops: seq<Operation>, dbs: seq<Db<S>>, i: nat)
    requires Sorted(sys.migrations) && Undoes(sys) && IsRun(sys, ops, dbs) && i < |dbs|
    requires dbs[0] == Db(base, {})
    ensures Inv(sys, base, dbs[i])
    decreases i
  {
    if i == 0 {
      assert AtPrefix(sys, base, dbs[0], 0);
    } else {
      RunsKeep(sys, base, ops, dbs, i - 1);
      var ok := Does(sys, ops[i - 1], dbs[i - 1], dbs[i], true);
      match ops[i - 1]
      case RunUp => UpKeeps(sys, base, dbs[i - 1], dbs[i], ok, true);
      case RunDown => DownKeeps(sys, base, dbs[i - 1], dbs[i], ok, true);
      case RunReset => ResetKeeps(sys, base, dbs[i - 1], dbs[i], ok, true);
    }
  }
}
