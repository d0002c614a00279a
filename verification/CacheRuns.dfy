/** Runs of the cache: it never answers anything a plain timed map would not, it answers exactly
    like one when both limits are off, and it evicts in order of last use. */
module CacheRuns {
  import opened Results
  import opened MemoryCache
  import Decimal

  datatype Op =
    | Get(key: string)
    | Set(key: string, value: Bytes, ttl: int)
    | Delete(key: string)
    | Exists(key: string)
    | Bump(key: string, delta: int)
    | Cleanup
    | DeletePattern(matches: string -> bool)
    | Clear

  datatype Reply = Data(value: Option<Bytes>) | Found(b: bool) | Counter(n: Option<int>) | Done

  /** An operation at a time. */
  datatype Event = Event(op: Op, now: int)

  function After(cfg: Config, s: seq<Entry>, e: Event): seq<Entry> {
    match e.op
    case Get(key) => AfterGet(s, key, e.now)
    case Set(key, value, ttl) => AfterSet(cfg, s, key, value, ttl, e.now)
    case Delete(key) => Without(s, key)
    case Exists(_) => s
    case Bump(key, delta) => AfterBump(cfg, s, key, delta, e.now)
    case Cleanup => AfterCleanup(s, e.now)
    case DeletePattern(matches) => AfterDeletePattern(s, matches)
    case Clear => []
  }

  function ReplyTo(s: seq<Entry>, e: Event): Reply {
    match e.op
    case Get(key) => Data(GetResult(s, key, e.now))
    case Exists(key) => Found(ExistsResult(s, key, e.now))
    case Bump(key, delta) => Counter(BumpResult(s, key, delta, e.now))
    case _ => Done
  }

  function Replies(cfg: Config, s: seq<Entry>, run: seq<Event>): seq<Reply>
    decreases |run|
  {
    if run == [] then [] else [ReplyTo(s, run[0])] + Replies(cfg, After(cfg, s, run[0]), run[1..])
  }

  function Final(cfg: Config, s: seq<Entry>, run: seq<Event>): seq<Entry>
    decreases |run|
  {
    if run == [] then s else Final(cfg, After(cfg, s, run[0]), run[1..])
  }

  // ----- the plain timed map -----

  datatype Stored = Stored(value: Bytes, expiresAt: int)

  type Timed = map<string, Stored>

  function TimedReply(m: Timed, e: Event): Reply {
    match e.op
    case Get(key) => Data(if key in m && e.now <= m[key].expiresAt then Some(m[key].value) else None)
    case Exists(key) => Found(key in m && e.now < m[key].expiresAt)
    case Bump(key, delta) =>
      var held := if key in m && e.now < m[key].expiresAt then DecodeCounter(m[key].value) else Some(0);
      Counter(match held case None => None case Some(n) => Some(Wrap(n + delta)))
    case _ => Done
  }

  /** The map after the event whose reply was `reply`: only writes and deletions change it. */
  function Recorded(cfg: Config, m: Timed, e: Event, reply: Reply): Timed {
    match e.op
    case Set(key, value, ttl) => m[key := Stored(value, e.now + (if ttl == 0 then cfg.defaultTTL else ttl))]
    case Bump(key, _) =>
      if reply.Counter? && reply.n.Some?
      then m[key := Stored(Decimal.Print(reply.n.value), e.now + cfg.defaultTTL)] else m
    case Delete(key) => m - {key}
    case DeletePattern(matches) => map k | k in m && !matches(k) :: m[k]
    case Clear => map[]
    case _ => m
  }

  function TimedReplies(cfg: Config, m: Timed, run: seq<Event>): seq<Reply>
    decreases |run|
  {
    if run == [] then []
    else
      var reply := TimedReply(m, run[0]);
      [reply] + TimedReplies(cfg, Recorded(cfg, m, run[0], reply), run[1..])
  }

  // ----- what the list says about a key -----

  function Held(s: seq<Entry>, key: string): Option<Stored> {
    match Find(s, key)
    case None => None
    case Some(e) => Some(Stored(e.value, e.expiresAt))
  }

  lemma {:induction false} FindKeep(s: seq<Entry>, keep: Entry -> bool, key: string)
    requires Distinct(s)
    ensures Find(Keep(s, keep), key)
         == if Find(s, key).Some? && keep(Find(s, key).value) then Find(s, key) else None
    decreases |s|
  {
    if s != [] {
      FindKeep(s[1..], keep, key);
    }
  }

  lemma {:induction false} DistinctKeep(s: seq<Entry>, keep: Entry -> bool)
    requires Distinct(s)
    ensures Distinct(Keep(s, keep))
    decreases |s|
  {
    if s != [] {
      DistinctKeep(s[1..], keep);
      FindKeep(s[1..], keep, s[0].key);
    }
  }

  lemma {:induction false} DistinctWithout(s: seq<Entry>, key: string)
    requires Distinct(s)
    ensures Distinct(Without(s, key))
    decreases |s|
  {
    if s != [] {
      DistinctWithout(s[1..], key);
      FindWithout(s[1..], key, s[0].key);
    }
  }

  lemma {:induction false} FindPrefix(s: seq<Entry>, k: nat, key: string)
    requires k <= |s|
    ensures Find(s[..k], key) == None || Find(s[..k], key) == Find(s, key)
    decreases k
  {
    if k > 0 {
      assert s[..k][1..] == s[1..][..k - 1];
      FindPrefix(s[1..], k - 1, key);
    }
  }

  lemma {:induction false} DistinctPrefix(s: seq<Entry>, k: nat)
    requires k <= |s| && Distinct(s)
    ensures Distinct(s[..k])
    decreases k
  {
    if k > 0 {
      assert s[..k][1..] == s[1..][..k - 1];
      DistinctPrefix(s[1..], k - 1);
      FindPrefix(s[1..], k - 1, s[0].key);
    }
  }

  lemma DistinctPush(s: seq<Entry>, e: Entry)
    requires Distinct(s) && Find(s, e.key).None?
    ensures Distinct([e] + s)
  {
    assert ([e] + s)[1..] == s;
  }

  lemma FindPushed(s: seq<Entry>, e: Entry, key: string)
    ensures Find([e] + s, key) == if key == e.key then Some(e) else Find(s, key)
  {
    assert ([e] + s)[1..] == s;
  }

  /** Every reachable list has distinct keys. */
  lemma DistinctAfter(cfg: Config, s: seq<Entry>, e: Event)
    requires Distinct(s)
    ensures Distinct(After(cfg, s, e))
  {
    match e.op
    case Get(key) =>
      DistinctWithout(s, key);
      FindWithout(s, key, key);
      if Find(s, key).Some? {
        DistinctPush(Without(s, key), Find(s, key).value);
      }
    case Set(key, value, ttl) =>
      var others := Without(s, key);
      DistinctWithout(s, key);
      FindWithout(s, key, key);
      TrimIsPrefix(cfg, others, |value|);
      var k := |Trim(cfg, others, |value|)|;
      DistinctPrefix(others, k);
      FindPrefix(others, k, key);
      DistinctPush(others[..k], NewEntry(cfg, key, value, ttl, e.now));
    case Delete(key) => DistinctWithout(s, key);
    case Exists(_) =>
    case Bump(key, delta) =>
      DistinctWithout(s, key);
      FindWithout(s, key, key);
      var n := BumpResult(s, key, delta, e.now);
      if n.Some? {
        DistinctPush(Without(s, key), NewEntry(cfg, key, Decimal.Print(n.value), 0, e.now));
      }
    case Cleanup => DistinctKeep(s, (x: Entry) => !Expired(x, e.now));
    case DeletePattern(matches) => DistinctKeep(s, (x: Entry) => !matches(x.key));
    case Clear =>
  }

  /** Everything cached is the last thing written under its key. */
  ghost predicate Agrees(s: seq<Entry>, m: Timed) {
    forall key {:trigger Held(s, key)} :: Held(s, key).Some? ==> key in m && m[key] == Held(s, key).value
  }

  /** Nothing unexpired is missing. */
  ghost predicate Complete(s: seq<Entry>, m: Timed, now: int) {
    forall key {:trigger key in m} :: key in m && now <= m[key].expiresAt ==> Held(s, key).Some?
  }

  /** One key of the list after one event, against the map after it. */
  ghost predicate AgreesThere(cfg: Config, s: seq<Entry>, m: Timed, e: Event, key: string) {
    var m' := Recorded(cfg, m, e, ReplyTo(s, e));
    var h := Held(After(cfg, s, e), key);
    h.Some? ==> key in m' && m'[key] == h.value
  }

  lemma AgreesAtSet(cfg: Config, s: seq<Entry>, m: Timed, e: Event, key: string)
    requires Distinct(s) && Agrees(s, m) && e.op.Set?
    ensures AgreesThere(cfg, s, m, e, key)
  {
    var k, value := e.op.key, e.op.value;
    var others := Without(s, k);
    assert Held(s, key).Some? ==> key in m && m[key] == Held(s, key).value;
    FindWithout(s, k, key);
    TrimIsPrefix(cfg, others, |value|);
    FindPrefix(others, |Trim(cfg, others, |value|)|, key);
    FindPushed(Trim(cfg, others, |value|), NewEntry(cfg, k, value, e.op.ttl, e.now), key);
  }

  lemma AgreesAtBump(cfg: Config, s: seq<Entry>, m: Timed, e: Event, key: string)
    requires Distinct(s) && Agrees(s, m) && e.op.Bump?
    ensures AgreesThere(cfg, s, m, e, key)
  {
    var k := e.op.key;
    assert Held(s, key).Some? ==> key in m && m[key] == Held(s, key).value;
    FindWithout(s, k, key);
    var n := BumpResult(s, k, e.op.delta, e.now);
    if n.Some? {
      FindPushed(Without(s, k), NewEntry(cfg, k, Decimal.Print(n.value), 0, e.now), key);
    }
  }

  lemma AgreesAtGet(cfg: Config, s: seq<Entry>, m: Timed, e: Event, key: string)
    requires Distinct(s) && Agrees(s, m) && e.op.Get?
    ensures AgreesThere(cfg, s, m, e, key)
  {
    var k := e.op.key;
    assert Held(s, key).Some? ==> key in m && m[key] == Held(s, key).value;
    FindWithout(s, k, key);
    if Find(s, k).Some? {
      FindPushed(Without(s, k), Find(s, k).value, key);
    }
  }

  lemma AgreesAt(cfg: Config, s: seq<Entry>, m: Timed, e: Event, key: string)
    requires Distinct(s) && Agrees(s, m)
    ensures AgreesThere(cfg, s, m, e, key)
  {
    assert Held(s, key).Some? ==> key in m && m[key] == Held(s, key).value;
    match e.op
    case Get(_) => AgreesAtGet(cfg, s, m, e, key);
    case Set(_, _, _) => AgreesAtSet(cfg, s, m, e, key);
    case Delete(k) => FindWithout(s, k, key);
    case Exists(_) =>
    case Bump(_, _) => AgreesAtBump(cfg, s, m, e, key);
    case Cleanup => FindKeep(s, (x: Entry) => !Expired(x, e.now), key);
    case DeletePattern(matches) => FindKeep(s, (x: Entry) => !matches(x.key), key);
    case Clear =>
  }

  lemma AgreesAfter(cfg: Config, s: seq<Entry>, m: Timed, e: Event)
    requires Distinct(s) && Agrees(s, m)
    ensures Agrees(After(cfg, s, e), Recorded(cfg, m, e, ReplyTo(s, e)))
  {
    forall key | Held(After(cfg, s, e), key).Some?
      ensures var m' := Recorded(cfg, m, e, ReplyTo(s, e)); key in m' && m'[key] == Held(After(cfg, s, e), key).value
    {
      AgreesAt(cfg, s, m, e, key);
    }
  }

  // ----- safety, under any limits -----

  /** Each hit is what the timed map would answer. */
  predicate Allowed(reply: Reply, e: Event, expected: Reply) {
    match e.op
    case Get(_) => reply == Data(None) || reply == expected
    case Exists(_) => reply == Found(false) || reply == expected
    case _ => true
  }

  ghost predicate Sound(cfg: Config, s: seq<Entry>, m: Timed, run: seq<Event>)
    decreases |run|
  {
    run == [] ||
    (Allowed(ReplyTo(s, run[0]), run[0], TimedReply(m, run[0]))
     && Sound(cfg, After(cfg, s, run[0]), Recorded(cfg, m, run[0], ReplyTo(s, run[0])), run[1..]))
  }

  /** Under any limits and any clock, a hit returns the bytes last written to that key, and they
      have not expired. */
  lemma {:induction false} RunsAreSound(cfg: Config, s: seq<Entry>, m: Timed, run: seq<Event>)
    requires Distinct(s) && Agrees(s, m)
    ensures Sound(cfg, s, m, run)
    decreases |run|
  {
    if run != [] {
      var e := run[0];
      assert e.op.Get? || e.op.Exists? ==>
        (Held(s, e.op.key).Some? ==> e.op.key in m && m[e.op.key] == Held(s, e.op.key).value);
      DistinctAfter(cfg, s, e);
      AgreesAfter(cfg, s, m, e);
      RunsAreSound(cfg, After(cfg, s, e), Recorded(cfg, m, e, ReplyTo(s, e)), run[1..]);
    }
  }

  // ----- exactness, limits off -----

  predicate Unlimited(cfg: Config) {
    cfg.maxItems <= 0 && cfg.maxMemory <= 0
  }

  predicate Orderly(run: seq<Event>, from: int) {
    run == [] || (from <= run[0].now && Orderly(run[1..], run[0].now))
  }

  /** One unexpired key of the map after one event is in the list after it. */
  ghost predicate CompleteThere(cfg: Config, s: seq<Entry>, m: Timed, e: Event, key: string) {
    var m' := Recorded(cfg, m, e, ReplyTo(s, e));
    key in m' && e.now <= m'[key].expiresAt ==> Held(After(cfg, s, e), key).Some?
  }

  lemma CompleteAtWrite(cfg: Config, s: seq<Entry>, m: Timed, e: Event, key: string)
    requires Distinct(s) && Complete(s, m, e.now) && Unlimited(cfg) && (e.op.Set? || e.op.Bump?)
    ensures CompleteThere(cfg, s, m, e, key)
  {
    assert key in m && e.now <= m[key].expiresAt ==> Held(s, key).Some?;
    var k := e.op.key;
    FindWithout(s, k, key);
    if e.op.Set? {
      FindPushed(Trim(cfg, Without(s, k), |e.op.value|), NewEntry(cfg, k, e.op.value, e.op.ttl, e.now), key);
    } else {
      var n := BumpResult(s, k, e.op.delta, e.now);
      if n.Some? {
        FindPushed(Without(s, k), NewEntry(cfg, k, Decimal.Print(n.value), 0, e.now), key);
      }
    }
  }

  lemma CompleteAtGet(cfg: Config, s: seq<Entry>, m: Timed, e: Event, key: string)
    requires Distinct(s) && Agrees(s, m) && Complete(s, m, e.now) && e.op.Get?
    ensures CompleteThere(cfg, s, m, e, key)
  {
    assert key in m && e.now <= m[key].expiresAt ==> Held(s, key).Some?;
    assert Held(s, key).Some? ==> key in m && m[key] == Held(s, key).value;
    var k := e.op.key;
    FindWithout(s, k, key);
    if Find(s, k).Some? {
      FindPushed(Without(s, k), Find(s, k).value, key);
    }
  }

  lemma CompleteAt(cfg: Config, s: seq<Entry>, m: Timed, e: Event, key: string)
    requires Distinct(s) && Agrees(s, m) && Complete(s, m, e.now) && Unlimited(cfg)
    ensures CompleteThere(cfg, s, m, e, key)
  {
    assert key in m && e.now <= m[key].expiresAt ==> Held(s, key).Some?;
    assert Held(s, key).Some? ==> key in m && m[key] == Held(s, key).value;
    match e.op
    case Get(_) => CompleteAtGet(cfg, s, m, e, key);
    case Set(_, _, _) => CompleteAtWrite(cfg, s, m, e, key);
    case Delete(k) => FindWithout(s, k, key);
    case Exists(_) =>
    case Bump(_, _) => CompleteAtWrite(cfg, s, m, e, key);
    case Cleanup => FindKeep(s, (x: Entry) => !Expired(x, e.now), key);
    case DeletePattern(matches) => FindKeep(s, (x: Entry) => !matches(x.key), key);
    case Clear =>
  }

  lemma CompleteAfter(cfg: Config, s: seq<Entry>, m: Timed, e: Event)
    requires Distinct(s) && Agrees(s, m) && Complete(s, m, e.now) && Unlimited(cfg)
    ensures Complete(After(cfg, s, e), Recorded(cfg, m, e, ReplyTo(s, e)), e.now)
  {
    var m' := Recorded(cfg, m, e, ReplyTo(s, e));
    forall key | key in m' && e.now <= m'[key].expiresAt
      ensures Held(After(cfg, s, e), key).Some?
    {
      CompleteAt(cfg, s, m, e, key);
    }
  }

  lemma SameReply(s: seq<Entry>, m: Timed, e: Event)
    requires Agrees(s, m) && Complete(s, m, e.now)
    ensures ReplyTo(s, e) == TimedReply(m, e)
  {
    if e.op.Get? || e.op.Exists? || e.op.Bump? {
      var key := e.op.key;
      assert Held(s, key).Some? ==> key in m && m[key] == Held(s, key).value;
      assert key in m && e.now <= m[key].expiresAt ==> Held(s, key).Some?;
    }
  }

  /** With both limits off and a clock that does not go back, every reply of every run is the
      timed map's; cleaning up is invisible. */
  lemma {:induction false} RunsAreExact(cfg: Config, s: seq<Entry>, m: Timed, run: seq<Event>, from: int)
    requires Unlimited(cfg) && Orderly(run, from) && Distinct(s) && Agrees(s, m) && Complete(s, m, from)
    ensures Replies(cfg, s, run) == TimedReplies(cfg, m, run)
    decreases |run|
  {
    if run != [] {
      var e := run[0];
      assert Complete(s, m, e.now);
      SameReply(s, m, e);
      DistinctAfter(cfg, s, e);
      AgreesAfter(cfg, s, m, e);
      CompleteAfter(cfg, s, m, e);
      RunsAreExact(cfg, After(cfg, s, e), Recorded(cfg, m, e, ReplyTo(s, e)), run[1..], e.now);
    }
  }

  // ----- overwriting -----

  lemma {:induction false} SizedKeep(s: seq<Entry>, keep: Entry -> bool)
    requires Sized(s)
    ensures Sized(Keep(s, keep))
    decreases |s|
  {
    if s != [] {
      SizedKeep(s[1..], keep);
    }
  }

  lemma SizedPush(e: Entry, s: seq<Entry>)
    requires e.size == |e.value| && Sized(s)
    ensures Sized([e] + s)
  {
    assert ([e] + s)[1..] == s;
  }

  /** Entries keep the sizes of their values. */
  lemma SizedAfter(cfg: Config, s: seq<Entry>, e: Event)
    requires Distinct(s) && Sized(s)
    ensures Sized(After(cfg, s, e))
  {
    match e.op
    case Get(key) =>
      WithoutKeeps(s, key);
      if Find(s, key).Some? {
        FindSized(s, key);
        SizedPush(Find(s, key).value, Without(s, key));
      }
    case Set(key, value, ttl) =>
      WithoutKeeps(s, key);
      TrimIsPrefix(cfg, Without(s, key), |value|);
      SizedPrefix(Without(s, key), |Trim(cfg, Without(s, key), |value|)|);
      SizedPush(NewEntry(cfg, key, value, ttl, e.now), Trim(cfg, Without(s, key), |value|));
    case Delete(key) => WithoutKeeps(s, key);
    case Exists(_) =>
    case Bump(key, delta) =>
      WithoutKeeps(s, key);
      var n := BumpResult(s, key, delta, e.now);
      if n.Some? {
        SizedPush(NewEntry(cfg, key, Decimal.Print(n.value), 0, e.now), Without(s, key));
      }
    case Cleanup => SizedKeep(s, (x: Entry) => !Expired(x, e.now));
    case DeletePattern(matches) => SizedKeep(s, (x: Entry) => !matches(x.key));
    case Clear =>
  }

  lemma {:induction false} RunsKeepLists(cfg: Config, s: seq<Entry>, run: seq<Event>)
    requires Distinct(s) && Sized(s)
    ensures Distinct(Final(cfg, s, run)) && Sized(Final(cfg, s, run))
    decreases |run|
  {
    if run != [] {
      DistinctAfter(cfg, s, run[0]);
      SizedAfter(cfg, s, run[0]);
      RunsKeepLists(cfg, After(cfg, s, run[0]), run[1..]);
    }
  }

  /** After any run, a Set whose value fits beside the other entries evicts none of them, even if it
      would not fit beside the entry it replaces; they keep their order. */
  lemma FittingSetEvictsNothing(
    cfg: Config, run: seq<Event>, others: seq<Entry>, key: string, value: Bytes, ttl: int, now: int)
    requires IsOthers(others, Final(cfg, [], run), key) && HasRoom(cfg, others, |value|)
    ensures After(cfg, Final(cfg, [], run), Event(Set(key, value, ttl), now))
         == [Entry(key, value, now + (if ttl == 0 then cfg.defaultTTL else ttl), |value|)] + others
  {
    var s := Final(cfg, [], run);
    RunsKeepLists(cfg, [], run);
    WithoutKeeps(s, key);
    WithoutIsOthers(s, key);
    OthersAreOne(s, others, Without(s, key), key);
    assert others[..|others|] == others;
    RoomIsFit(cfg, others, |others|, |value|);
  }

  lemma OthersAreOne(s: seq<Entry>, a: seq<Entry>, b: seq<Entry>, key: string)
    requires Distinct(s) && IsOthers(a, s, key) && IsOthers(b, s, key)
    ensures a == b
  {
    forall i, j | 0 <= i < j < |s|
      ensures s[i].key != s[j].key
    {
      DistinctApart(s, i, j);
    }
  }

  lemma {:induction false} DistinctApart(s: seq<Entry>, i: nat, j: nat)
    requires Distinct(s) && i < j < |s|
    ensures s[i].key != s[j].key
    decreases i
  {
    if i > 0 {
      DistinctApart(s[1..], i - 1, j - 1);
    } else {
      NotFoundAt(s[1..], s[0].key, j - 1);
    }
  }

  lemma {:induction false} NotFoundAt(s: seq<Entry>, key: string, j: nat)
    requires Find(s, key).None? && j < |s|
    ensures s[j].key != key
    decreases j
  {
    if j > 0 {
      NotFoundAt(s[1..], key, j - 1);
    }
  }

  // ----- cleaning up -----

  /** What the list holds of a key at a time: an expired entry is none. */
  function Live(s: seq<Entry>, key: string, now: int): Option<Entry> {
    var e := Find(s, key);
    if e.Some? && Expired(e.value, now) then None else e
  }

  /** The lists differ at most in entries that have expired. */
  ghost predicate SameLive(s: seq<Entry>, t: seq<Entry>, now: int) {
    forall key :: Live(s, key, now) == Live(t, key, now)
  }

  /** Without limits nothing is evicted; nothing but Set evicts. */
  predicate EvictsNothing(cfg: Config, e: Event) {
    Unlimited(cfg) || !e.op.Set?
  }

  lemma LiveAfterGet(s: seq<Entry>, k: string, at: int, now: int, key: string)
    requires now <= at
    ensures Live(AfterGet(s, k, at), key, now)
         == if key == k && Find(s, k).Some? && Expired(Find(s, k).value, at) then None else Live(s, key, now)
  {
    FindWithout(s, k, key);
    if Find(s, k).Some? {
      FindPushed(Without(s, k), Find(s, k).value, key);
    }
  }

  lemma LiveAfterWrite(s: seq<Entry>, e: Entry, now: int, key: string)
    ensures Live([e] + Without(s, e.key), key, now)
         == if key == e.key then (if Expired(e, now) then None else Some(e)) else Live(s, key, now)
  {
    FindWithout(s, e.key, key);
    FindPushed(Without(s, e.key), e, key);
  }

  lemma TrimNothing(cfg: Config, s: seq<Entry>, needed: nat)
    requires Unlimited(cfg)
    ensures Trim(cfg, s, needed) == s
  {
  }

  /** An event that evicts nothing answers the same on both lists. */
  lemma SameLiveReply(s: seq<Entry>, t: seq<Entry>, now: int, e: Event)
    requires SameLive(s, t, now) && now <= e.now
    ensures ReplyTo(s, e) == ReplyTo(t, e)
  {
    if e.op.Get? || e.op.Exists? || e.op.Bump? {
      assert Live(s, e.op.key, now) == Live(t, e.op.key, now);
    }
  }

  lemma SameLiveAt(cfg: Config, s: seq<Entry>, t: seq<Entry>, now: int, e: Event, key: string)
    requires Distinct(s) && Distinct(t) && SameLive(s, t, now) && now <= e.now && EvictsNothing(cfg, e)
    ensures Live(After(cfg, s, e), key, now) == Live(After(cfg, t, e), key, now)
  {
    assert Live(s, key, now) == Live(t, key, now);
    match e.op
    case Get(k) =>
      LiveAfterGet(s, k, e.now, now, key);
      LiveAfterGet(t, k, e.now, now, key);
    case Set(k, value, ttl) =>
      TrimNothing(cfg, Without(s, k), |value|);
      TrimNothing(cfg, Without(t, k), |value|);
      LiveAfterWrite(s, NewEntry(cfg, k, value, ttl, e.now), now, key);
      LiveAfterWrite(t, NewEntry(cfg, k, value, ttl, e.now), now, key);
    case Delete(k) =>
      FindWithout(s, k, key);
      FindWithout(t, k, key);
    case Exists(_) =>
    case Bump(k, delta) => SameLiveBump(cfg, s, t, now, e, key);
    case Cleanup =>
      FindKeep(s, (x: Entry) => !Expired(x, e.now), key);
      FindKeep(t, (x: Entry) => !Expired(x, e.now), key);
    case DeletePattern(matches) =>
      FindKeep(s, (x: Entry) => !matches(x.key), key);
      FindKeep(t, (x: Entry) => !matches(x.key), key);
    case Clear =>
  }

  lemma SameLiveBump(cfg: Config, s: seq<Entry>, t: seq<Entry>, now: int, e: Event, key: string)
    requires SameLive(s, t, now) && now <= e.now && e.op.Bump?
    ensures Live(After(cfg, s, e), key, now) == Live(After(cfg, t, e), key, now)
  {
    assert Live(s, key, now) == Live(t, key, now);
    SameLiveReply(s, t, now, e);
    var n := BumpResult(s, e.op.key, e.op.delta, e.now);
    if n.Some? {
      var entry := NewEntry(cfg, e.op.key, Decimal.Print(n.value), 0, e.now);
      LiveAfterWrite(s, entry, now, key);
      LiveAfterWrite(t, entry, now, key);
    }
  }

  lemma {:induction false} SameLiveRuns(cfg: Config, s: seq<Entry>, t: seq<Entry>, now: int, run: seq<Event>)
    requires Distinct(s) && Distinct(t) && SameLive(s, t, now)
    requires forall e :: e in run ==> now <= e.now && EvictsNothing(cfg, e)
    ensures Replies(cfg, s, run) == Replies(cfg, t, run)
    decreases |run|
  {
    if run != [] {
      var e := run[0];
      assert e in run && forall x :: x in run[1..] ==> x in run;
      SameLiveReply(s, t, now, e);
      DistinctAfter(cfg, s, e);
      DistinctAfter(cfg, t, e);
      forall key
        ensures Live(After(cfg, s, e), key, now) == Live(After(cfg, t, e), key, now)
      {
        SameLiveAt(cfg, s, t, now, e, key);
      }
      SameLiveRuns(cfg, After(cfg, s, e), After(cfg, t, e), now, run[1..]);
    }
  }

  /** Cleaning up now changes no reply of any later run, as long as no Set has to evict: without
      limits in every run, under limits in every run without Set. */
  lemma CleanupInvisible(cfg: Config, s: seq<Entry>, now: int, run: seq<Event>)
    requires Distinct(s) && forall e :: e in run ==> now <= e.now && EvictsNothing(cfg, e)
    ensures Replies(cfg, AfterCleanup(s, now), run) == Replies(cfg, s, run)
  {
    var keep := (x: Entry) => !Expired(x, now);
    DistinctKeep(s, keep);
    forall key
      ensures Live(Keep(s, keep), key, now) == Live(s, key, now)
    {
      FindKeep(s, keep, key);
    }
    SameLiveRuns(cfg, AfterCleanup(s, now), s, now, run);
  }

  lemma CleanedFirst(a: Entry, b: Entry, now: int)
    requires Expired(a, now) && !Expired(b, now)
    ensures AfterCleanup([a, b], now) == [b]
  {
    var keep := (x: Entry) => !Expired(x, now);
    assert [a, b][1..] == [b] && [b][1..] == [];
    assert Keep([b], keep) == [b] + Keep([], keep);
  }

  /** Where a Set has to evict, cleaning up first can spare an entry: an expired one no longer takes
      its room. */
  lemma CleanupSpares(cfg: Config)
    requires cfg.maxItems == 2 && cfg.maxMemory == 0
    ensures var stale, live := Entry("a", "", 0, 0), Entry("b", "", 9, 0);
      var run := [Event(Set("c", "", 1), 5), Event(Get("b"), 5)];
      Replies(cfg, [stale, live], run) == [Done, Data(None)]
      && Replies(cfg, AfterCleanup([stale, live], 5), run) == [Done, Data(Some(""))]
  {
    var stale, live, added := Entry("a", "", 0, 0), Entry("b", "", 9, 0), NewEntry(cfg, "c", "", 1, 5);
    var put, read := Event(Set("c", "", 1), 5), Event(Get("b"), 5);
    assert [put, read][1..] == [read] && [read][1..] == [] && [stale, live][1..] == [live] && [live][1..] == [];
    assert [stale, live][..1] == [stale] && [stale][1..] == [];
    assert Trim(cfg, [stale, live], 0) == Trim(cfg, [stale], 0) == [stale];
    assert Trim(cfg, [live], 0) == [live];
    assert Without([live], "c") == [live] && Without([stale, live], "c") == [stale, live];
    CleanedFirst(stale, live, 5);
    FindPushed([stale], added, "b");
    FindPushed([live], added, "b");
  }

  /** Get and Exists disagree at one instant only: the entry's expiry time. */
  lemma GetAndExists(s: seq<Entry>, key: string, now: int)
    ensures GetResult(s, key, now).Some? != ExistsResult(s, key, now)
       <==> Find(s, key).Some? && now == Find(s, key).value.expiresAt
  {
  }

  // ----- eviction -----

  /** The bounds a Set restores, whatever the counters wrote in between. */
  lemma SetBounds(cfg: Config, s: seq<Entry>, key: string, value: Bytes, ttl: int, now: int)
    ensures var after := AfterSet(cfg, s, key, value, ttl, now);
      && after[0] == NewEntry(cfg, key, value, ttl, now)
      && (cfg.maxItems > 0 ==> |after| <= cfg.maxItems)
      && (cfg.maxMemory > 0 ==> Total(after) <= cfg.maxMemory || (|value| > cfg.maxMemory && |after| == 1))
  {
    var others := Without(s, key);
    TrimIsLongest(cfg, others, |value|);
    var kept := Trim(cfg, others, |value|);
    assert ([NewEntry(cfg, key, value, ttl, now)] + kept)[1..] == kept;
  }

  /** When each key was last used: written, or read with a hit. */
  function Touched(stamps: map<string, nat>, s: seq<Entry>, e: Event, at: nat): map<string, nat> {
    match e.op
    case Get(key) => if GetResult(s, key, e.now).Some? then stamps[key := at] else stamps
    case Set(key, _, _) => stamps[key := at]
    case Bump(key, delta) => if BumpResult(s, key, delta, e.now).Some? then stamps[key := at] else stamps
    case _ => stamps
  }

  /** The list is in order of last use, latest first, all before `at`. */
  predicate ByRecency(s: seq<Entry>, stamps: map<string, nat>, at: nat) {
    s == [] ||
    (s[0].key in stamps && stamps[s[0].key] < at && ByRecency(s[1..], stamps, stamps[s[0].key]))
  }

  lemma {:induction false} RecencyLater(s: seq<Entry>, stamps: map<string, nat>, at: nat, later: nat)
    requires ByRecency(s, stamps, at) && at <= later
    ensures ByRecency(s, stamps, later)
  {
  }

  lemma {:induction false} RecencyWithout(s: seq<Entry>, stamps: map<string, nat>, at: nat, key: string)
    requires ByRecency(s, stamps, at)
    ensures ByRecency(Without(s, key), stamps, at)
    decreases |s|
  {
    if s != [] {
      RecencyWithout(s[1..], stamps, stamps[s[0].key], key);
      RecencyLater(Without(s[1..], key), stamps, stamps[s[0].key], at);
    }
  }

  lemma {:induction false} RecencyKeep(s: seq<Entry>, stamps: map<string, nat>, at: nat, keep: Entry -> bool)
    requires ByRecency(s, stamps, at)
    ensures ByRecency(Keep(s, keep), stamps, at)
    decreases |s|
  {
    if s != [] {
      RecencyKeep(s[1..], stamps, stamps[s[0].key], keep);
      RecencyLater(Keep(s[1..], keep), stamps, stamps[s[0].key], at);
    }
  }

  lemma {:induction false} RecencyPrefix(s: seq<Entry>, stamps: map<string, nat>, at: nat, k: nat)
    requires ByRecency(s, stamps, at) && k <= |s|
    ensures ByRecency(s[..k], stamps, at)
    decreases k
  {
    if k > 0 {
      assert s[..k][1..] == s[1..][..k - 1];
      RecencyPrefix(s[1..], stamps, stamps[s[0].key], k - 1);
    }
  }

  /** A stamp given to a key the list does not hold changes nothing in it. */
  lemma {:induction false} RecencyOthers(s: seq<Entry>, stamps: map<string, nat>, at: nat, key: string, stamp: nat)
    requires ByRecency(s, stamps, at) && Find(s, key).None?
    ensures ByRecency(s, stamps[key := stamp], at)
    decreases |s|
  {
    if s != [] {
      RecencyOthers(s[1..], stamps, stamps[s[0].key], key, stamp);
    }
  }

  lemma RecencyPush(s: seq<Entry>, stamps: map<string, nat>, at: nat, e: Entry)
    requires ByRecency(s, stamps, at) && Find(s, e.key).None?
    ensures ByRecency([e] + s, stamps[e.key := at], at + 1)
  {
    RecencyOthers(s, stamps, at, e.key, at);
    assert ([e] + s)[1..] == s;
  }

  lemma RecencyAfter(cfg: Config, s: seq<Entry>, stamps: map<string, nat>, e: Event, at: nat)
    requires ByRecency(s, stamps, at)
    ensures ByRecency(After(cfg, s, e), Touched(stamps, s, e, at), at + 1)
  {
    RecencyLater(s, stamps, at, at + 1);
    match e.op
    case Get(key) =>
      RecencyWithout(s, stamps, at, key);
      RecencyLater(Without(s, key), stamps, at, at + 1);
      FindWithout(s, key, key);
      if GetResult(s, key, e.now).Some? {
        RecencyPush(Without(s, key), stamps, at, Find(s, key).value);
      }
    case Set(key, value, ttl) =>
      var others := Without(s, key);
      RecencyWithout(s, stamps, at, key);
      FindWithout(s, key, key);
      TrimIsPrefix(cfg, others, |value|);
      var k := |Trim(cfg, others, |value|)|;
      RecencyPrefix(others, stamps, at, k);
      FindPrefix(others, k, key);
      RecencyPush(others[..k], stamps, at, NewEntry(cfg, key, value, ttl, e.now));
    case Delete(key) => RecencyWithout(s, stamps, at + 1, key);
    case Exists(_) =>
    case Bump(key, delta) =>
      RecencyWithout(s, stamps, at, key);
      FindWithout(s, key, key);
      var n := BumpResult(s, key, delta, e.now);
      if n.Some? {
        RecencyPush(Without(s, key), stamps, at, NewEntry(cfg, key, Decimal.Print(n.value), 0, e.now));
      }
    case Cleanup => RecencyKeep(s, stamps, at + 1, (x: Entry) => !Expired(x, e.now));
    case DeletePattern(matches) => RecencyKeep(s, stamps, at + 1, (x: Entry) => !matches(x.key));
    case Clear =>
  }

  function Stamps(cfg: Config, s: seq<Entry>, stamps: map<string, nat>, run: seq<Event>, at: nat): map<string, nat>
    decreases |run|
  {
    if run == [] then stamps
    else Stamps(cfg, After(cfg, s, run[0]), Touched(stamps, s, run[0], at), run[1..], at + 1)
  }

  /** After any run the list is in order of last use, so eviction from the back takes the least
      recently used entry. */
  lemma {:induction false} RunsKeepRecency(
    cfg: Config, s: seq<Entry>, stamps: map<string, nat>, run: seq<Event>, at: nat)
    requires ByRecency(s, stamps, at)
    ensures ByRecency(Final(cfg, s, run), Stamps(cfg, s, stamps, run, at), at + |run|)
    decreases |run|
  {
    if run != [] {
      RecencyAfter(cfg, s, stamps, run[0], at);
      RunsKeepRecency(cfg, After(cfg, s, run[0]), Touched(stamps, s, run[0], at), run[1..], at + 1);
    }
  }

  // ----- counters -----

  lemma DecodePrinted(n: int)
    requires Decimal.InInt64(n)
    ensures DecodeCounter(Decimal.Print(n)) == Some(n)
  {
    var s := Decimal.Print(n);
    assert !IsSpace(s[0]) && !IsSpace(s[|s| - 1]);
    assert TrimLeft(s) == s && TrimRight(s) == s;
    Decimal.ReadPrinted(n);
    if n < 0 {
      assert s[1..] == Decimal.PrintNat(-n);
      Decimal.ReadPrintedNat(-n);
    } else {
      Decimal.ReadPrintedNat(n);
    }
  }

  predicate Blank(s: string) {
    forall c :: c in s ==> c in " \t\r\n"
  }

  /** The numeral of a 64-bit integer, minus zero, or null for zero. */
  predicate IsCounter(w: string, n: int) {
    (Decimal.InInt64(n) && w == Decimal.Print(n)) || (n == 0 && (w == "-0" || w == "null"))
  }

  lemma {:induction false} TrimLeftIs(s: string) returns (left: string)
    ensures s == left + TrimLeft(s) && Blank(left)
    ensures TrimLeft(s) != "" ==> !IsSpace(TrimLeft(s)[0])
    decreases |s|
  {
    if s != "" && IsSpace(s[0]) {
      var more := TrimLeftIs(s[1..]);
      left := [s[0]] + more;
    } else {
      left := "";
    }
  }

  lemma {:induction false} TrimRightIs(s: string) returns (right: string)
    ensures s == TrimRight(s) + right && Blank(right)
    ensures TrimRight(s) != "" ==> !IsSpace(TrimRight(s)[|TrimRight(s)| - 1]) && TrimRight(s)[0] == s[0]
    decreases |s|
  {
    if s != "" && IsSpace(s[|s| - 1]) {
      var more := TrimRightIs(s[..|s| - 1]);
      right := more + [s[|s| - 1]];
    } else {
      right := "";
    }
  }

  lemma {:induction false} TrimLeftDrops(left: string, s: string)
    requires Blank(left) && s != "" && !IsSpace(s[0])
    ensures TrimLeft(left + s) == s
    decreases |left|
  {
    if left == "" {
      assert left + s == s;
    } else {
      assert left[0] in left && (left + s)[1..] == left[1..] + s;
      TrimLeftDrops(left[1..], s);
    }
  }

  lemma {:induction false} TrimRightDrops(s: string, right: string)
    requires Blank(right) && s != "" && !IsSpace(s[|s| - 1])
    ensures TrimRight(s + right) == s
    decreases |right|
  {
    if right == "" {
      assert s + right == s;
    } else {
      var all := s + right;
      assert right[|right| - 1] in right && all[..|all| - 1] == s + right[..|right| - 1];
      TrimRightDrops(s, right[..|right| - 1]);
    }
  }

  /** The counter in a text without whitespace around it. */
  function DecodeWord(w: string): Option<int> {
    if w == "null" then Some(0) else
    var digits := if w != "" && w[0] == '-' then w[1..] else w;
    if !Decimal.AllDigits(digits) || (|digits| > 1 && digits[0] == '0') then None else Decimal.ParseInt64(w)
  }

  lemma DigitsDecode(w: string)
    requires Decimal.AllDigits(w) && (|w| > 1 ==> w[0] != '0')
    ensures w == Decimal.PrintNat(Decimal.ReadNat(w))
    ensures Decimal.ParseInt64(w) == if Decimal.InInt64(Decimal.ReadNat(w)) then Some(Decimal.ReadNat(w)) else None
    ensures Decimal.ParseInt64("-" + w)
         == if Decimal.InInt64(-(Decimal.ReadNat(w) as int)) then Some(-(Decimal.ReadNat(w) as int)) else None
  {
    Decimal.PrintRead(w);
    Decimal.ParseUnsigned(w);
    Decimal.ParseNegative(w);
  }

  lemma WordDecodes(w: string, n: int)
    requires DecodeWord(w) == Some(n)
    ensures IsCounter(w, n)
  {
    if w != "null" {
      if w[0] == '-' {
        DigitsDecode(w[1..]);
        assert w == "-" + w[1..];
      } else {
        DigitsDecode(w);
      }
    }
  }

  lemma CounterDecodes(w: string, n: int)
    requires IsCounter(w, n)
    ensures DecodeWord(w) == Some(n) && w != "" && !IsSpace(w[0]) && !IsSpace(w[|w| - 1])
  {
    if w == Decimal.Print(n) {
      Decimal.ReadPrinted(n);
      if n < 0 {
        assert w[1..] == Decimal.PrintNat(-n);
      }
    } else if w == "-0" {
      DigitsDecode("0");
      assert "-" + "0" == "-0" && "-0"[1..] == "0";
    }
  }

  /** Nothing but whitespace stands around the word. */
  ghost predicate Surrounds(value: Bytes, w: string) {
    exists left, right :: value == left + w + right && Blank(left) && Blank(right)
  }

  lemma TrimmedIsSurrounded(value: Bytes)
    ensures Surrounds(value, TrimRight(TrimLeft(value)))
  {
    var left := TrimLeftIs(value);
    var right := TrimRightIs(TrimLeft(value));
    assert value == left + TrimRight(TrimLeft(value)) + right;
  }

  lemma SurroundedIsTrimmed(value: Bytes, w: string)
    requires Surrounds(value, w) && w != "" && !IsSpace(w[0]) && !IsSpace(w[|w| - 1])
    ensures TrimRight(TrimLeft(value)) == w
  {
    var left, right :| value == left + w + right && Blank(left) && Blank(right);
    assert value == left + (w + right) && (w + right)[0] == w[0];
    TrimLeftDrops(left, w + right);
    TrimRightDrops(w, right);
  }

  lemma DecodeIsWord(value: Bytes)
    ensures DecodeCounter(value) == DecodeWord(TrimRight(TrimLeft(value)))
  {
  }

  /** A value is a counter exactly if it is one of these words with nothing but whitespace around it. */
  lemma DecodesExactly(value: Bytes, n: int)
    ensures DecodeCounter(value) == Some(n) <==> exists w :: Surrounds(value, w) && IsCounter(w, n)
  {
    DecodeIsWord(value);
    if DecodeCounter(value) == Some(n) {
      TrimmedIsSurrounded(value);
      WordDecodes(TrimRight(TrimLeft(value)), n);
    }
    if w :| Surrounds(value, w) && IsCounter(w, n) {
      CounterDecodes(w, n);
      SurroundedIsTrimmed(value, w);
    }
  }

  /** A counter bumped again before it expires goes on from the value it returned. */
  lemma BumpAgain(cfg: Config, s: seq<Entry>, key: string, delta: int, now: int, delta': int, later: int)
    requires BumpResult(s, key, delta, now).Some? && later < now + cfg.defaultTTL
    ensures BumpResult(AfterBump(cfg, s, key, delta, now), key, delta', later)
         == Some(Wrap(BumpResult(s, key, delta, now).value + delta'))
  {
    var n := BumpResult(s, key, delta, now).value;
    var e := NewEntry(cfg, key, Decimal.Print(n), 0, now);
    DecodePrinted(n);
    FindPushed(Without(s, key), e, key);
    BumpOf([e] + Without(s, key), e, delta', later, n);
  }

  lemma BumpOf(s: seq<Entry>, e: Entry, delta: int, now: int, n: int)
    requires Find(s, e.key) == Some(e) && now < e.expiresAt && DecodeCounter(e.value) == Some(n)
    ensures BumpResult(s, e.key, delta, now) == Some(Wrap(n + delta))
  {
  }
}
