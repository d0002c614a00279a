/** The in-memory LRU cache (internal/cache/memory.go). The recency list, front first, determines
    the whole state; each operation is a function of that list, and the class keeps the key map
    and the byte counter in step with it. */
module MemoryCache {
  import opened Results
  import Decimal

  /** Byte strings; a character stands for a byte. */
  type Bytes = string

  datatype Entry = Entry(key: string, value: Bytes, expiresAt: int, size: nat)

  datatype Config = Config(maxItems: int, maxMemory: int, defaultTTL: int)

  const FIVE_MINUTES: int := 300_000_000_000

  // ----- the recency list -----

  function Find(s: seq<Entry>, key: string): (r: Option<Entry>)
    ensures r.Some? ==> r.value in s && r.value.key == key
  {
    if s == [] then None else if s[0].key == key then Some(s[0]) else Find(s[1..], key)
  }

  function Without(s: seq<Entry>, key: string): (r: seq<Entry>)
    ensures |r| <= |s|
  {
    if s == [] then []
    else if s[0].key == key then Without(s[1..], key)
    else [s[0]] + Without(s[1..], key)
  }

  function Keep(s: seq<Entry>, keep: Entry -> bool): seq<Entry> {
    if s == [] then []
    else if keep(s[0]) then [s[0]] + Keep(s[1..], keep)
    else Keep(s[1..], keep)
  }

  function Total(s: seq<Entry>): nat {
    if s == [] then 0 else s[0].size + Total(s[1..])
  }

  /** Every key occurs once. */
  predicate Distinct(s: seq<Entry>) {
    s == [] || (Find(s[1..], s[0].key).None? && Distinct(s[1..]))
  }

  predicate Sized(s: seq<Entry>) {
    s == [] || (s[0].size == |s[0].value| && Sized(s[1..]))
  }

  /** The map from keys to list elements that goes with the list. */
  function Index(s: seq<Entry>): map<string, Entry> {
    if s == [] then map[] else Index(s[1..])[s[0].key := s[0]]
  }

  // ----- operations on the list -----

  /** Is there room for `needed` more bytes and one more item? A limit of zero or less is off. */
  predicate Fits(cfg: Config, s: seq<Entry>, needed: nat) {
    FitsMemory(cfg, s, needed) && FitsItems(cfg, s)
  }

  predicate FitsMemory(cfg: Config, s: seq<Entry>, needed: nat) {
    cfg.maxMemory > 0 ==> Total(s) + needed <= cfg.maxMemory
  }

  predicate FitsItems(cfg: Config, s: seq<Entry>) {
    cfg.maxItems > 0 ==> |s| < cfg.maxItems
  }

  function Trim(cfg: Config, s: seq<Entry>, needed: nat): seq<Entry> {
    if s == [] || Fits(cfg, s, needed) then s else Trim(cfg, s[..|s| - 1], needed)
  }

  predicate Expired(e: Entry, now: int) {
    now > e.expiresAt
  }

  function GetResult(s: seq<Entry>, key: string, now: int): Option<Bytes> {
    match Find(s, key)
    case None => None
    case Some(e) => if Expired(e, now) then None else Some(e.value)
  }

  /** A hit moves to the front, an expired entry is dropped. */
  function AfterGet(s: seq<Entry>, key: string, now: int): seq<Entry> {
    match Find(s, key)
    case None => s
    case Some(e) => if Expired(e, now) then Without(s, key) else [e] + Without(s, key)
  }

  function NewEntry(cfg: Config, key: string, value: Bytes, ttl: int, now: int): Entry {
    Entry(key, value, now + (if ttl == 0 then cfg.defaultTTL else ttl), |value|)
  }

  function AfterSet(cfg: Config, s: seq<Entry>, key: string, value: Bytes, ttl: int, now: int): seq<Entry> {
    [NewEntry(cfg, key, value, ttl, now)] + Trim(cfg, Without(s, key), |value|)
  }

  /** Exists uses a strict comparison: at the expiry instant it already says no. */
  predicate ExistsResult(s: seq<Entry>, key: string, now: int) {
    var e := Find(s, key);
    e.Some? && now < e.value.expiresAt
  }

  function AfterCleanup(s: seq<Entry>, now: int): seq<Entry> {
    Keep(s, (e: Entry) => !Expired(e, now))
  }

  function AfterDeletePattern(s: seq<Entry>, matches: string -> bool): seq<Entry> {
    Keep(s, (e: Entry) => !matches(e.key))
  }

  // ----- counters -----

  predicate IsSpace(c: char) {
    c in {' ', '\t', '\r', '\n'}
  }

  function TrimLeft(s: string): string {
    if s != "" && IsSpace(s[0]) then TrimLeft(s[1..]) else s
  }

  function TrimRight(s: string): string {
    if s != "" && IsSpace(s[|s| - 1]) then TrimRight(s[..|s| - 1]) else s
  }

  /** JSON decoding into a 64-bit integer: null leaves the counter at zero; a number has no
      leading zeros, fraction or exponent. */
  function DecodeCounter(value: Bytes): Option<int> {
    var s := TrimRight(TrimLeft(value));
    if s == "null" then Some(0) else
    var digits := if s != "" && s[0] == '-' then s[1..] else s;
    if !Decimal.AllDigits(digits) || (|digits| > 1 && digits[0] == '0') then None
    else Decimal.ParseInt64(s)
  }

  /** 64-bit wrap-around: the number's one representative among the 64-bit integers. */
  function Wrap(n: int): (r: int)
    ensures Decimal.InInt64(r) && (r - n) % 0x1_0000_0000_0000_0000 == 0
  {
    (n + 0x8000_0000_0000_0000) % 0x1_0000_0000_0000_0000 - 0x8000_0000_0000_0000
  }

  /** The counter a key holds; a missing or expired one is zero, a non-number an error. */
  function CounterValue(s: seq<Entry>, key: string, now: int): Option<int> {
    match Find(s, key)
    case None => Some(0)
    case Some(e) => if now < e.expiresAt then DecodeCounter(e.value) else Some(0)
  }

  function BumpResult(s: seq<Entry>, key: string, delta: int, now: int): Option<int> {
    match CounterValue(s, key, now)
    case None => None
    case Some(n) => Some(Wrap(n + delta))
  }

  /** Counters are written at the front and never evict. */
  function AfterBump(cfg: Config, s: seq<Entry>, key: string, delta: int, now: int): seq<Entry> {
    match BumpResult(s, key, delta, now)
    case None => s
    case Some(n) => [NewEntry(cfg, key, Decimal.Print(n), 0, now)] + Without(s, key)
  }

  // ----- facts about the list -----

  lemma {:induction false} FindWithout(s: seq<Entry>, key: string, other: string)
    ensures Find(Without(s, key), other) == if other == key then None else Find(s, other)
    decreases |s|
  {
    if s != [] {
      FindWithout(s[1..], key, other);
    }
  }

  lemma {:induction false} NotFound(s: seq<Entry>, key: string)
    requires Find(s, key) == None
    ensures Without(s, key) == s
    decreases |s|
  {
    if s != [] {
      NotFound(s[1..], key);
    }
  }

  lemma {:induction false} WithoutKeeps(s: seq<Entry>, key: string)
    requires Distinct(s) && Sized(s)
    ensures Distinct(Without(s, key)) && Sized(Without(s, key))
    ensures Total(Without(s, key)) == Total(s) - (match Find(s, key) case None => 0 case Some(e) => e.size)
    decreases |s|
  {
    if s != [] {
      WithoutKeeps(s[1..], key);
      if s[0].key == key {
        NotFound(s[1..], key);
      } else {
        FindWithout(s[1..], key, s[0].key);
      }
    }
  }

  lemma {:induction false} FindSized(s: seq<Entry>, key: string)
    requires Sized(s) && Find(s, key).Some?
    ensures Find(s, key).value.size == |Find(s, key).value.value|
    decreases |s|
  {
    if s[0].key != key {
      FindSized(s[1..], key);
    }
  }

  lemma {:induction false} IndexFinds(s: seq<Entry>, key: string)
    ensures key in Index(s) <==> Find(s, key).Some?
    ensures key in Index(s) ==> Find(s, key) == Some(Index(s)[key])
    decreases |s|
  {
    if s != [] {
      IndexFinds(s[1..], key);
    }
  }

  lemma {:induction false} IndexWithout(s: seq<Entry>, key: string)
    ensures Index(Without(s, key)) == Index(s) - {key}
    decreases |s|
  {
    if s != [] {
      IndexWithout(s[1..], key);
    }
  }

  lemma {:induction false} TotalAppend(s: seq<Entry>, t: seq<Entry>)
    ensures Total(s + t) == Total(s) + Total(t)
    decreases |s|
  {
    if s == [] {
      assert s + t == t;
    } else {
      assert (s + t)[1..] == s[1..] + t;
      TotalAppend(s[1..], t);
    }
  }

  /** Dropping the last entry of a list with distinct keys is removing its key. */
  lemma {:induction false} WithoutLast(s: seq<Entry>)
    requires s != [] && Distinct(s)
    ensures Without(s, s[|s| - 1].key) == s[..|s| - 1]
    ensures Find(s, s[|s| - 1].key).Some?
    decreases |s|
  {
    if |s| > 1 {
      WithoutLast(s[1..]);
      assert s[1..][..|s| - 2] == s[1..|s| - 1];
      assert s[..|s| - 1] == [s[0]] + s[1..|s| - 1];
    }
  }

  /** The entries whose keys are not in `gone`. */
  function Omit(s: seq<Entry>, gone: set<string>): seq<Entry> {
    if s == [] then []
    else if s[0].key in gone then Omit(s[1..], gone)
    else [s[0]] + Omit(s[1..], gone)
  }

  lemma {:induction false} OmitOneMore(s: seq<Entry>, gone: set<string>, key: string)
    ensures Without(Omit(s, gone), key) == Omit(s, gone + {key})
    decreases |s|
  {
    if s != [] {
      OmitOneMore(s[1..], gone, key);
    }
  }

  lemma {:induction false} OmitNone(s: seq<Entry>)
    ensures Omit(s, {}) == s
    decreases |s|
  {
    if s != [] {
      OmitNone(s[1..]);
    }
  }

  lemma {:induction false} OmitIsKeep(s: seq<Entry>, gone: set<string>, keep: Entry -> bool)
    requires forall i :: 0 <= i < |s| ==> (keep(s[i]) <==> s[i].key !in gone)
    ensures Omit(s, gone) == Keep(s, keep)
    decreases |s|
  {
    if s != [] {
      OmitIsKeep(s[1..], gone, keep);
    }
  }

  // ----- what a Set leaves, in the cache's own terms -----

  /** The bytes of the values. */
  function ValueBytes(s: seq<Entry>): nat {
    if s == [] then 0 else |s[0].value| + ValueBytes(s[1..])
  }

  /** One more item with `needed` bytes stays within both limits. */
  predicate HasRoom(cfg: Config, kept: seq<Entry>, needed: nat) {
    (cfg.maxMemory > 0 ==> ValueBytes(kept) + needed <= cfg.maxMemory)
      && (cfg.maxItems > 0 ==> |kept| + 1 <= cfg.maxItems)
  }

  /** The list without the key's entry, if it has one. */
  ghost predicate IsOthers(others: seq<Entry>, s: seq<Entry>, key: string) {
    || (others == s && forall i :: 0 <= i < |s| ==> s[i].key != key)
    || (exists i :: 0 <= i < |s| && s[i].key == key && others == s[..i] + s[i + 1..])
  }

  /** The longest prefix of a list that leaves room, or nothing. */
  predicate IsLongest(cfg: Config, others: seq<Entry>, k: nat, needed: nat) {
    && k <= |others| && (k == 0 || HasRoom(cfg, others[..k], needed))
    && forall j {:trigger others[..j]} :: k < j <= |others| ==> !HasRoom(cfg, others[..j], needed)
  }

  /** Behind the new entry stands the longest most recently used part of the others with room. */
  ghost predicate SetLeaves(
    cfg: Config, s: seq<Entry>, after: seq<Entry>, key: string, value: Bytes, ttl: int, now: int)
  {
    exists others, k ::
      IsOthers(others, s, key) && IsLongest(cfg, others, k, |value|)
      && after == [Entry(key, value, now + (if ttl == 0 then cfg.defaultTTL else ttl), |value|)] + others[..k]
  }

  lemma {:induction false} BytesAreTotal(s: seq<Entry>)
    requires Sized(s)
    ensures ValueBytes(s) == Total(s)
    decreases |s|
  {
    if s != [] {
      BytesAreTotal(s[1..]);
    }
  }

  lemma {:induction false} SizedPrefix(s: seq<Entry>, k: nat)
    requires Sized(s) && k <= |s|
    ensures Sized(s[..k])
    decreases k
  {
    if k > 0 {
      SizedPrefix(s[1..], k - 1);
      assert s[..k][1..] == s[1..][..k - 1];
    }
  }

  lemma RoomIsFit(cfg: Config, s: seq<Entry>, k: nat, needed: nat)
    requires Sized(s) && k <= |s|
    ensures HasRoom(cfg, s[..k], needed) <==> Fits(cfg, s[..k], needed)
  {
    SizedPrefix(s, k);
    BytesAreTotal(s[..k]);
  }

  /** After trimming the survivors are the longest most recently used part that fits, or none. */
  lemma {:induction false} TrimIsLongest(cfg: Config, s: seq<Entry>, needed: nat)
    ensures var k := |Trim(cfg, s, needed)|;
      k <= |s| && Trim(cfg, s, needed) == s[..k]
      && (k == 0 || Fits(cfg, s[..k], needed))
      && forall j {:trigger s[..j]} :: k < j <= |s| ==> !Fits(cfg, s[..j], needed)
    decreases |s|
  {
    assert s[..|s|] == s;
    if s != [] && !Fits(cfg, s, needed) {
      var t := s[..|s| - 1];
      TrimIsLongest(cfg, t, needed);
      forall j | |Trim(cfg, t, needed)| < j <= |s|
        ensures !Fits(cfg, s[..j], needed)
      {
        if j < |s| {
          assert s[..j] == t[..j];
        }
      }
      assert t[..|Trim(cfg, t, needed)|] == s[..|Trim(cfg, t, needed)|];
    }
  }

  lemma TrimLeavesLongest(cfg: Config, s: seq<Entry>, needed: nat)
    requires Sized(s)
    ensures var k := |Trim(cfg, s, needed)|; IsLongest(cfg, s, k, needed) && Trim(cfg, s, needed) == s[..k]
  {
    TrimIsLongest(cfg, s, needed);
    var k := |Trim(cfg, s, needed)|;
    RoomIsFit(cfg, s, k, needed);
    forall j | k < j <= |s|
      ensures !HasRoom(cfg, s[..j], needed)
    {
      RoomIsFit(cfg, s, j, needed);
    }
  }

  lemma {:induction false} WithoutIsOthers(s: seq<Entry>, key: string)
    requires Distinct(s)
    ensures IsOthers(Without(s, key), s, key)
    decreases |s|
  {
    if s != [] {
      if s[0].key == key {
        NotFound(s[1..], key);
        OthersHead(s, key);
      } else {
        WithoutIsOthers(s[1..], key);
        OthersPush(s[0], s[1..], Without(s[1..], key), key);
        assert s == [s[0]] + s[1..];
      }
    }
  }

  lemma OthersHead(s: seq<Entry>, key: string)
    requires s != [] && s[0].key == key
    ensures IsOthers(s[1..], s, key)
  {
    assert s[1..] == s[..0] + s[0 + 1..];
  }

  lemma OthersPush(e: Entry, s: seq<Entry>, others: seq<Entry>, key: string)
    requires e.key != key && IsOthers(others, s, key)
    ensures IsOthers([e] + others, [e] + s, key)
  {
    if i :| 0 <= i < |s| && s[i].key == key && others == s[..i] + s[i + 1..] {
      var longer := [e] + s;
      assert longer[i + 1].key == key && [e] + others == longer[..i + 1] + longer[i + 2..];
    }
  }

  /** A Set removes the key's old entry before it makes room for the new one. */
  lemma SetIsLongest(cfg: Config, s: seq<Entry>, key: string, value: Bytes, ttl: int, now: int)
    requires Distinct(s) && Sized(s)
    ensures SetLeaves(cfg, s, AfterSet(cfg, s, key, value, ttl, now), key, value, ttl, now)
  {
    var others := Without(s, key);
    WithoutKeeps(s, key);
    WithoutIsOthers(s, key);
    TrimLeavesLongest(cfg, others, |value|);
  }

  // ----- map, list and byte counter in step -----

  /** Map and list hold the same entries, each key once; the counter is their total size. */
  predicate Coherent(items: map<string, Entry>, lru: seq<Entry>, mem: int) {
    Distinct(lru) && Sized(lru) && items == Index(lru) && mem == Total(lru)
  }

  lemma Pushed(items: map<string, Entry>, lru: seq<Entry>, mem: int, e: Entry)
    requires Coherent(items, lru, mem) && e.key !in items && e.size == |e.value|
    ensures Coherent(items[e.key := e], [e] + lru, mem + e.size)
  {
    IndexFinds(lru, e.key);
    assert ([e] + lru)[1..] == lru;
  }

  lemma Removed(items: map<string, Entry>, lru: seq<Entry>, mem: int, key: string)
    requires Coherent(items, lru, mem)
    ensures Find(lru, key) == if key in items then Some(items[key]) else None
    ensures Coherent(items - {key}, Without(lru, key), if key in items then mem - items[key].size else mem)
    ensures key !in items ==> Without(lru, key) == lru && items - {key} == items
    ensures key in items ==> items[key].size == |items[key].value|
  {
    IndexFinds(lru, key);
    if key in items {
      FindSized(lru, key);
    }
    WithoutKeeps(lru, key);
    IndexWithout(lru, key);
    if key !in items {
      NotFound(lru, key);
    }
  }

  /** In the cache's own terms: list elements and map entries correspond one to one. */
  lemma {:induction false} Bijection(items: map<string, Entry>, lru: seq<Entry>, mem: int)
    requires Coherent(items, lru, mem)
    ensures |items| == |lru|
    ensures forall k :: k in items ==> items[k].key == k && items[k] in lru
    ensures forall i :: 0 <= i < |lru| ==>
        lru[i].key in items && items[lru[i].key] == lru[i] && lru[i].size == |lru[i].value|
    decreases |lru|
  {
    if lru != [] {
      IndexFinds(lru[1..], lru[0].key);
      Bijection(Index(lru[1..]), lru[1..], Total(lru[1..]));
      assert items.Keys == Index(lru[1..]).Keys + {lru[0].key};
      forall i | 0 <= i < |lru|
        ensures lru[i].key in items && items[lru[i].key] == lru[i] && lru[i].size == |lru[i].value|
      {
        if i > 0 {
          assert lru[i] == lru[1..][i - 1];
        }
      }
    }
  }

  // ----- the cache object -----

  class Cache {
    const config: Config
    var items: map<string, Entry>
    var lru: seq<Entry>
    var currentMem: int
    var hits: nat
    var misses: nat
    var stopped: bool

    predicate Valid()
      reads this
    {
      Coherent(items, lru, currentMem)
    }

    constructor (cfg: Config)
      ensures Valid() && lru == [] && hits == 0 && misses == 0 && !stopped
      ensures config == cfg.(defaultTTL := if cfg.defaultTTL == 0 then 5 * 60 * 1_000_000_000 else cfg.defaultTTL)
    {
      config := if cfg.defaultTTL == 0 then cfg.(defaultTTL := FIVE_MINUTES) else cfg;
      items := map[];
      lru := [];
      currentMem := 0;
      hits := 0;
      misses := 0;
      stopped := false;
    }

    method DeleteInternal(key: string)
      requires Valid()
      modifies this`items, this`lru, this`currentMem
      ensures Valid() && lru == Without(old(lru), key)
      ensures items == old(items) - {key}
    {
      Removed(items, lru, currentMem, key);
      if key in items {
        currentMem := currentMem - items[key].size;
        lru := Without(lru, key);
        items := items - {key};
      }
    }

    method PushFront(entry: Entry)
      requires Valid() && entry.key !in items && entry.size == |entry.value|
      modifies this`items, this`lru, this`currentMem
      ensures Valid() && lru == [entry] + old(lru) && items == old(items)[entry.key := entry]
    {
      Pushed(items, lru, currentMem, entry);
      lru := [entry] + lru;
      items := items[entry.key := entry];
      currentMem := currentMem + entry.size;
    }

    method Evict(needed: nat)
      requires Valid()
      modifies this`items, this`lru, this`currentMem
      ensures Valid() && lru == Trim(config, old(lru), needed) && items.Keys <= old(items.Keys)
    {
      while |lru| > 0 && config.maxMemory > 0 && currentMem + needed > config.maxMemory
        invariant items.Keys <= old(items.Keys)
        invariant Valid() && Trim(config, old(lru), needed) == Trim(config, lru, needed)
        decreases |lru|
      {
        var oldest := lru[|lru| - 1];
        WithoutLast(lru);
        DeleteInternal(oldest.key);
      }
      while |lru| > 0 && config.maxItems > 0 && |lru| >= config.maxItems
        invariant items.Keys <= old(items.Keys)
        invariant Valid() && Trim(config, old(lru), needed) == Trim(config, lru, needed)
        invariant lru == [] || FitsMemory(config, lru, needed)
        decreases |lru|
      {
        var oldest := lru[|lru| - 1];
        WithoutLast(lru);
        TotalAppend(lru[..|lru| - 1], [oldest]);
        assert lru == lru[..|lru| - 1] + [oldest];
        DeleteInternal(oldest.key);
      }
    }

    method Get(key: string, now: int) returns (r: Option<Bytes>)
      requires Valid()
      modifies this
      ensures Valid() && r == GetResult(old(lru), key, now) && lru == AfterGet(old(lru), key, now)
      ensures hits == old(hits) + (if r.Some? then 1 else 0) && misses == old(misses) + (if r.None? then 1 else 0)
      ensures stopped == old(stopped)
    {
      if key !in items {
        Removed(items, lru, currentMem, key);
        misses := misses + 1;
        return None;
      }
      var entry := items[key];
      Removed(items, lru, currentMem, key);
      if now > entry.expiresAt {
        DeleteInternal(key);
        misses := misses + 1;
        return None;
      }
      Pushed(items - {key}, Without(lru, key), currentMem - entry.size, entry);
      assert (items - {key})[key := entry] == items;
      lru := [entry] + Without(lru, key);
      hits := hits + 1;
      r := Some(entry.value);
    }

    method Set(key: string, value: Bytes, ttl: int, now: int)
      requires Valid()
      modifies this
      ensures Valid() && SetLeaves(config, old(lru), lru, key, value, ttl, now)
      ensures lru == AfterSet(config, old(lru), key, value, ttl, now)
      ensures hits == old(hits) && misses == old(misses) && stopped == old(stopped)
    {
      var lifetime := if ttl == 0 then config.defaultTTL else ttl;
      var size := |value|;
      DeleteInternal(key);
      Evict(size);
      PushFront(Entry(key, value, now + lifetime, size));
      SetIsLongest(config, old(lru), key, value, ttl, now);
    }

    method Delete(key: string)
      requires Valid()
      modifies this
      ensures Valid() && lru == Without(old(lru), key)
      ensures hits == old(hits) && misses == old(misses) && stopped == old(stopped)
    {
      DeleteInternal(key);
    }

    method Exists(key: string, now: int) returns (r: bool)
      requires Valid()
      ensures r == ExistsResult(lru, key, now)
    {
      Removed(items, lru, currentMem, key);
      if key !in items {
        return false;
      }
      r := now < items[key].expiresAt;
    }

    /** Delete the given keys one by one. */
    method DeleteAll(keys: seq<string>)
      requires Valid()
      modifies this`items, this`lru, this`currentMem
      ensures Valid() && lru == Omit(old(lru), set k | k in keys)
    {
      OmitNone(lru);
      ghost var gone: set<string> := {};
      for i := 0 to |keys|
        invariant Valid() && lru == Omit(old(lru), gone)
        invariant gone == set j | 0 <= j < i :: keys[j]
      {
        OmitOneMore(old(lru), gone, keys[i]);
        DeleteInternal(keys[i]);
        gone := gone + {keys[i]};
      }
      assert gone == set k | k in keys;
    }

    /** The map is scanned in no particular order. */
    method Cleanup(now: int)
      requires Valid()
      modifies this
      ensures Valid() && lru == AfterCleanup(old(lru), now)
      ensures hits == old(hits) && misses == old(misses) && stopped == old(stopped)
    {
      var toDelete: seq<string> := [];
      var pending := items.Keys;
      Bijection(items, lru, currentMem);
      while pending != {}
        invariant pending <= items.Keys
        invariant forall k :: k in toDelete <==> k in items && k !in pending && Expired(items[k], now)
        decreases |pending|
      {
        var key :| key in pending;
        if now > items[key].expiresAt {
          toDelete := toDelete + [key];
        }
        pending := pending - {key};
      }
      OmitIsKeep(lru, set k | k in toDelete, (e: Entry) => !Expired(e, now));
      DeleteAll(toDelete);
    }

    /** A malformed pattern is noticed only when there is a key to match it with. */
    method DeletePattern(matches: string -> bool, wellFormed: bool) returns (ok: bool)
      requires Valid()
      modifies this
      ensures Valid() && ok == (wellFormed || old(lru) == [])
      ensures lru == if wellFormed then AfterDeletePattern(old(lru), matches) else old(lru)
      ensures hits == old(hits) && misses == old(misses) && stopped == old(stopped)
    {
      var toDelete: seq<string> := [];
      var pending := items.Keys;
      Bijection(items, lru, currentMem);
      while pending != {}
        invariant pending <= items.Keys
        invariant wellFormed || pending == items.Keys
        invariant forall k :: k in toDelete <==> k in items && k !in pending && matches(k)
        decreases |pending|
      {
        var key :| key in pending;
        if !wellFormed {
          return false;
        }
        if matches(key) {
          toDelete := toDelete + [key];
        }
        pending := pending - {key};
      }
      OmitIsKeep(lru, set k | k in toDelete, (e: Entry) => !matches(e.key));
      DeleteAll(toDelete);
      ok := true;
    }

    /** Increment (`delta` 1) and decrement (`delta` -1). */
    method Bump(key: string, delta: int, now: int) returns (r: Option<int>)
      requires Valid()
      modifies this
      ensures Valid() && r == BumpResult(old(lru), key, delta, now)
      ensures lru == AfterBump(config, old(lru), key, delta, now)
      ensures hits == old(hits) && misses == old(misses) && stopped == old(stopped)
    {
      var current := 0;
      Removed(items, lru, currentMem, key);
      if key in items {
        if now < items[key].expiresAt {
          var n := DecodeCounter(items[key].value);
          if n.None? {
            return None;
          }
          current := n.value;
        }
      }
      current := Wrap(current + delta);
      var data := Decimal.Print(current);
      DeleteInternal(key);
      PushFront(Entry(key, data, now + config.defaultTTL, |data|));
      r := Some(current);
    }

    method Clear()
      modifies this
      ensures Valid() && lru == [] && hits == old(hits) && misses == old(misses) && stopped == old(stopped)
    {
      items := map[];
      lru := [];
      currentMem := 0;
    }

    method Close()
      modifies this
      ensures Valid() && lru == [] && hits == old(hits) && misses == old(misses) && stopped
    {
      stopped := true;
      items := map[];
      lru := [];
      currentMem := 0;
    }
  }

  /** Eviction only cuts the list short. */
  lemma {:induction false} TrimIsPrefix(cfg: Config, s: seq<Entry>, needed: nat)
    ensures |Trim(cfg, s, needed)| <= |s| && Trim(cfg, s, needed) == s[..|Trim(cfg, s, needed)|]
    decreases |s|
  {
    if s != [] && !Fits(cfg, s, needed) {
      TrimIsPrefix(cfg, s[..|s| - 1], needed);
    }
  }
}
