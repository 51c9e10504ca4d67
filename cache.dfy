/**
 * The expiring key/value cache of Cache.java.
 *
 * A cache keeps its entries (CachedObject) in insertion order, one per `add`, and
 * never merges entries with the same key. Each entry carries its key, its value,
 * the time it was added, the time it was last read through `getObject`, and a
 * one-way `expired` flag. A sweep (`tick`) runs three steps, each switched on by
 * the configuration chosen in the builder.
 *
 * Listener callbacks are recorded in `events`, one element per dispatch. The wall
 * clock is the `now` parameter. Locks are not modelled: every operation runs to
 * completion before the next one starts.
 */
module Caching {
  import opened Wrappers
  import opened Seqs
  import JavaLang

  /** java.util.concurrent.TimeUnit, as far as `toMillis` is concerned. */
  datatype TimeUnit = Nanoseconds | Microseconds | Milliseconds | Seconds | Minutes | Hours | Days

  /** TimeUnit.toMillis: finer units divide (rounding toward zero), coarser ones multiply. */
  function ToMillis(unit: TimeUnit, d: int): (ms: int)
    ensures unit == Milliseconds ==> ms == d
    ensures d >= 0 ==> ms >= 0
    ensures d <= 0 ==> ms <= 0
  {
    match unit
    case Nanoseconds => JavaLang.Div(d, 1_000_000)
    case Microseconds => JavaLang.Div(d, 1_000)
    case Milliseconds => d
    case Seconds => d * 1_000
    case Minutes => d * 60_000
    case Hours => d * 3_600_000
    case Days => d * 86_400_000
  }

  /** A longer duration never converts to fewer milliseconds. */
  lemma ToMillisMonotone(unit: TimeUnit, d: int, d': int)
    requires d <= d'
    ensures ToMillis(unit, d) <= ToMillis(unit, d')
  {
    match unit
    case Nanoseconds => JavaLang.DivMonotone(d, d', 1_000_000);
    case Microseconds => JavaLang.DivMonotone(d, d', 1_000);
    case _ =>
  }

  /** The policy fields a Cache receives from its builder, fixed for the cache's lifetime. */
  datatype Config = Config(
    expires: bool,
    expiresAfter: int,
    expireTimeUnit: TimeUnit,
    deleteAfterExpiration: bool,
    onlyExpireWhenUnused: bool,
    deleteOldIndexes: bool,
    deleteIndexAfter: int)
  {
    /** The age, in milliseconds, from which the first sweep step reports an entry. */
    function ThresholdMillis(): int {
      ToMillis(expireTimeUnit, expiresAfter)
    }
  }

  /** One stored value with its bookkeeping; `key`, `value` and `timeAdded` never change. */
  class CachedObject<T> {
    const key: string
    const value: T
    const timeAdded: int
    var lastUpdated: int
    var expired: bool

    constructor (key: string, value: T, now: int)
      ensures this.key == key && this.value == value
      ensures timeAdded == now && lastUpdated == now && !expired
    {
      this.key := key;
      this.value := value;
      this.timeAdded := now;
      this.lastUpdated := now;
      this.expired := false;
    }

    /** Reads the value and marks the entry as used now. */
    method GetObject(now: int) returns (v: T)
      modifies this`lastUpdated
      ensures v == value && lastUpdated == now
    {
      lastUpdated := now;
      v := value;
    }

    /** Sets the one-way expiry flag; an expired entry stays expired. */
    method Expire()
      modifies this`expired
      ensures expired
    {
      expired := true;
    }

    /** The timestamp the sweep measures an entry's age from. */
    function Basis(sinceLastUse: bool): int
      reads this
    {
      if sinceLastUse then lastUpdated else timeAdded
    }
  }

  /** One listener dispatch: onCachedObjectAdd, onCachedObjectRemove or onCachedObjectExpire. */
  datatype Event<T> = OnAdd(entry: CachedObject<T>) | OnRemove(entry: CachedObject<T>) | OnExpire(entry: CachedObject<T>)

  function FirstWithKey<T>(s: seq<CachedObject<T>>, key: string): Option<nat> {
    FirstIndex(s, (e: CachedObject<T>) => e.key == key)
  }

  function FirstWithValue<T(==)>(s: seq<CachedObject<T>>, value: T): Option<nat> {
    FirstIndex(s, (e: CachedObject<T>) => e.value == value)
  }

  /** The value of the first entry with `key`, in insertion order. */
  function ValueOf<T>(s: seq<CachedObject<T>>, key: string): (r: Option<T>)
    ensures r.None? <==> forall i :: 0 <= i < |s| ==> s[i].key != key
    ensures r.Some? ==> exists i :: 0 <= i < |s| && s[i].key == key && s[i].value == r.value
                                  && (forall j :: 0 <= j < i ==> s[j].key != key)
  {
    match FirstWithKey(s, key)
    case None => None
    case Some(i) => Some(s[i].value)
  }

  function HasKey<T>(key: string): CachedObject<T> -> bool {
    (e: CachedObject<T>) => e.key == key
  }

  function LacksKey<T>(key: string): CachedObject<T> -> bool {
    (e: CachedObject<T>) => e.key != key
  }

  /** The entries whose key differs from `key`, in order. */
  function WithoutKey<T>(s: seq<CachedObject<T>>, key: string): (r: seq<CachedObject<T>>)
    ensures |r| <= |s| && forall e :: e in r ==> e in s && e.key != key
  {
    Filter(s, LacksKey(key))
  }

  /** The entries whose key is `key`, in order. */
  function WithKey<T>(s: seq<CachedObject<T>>, key: string): (r: seq<CachedObject<T>>)
    ensures |r| <= |s| && forall e :: e in r ==> e in s && e.key == key
  {
    Filter(s, HasKey(key))
  }

  function RemoveEvents<T>(s: seq<CachedObject<T>>): (r: seq<Event<T>>)
    ensures |r| == |s| && forall i :: 0 <= i < |s| ==> r[i] == OnRemove(s[i])
  {
    seq(|s|, i requires 0 <= i < |s| => OnRemove(s[i]))
  }

  function ExpireEvents<T>(s: seq<CachedObject<T>>): (r: seq<Event<T>>)
    ensures |r| == |s| && forall i :: 0 <= i < |s| ==> r[i] == OnExpire(s[i])
  {
    seq(|s|, i requires 0 <= i < |s| => OnExpire(s[i]))
  }

  /** The entries whose expiry flag is set, in order. */
  function ExpiredIn<T>(s: seq<CachedObject<T>>): (r: seq<CachedObject<T>>)
    reads s
    ensures |r| <= |s| && forall e :: e in r ==> e in s && e.expired
  {
    if s == [] then []
    else
      var init := ExpiredIn(s[..|s| - 1]);
      if s[|s| - 1].expired then init + [s[|s| - 1]] else init
  }

  /** The entries whose expiry flag is clear, in order. */
  function LiveIn<T>(s: seq<CachedObject<T>>): (r: seq<CachedObject<T>>)
    reads s
    ensures |r| <= |s| && forall e :: e in r ==> e in s && !e.expired
  {
    if s == [] then []
    else
      var init := LiveIn(s[..|s| - 1]);
      if s[|s| - 1].expired then init else init + [s[|s| - 1]]
  }

  /** Whether the first sweep step reports `e`: already expired, and old enough. */
  predicate Due<T>(e: CachedObject<T>, c: Config, now: int)
    reads e
    ensures Due(e, c, now) ==> e.expired
  {
    e.expired && now - e.Basis(c.onlyExpireWhenUnused) >= c.ThresholdMillis()
  }

  /** The entries the first sweep step reports, in order. */
  function DueIn<T>(s: seq<CachedObject<T>>, c: Config, now: int): (r: seq<CachedObject<T>>)
    reads s
    ensures forall e :: e in r ==> e in s && Due(e, c, now)
  {
    if s == [] then []
    else
      var init := DueIn(s[..|s| - 1], c, now);
      if Due(s[|s| - 1], c, now) then init + [s[|s| - 1]] else init
  }

  lemma {:induction false} LiveInDistinct<T>(s: seq<CachedObject<T>>)
    requires Distinct(s)
    ensures Distinct(LiveIn(s))
  {
    if s != [] {
      LiveInDistinct(s[..|s| - 1]);
      assert s[|s| - 1] !in s[..|s| - 1];
    }
  }

  /** Whether the third sweep step fires on the entries that survived the second. */
  predicate EvictsOldest<T>(c: Config, kept: seq<CachedObject<T>>) {
    c.deleteOldIndexes && |kept| > c.deleteIndexAfter && |kept| > 0
  }

  /** The entries after a sweep (the sweep changes no entry's fields). */
  function SweptEntries<T>(c: Config, s: seq<CachedObject<T>>): (r: seq<CachedObject<T>>)
    reads s
    ensures |r| <= |s| && forall e :: e in r ==> e in s
  {
    var kept := if c.deleteAfterExpiration then LiveIn(s) else s;
    if EvictsOldest(c, kept) then
      assert kept == [kept[0]] + kept[1..];
      kept[1..]
    else kept
  }

  /** The listener dispatches of a sweep, in the order the three steps make them. */
  function SweepEvents<T>(c: Config, s: seq<CachedObject<T>>, now: int): (r: seq<Event<T>>)
    reads s
    ensures forall i :: 0 <= i < |r| ==> !r[i].OnAdd? && r[i].entry in s
  {
    var kept := if c.deleteAfterExpiration then LiveIn(s) else s;
    (if c.expires then ExpireEvents(DueIn(s, c, now)) else [])
    + (if c.deleteAfterExpiration then RemoveEvents(ExpiredIn(s)) else [])
    + (if EvictsOldest(c, kept) then [OnRemove(kept[0])] else [])
  }

  /** With delete-after-expiration on, no expired entry survives a sweep. */
  lemma SweepLeavesNoExpired<T>(c: Config, s: seq<CachedObject<T>>)
    requires c.deleteAfterExpiration
    ensures forall e :: e in SweptEntries(c, s) ==> !e.expired
  {
    var kept := LiveIn(s);
    if EvictsOldest(c, kept) {
      forall e | e in kept[1..] ensures !e.expired {
        assert e in kept;
      }
    }
  }

  /**
   * Index eviction takes away one entry per sweep, however far the cache is over
   * its limit: a cache two or more entries over the limit is still over it afterwards.
   */
  lemma SweepEvictsOnlyOne<T>(c: Config, s: seq<CachedObject<T>>)
    requires !c.deleteAfterExpiration && c.deleteOldIndexes
    requires c.deleteIndexAfter >= 0 && |s| >= c.deleteIndexAfter + 2
    ensures SweptEntries(c, s) == s[1..]
    ensures |SweptEntries(c, s)| > c.deleteIndexAfter
  {
  }

  /**
   * The first sweep step never expires a live entry: it only reports entries that
   * were expired already, each of them an entry of the cache.
   */
  lemma SweepReportsOnlyExpired<T>(c: Config, s: seq<CachedObject<T>>, now: int)
    ensures forall ev :: ev in SweepEvents(c, s, now) && ev.OnExpire? ==> ev.entry.expired && ev.entry in s
  {
    var kept := if c.deleteAfterExpiration then LiveIn(s) else s;
    var ex := if c.expires then ExpireEvents(DueIn(s, c, now)) else [];
    var rm := if c.deleteAfterExpiration then RemoveEvents(ExpiredIn(s)) else [];
    var ev3: seq<Event<T>> := if EvictsOldest(c, kept) then [OnRemove(kept[0])] else [];
    assert SweepEvents(c, s, now) == ex + rm + ev3;
    forall ev | ev in ex + rm + ev3 && ev.OnExpire? ensures ev.entry.expired && ev.entry in s {
      if ev in ex {
        var i :| 0 <= i < |ex| && ex[i] == ev;
        assert ev.entry in DueIn(s, c, now);
      }
    }
  }

  lemma RemoveEventsConcat<T>(a: seq<CachedObject<T>>, b: seq<CachedObject<T>>)
    ensures RemoveEvents(a + b) == RemoveEvents(a) + RemoveEvents(b)
  {
  }

  lemma KeyRemovalKept<T>(s: seq<CachedObject<T>>, i: nat, key: string)
    requires Distinct(s) && i < |s|
    ensures s[i].key == key ==>
      Exclude(WithoutKey(s[..i], key) + s[i..], s[i]) == WithoutKey(s[..i + 1], key) + s[i + 1..]
    ensures s[i].key != key ==>
      WithoutKey(s[..i], key) + s[i..] == WithoutKey(s[..i + 1], key) + s[i + 1..]
  {
    var kept := WithoutKey(s[..i], key);
    FilterPrefixStep(s, i, LacksKey(key));
    assert WithoutKey(s[..i + 1], key) == kept + if s[i].key != key then [s[i]] else [];
    if s[i].key == key {
      assert s[i] !in kept;
      DistinctAt(s, i);
      ExcludeAt(kept, s, i);
    } else {
      assert s[i..] == [s[i]] + s[i + 1..];
    }
  }

  /**
   * What remove(String) does, step by step over what is left of the snapshot,
   * starting from the entries `cur`: the entries left and the dispatches made.
   */
  function KeyRemoval<T>(rest: seq<CachedObject<T>>, cur: seq<CachedObject<T>>, key: string)
    : (seq<CachedObject<T>>, seq<Event<T>>)
  {
    if rest == [] then (cur, [])
    else if rest[0].key == key then
      var after := KeyRemoval(rest[1..], Exclude(cur, rest[0]), key);
      (after.0, [OnRemove(rest[0])] + after.1)
    else KeyRemoval(rest[1..], cur, key)
  }

  /**
   * Run from position `i` of a snapshot without repetitions, remove(String) keeps
   * exactly the entries with another key and reports the others in order.
   */
  lemma {:induction false} KeyRemovalResult<T>(s: seq<CachedObject<T>>, i: nat, key: string)
    requires Distinct(s) && i <= |s|
    ensures KeyRemoval(s[i..], WithoutKey(s[..i], key) + s[i..], key)
         == (WithoutKey(s, key), RemoveEvents(WithKey(s[i..], key)))
    decreases |s| - i
  {
    if i == |s| {
      assert s[..i] == s && s[i..] == [];
      assert WithoutKey(s[..i], key) + s[i..] == WithoutKey(s, key);
      assert WithKey(s[i..], key) == [];
    } else {
      assert s[i..][0] == s[i] && s[i..][1..] == s[i + 1..];
      assert s[i..] == [s[i]] + s[i + 1..];
      KeyRemovalKept(s, i, key);
      KeyRemovalResult(s, i + 1, key);
      FilterConcat([s[i]], s[i + 1..], HasKey(key));
      FilterSingle(s[i], HasKey(key));
      RemoveEventsConcat(WithKey([s[i]], key), WithKey(s[i + 1..], key));
      assert WithKey(s[i..], key) == WithKey([s[i]], key) + WithKey(s[i + 1..], key);
      if s[i].key == key {
        assert RemoveEvents(WithKey([s[i]], key)) == [OnRemove(s[i])];
      } else {
        assert WithKey([s[i]], key) == [];
        assert WithKey(s[i..], key) == WithKey(s[i + 1..], key);
      }
    }
  }

  /** remove(String) over the whole cache keeps the entries with another key and reports the rest. */
  lemma KeyRemovalWhole<T>(s: seq<CachedObject<T>>, key: string)
    requires Distinct(s)
    ensures KeyRemoval(s, s, key) == (WithoutKey(s, key), RemoveEvents(WithKey(s, key)))
    ensures Distinct(WithoutKey(s, key))
  {
    assert s[..0] == [] && s[0..] == s;
    assert WithoutKey(s[..0], key) + s[0..] == s;
    KeyRemovalResult(s, 0, key);
    FilterDistinct(s, LacksKey(key));
  }

  lemma {:induction false} ExpiredInConcat<T>(a: seq<CachedObject<T>>, b: seq<CachedObject<T>>)
    ensures ExpiredIn(a + b) == ExpiredIn(a) + ExpiredIn(b)
    decreases |b|
  {
    if b == [] {
      assert a + b == a;
    } else {
      var b' := b[..|b| - 1];
      assert (a + b)[..|a + b| - 1] == a + b';
      ExpiredInConcat(a, b');
    }
  }

  /** One iteration of the second sweep step over the snapshot `s`, at position `i`. */
  lemma ExpiredRemovalStep<T>(s: seq<CachedObject<T>>, i: nat)
    requires Distinct(s) && i < |s|
    ensures s[i].expired ==> Exclude(LiveIn(s[..i]) + s[i..], s[i]) == LiveIn(s[..i + 1]) + s[i + 1..]
    ensures !s[i].expired ==> LiveIn(s[..i]) + s[i..] == LiveIn(s[..i + 1]) + s[i + 1..]
  {
    assert s[..i + 1][..i] == s[..i];
    if s[i].expired {
      DistinctAt(s, i);
      ExcludeAt(LiveIn(s[..i]), s, i);
    } else {
      assert s[i..] == [s[i]] + s[i + 1..];
    }
  }

  /**
   * What the second sweep step does, step by step over what is left of the
   * snapshot, starting from the entries `cur`: the entries left and the dispatches made.
   */
  function ExpiredRemoval<T>(rest: seq<CachedObject<T>>, cur: seq<CachedObject<T>>)
    : (seq<CachedObject<T>>, seq<Event<T>>)
    reads rest
  {
    if rest == [] then (cur, [])
    else if rest[0].expired then
      var after := ExpiredRemoval(rest[1..], Exclude(cur, rest[0]));
      (after.0, [OnRemove(rest[0])] + after.1)
    else ExpiredRemoval(rest[1..], cur)
  }

  lemma {:induction false} ExpiredRemovalResult<T>(s: seq<CachedObject<T>>, i: nat)
    requires Distinct(s) && i <= |s|
    ensures ExpiredRemoval(s[i..], LiveIn(s[..i]) + s[i..]) == (LiveIn(s), RemoveEvents(ExpiredIn(s[i..])))
    decreases |s| - i
  {
    if i == |s| {
      assert s[..i] == s && s[i..] == [];
      assert LiveIn(s[..i]) + s[i..] == LiveIn(s);
    } else {
      assert s[i..][0] == s[i] && s[i..][1..] == s[i + 1..];
      assert s[i..] == [s[i]] + s[i + 1..];
      ExpiredRemovalStep(s, i);
      ExpiredRemovalResult(s, i + 1);
      ExpiredInConcat([s[i]], s[i + 1..]);
      assert [s[i]][..0] == [];
      RemoveEventsConcat(ExpiredIn([s[i]]), ExpiredIn(s[i + 1..]));
      if s[i].expired {
        assert RemoveEvents(ExpiredIn([s[i]])) == [OnRemove(s[i])];
      } else {
        assert ExpiredIn(s[i..]) == ExpiredIn(s[i + 1..]);
      }
    }
  }

  /** The second sweep step over the whole cache keeps the live entries and reports the expired ones. */
  lemma ExpiredRemovalWhole<T>(s: seq<CachedObject<T>>)
    requires Distinct(s)
    ensures ExpiredRemoval(s, s) == (LiveIn(s), RemoveEvents(ExpiredIn(s)))
    ensures Distinct(LiveIn(s))
  {
    assert s[..0] == [] && s[0..] == s;
    assert LiveIn(s[..0]) + s[0..] == s;
    ExpiredRemovalResult(s, 0);
    LiveInDistinct(s);
  }

  /**
   * The cache (Cache<T>). `cached` is the LinkedHashSet of entries in insertion
   * order; entries are compared by identity, so it never holds one entry twice.
   */
  class Cache<T(==)> {
    const config: Config
    var cached: seq<CachedObject<T>>
    var events: seq<Event<T>>

    ghost predicate Valid()
      reads this
    {
      Distinct(cached)
    }

    constructor (config: Config)
      ensures Valid() && this.config == config && cached == [] && events == []
    {
      this.config := config;
      cached := [];
      events := [];
    }

    /** Appends a fresh entry; an entry with the same key stays where it is. */
    method Add(key: string, value: T, now: int)
      requires Valid()
      modifies this
      ensures Valid()
      ensures |cached| == |old(cached)| + 1 && cached[..|old(cached)|] == old(cached)
      ensures fresh(cached[|old(cached)|])
      ensures cached[|old(cached)|].key == key && cached[|old(cached)|].value == value
      ensures cached[|old(cached)|].timeAdded == now && cached[|old(cached)|].lastUpdated == now
      ensures !cached[|old(cached)|].expired
      ensures events == old(events) + [OnAdd(cached[|old(cached)|])]
    {
      var entry := new CachedObject(key, value, now);
      events := events + [OnAdd(entry)];
      cached := cached + [entry];
      assert cached[..|old(cached)|] == old(cached);
    }

    /** The value of the first entry with `key`, which is marked as used; no other entry changes. */
    method Get(key: string, now: int) returns (r: Option<T>)
      requires Valid()
      modifies cached
      ensures r == ValueOf(cached, key)
      ensures forall i :: 0 <= i < |cached| ==> cached[i].expired == old(cached[i].expired)
      ensures forall i :: 0 <= i < |cached| ==>
        cached[i].lastUpdated == if FirstWithKey(cached, key) == Some(i) then now else old(cached[i].lastUpdated)
    {
      var i := 0;
      while i < |cached| && cached[i].key != key
        invariant 0 <= i <= |cached|
        invariant forall j :: 0 <= j < i ==> cached[j].key != key
      {
        i := i + 1;
      }
      if i == |cached| {
        r := None;
      } else {
        FirstIndexUnique(cached, (e: CachedObject<T>) => e.key == key, i);
        var v := cached[i].GetObject(now);
        r := Some(v);
      }
    }

    /** The key of the first entry holding `value`; reads the raw field, so nothing is touched. */
    method GetKey(value: T) returns (r: Option<string>)
      ensures r.None? <==> forall i :: 0 <= i < |cached| ==> cached[i].value != value
      ensures r.Some? ==> exists i :: 0 <= i < |cached| && cached[i].value == value && cached[i].key == r.value
                                      && (forall j :: 0 <= j < i ==> cached[j].value != value)
    {
      var i := 0;
      while i < |cached| && cached[i].value != value
        invariant 0 <= i <= |cached|
        invariant forall j :: 0 <= j < i ==> cached[j].value != value
      {
        i := i + 1;
      }
      r := if i == |cached| then None else Some(cached[i].key);
    }

    /** contains(T): some entry holds `value`. */
    method ContainsValue(value: T) returns (b: bool)
      ensures b <==> exists i :: 0 <= i < |cached| && cached[i].value == value
    {
      var k := GetKey(value);
      b := k.Some?;
    }

    /** contains(String): goes through `get`, so the first entry with `key` is marked as used. */
    method ContainsKey(key: string, now: int) returns (b: bool)
      requires Valid()
      modifies cached
      ensures b <==> exists i :: 0 <= i < |cached| && cached[i].key == key
      ensures forall i :: 0 <= i < |cached| ==> cached[i].expired == old(cached[i].expired)
      ensures forall i :: 0 <= i < |cached| ==>
        cached[i].lastUpdated == if FirstWithKey(cached, key) == Some(i) then now else old(cached[i].lastUpdated)
    {
      var r := Get(key, now);
      b := r.Some?;
      if !b {
        forall i | 0 <= i < |cached| ensures cached[i].key != key {
          assert FirstWithKey(cached, key).None?;
        }
      }
    }

    /** contains(CachedObject): asks for the entry's key, not for the entry itself. */
    method ContainsEntry(entry: CachedObject<T>, now: int) returns (b: bool)
      requires Valid()
      modifies cached
      ensures b <==> exists i :: 0 <= i < |cached| && cached[i].key == entry.key
      ensures forall i :: 0 <= i < |cached| ==> cached[i].expired == old(cached[i].expired)
      ensures forall i :: 0 <= i < |cached| ==>
        cached[i].lastUpdated == if FirstWithKey(cached, entry.key) == Some(i) then now else old(cached[i].lastUpdated)
    {
      b := ContainsKey(entry.key, now);
    }

    /** remove(String): every entry with `key` goes, each reported before it is removed. */
    method RemoveKey(key: string)
      requires Valid()
      modifies this
      ensures Valid()
      ensures cached == WithoutKey(old(cached), key)
      ensures events == old(events) + RemoveEvents(WithKey(old(cached), key))
    {
      var snapshot := cached;
      ghost var final := KeyRemoval(snapshot, snapshot, key);
      KeyRemovalWhole(snapshot, key);
      var i := 0;
      while i < |snapshot|
        invariant 0 <= i <= |snapshot|
        invariant KeyRemoval(snapshot[i..], cached, key).0 == final.0
        invariant events + KeyRemoval(snapshot[i..], cached, key).1 == old(events) + final.1
      {
        var entry := snapshot[i];
        assert snapshot[i..][0] == entry && snapshot[i..][1..] == snapshot[i + 1..];
        if entry.key == key {
          events := events + [OnRemove(entry)];
          cached := Exclude(cached, entry);
        }
        i := i + 1;
      }
      assert snapshot[i..] == [];
      assert KeyRemoval(snapshot[i..], cached, key) == (cached, []);
    }

    /** remove(CachedObject): always reported, then that one entry (if present) is removed. */
    method RemoveEntry(entry: CachedObject<T>)
      requires Valid()
      modifies this
      ensures Valid()
      ensures cached == Exclude(old(cached), entry)
      ensures entry !in old(cached) ==> cached == old(cached)
      ensures forall i :: 0 <= i < |old(cached)| && old(cached)[i] == entry ==>
        cached == old(cached)[..i] + old(cached)[i + 1..]
      ensures events == old(events) + [OnRemove(entry)]
    {
      events := events + [OnRemove(entry)];
      ExcludeDistinct(cached, entry);
      cached := Exclude(cached, entry);
    }

    /**
     * remove(T): for each entry holding `value`, removes every entry with that entry's key.
     * The result and the dispatches are those of ValueRemoval.
     */
    method RemoveValue(value: T)
      requires Valid()
      modifies this
      ensures Valid()
      ensures cached == ValueRemoval(old(cached), old(cached), value).0
      ensures events == old(events) + ValueRemoval(old(cached), old(cached), value).1
      ensures |events| - |old(events)| == |old(cached)| - |cached|
      ensures forall e :: OnRemove(e) in events[|old(events)|..] <==> e in old(cached) && e !in cached
      ensures Distinct(events[|old(events)|..])
    {
      ValueRemovalReportsRemoved(cached, cached, value);
      var snapshot := cached;
      ghost var final := ValueRemoval(snapshot, snapshot, value);
      var i := 0;
      while i < |snapshot|
        invariant 0 <= i <= |snapshot|
        invariant Valid()
        invariant ValueRemoval(snapshot[i..], cached, value).0 == final.0
        invariant events + ValueRemoval(snapshot[i..], cached, value).1 == old(events) + final.1
      {
        assert snapshot[i..][0] == snapshot[i] && snapshot[i..][1..] == snapshot[i + 1..];
        if snapshot[i].value == value {
          RemoveKey(snapshot[i].key);
        }
        i := i + 1;
      }
    }

    /** A copy of the entries in order; later changes to the cache do not reach it. */
    method GetCopyOfCached() returns (copy: seq<CachedObject<T>>)
      ensures copy == cached
    {
      copy := cached;
    }

    /** Drops every entry without reporting any of them. */
    method Clear()
      modifies this
      ensures Valid()
      ensures cached == [] && events == old(events)
    {
      cached := [];
    }

    /**
     * Sweep step 1 (when `expires`): reports, and re-expires, each entry that is
     * already expired and at least the threshold old. It never sets a flag that was clear.
     */
    method ExpireStep(now: int)
      requires Valid()
      modifies this, cached
      ensures Valid() && cached == old(cached) && unchanged(cached)
      ensures events == old(events + if config.expires then ExpireEvents(DueIn(cached, config, now)) else [])
    {
      if config.expires {
        var snapshot := cached;
        var threshold := config.ThresholdMillis();
        var i := 0;
        while i < |snapshot|
          invariant 0 <= i <= |snapshot| && cached == snapshot && unchanged(snapshot)
          invariant events == old(events) + ExpireEvents(DueIn(snapshot[..i], config, now))
        {
          var entry := snapshot[i];
          assert snapshot[..i + 1][..i] == snapshot[..i];
          if entry.expired && now - entry.Basis(config.onlyExpireWhenUnused) >= threshold {
            events := events + [OnExpire(entry)];
            entry.Expire();
          }
          i := i + 1;
        }
        assert snapshot[..i] == snapshot;
      }
    }

    /** Sweep step 2 (when `deleteAfterExpiration`): removes each expired entry, in order, through RemoveEntry. */
    method DeleteExpiredStep()
      requires Valid()
      modifies this
      ensures Valid()
      ensures cached == old(if config.deleteAfterExpiration then LiveIn(cached) else cached)
      ensures events == old(events + if config.deleteAfterExpiration then RemoveEvents(ExpiredIn(cached)) else [])
    {
      if config.deleteAfterExpiration {
        var snapshot := cached;
        ghost var final := ExpiredRemoval(snapshot, snapshot);
        ExpiredRemovalWhole(snapshot);
        var i := 0;
        while i < |snapshot|
          invariant 0 <= i <= |snapshot|
          invariant Valid()
          invariant ExpiredRemoval(snapshot[i..], cached).0 == final.0
          invariant events + ExpiredRemoval(snapshot[i..], cached).1 == old(events) + final.1
        {
          var entry := snapshot[i];
          assert snapshot[i..][0] == entry && snapshot[i..][1..] == snapshot[i + 1..];
          if entry.expired {
            RemoveEntry(entry);
          }
          i := i + 1;
        }
        assert snapshot[i..] == [];
        assert ExpiredRemoval(snapshot[i..], cached) == (cached, []);
      }
    }

    /** Sweep step 3: once there are more than `deleteIndexAfter` entries, the oldest one is removed. */
    method EvictStep()
      requires Valid()
      modifies this
      ensures Valid()
      ensures cached == if EvictsOldest(config, old(cached)) then old(cached)[1..] else old(cached)
      ensures events == old(events) + if EvictsOldest(config, old(cached)) then [OnRemove(old(cached)[0])] else []
    {
      if config.deleteOldIndexes && |cached| > config.deleteIndexAfter {
        if |cached| > 0 {
          assert cached == [] + [cached[0]] + cached[1..];
          RemoveEntry(cached[0]);
        }
      }
    }

    /** The periodic sweep: the three steps in order. No entry's fields change. */
    method Tick(now: int)
      requires Valid()
      modifies this, cached
      ensures Valid() && unchanged(old(cached))
      ensures cached == old(SweptEntries(config, cached))
      ensures events == old(events + SweepEvents(config, cached, now))
    {
      ghost var c0 := cached;
      ghost var kept := if config.deleteAfterExpiration then LiveIn(c0) else c0;
      ghost var ex := if config.expires then ExpireEvents(DueIn(c0, config, now)) else [];
      ghost var rm := if config.deleteAfterExpiration then RemoveEvents(ExpiredIn(c0)) else [];
      ghost var ev := if EvictsOldest(config, kept) then [OnRemove(kept[0])] else [];
      ghost var swept, sweep := SweptEntries(config, c0), SweepEvents(config, c0, now);
      assert sweep == ex + rm + ev;
      ExpireStep(now);
      ghost var e1 := events;
      assert e1 == old(events) + ex;
      DeleteExpiredStep();
      assert cached == kept && events == e1 + rm;
      ghost var e2 := events;
      EvictStep();
      assert cached == swept && events == e2 + ev;
      AppendFour(old(events), ex, rm, ev);
    }
  }

  /**
   * What remove(T) does, step by step over the snapshot `snap`, starting from the
   * entries `cur`: the entries left and the dispatches made.
   */
  function ValueRemoval<T(==)>(snap: seq<CachedObject<T>>, cur: seq<CachedObject<T>>, value: T)
    : (r: (seq<CachedObject<T>>, seq<Event<T>>))
    ensures |r.0| <= |cur| && forall e :: e in r.0 ==> e in cur
    ensures forall i :: 0 <= i < |r.1| ==> r.1[i].OnRemove? && r.1[i].entry in cur
  {
    if snap == [] then (cur, [])
    else if snap[0].value == value then
      var rest := ValueRemoval(snap[1..], WithoutKey(cur, snap[0].key), value);
      (rest.0, RemoveEvents(WithKey(cur, snap[0].key)) + rest.1)
    else ValueRemoval(snap[1..], cur, value)
  }

  /** The entries a sequence of dispatches names, in order. */
  function Reported<T>(evs: seq<Event<T>>): (r: seq<CachedObject<T>>)
    ensures |r| == |evs| && forall i :: 0 <= i < |evs| ==> r[i] == evs[i].entry
  {
    seq(|evs|, i requires 0 <= i < |evs| => evs[i].entry)
  }

  /** remove(T) accounts for every entry: each is either reported or kept, never both, never twice. */
  lemma {:induction false} ValueRemovalAccounts<T>(snap: seq<CachedObject<T>>, cur: seq<CachedObject<T>>, value: T)
    ensures multiset(Reported(ValueRemoval(snap, cur, value).1)) + multiset(ValueRemoval(snap, cur, value).0) == multiset(cur)
  {
    if snap != [] {
      if snap[0].value == value {
        var k := snap[0].key;
        var rest := ValueRemoval(snap[1..], WithoutKey(cur, k), value);
        ValueRemovalAccounts(snap[1..], WithoutKey(cur, k), value);
        assert Reported(RemoveEvents(WithKey(cur, k)) + rest.1) == WithKey(cur, k) + Reported(rest.1);
        FilterSplit(cur, HasKey(k), LacksKey(k));
      } else {
        ValueRemovalAccounts(snap[1..], cur, value);
      }
    }
  }

  /**
   * Over entries without repetitions, remove(T) reports exactly the entries it
   * removes, each once: one dispatch per removed entry, none for a survivor.
   */
  lemma ValueRemovalReportsRemoved<T>(snap: seq<CachedObject<T>>, cur: seq<CachedObject<T>>, value: T)
    requires Distinct(cur)
    ensures |ValueRemoval(snap, cur, value).1| == |cur| - |ValueRemoval(snap, cur, value).0|
    ensures forall e :: OnRemove(e) in ValueRemoval(snap, cur, value).1 <==> e in cur && e !in ValueRemoval(snap, cur, value).0
    ensures Distinct(ValueRemoval(snap, cur, value).1)
  {
    var r := ValueRemoval(snap, cur, value);
    var reported := Reported(r.1);
    ValueRemovalAccounts(snap, cur, value);
    DistinctMultiset(cur);
    assert |multiset(reported)| + |multiset(r.0)| == |multiset(cur)|;
    forall x ensures multiset(reported)[x] <= 1 {
      assert multiset(reported)[x] + multiset(r.0)[x] == multiset(cur)[x];
    }
    DistinctMultiset(reported);
    forall e ensures OnRemove(e) in r.1 <==> e in cur && e !in r.0 {
      assert multiset(reported)[e] + multiset(r.0)[e] == multiset(cur)[e];
      if OnRemove(e) in r.1 {
        var i :| 0 <= i < |r.1| && r.1[i] == OnRemove(e);
        assert reported[i] == e;
      }
      if e in cur && e !in r.0 {
        assert e in reported;
        var i :| 0 <= i < |reported| && reported[i] == e;
        assert r.1[i] == OnRemove(e);
      }
    }
    forall i, j | 0 <= i < j < |r.1| ensures r.1[i] != r.1[j] {
      assert reported[i] != reported[j];
    }
  }

  /** The keys of the entries of `s` that hold `value`. */
  function KeysHolding<T(==)>(s: seq<CachedObject<T>>, value: T): set<string> {
    set i | 0 <= i < |s| && s[i].value == value :: s[i].key
  }

  /**
   * remove(T) keeps exactly the entries whose key is not the key of any entry
   * holding `value`, in their original order.
   */
  lemma {:induction false} ValueRemovalKeeps<T>(snap: seq<CachedObject<T>>, cur: seq<CachedObject<T>>, value: T)
    ensures ValueRemoval(snap, cur, value).0
         == Filter(cur, (e: CachedObject<T>) => e.key !in KeysHolding(snap, value))
  {
    var ks := KeysHolding(snap, value);
    var keep := (e: CachedObject<T>) => e.key !in ks;
    if snap == [] {
      FilterAll(cur, keep);
    } else {
      var ks' := KeysHolding(snap[1..], value);
      var keep' := (e: CachedObject<T>) => e.key !in ks';
      assert forall i :: 0 <= i < |snap[1..]| ==> snap[1..][i] == snap[i + 1];
      if snap[0].value == value {
        assert ks == ks' + {snap[0].key};
        ValueRemovalKeeps(snap[1..], WithoutKey(cur, snap[0].key), value);
        FilterTwice(cur, LacksKey(snap[0].key), keep', keep);
      } else {
        assert ks == ks';
        ValueRemovalKeeps(snap[1..], cur, value);
      }
    }
  }

  /** The builder, with the source's defaults. */
  class CacheBuilder {
    var expires: bool
    var expiresAfter: int
    var expireTimeUnit: TimeUnit
    var deleteAfterExpiration: bool
    var onlyExpireWhenUnused: bool
    var deleteOldIndexes: bool
    var deleteIndexAfter: int

    /** Everything off; one minute; at most 100 indexes. */
    constructor ()
      ensures !expires && expiresAfter == 1 && expireTimeUnit == Minutes
      ensures !deleteAfterExpiration && !onlyExpireWhenUnused
      ensures !deleteOldIndexes && deleteIndexAfter == 100
    {
      expires := false;
      expiresAfter := 1;
      expireTimeUnit := Minutes;
      deleteAfterExpiration := false;
      onlyExpireWhenUnused := false;
      deleteOldIndexes := false;
      deleteIndexAfter := 100;
    }

    method ObjectsExpires(expires: bool)
      modifies this`expires
      ensures this.expires == expires
    {
      this.expires := expires;
    }

    method ObjectsExpiresAfter(expiresAfter: int, unit: TimeUnit)
      modifies this`expiresAfter, this`expireTimeUnit
      ensures this.expiresAfter == expiresAfter && expireTimeUnit == unit
    {
      this.expiresAfter := expiresAfter;
      this.expireTimeUnit := unit;
    }

    method DeleteObjectsWhenExpired(deleteAfterExpiration: bool)
      modifies this`deleteAfterExpiration
      ensures this.deleteAfterExpiration == deleteAfterExpiration
    {
      this.deleteAfterExpiration := deleteAfterExpiration;
    }

    method ObjectsOnlyExpiresWhenUnused(onlyExpireWhenUnused: bool)
      modifies this`onlyExpireWhenUnused
      ensures this.onlyExpireWhenUnused == onlyExpireWhenUnused
    {
      this.onlyExpireWhenUnused := onlyExpireWhenUnused;
    }

    method DeleteOldIndexes(deleteOldIndexes: bool)
      modifies this`deleteOldIndexes
      ensures this.deleteOldIndexes == deleteOldIndexes
    {
      this.deleteOldIndexes := deleteOldIndexes;
    }

    method DeleteIndexAfter(deleteIndexAfter: int)
      modifies this`deleteIndexAfter
      ensures this.deleteIndexAfter == deleteIndexAfter
    {
      this.deleteIndexAfter := deleteIndexAfter;
    }

    /** A new, empty cache with the builder's current settings. */
    method Build<T(==)>() returns (cache: Cache<T>)
      ensures fresh(cache) && cache.Valid() && cache.cached == [] && cache.events == []
      ensures cache.config == Config(expires, expiresAfter, expireTimeUnit, deleteAfterExpiration,
                                     onlyExpireWhenUnused, deleteOldIndexes, deleteIndexAfter)
    {
      cache := new Cache(Config(expires, expiresAfter, expireTimeUnit, deleteAfterExpiration,
                                onlyExpireWhenUnused, deleteOldIndexes, deleteIndexAfter));
    }
  }
}
