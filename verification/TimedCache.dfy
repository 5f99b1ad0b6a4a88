/** The eight-slot caches of resolved names and of link-layer addresses: slots with an expiry time, swept by
    lookups, refilled first into the key's own slot, then into a free one, then round robin. */
module TimedCache {
  import opened Words
  import opened Options

  const SLOTS: nat := 8

  type Bytes = seq<Byte>

  datatype Slot = Slot(valid: bool, key: Bytes, value: Bytes, expiry: nat)

  datatype Cache = Cache(slots: seq<Slot>, next: nat)

  datatype Entry = Entry(value: Bytes, expiry: nat)

  datatype Event = StoreAt(key: Bytes, value: Bytes, now: nat) | LookupAt(key: Bytes, now: nat)

  predicate Shape(c: Cache) {
    |c.slots| == SLOTS && c.next < SLOTS
  }

  predicate Holds(s: Slot, key: Bytes) {
    s.valid && s.key == key
  }

  /** The first of `slots` holding `key`. */
  function FindKey(slots: seq<Slot>, key: Bytes): (r: Option<nat>)
    ensures r.Some? ==> r.value < |slots| && Holds(slots[r.value], key)
    ensures r.Some? ==> forall i :: 0 <= i < r.value ==> !Holds(slots[i], key)
    ensures r.None? ==> forall i :: 0 <= i < |slots| ==> !Holds(slots[i], key)
    decreases |slots|
  {
    if slots == [] then None
    else
      var rest := FindKey(slots[..|slots| - 1], key);
      if rest.Some? then rest
      else if Holds(slots[|slots| - 1], key) then Some(|slots| - 1)
      else None
  }

  /** The first unused slot. */
  function FindFree(slots: seq<Slot>): (r: Option<nat>)
    ensures r.Some? ==> r.value < |slots| && !slots[r.value].valid
    ensures r.Some? ==> forall i :: 0 <= i < r.value ==> slots[i].valid
    ensures r.None? ==> forall i :: 0 <= i < |slots| ==> slots[i].valid
    decreases |slots|
  {
    if slots == [] then None
    else
      var rest := FindFree(slots[..|slots| - 1]);
      if rest.Some? then rest
      else if !slots[|slots| - 1].valid then Some(|slots| - 1)
      else None
  }

  /** Where a store goes. */
  function Target(c: Cache, key: Bytes): (k: nat)
    requires Shape(c)
    ensures k < SLOTS
  {
    var same, free := FindKey(c.slots, key), FindFree(c.slots);
    if same.Some? then same.value else if free.Some? then free.value else c.next
  }

  function Store(c: Cache, key: Bytes, value: Bytes, expiry: nat): (d: Cache)
    requires Shape(c)
    ensures Shape(d)
  {
    var full := FindKey(c.slots, key).None? && FindFree(c.slots).None?;
    Cache(c.slots[Target(c, key) := Slot(true, key, value, expiry)], if full then (c.next + 1) % SLOTS else c.next)
  }

  /** An expired slot is dropped when a lookup passes it. */
  function Aged(s: Slot, now: nat): Slot {
    if s.valid && s.expiry <= now then s.(valid := false) else s
  }

  function Sweep(slots: seq<Slot>, n: nat, now: nat): (r: seq<Slot>)
    requires n <= |slots|
    ensures |r| == |slots|
  {
    seq(|slots|, i requires 0 <= i < |slots| => if i < n then Aged(slots[i], now) else slots[i])
  }

  /** The first slot that answers a lookup. */
  function Hit(slots: seq<Slot>, key: Bytes, now: nat): (r: Option<nat>)
    ensures r.Some? ==> r.value < |slots| && Holds(slots[r.value], key) && now < slots[r.value].expiry
    ensures r.None? ==> forall i :: 0 <= i < |slots| ==> !(Holds(slots[i], key) && now < slots[i].expiry)
    decreases |slots|
  {
    if slots == [] then None
    else
      var rest := Hit(slots[..|slots| - 1], key, now);
      var last := slots[|slots| - 1];
      if rest.Some? then rest
      else if Holds(last, key) && now < last.expiry then Some(|slots| - 1)
      else None
  }

  function Lookup(c: Cache, key: Bytes, now: nat): Option<Bytes> {
    var hit := Hit(c.slots, key, now);
    if hit.Some? then Some(c.slots[hit.value].value) else None
  }

  function AfterLookup(c: Cache, key: Bytes, now: nat): Cache {
    var hit := Hit(c.slots, key, now);
    c.(slots := Sweep(c.slots, if hit.Some? then hit.value else |c.slots|, now))
  }

  function Step(c: Cache, e: Event, ttl: nat): Cache
    requires Shape(c)
  {
    match e
    case StoreAt(key, value, now) => Store(c, key, value, now + ttl)
    case LookupAt(key, now) => AfterLookup(c, key, now)
  }

  /** The reference: the last store of every key, forever. */
  function Latest(m: map<Bytes, Entry>, e: Event, ttl: nat): map<Bytes, Entry> {
    match e
    case StoreAt(key, value, now) => m[key := Entry(value, now + ttl)]
    case LookupAt(_, _) => m
  }

  function Init(): Cache {
    Cache(seq(SLOTS, _ => Slot(false, [], [], 0)), 0)
  }

  /** No two slots hold one key, and what a slot holds is the key's last store. */
  predicate Sound(c: Cache, m: map<Bytes, Entry>)
    ensures Sound(c, m) ==> Shape(c)
  {
    && Shape(c)
    && (forall i, j :: 0 <= i < j < SLOTS && c.slots[i].valid && c.slots[j].valid ==> c.slots[i].key != c.slots[j].key)
    && (forall i :: 0 <= i < SLOTS && c.slots[i].valid ==>
          c.slots[i].key in m && m[c.slots[i].key] == Entry(c.slots[i].value, c.slots[i].expiry))
  }

  /** Every store that is still good at `clock` is in some slot. */
  predicate Complete(c: Cache, m: map<Bytes, Entry>, clock: nat)
    requires Shape(c)
  {
    forall key :: key in m && clock < m[key].expiry ==> FindKey(c.slots, key).Some?
  }

  /** Swapping in one key's slot changes who holds what only for that key and the slot's old one. */
  lemma StoreSound(c: Cache, m: map<Bytes, Entry>, key: Bytes, value: Bytes, expiry: nat)
    requires Sound(c, m)
    ensures Sound(Store(c, key, value, expiry), m[key := Entry(value, expiry)])
  {
    var k := Target(c, key);
    var d := Store(c, key, value, expiry);
    forall i | 0 <= i < SLOTS && i != k && c.slots[i].valid
      ensures c.slots[i].key != key
    {
      if FindKey(c.slots, key).None? {
        assert !Holds(c.slots[i], key);
      }
    }
  }

  lemma LookupSound(c: Cache, m: map<Bytes, Entry>, key: Bytes, now: nat)
    requires Sound(c, m)
    ensures Sound(AfterLookup(c, key, now), m)
  {
  }

  /** The keys in use. */
  function Keys(slots: seq<Slot>): set<Bytes> {
    set i | 0 <= i < |slots| && slots[i].valid :: slots[i].key
  }

  lemma {:induction false} KeysCount(slots: seq<Slot>)
    requires forall i :: 0 <= i < |slots| ==> slots[i].valid
    requires forall i, j :: 0 <= i < j < |slots| ==> slots[i].key != slots[j].key
    ensures |Keys(slots)| == |slots|
    decreases |slots|
  {
    if slots != [] {
      var n := |slots| - 1;
      var init := slots[..n];
      KeysCount(init);
      assert Keys(slots) == Keys(init) + {slots[n].key};
      assert slots[n].key !in Keys(init);
    }
  }

  lemma SubsetSize(a: set<Bytes>, b: set<Bytes>)
    requires a <= b
    ensures |a| <= |b|
  {
    assert b == a + (b - a);
    assert |a + (b - a)| == |a| + |b - a|;
  }

  /** With fewer than eight keys known besides a new one, some slot is free. */
  lemma RoomLeft(c: Cache, m: map<Bytes, Entry>)
    requires Sound(c, m) && |m| < SLOTS
    ensures FindFree(c.slots).Some?
  {
    if FindFree(c.slots).None? {
      KeysCount(c.slots);
      SubsetSize(Keys(c.slots), m.Keys);
    }
  }

  /** A store keeps every other key findable unless it takes that key's slot. */
  lemma StoreKeeps(c: Cache, m: map<Bytes, Entry>, key: Bytes, value: Bytes, expiry: nat, other: Bytes)
    requires Sound(c, m) && other != key && FindKey(c.slots, other).Some?
    ensures FindKey(Store(c, key, value, expiry).slots, other).Some? <==>
            !(FindKey(c.slots, key).None? && FindFree(c.slots).None? && c.slots[c.next].key == other)
  {
    hide FindKey, FindFree;
    var k, d, i := Target(c, key), Store(c, key, value, expiry), FindKey(c.slots, other).value;
    if i != k {
      assert Holds(d.slots[i], other);
    } else {
      assert forall j :: 0 <= j < SLOTS ==> !Holds(d.slots[j], other);
    }
  }

  lemma StoreComplete(c: Cache, m: map<Bytes, Entry>, key: Bytes, value: Bytes, expiry: nat, clock: nat)
    requires Sound(c, m) && Complete(c, m, clock) && |m[key := Entry(value, expiry)]| <= SLOTS
    ensures Complete(Store(c, key, value, expiry), m[key := Entry(value, expiry)], clock)
  {
    hide FindKey, FindFree, Store;
    var d, n := Store(c, key, value, expiry), m[key := Entry(value, expiry)];
    StoreFinds(c, key, value, expiry);
    KeyFoundOrRoom(c, m, key, value, expiry);
    forall other | other in n && other != key && clock < n[other].expiry
      ensures FindKey(d.slots, other).Some?
    {
      StoreKeeps(c, m, key, value, expiry, other);
    }
  }

  lemma StoreFinds(c: Cache, key: Bytes, value: Bytes, expiry: nat)
    requires Shape(c)
    ensures FindKey(Store(c, key, value, expiry).slots, key).Some?
  {
    hide FindKey, FindFree;
    assert Holds(Store(c, key, value, expiry).slots[Target(c, key)], key);
  }

  lemma KeyFoundOrRoom(c: Cache, m: map<Bytes, Entry>, key: Bytes, value: Bytes, expiry: nat)
    requires Sound(c, m) && |m[key := Entry(value, expiry)]| <= SLOTS
    ensures FindKey(c.slots, key).Some? || FindFree(c.slots).Some?
  {
    hide FindKey, FindFree;
    var n := m[key := Entry(value, expiry)];
    if key !in m {
      assert n.Keys == m.Keys + {key};
      assert |n.Keys| == |m.Keys| + 1;
      RoomLeft(c, m);
    } else if FindKey(c.slots, key).None? && FindFree(c.slots).None? {
      KeysCount(c.slots);
      assert n.Keys == m.Keys;
      assert key !in Keys(c.slots);
      SubsetSize(Keys(c.slots) + {key}, m.Keys);
    }
  }

  lemma LookupComplete(c: Cache, m: map<Bytes, Entry>, key: Bytes, clock: nat, now: nat)
    requires Sound(c, m) && Complete(c, m, clock) && clock <= now
    ensures Complete(AfterLookup(c, key, now), m, now)
  {
    hide FindKey, Hit;
    var d := AfterLookup(c, key, now);
    forall other | other in m && now < m[other].expiry
      ensures FindKey(d.slots, other).Some?
    {
      var i := FindKey(c.slots, other).value;
      assert Holds(d.slots[i], other);
    }
  }

  /** A hit is the key's last store and has not expired: in any run, whatever the clock does. */
  lemma HitIsLatest(c: Cache, m: map<Bytes, Entry>, key: Bytes, now: nat)
    requires Sound(c, m)
    ensures Lookup(c, key, now).Some? ==>
            key in m && m[key].value == Lookup(c, key, now).value && now < m[key].expiry
  {
  }

  /** While nothing has been squeezed out, a lookup is exactly the timed map. */
  lemma LookupExact(c: Cache, m: map<Bytes, Entry>, key: Bytes, clock: nat, now: nat)
    requires Sound(c, m) && Complete(c, m, clock) && clock <= now
    ensures Lookup(c, key, now) == if key in m && now < m[key].expiry then Some(m[key].value) else None
  {
    hide FindKey, Hit;
    HitIsLatest(c, m, key, now);
    if key in m && now < m[key].expiry {
      var i := FindKey(c.slots, key).value;
      assert Holds(c.slots[i], key) && now < c.slots[i].expiry;
    }
  }

  function Run(c: Cache, es: seq<Event>, ttl: nat): Cache
    requires Shape(c)
    decreases |es|
  {
    if es == [] then c else Run(Step(c, es[0], ttl), es[1..], ttl)
  }

  function LatestRun(m: map<Bytes, Entry>, es: seq<Event>, ttl: nat): map<Bytes, Entry>
    decreases |es|
  {
    if es == [] then m else LatestRun(Latest(m, es[0], ttl), es[1..], ttl)
  }

  lemma {:induction false} RunSound(c: Cache, m: map<Bytes, Entry>, es: seq<Event>, ttl: nat)
    requires Sound(c, m)
    ensures Sound(Run(c, es, ttl), LatestRun(m, es, ttl))
    decreases |es|
  {
    hide Sound, Store, AfterLookup;
    if es != [] {
      match es[0] {
        case StoreAt(key, value, now) => StoreSound(c, m, key, value, now + ttl);
        case LookupAt(key, now) => LookupSound(c, m, key, now);
      }
      RunSound(Step(c, es[0], ttl), Latest(m, es[0], ttl), es[1..], ttl);
    }
  }

  /** The times of a run never go back, from `clock` on. */
  predicate Monotone(clock: nat, es: seq<Event>)
    decreases |es|
  {
    es == [] || (clock <= es[0].now && Monotone(es[0].now, es[1..]))
  }

  function Last(clock: nat, es: seq<Event>): nat {
    if es == [] then clock else es[|es| - 1].now
  }

  lemma {:induction false} LatestGrows(m: map<Bytes, Entry>, es: seq<Event>, ttl: nat)
    ensures m.Keys <= LatestRun(m, es, ttl).Keys && |m| <= |LatestRun(m, es, ttl)|
    decreases |es|
  {
    if es != [] {
      LatestGrows(Latest(m, es[0], ttl), es[1..], ttl);
    }
    SubsetSize(m.Keys, LatestRun(m, es, ttl).Keys);
  }

  lemma CompleteLater(c: Cache, m: map<Bytes, Entry>, clock: nat, now: nat)
    requires Shape(c) && Complete(c, m, clock) && clock <= now
    ensures Complete(c, m, now)
  {
  }

  lemma {:induction false} RunComplete(c: Cache, m: map<Bytes, Entry>, clock: nat, es: seq<Event>, ttl: nat)
    requires Sound(c, m) && Complete(c, m, clock) && Monotone(clock, es)
    requires |LatestRun(m, es, ttl)| <= SLOTS
    ensures Sound(Run(c, es, ttl), LatestRun(m, es, ttl))
    ensures Complete(Run(c, es, ttl), LatestRun(m, es, ttl), Last(clock, es))
    decreases |es|
  {
    hide Sound, Store, AfterLookup, Complete;
    if es != [] {
      LatestGrows(Latest(m, es[0], ttl), es[1..], ttl);
      CompleteLater(c, m, clock, es[0].now);
      match es[0] {
        case StoreAt(key, value, now) =>
          StoreSound(c, m, key, value, now + ttl);
          StoreComplete(c, m, key, value, now + ttl, now);
        case LookupAt(key, now) =>
          LookupSound(c, m, key, now);
          LookupComplete(c, m, key, clock, now);
      }
      assert Last(clock, es) == Last(es[0].now, es[1..]);
      RunComplete(Step(c, es[0], ttl), Latest(m, es[0], ttl), es[0].now, es[1..], ttl);
    }
  }

  /** Over any run from an empty cache: a hit is the most recent store of its key, unexpired; and while at
      most eight keys have ever been stored and the clock never runs back, every unexpired store is found. */
  lemma AgreesWithTimedMap(es: seq<Event>, ttl: nat, key: Bytes, now: nat)
    ensures var c, m := Run(Init(), es, ttl), LatestRun(map[], es, ttl);
            && Sound(c, m)
            && (Lookup(c, key, now).Some? ==>
                  key in m && m[key].value == Lookup(c, key, now).value && now < m[key].expiry)
            && (|m| <= SLOTS && Monotone(0, es) && Last(0, es) <= now ==>
                  Lookup(c, key, now) == if key in m && now < m[key].expiry then Some(m[key].value) else None)
  {
    hide Lookup;
    var c, m := Run(Init(), es, ttl), LatestRun(map[], es, ttl);
    RunSound(Init(), map[], es, ttl);
    HitIsLatest(c, m, key, now);
    if |m| <= SLOTS && Monotone(0, es) && Last(0, es) <= now {
      RunComplete(Init(), map[], 0, es, ttl);
      LookupExact(c, m, key, Last(0, es), now);
    }
  }

  /** The bound of eight is exact: a store of a new key into eight used slots loses the key whose turn it
      is, however fresh, and no other. */
  lemma NinthKeyEvicts(c: Cache, m: map<Bytes, Entry>, key: Bytes, value: Bytes, expiry: nat, other: Bytes, now: nat)
    requires Sound(c, m) && FindKey(c.slots, key).None? && FindFree(c.slots).None? && other != key
    requires Lookup(c, other, now).Some?
    ensures Lookup(Store(c, key, value, expiry), other, now).None? <==> c.slots[c.next].key == other
  {
    hide FindKey, FindFree, Hit;
    var d, i := Store(c, key, value, expiry), Hit(c.slots, other, now).value;
    if i != c.next {
      assert d.slots[i] == c.slots[i];
    }
  }

  /** `n` different keys stored at time 0. */
  function FirstKeys(n: nat): seq<Event>
    requires n <= 256
  {
    seq(n, i requires 0 <= i < n => StoreAt([i], [i], 0))
  }

  /** The table they fill, slot by slot. */
  function FilledBy(n: nat, ttl: nat): Cache
    requires n <= SLOTS
  {
    Cache(seq(SLOTS, i requires 0 <= i < SLOTS =>
            if i < n then Slot(true, [i], [i], ttl) else Slot(false, [], [], 0)), 0)
  }

  lemma StepShape(c: Cache, e: Event, ttl: nat)
    requires Shape(c)
    ensures Shape(Step(c, e, ttl))
  {
  }

  lemma {:induction false} RunAppend(c: Cache, es: seq<Event>, e: Event, ttl: nat)
    requires Shape(c)
    ensures Shape(Run(c, es, ttl)) && Run(c, es + [e], ttl) == Step(Run(c, es, ttl), e, ttl)
    decreases |es|
  {
    hide Step, Shape;
    if es == [] {
      StepShape(c, e, ttl);
      assert es + [e] == [e] && [e][1..] == [];
      assert Run(c, [e], ttl) == Run(Step(c, e, ttl), [], ttl);
    } else {
      StepShape(c, es[0], ttl);
      RunAppend(Step(c, es[0], ttl), es[1..], e, ttl);
      assert (es + [e])[0] == es[0] && (es + [e])[1..] == es[1..] + [e];
    }
  }

  lemma {:induction false} LatestAppend(m: map<Bytes, Entry>, es: seq<Event>, e: Event, ttl: nat)
    ensures LatestRun(m, es + [e], ttl) == Latest(LatestRun(m, es, ttl), e, ttl)
    decreases |es|
  {
    hide Latest;
    if es == [] {
      assert es + [e] == [e] && [e][1..] == [];
      assert LatestRun(m, [e], ttl) == LatestRun(Latest(m, e, ttl), [], ttl);
    } else {
      LatestAppend(Latest(m, es[0], ttl), es[1..], e, ttl);
      assert (es + [e])[0] == es[0] && (es + [e])[1..] == es[1..] + [e];
    }
  }

  lemma FillNext(n: nat, ttl: nat)
    requires n < SLOTS
    ensures Store(FilledBy(n, ttl), [n], [n], ttl) == FilledBy(n + 1, ttl)
  {
    hide FindKey, FindFree;
    var c := FilledBy(n, ttl);
    assert forall i :: 0 <= i < SLOTS ==> !Holds(c.slots[i], [n]);
    var f := FindFree(c.slots);
    assert !c.slots[n].valid && f == Some(n);
    assert c.slots[n := Slot(true, [n], [n], ttl)] == FilledBy(n + 1, ttl).slots;
  }

  lemma {:induction false} FillRun(n: nat, ttl: nat)
    requires n <= SLOTS
    ensures Run(Init(), FirstKeys(n), ttl) == FilledBy(n, ttl)
    decreases n
  {
    hide Store, Run;
    if n == 0 {
      FillNone(ttl);
    } else {
      FillRun(n - 1, ttl);
      FillNext(n - 1, ttl);
      assert FirstKeys(n) == FirstKeys(n - 1) + [StoreAt([n - 1], [n - 1], 0)];
      RunAppend(Init(), FirstKeys(n - 1), StoreAt([n - 1], [n - 1], 0), ttl);
    }
  }

  lemma FillNone(ttl: nat)
    ensures Run(Init(), FirstKeys(0), ttl) == FilledBy(0, ttl)
  {
  }

  lemma {:induction false} KnownKeys(n: nat, ttl: nat)
    requires 0 < n <= 256
    ensures var m := LatestRun(map[], FirstKeys(n), ttl); [0] in m && m[[0]] == Entry([0], ttl)
    decreases n
  {
    hide LatestRun;
    var e := StoreAt([n - 1], [n - 1], 0);
    assert FirstKeys(n) == FirstKeys(n - 1) + [e];
    LatestAppend(map[], FirstKeys(n - 1), e, ttl);
    if n > 1 {
      KnownKeys(n - 1, ttl);
    }
  }

  /** It happens: nine keys stored at once, and the first is not found although it has not expired. */
  lemma NineKeysLoseOne(ttl: nat)
    requires ttl > 0
    ensures var es := FirstKeys(9);
            var m := LatestRun(map[], es, ttl);
            && [0] in m && 0 < m[[0]].expiry
            && Lookup(Run(Init(), es, ttl), [0], 0) == None
  {
    hide FindKey, FindFree, Hit, Run;
    KnownKeys(9, ttl);
    FillRun(8, ttl);
    var c, e := FilledBy(8, ttl), StoreAt([8], [8], 0);
    assert FirstKeys(9) == FirstKeys(8) + [e];
    RunAppend(Init(), FirstKeys(8), e, ttl);
    assert forall i :: 0 <= i < SLOTS ==> c.slots[i].valid && !Holds(c.slots[i], [8]);
    assert FindKey(c.slots, [8]) == None && FindFree(c.slots) == None;
    var d := Step(c, e, ttl);
    assert forall i :: 0 <= i < SLOTS ==> !Holds(d.slots[i], [0]);
  }
}
