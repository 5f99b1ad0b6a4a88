/** The caches as they run: a table of slots updated in place. The ARP cache keys on addresses, the DNS
    cache on names compared without case. */
module ResolverCaches {
  import opened Words
  import opened TimedCache
  import opened Options

  const ARP_TTL_MS: nat := 120_000
  const DNS_TTL_MS: nat := 60_000
  const NAME_MAX: nat := 256

  function LowerByte(b: Byte): Byte {
    if 'A' as int <= b <= 'Z' as int then b + 32 else b
  }

  function Lower(name: Bytes): (r: Bytes)
    ensures |r| == |name|
  {
    seq(|name|, i requires 0 <= i < |name| => LowerByte(name[i]))
  }

  /** The cache keeps names in lower case, so comparing its names without case is comparing keys. */
  lemma StoredNameMatches(stored: Bytes, name: Bytes)
    ensures Lower(Lower(stored)) == Lower(name) <==> Lower(stored) == Lower(name)
  {
    assert forall i :: 0 <= i < |stored| ==> Lower(Lower(stored))[i] == Lower(stored)[i];
  }

  /** `dns_cache_name_eq`. */
  method NameEq(stored: Bytes, name: Bytes) returns (eq: bool)
    ensures eq <==> Lower(stored) == Lower(name)
  {
    if |stored| != |name| {
      return false;
    }
    var i := 0;
    while i < |name|
      invariant 0 <= i <= |name|
      invariant forall j :: 0 <= j < i ==> LowerByte(stored[j]) == LowerByte(name[j])
    {
      if LowerByte(stored[i]) != LowerByte(name[i]) {
        assert Lower(stored)[i] != Lower(name)[i];
        return false;
      }
      i := i + 1;
    }
    return true;
  }

  /** A name the DNS cache accepts. */
  predicate Cacheable(name: Bytes) {
    0 < |name| <= NAME_MAX
  }

  class Table {
    const slots: array<Slot>
    var next: nat

    ghost predicate Valid()
      reads this, slots
    {
      Shape(State())
    }

    ghost function State(): Cache
      reads this, slots
    {
      Cache(slots[..], next)
    }

    constructor ()
      ensures Valid() && fresh(slots) && State() == Init()
    {
      slots := new Slot[SLOTS](_ => Slot(false, [], [], 0));
      next := 0;
    }

    /** The scan shared by `arp_cache_store` and `dns_cache_store`. */
    method Put(key: Bytes, value: Bytes, expiry: nat)
      requires Valid()
      modifies `next, slots
      ensures Valid() && State() == Store(old(State()), key, value, expiry)
    {
      var slot, target: nat := 0, SLOTS;
      while slot < SLOTS
        invariant 0 <= slot <= SLOTS && target <= SLOTS
        invariant forall i :: 0 <= i < slot ==> !Holds(slots[i], key)
        invariant target == SLOTS ==> forall i :: 0 <= i < slot ==> slots[i].valid
        invariant target < SLOTS ==> target < slot && !slots[target].valid
        invariant target < SLOTS ==> forall i :: 0 <= i < target ==> slots[i].valid
      {
        if slots[slot].valid && slots[slot].key == key {
          target := slot;
          break;
        }
        if !slots[slot].valid && target == SLOTS {
          target := slot;
        }
        slot := slot + 1;
      }
      if target == SLOTS {
        target := next % SLOTS;
        next := (next + 1) % SLOTS;
      }
      slots[target] := Slot(true, key, value, expiry);
      assert slots[..] == old(slots[..])[target := Slot(true, key, value, expiry)];
    }

    /** The scan shared by `lookup_arp_peer` and `dns_cache_lookup`, dropping expired slots on its way. */
    method Get(key: Bytes, now: nat) returns (r: Option<Bytes>)
      requires Valid()
      modifies slots
      ensures Valid() && State() == AfterLookup(old(State()), key, now) && r == Lookup(old(State()), key, now)
    {
      hide FindKey, FindFree;
      ghost var was := slots[..];
      var slot := 0;
      assert slots[..] == Sweep(was, 0, now);
      while slot < SLOTS
        invariant 0 <= slot <= SLOTS
        invariant slots[..] == Sweep(was, slot, now)
        invariant forall i :: 0 <= i < slot ==> !(Holds(was[i], key) && now < was[i].expiry)
      {
        assert slots[slot] == slots[..][slot];
        if slots[slot].valid {
          if slots[slot].expiry <= now {
            slots[slot] := slots[slot].(valid := false);
          } else if slots[slot].key == key {
            FirstHit(was, key, now, slot);
            return Some(slots[slot].value);
          }
        }
        slot := slot + 1;
        assert slots[..] == Sweep(was, slot, now);
      }
      r := None;
    }

    method ArpStore(mac: Bytes, ip: Bytes, now: nat)
      requires Valid()
      modifies `next, slots
      ensures Valid() && State() == Step(old(State()), StoreAt(ip, mac, now), ARP_TTL_MS)
    {
      Put(ip, mac, now + ARP_TTL_MS);
    }

    /** `dns_cache_store`: an empty or overlong name is ignored. */
    method DnsStore(name: Bytes, ip: Bytes, now: nat)
      requires Valid()
      modifies `next, slots
      ensures Valid()
      ensures State() ==
              if Cacheable(name) then Step(old(State()), StoreAt(Lower(name), ip, now), DNS_TTL_MS) else old(State())
    {
      if |name| == 0 || |name| > NAME_MAX {
        return;
      }
      Put(Lower(name), ip, now + DNS_TTL_MS);
    }

    /** `dns_cache_lookup`. */
    method DnsLookup(name: Bytes, now: nat) returns (r: Option<Bytes>)
      requires Valid()
      modifies slots
      ensures Valid()
      ensures r == if Cacheable(name) then Lookup(old(State()), Lower(name), now) else None
      ensures State() == if Cacheable(name) then AfterLookup(old(State()), Lower(name), now) else old(State())
    {
      if |name| == 0 || |name| > NAME_MAX {
        return None;
      }
      r := Get(Lower(name), now);
    }
  }

  /** The scan stops where the specification does. */
  lemma FirstHit(slots: seq<Slot>, key: Bytes, now: nat, k: nat)
    requires k < |slots| && Holds(slots[k], key) && now < slots[k].expiry
    requires forall i :: 0 <= i < k ==> !(Holds(slots[i], key) && now < slots[i].expiry)
    ensures Hit(slots, key, now) == Some(k)
  {
    HitFirst(slots, key, now);
  }

  lemma {:induction false} HitFirst(slots: seq<Slot>, key: Bytes, now: nat)
    ensures var r := Hit(slots, key, now);
            r.Some? ==> forall i :: 0 <= i < r.value ==> !(Holds(slots[i], key) && now < slots[i].expiry)
    decreases |slots|
  {
    if slots != [] {
      HitFirst(slots[..|slots| - 1], key, now);
    }
  }
}
