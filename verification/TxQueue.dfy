/** The transmit side: one buffer, reused only once the device has returned it. Driver stores, device reads
    and the shared indices interleave freely; the indices are 16 bits wide and wrap. */
module TxQueue {
  import opened Words

  /** The most times the used index is looked at before giving up. */
  const LOOKS: nat := 200_001

  datatype Device = Resting | Reading(got: seq<Byte>)

  /** `accepted` and `wire` record the frames published and transmitted so far. */
  datatype Tx = Tx(
    buf: seq<Byte>,
    len: nat,
    availIdx: U16,
    usedIdx: U16,
    lastSent: U16,
    devIdx: U16,
    building: bool,
    device: Device,
    accepted: seq<seq<Byte>>,
    wire: seq<seq<Byte>>)

  datatype Event =
    | Begins
    | Stores(at: nat, value: Byte)
    | Publishes(len: nat)
    | DeviceStarts
    | DeviceReads
    | DeviceDone

  /** A send begins only when the used index shows the last frame returned; until it publishes it may store
      into the buffer in any order. The device fetches byte by byte. */
  function Step(t: Tx, e: Event): Tx {
    match e
    case Begins =>
      if !t.building && t.usedIdx == t.lastSent then t.(building := true) else t
    case Stores(at, v) =>
      if t.building && at < |t.buf| then t.(buf := t.buf[at := v]) else t
    case Publishes(n) =>
      if t.building && n <= |t.buf| then
        t.(building := false, len := n, availIdx := Inc(t.availIdx), lastSent := Inc(t.availIdx),
           accepted := t.accepted + [t.buf[..n]])
      else t
    case DeviceStarts =>
      if t.device.Resting? && t.devIdx != t.availIdx then t.(device := Reading([]), devIdx := Inc(t.devIdx)) else t
    case DeviceReads =>
      if t.device.Reading? && |t.device.got| < t.len && t.len <= |t.buf| then
        t.(device := Reading(t.device.got + [t.buf[|t.device.got|]]))
      else t
    case DeviceDone =>
      if t.device.Reading? && |t.device.got| == t.len then
        t.(device := Resting, usedIdx := Inc(t.usedIdx), wire := t.wire + [t.device.got])
      else t
  }

  function Run(t: Tx, es: seq<Event>): Tx
    decreases |es|
  {
    if es == [] then t else Run(Step(t, es[0]), es[1..])
  }

  function Init(size: nat): Tx {
    Tx(seq(size, _ => 0), 0, 0, 0, 0, 0, false, Resting, [], [])
  }

  predicate Counted(t: Tx) {
    && t.usedIdx == |t.wire| % 0x1_0000
    && t.availIdx == t.lastSent == |t.accepted| % 0x1_0000
    && t.devIdx == (|t.wire| + if t.device.Reading? then 1 else 0) % 0x1_0000
  }

  /** Everything transmitted is what was accepted, and at most one frame is on its way, untouched. */
  predicate Safe(t: Tx) {
    && Counted(t)
    && |t.wire| <= |t.accepted| <= |t.wire| + 1
    && t.accepted[..|t.wire|] == t.wire
    && (t.building || |t.accepted| == |t.wire| ==> |t.accepted| == |t.wire| && t.device.Resting?)
    && (|t.accepted| > |t.wire| ==> t.len <= |t.buf| && t.buf[..t.len] == t.accepted[|t.wire|])
    && (t.device.Reading? ==> t.device.got <= t.accepted[|t.wire|])
  }

  lemma StepSafe(t: Tx, e: Event)
    requires Safe(t)
    ensures Safe(Step(t, e))
  {
    IncCount(|t.accepted|);
    IncCount(|t.wire|);
    if e.DeviceReads? && Step(t, e) != t {
      var n := |t.device.got|;
      assert t.buf[..t.len][..n + 1] == t.buf[..t.len][..n] + [t.buf[n]];
    }
    if e.DeviceDone? && Step(t, e) != t {
      assert t.device.got == t.accepted[|t.wire|];
      assert t.accepted[..|t.wire| + 1] == t.accepted[..|t.wire|] + [t.accepted[|t.wire|]];
    }
  }

  lemma {:induction false} RunSafe(t: Tx, es: seq<Event>)
    requires Safe(t)
    ensures Safe(Run(t, es))
    decreases |es|
  {
    if es != [] {
      StepSafe(t, es[0]);
      RunSafe(Step(t, es[0]), es[1..]);
    }
  }

  /** In every interleaving the wire carries exactly the accepted frames, in order and intact, with at most
      the last one still to come; a buffer being filled is never one the device may still read. */
  lemma WireIsAccepted(size: nat, es: seq<Event>)
    ensures var t := Run(Init(size), es);
            t.wire <= t.accepted && |t.accepted| <= |t.wire| + 1 &&
            (t.building ==> t.wire == t.accepted && t.device.Resting?)
  {
    RunSafe(Init(size), es);
  }

  /** A send is refused exactly while a frame is on its way: never because an index wrapped. */
  lemma ReadyIff(size: nat, es: seq<Event>)
    ensures var t := Run(Init(size), es); !t.building ==> (Step(t, Begins).building <==> t.wire == t.accepted)
  {
    var t := Run(Init(size), es);
    RunSafe(Init(size), es);
    IncCount(|t.wire|);
  }

  /** `tx_wait_ready`, over the used indices it reads one after another. */
  method TxWaitReady(seen: seq<U16>, lastSent: U16) returns (ready: bool)
    requires |seen| >= LOOKS
    ensures ready <==> lastSent in seen[..LOOKS]
  {
    var spins := 0;
    while true
      invariant spins <= 200_000
      invariant lastSent !in seen[..spins]
      decreases 200_000 - spins
    {
      if seen[spins] == lastSent {
        return true;
      }
      spins := spins + 1;
      if spins > 200_000 {
        return false;
      }
    }
  }
}
