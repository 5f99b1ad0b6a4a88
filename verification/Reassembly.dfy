/** The TLS receive path as functions on values: a queue of in-order bytes, the next
    expected sequence number, and a table of segments parked out of order. */
module Reassembly {
  import opened Words

  const SLOTS: nat := 32
  const SLOT_MAX: nat := 4096
  const RX_CAP: nat := 262144

  datatype Slot = Free | Held(seqno: U32, data: seq<Byte>)

  /** `resets` counts overflow resets; `dropped` counts segments refused for want of room. */
  datatype Rx = Rx(ack: U32, queue: seq<Byte>, slots: seq<Slot>, resets: nat, dropped: nat)

  datatype Outcome = Empty | Old | Advanced | Replaced | Duplicate | Stored | Oversize | NoSlot

  /** Queue in-order bytes; when they do not fit even after compaction, the queue is discarded. */
  function Enqueue(rx: Rx, data: seq<Byte>): Rx {
    if data == [] then rx
    else if |rx.queue| + |data| <= RX_CAP then rx.(queue := rx.queue + data)
    else rx.(queue := [], resets := rx.resets + 1)
  }

  /** Queue bytes and move the acknowledgement past them, whether or not they fitted. */
  function Deliver(rx: Rx, data: seq<Byte>): Rx {
    Enqueue(rx, data).(ack := WrapAdd(rx.ack, |data|))
  }

  /** The parked slot among the first `k` that starts earliest, at or before `ack`; `|slots|` if none. */
  function Best(slots: seq<Slot>, ack: U32, k: nat): (b: nat)
    requires k <= |slots|
    ensures b < k || b == |slots|
    ensures b < k ==> slots[b].Held? && SeqCmp(slots[b].seqno, ack) <= 0
  {
    if k == 0 then |slots|
    else
      var b := Best(slots, ack, k - 1);
      var s := slots[k - 1];
      if s.Held? && SeqCmp(s.seqno, ack) <= 0 && (b == |slots| || SeqCmp(s.seqno, slots[b].seqno) < 0)
      then k - 1 else b
  }

  function HeldCount(slots: seq<Slot>): nat {
    if slots == [] then 0 else (if slots[0].Held? then 1 else 0) + HeldCount(slots[1..])
  }

  lemma {:induction false} HeldCountFree(slots: seq<Slot>, b: nat)
    requires b < |slots| && slots[b].Held?
    ensures HeldCount(slots[b := Free]) == HeldCount(slots) - 1
  {
    if b > 0 {
      HeldCountFree(slots[1..], b - 1);
      assert slots[b := Free][1..] == slots[1..][b - 1 := Free];
    } else {
      assert slots[b := Free][1..] == slots[1..];
    }
  }

  /** The bytes of slot `s` at or beyond `ack`, for a slot that starts at or before it. */
  function Fresh(s: Slot, ack: U32): seq<Byte>
    requires s.Held? && SeqCmp(s.seqno, ack) <= 0
  {
    var overlap := if SeqCmp(s.seqno, ack) < 0 then WrapSub(ack, s.seqno) else 0;
    if overlap < |s.data| then s.data[overlap..] else []
  }

  /** Take the best slot: deliver what is fresh in it and free it. */
  function ReplayOne(rx: Rx, b: nat): Rx
    requires b < |rx.slots| && rx.slots[b].Held? && SeqCmp(rx.slots[b].seqno, rx.ack) <= 0
  {
    Deliver(rx, Fresh(rx.slots[b], rx.ack)).(slots := rx.slots[b := Free])
  }

  /** Replay parked slots until none starts at or before the acknowledgement. */
  function Replay(rx: Rx): Rx
    decreases HeldCount(rx.slots)
  {
    var b := Best(rx.slots, rx.ack, |rx.slots|);
    if b == |rx.slots| then rx
    else HeldCountFree(rx.slots, b); Replay(ReplayOne(rx, b))
  }

  /** All bytes that `Replay` delivers, in order. */
  function Replayed(rx: Rx): seq<Byte>
    decreases HeldCount(rx.slots)
  {
    var b := Best(rx.slots, rx.ack, |rx.slots|);
    if b == |rx.slots| then []
    else
      HeldCountFree(rx.slots, b);
      Fresh(rx.slots[b], rx.ack) + Replayed(ReplayOne(rx, b))
  }

  function FindSeq(slots: seq<Slot>, seqno: U32, from: nat): (i: nat)
    requires from <= |slots|
    ensures from <= i <= |slots|
    ensures i < |slots| ==> slots[i].Held? && slots[i].seqno == seqno
    ensures forall j :: from <= j < i ==> !(slots[j].Held? && slots[j].seqno == seqno)
    decreases |slots| - from
  {
    if from == |slots| || (slots[from].Held? && slots[from].seqno == seqno) then from
    else FindSeq(slots, seqno, from + 1)
  }

  function FindFree(slots: seq<Slot>, from: nat): (i: nat)
    requires from <= |slots|
    ensures from <= i <= |slots|
    ensures i < |slots| ==> slots[i].Free?
    ensures forall j :: from <= j < i ==> slots[j].Held?
    decreases |slots| - from
  {
    if from == |slots| || slots[from].Free? then from else FindFree(slots, from + 1)
  }

  /** Park a segment that starts beyond the acknowledgement. */
  function Park(rx: Rx, seqno: U32, data: seq<Byte>): (r: (Rx, Outcome))
    ensures r.1 != Advanced
  {
    if |data| > SLOT_MAX then (rx.(dropped := rx.dropped + 1), Oversize)
    else
      var i := FindSeq(rx.slots, seqno, 0);
      if i < |rx.slots| then
        if |data| > |rx.slots[i].data| then (rx.(slots := rx.slots[i := Held(seqno, data)]), Replaced)
        else (rx, Duplicate)
      else
        var j := FindFree(rx.slots, 0);
        if j < |rx.slots| then (rx.(slots := rx.slots[j := Held(seqno, data)]), Stored)
        else (rx.(dropped := rx.dropped + 1), NoSlot)
  }

  /** Bytes that start exactly at the acknowledgement. */
  function Accept(rx: Rx, data: seq<Byte>): Rx {
    Replay(Deliver(rx, data))
  }

  /** One arriving segment. */
  function Push(rx: Rx, seqno: U32, data: seq<Byte>): (Rx, Outcome) {
    if data == [] then (rx, Empty)
    else
      var d := SeqCmp(seqno, rx.ack);
      if d > 0 then Park(rx, seqno, data)
      else
        var overlap := if d < 0 then WrapSub(rx.ack, seqno) else 0;
        if overlap >= |data| then (rx, Old)
        else (Accept(rx, data[overlap..]), Advanced)
  }

  /** The application takes up to `max` bytes from the front of the queue. */
  function Take(rx: Rx, max: nat): (Rx, seq<Byte>) {
    var k := if |rx.queue| < max then |rx.queue| else max;
    (rx.(queue := rx.queue[k..]), rx.queue[..k])
  }
}
