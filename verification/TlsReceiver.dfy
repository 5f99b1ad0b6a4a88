/** The TLS receive buffer and its pending-segment table, updated in place. Every method is
    proved equal to the value-level step of module Reassembly. */
module TlsReceiver {
  import opened Words
  import opened Reassembly

  const WANT_READ: int := -0x6900

  class Receiver {
    const rxBuf: array<Byte>
    const pendBuf: array<Byte>  // SLOTS rows of SLOT_MAX bytes
    const pendLen: array<nat>
    const pendSeq: array<U32>
    const pendValid: array<bool>
    var rxLen: nat
    var rxOff: nat
    var ack: U32
    var compactions: U32
    var overflowResets: U32
    var oversizeDropped: U32
    var noSlotDropped: U32
    ghost var slots: seq<Slot>
    ghost var resets: nat
    ghost var oversizes: nat
    ghost var noSlots: nat

    /** Row `i` of the pending table, as a slot. */
    ghost function Row(i: nat): Slot
      requires pendBuf.Length == SLOTS * SLOT_MAX && i < SLOTS
      requires pendLen.Length == SLOTS && pendSeq.Length == SLOTS && pendValid.Length == SLOTS
      requires pendLen[i] <= SLOT_MAX
      reads pendBuf, pendLen, pendSeq, pendValid
    {
      if pendValid[i] then Held(pendSeq[i], pendBuf[i * SLOT_MAX..i * SLOT_MAX + pendLen[i]]) else Free
    }

    ghost predicate Table()
      reads this, pendBuf, pendLen, pendSeq, pendValid
    {
      && pendBuf.Length == SLOTS * SLOT_MAX && pendBuf != rxBuf
      && pendLen.Length == SLOTS && pendSeq.Length == SLOTS && pendValid.Length == SLOTS
      && |slots| == SLOTS
      && forall i :: 0 <= i < SLOTS ==> pendLen[i] <= SLOT_MAX && slots[i] == Row(i)
    }

    ghost predicate Valid()
      reads this, rxBuf, pendBuf, pendLen, pendSeq, pendValid
    {
      && rxBuf.Length == RX_CAP
      && rxOff <= rxLen <= RX_CAP
      && Table()
      && overflowResets == WrapAdd(0, resets)
      && oversizeDropped == WrapAdd(0, oversizes) && noSlotDropped == WrapAdd(0, noSlots)
    }

    ghost function Queue(): seq<Byte>
      requires rxOff <= rxLen <= rxBuf.Length
      reads this, rxBuf
    {
      rxBuf[rxOff..rxLen]
    }

    /** The value of the whole receive path. */
    ghost function State(): Rx
      requires Valid()
      reads this, rxBuf, pendBuf, pendLen, pendSeq, pendValid
    {
      Rx(ack, Queue(), slots, resets, oversizes + noSlots)
    }

    constructor (ack: U32)
      ensures Valid() && fresh(rxBuf) && fresh(pendBuf) && fresh(pendLen) && fresh(pendSeq) && fresh(pendValid)
      ensures State() == Rx(ack, [], seq(SLOTS, _ => Free), 0, 0)
    {
      rxBuf := new Byte[RX_CAP](_ => 0);
      pendBuf := new Byte[SLOTS * SLOT_MAX](_ => 0);
      pendLen := new nat[SLOTS](_ => 0);
      pendSeq := new U32[SLOTS](_ => 0);
      pendValid := new bool[SLOTS](_ => false);
      rxLen, rxOff := 0, 0;
      this.ack := ack;
      compactions, overflowResets, oversizeDropped, noSlotDropped := 0, 0, 0, 0;
      slots, resets, oversizes, noSlots := seq(SLOTS, _ => Free), 0, 0, 0;
    }

    /** Forget everything queued and parked; the acknowledgement and the counters stay. */
    method HardReset()
      requires Valid()
      modifies `rxLen, `rxOff, `slots, pendLen, pendSeq, pendValid
      ensures Valid()
      ensures State() == old(State()).(queue := [], slots := seq(SLOTS, _ => Free))
    {
      rxLen, rxOff := 0, 0;
      var p := 0;
      while p < SLOTS
        invariant 0 <= p <= SLOTS
        invariant forall i :: 0 <= i < p ==> pendLen[i] == 0 && !pendValid[i]
        modifies pendLen, pendSeq, pendValid
      {
        pendLen[p], pendSeq[p], pendValid[p] := 0, 0, false;
        p := p + 1;
      }
      slots := seq(SLOTS, _ => Free);
    }

    /** Hand out up to `len` queued bytes. */
    method Recv(dst: array<Byte>, len: nat) returns (n: int)
      requires Valid() && len <= dst.Length
      requires dst != rxBuf && dst != pendBuf
      modifies `rxLen, `rxOff, dst
      ensures Valid()
      ensures var (rx, bytes) := Take(old(State()), len);
              && State() == rx
              && (old(Queue()) == [] ==> n == WANT_READ && dst[..] == old(dst[..]))
              && (old(Queue()) != [] ==> n == |bytes| && dst[..] == bytes + old(dst[|bytes|..]))
    {
      var available := rxLen - rxOff;
      if available == 0 {
        return WANT_READ;
      }
      n := if available < len then available else len;
      forall i | 0 <= i < n {
        dst[i] := rxBuf[rxOff + i];
      }
      assert dst[..] == Queue()[..n] + old(dst[n..]);
      rxOff := rxOff + n;
      if rxOff >= rxLen {
        rxOff, rxLen := 0, 0;
      }
    }

    /** Move the queued bytes to the front of the buffer. */
    method Compact()
      requires Valid()
      modifies `rxLen, `rxOff, `compactions, rxBuf
      ensures Valid() && rxOff == 0 && Queue() == old(Queue())
    {
      var remaining := rxLen - rxOff;
      forall i | 0 <= i < remaining {
        rxBuf[i] := rxBuf[rxOff + i];
      }
      rxLen, rxOff := remaining, 0;
      compactions := WrapAdd(compactions, 1);
    }

    /** Copy bytes behind the queue. */
    method Append(data: seq<Byte>)
      requires Valid() && rxLen + |data| <= RX_CAP
      modifies `rxLen, rxBuf
      ensures Valid() && Queue() == old(Queue()) + data
    {
      var i := 0;
      while i < |data|
        invariant 0 <= i <= |data|
        invariant rxBuf[..rxLen] == old(rxBuf[..rxLen])
        invariant rxBuf[rxLen..rxLen + i] == data[..i]
        modifies rxBuf
      {
        rxBuf[rxLen + i] := data[i];
        i := i + 1;
      }
      rxLen := rxLen + |data|;
      assert rxBuf[rxOff..rxLen] == rxBuf[..old(rxLen)][rxOff..] + rxBuf[old(rxLen)..rxLen];
    }

    /** Append in-order bytes; when they cannot fit, discard the queue and count a reset. */
    method PushPayload(data: seq<Byte>)
      requires Valid()
      modifies `rxLen, `rxOff, `compactions, `overflowResets, `resets, rxBuf
      ensures Valid()
      ensures State() == Enqueue(old(State()), data)
    {
      if data == [] {
        return;
      }
      if rxOff >= rxLen {
        rxLen, rxOff := 0, 0;
      }
      if rxLen + |data| > rxBuf.Length && rxOff > 0 {
        Compact();
      }
      assert Queue() == old(Queue());
      if rxLen + |data| > rxBuf.Length {
        rxLen, rxOff := 0, 0;
        WrapAddAdd(0, resets, 1);
        overflowResets := WrapAdd(overflowResets, 1);
        resets := resets + 1;
        return;
      }
      Append(data);
    }

    /** Copy a segment into row `k`, leaving every other row as it is. */
    method FillRow(k: nat, data: seq<Byte>)
      requires Valid() && k < SLOTS && |data| <= SLOT_MAX
      modifies pendBuf
      ensures pendBuf[k * SLOT_MAX..k * SLOT_MAX + |data|] == data
      ensures forall j :: 0 <= j < k * SLOT_MAX || (k + 1) * SLOT_MAX <= j < pendBuf.Length ==>
                            pendBuf[j] == old(pendBuf[j])
    {
      var base := k * SLOT_MAX;
      var i := 0;
      while i < |data|
        invariant 0 <= i <= |data|
        invariant pendBuf[base..base + i] == data[..i]
        invariant forall j :: 0 <= j < base || base + SLOT_MAX <= j < pendBuf.Length ==> pendBuf[j] == old(pendBuf[j])
        modifies pendBuf
      {
        pendBuf[base + i] := data[i];
        i := i + 1;
      }
    }

    /** Hold a segment in slot `k`. */
    method Store(k: nat, seqno: U32, data: seq<Byte>)
      requires Valid() && k < SLOTS && |data| <= SLOT_MAX
      modifies `slots, pendBuf, pendLen, pendSeq, pendValid
      ensures Valid()
      ensures State() == old(State()).(slots := old(slots)[k := Held(seqno, data)])
    {
      FillRow(k, data);
      pendLen[k], pendSeq[k], pendValid[k] := |data|, seqno, true;
      slots := slots[k := Held(seqno, data)];
      forall i | 0 <= i < SLOTS && i != k ensures slots[i] == Row(i) {
        assert old(slots[i] == Row(i));
        RowsApart(i, k);
      }
    }

    lemma RowsApart(i: nat, k: nat)
      requires i != k
      ensures (i + 1) * SLOT_MAX <= k * SLOT_MAX || (k + 1) * SLOT_MAX <= i * SLOT_MAX
    {
    }

    /** Free slot `k`. */
    method Release(k: nat)
      requires Valid() && k < SLOTS
      modifies `slots, pendLen, pendValid
      ensures Valid()
      ensures State() == old(State()).(slots := old(slots)[k := Free])
    {
      pendValid[k] := false;
      pendLen[k] := 0;
      slots := slots[k := Free];
    }

    /** The pending slot to replay next, or SLOTS. */
    method FindBest() returns (best: nat)
      requires Valid()
      ensures best == Best(slots, ack, SLOTS)
    {
      best := SLOTS;
      var bestSeq := 0;
      var slot := 0;
      while slot < SLOTS
        invariant 0 <= slot <= SLOTS
        invariant best == Best(slots, ack, slot)
        invariant best < SLOTS ==> bestSeq == slots[best].seqno
      {
        assert slots[slot] == Row(slot);
        if pendValid[slot] && SeqCmp(pendSeq[slot], ack) <= 0 {
          if best == SLOTS || SeqCmp(pendSeq[slot], bestSeq) < 0 {
            best, bestSeq := slot, pendSeq[slot];
          }
        }
        slot := slot + 1;
      }
    }

    /** Replay one pending slot. */
    method ReplaySlot(best: nat)
      requires Valid() && best < SLOTS && slots[best].Held? && SeqCmp(slots[best].seqno, ack) <= 0
      modifies `rxLen, `rxOff, `ack, `compactions, `overflowResets, `resets, `slots
      modifies rxBuf, pendLen, pendValid
      ensures Valid()
      ensures State() == ReplayOne(old(State()), best)
    {
      assert slots[best] == Row(best);
      var pendingLen := pendLen[best];
      var overlap := if SeqCmp(pendSeq[best], ack) < 0 then WrapSub(ack, pendSeq[best]) else 0;
      if overlap < pendingLen {
        var base := best * SLOT_MAX + overlap;
        var bytes := pendBuf[base..base + (pendingLen - overlap)];
        assert bytes == Fresh(slots[best], ack);
        PushPayload(bytes);
        ack := WrapAdd(ack, |bytes|);
      }
      Release(best);
    }

    /** Replay pending slots until none starts at or before the acknowledgement. */
    method ReplayAll()
      requires Valid()
      modifies `rxLen, `rxOff, `ack, `compactions, `overflowResets, `resets, `slots
      modifies rxBuf, pendLen, pendValid
      ensures Valid()
      ensures State() == Replay(old(State()))
    {
      hide SeqCmp, Fresh, Deliver, Best, HeldCount;
      var best := FindBest();
      while best != SLOTS
        invariant Valid()
        invariant best == Best(slots, ack, SLOTS)
        invariant Replay(State()) == Replay(old(State()))
        decreases HeldCount(slots)
      {
        HeldCountFree(slots, best);
        ReplaySlot(best);
        best := FindBest();
      }
    }

    /** The pending slot that starts at `seqno`, or SLOTS. */
    method FindSame(seqno: U32) returns (slot: nat)
      requires Valid()
      ensures slot == FindSeq(slots, seqno, 0)
    {
      slot := 0;
      while slot < SLOTS && !(pendValid[slot] && pendSeq[slot] == seqno)
        invariant 0 <= slot <= SLOTS
        invariant FindSeq(slots, seqno, 0) == FindSeq(slots, seqno, slot)
      {
        assert slots[slot] == Row(slot);
        slot := slot + 1;
      }
      assert slot < SLOTS ==> slots[slot] == Row(slot);
    }

    /** The first vacant pending slot, or SLOTS. */
    method FindVacant() returns (slot: nat)
      requires Valid()
      ensures slot == FindFree(slots, 0)
    {
      slot := 0;
      while slot < SLOTS && pendValid[slot]
        invariant 0 <= slot <= SLOTS
        invariant FindFree(slots, 0) == FindFree(slots, slot)
      {
        assert slots[slot] == Row(slot);
        slot := slot + 1;
      }
      assert slot < SLOTS ==> slots[slot] == Row(slot);
    }

    /** Count a segment refused for its size or for want of a slot. */
    method Refuse(oversize: bool)
      requires Valid()
      modifies `oversizes, `noSlots, `oversizeDropped, `noSlotDropped
      ensures Valid()
      ensures State() == old(State()).(dropped := old(State()).dropped + 1)
    {
      if oversize {
        WrapAddAdd(0, oversizes, 1);
        oversizeDropped, oversizes := WrapAdd(oversizeDropped, 1), oversizes + 1;
      } else {
        WrapAddAdd(0, noSlots, 1);
        noSlotDropped, noSlots := WrapAdd(noSlotDropped, 1), noSlots + 1;
      }
    }

    /** Park a segment that starts beyond the acknowledgement. */
    method ParkSegment(seqno: U32, data: seq<Byte>)
      requires Valid()
      modifies `slots, `oversizes, `noSlots, `oversizeDropped, `noSlotDropped, pendBuf, pendLen, pendSeq, pendValid
      ensures Valid()
      ensures State() == Park(old(State()), seqno, data).0
    {
      hide FindSeq, FindFree;
      if |data| > SLOT_MAX {
        Refuse(true);
        return;
      }
      var same := FindSame(seqno);
      if same < SLOTS {
        assert slots[same] == Row(same);
        if |data| > pendLen[same] {
          Store(same, seqno, data);
        }
        return;
      }
      var vacant := FindVacant();
      if vacant < SLOTS {
        Store(vacant, seqno, data);
        return;
      }
      Refuse(false);
    }

    /** One arriving segment; true when it moved the acknowledgement. */
    method PushSegment(seqno: U32, data: seq<Byte>) returns (advanced: bool)
      requires Valid()
      modifies this, rxBuf, pendBuf, pendLen, pendSeq, pendValid
      ensures Valid()
      ensures State() == Push(old(State()), seqno, data).0
      ensures advanced <==> Push(old(State()), seqno, data).1 == Advanced
    {
      hide Park, Replay, Enqueue;
      if data == [] {
        return false;
      }
      var start, bytes := seqno, data;
      var expected := ack;
      var cmp := SeqCmp(seqno, expected);
      if cmp < 0 {
        var overlap := WrapSub(expected, seqno);
        if overlap >= |data| {
          return false;
        }
        bytes, start := data[overlap..], expected;
      }
      if start == expected {
        PushPayload(bytes);
        ack := WrapAdd(expected, |bytes|);
        ReplayAll();
        return true;
      }
      if WrapSub(start, expected) < HALF32 {
        ParkSegment(start, bytes);
      }
      return false;
    }
  }
}
