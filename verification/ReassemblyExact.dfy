/** What one arriving segment does, exactly: how far the acknowledgement moves, which
    slots are released, and when the queue overflows. Positions are signed distances
    from the acknowledgement before the step. */
module ReassemblyExact {
  import opened Words
  import opened Reassembly

  function Off(s: Slot, ack: U32): int
    requires s.Held?
  {
    SeqCmp(s.seqno, ack)
  }

  function End(s: Slot, ack: U32): int
    requires s.Held?
  {
    Off(s, ack) + |s.data|
  }

  /** Slot `s` holds the byte at distance `x` from `ack`. */
  predicate Covers(s: Slot, ack: U32, x: int) {
    s.Held? && Off(s, ack) <= x < End(s, ack)
  }

  predicate SomeCovers(slots: seq<Slot>, ack: U32, x: int) {
    exists i :: 0 <= i < |slots| && Covers(slots[i], ack, x)
  }

  /** No held slot starts more than `back` bytes before `ack`, and each holds 1 to SLOT_MAX bytes. */
  predicate Within(slots: seq<Slot>, ack: U32, back: nat) {
    forall i :: 0 <= i < |slots| && slots[i].Held? ==>
                  0 - back <= Off(slots[i], ack) && 0 < |slots[i].data| <= SLOT_MAX
  }

  /** The state between calls: every parked segment lies strictly beyond the acknowledgement. */
  predicate Ready(rx: Rx) {
    && |rx.queue| <= RX_CAP
    && forall i :: 0 <= i < |rx.slots| && rx.slots[i].Held? ==>
                     0 < Off(rx.slots[i], rx.ack) && 0 < |rx.slots[i].data| <= SLOT_MAX
  }

  lemma OverlapIs(seqno: U32, ack: U32)
    ensures SeqCmp(seqno, ack) < 0 ==> WrapSub(ack, seqno) == -SeqCmp(seqno, ack)
  {
    var d := SeqCmp(seqno, ack);
    if d < 0 {
      var q := (seqno - ack) / TWO32;
      assert seqno - ack == WrapSub(seqno, ack) + TWO32 * q;
      ModIs(ack - seqno, -d, (ack - seqno + d) / TWO32);
    }
  }

  /** The minimum search is right across sequence wrap. */
  lemma {:induction false} BestIsEarliest(slots: seq<Slot>, ack: U32, back: nat, k: nat)
    requires k <= |slots| && back < HALF32
    requires Within(slots, ack, back)
    ensures var b := Best(slots, ack, k);
            forall i :: 0 <= i < k && slots[i].Held? && Off(slots[i], ack) <= 0 ==>
                          b < |slots| && Off(slots[b], ack) <= Off(slots[i], ack)
  {
    if k > 0 {
      BestIsEarliest(slots, ack, back, k - 1);
      var b := Best(slots, ack, k - 1);
      var s := slots[k - 1];
      if b < |slots| && s.Held? && Off(s, ack) <= 0 {
        SeqCmpBetween(s.seqno, slots[b].seqno, ack);
      }
    }
  }

  /** Moving the reference forward by `g` shifts every distance by `g`. */
  lemma Shifted(s: Slot, ack: U32, g: nat)
    requires s.Held? && Off(s, ack) - g >= -HALF32
    ensures Off(s, WrapAdd(ack, g)) == Off(s, ack) - g
  {
    SeqCmpShift(s.seqno, ack, g);
  }

  /** One replay step keeps the window that makes sequence comparison an order. */
  lemma ReplayOneWithin(rx: Rx, back: nat)
    requires SLOT_MAX <= back < HALF32 && Within(rx.slots, rx.ack, back)
    requires Best(rx.slots, rx.ack, |rx.slots|) < |rx.slots|
    ensures var b := Best(rx.slots, rx.ack, |rx.slots|);
            var g := |Fresh(rx.slots[b], rx.ack)|;
            var one := ReplayOne(rx, b);
            && g == (if End(rx.slots[b], rx.ack) > 0 then End(rx.slots[b], rx.ack) else 0)
            && one.ack == WrapAdd(rx.ack, g)
            && one.slots == rx.slots[b := Free]
            && Within(one.slots, one.ack, back)
            && Kept(rx.slots, rx.ack, one.slots, one.ack, g)
  {
    var b := Best(rx.slots, rx.ack, |rx.slots|);
    BestIsEarliest(rx.slots, rx.ack, back, |rx.slots|);
    OverlapIs(rx.slots[b].seqno, rx.ack);
    var g := |Fresh(rx.slots[b], rx.ack)|;
    var one := ReplayOne(rx, b);
    forall i | 0 <= i < |one.slots| && one.slots[i].Held?
      ensures Off(one.slots[i], one.ack) == Off(rx.slots[i], rx.ack) - g
      ensures 0 - back <= Off(one.slots[i], one.ack)
    {
      Shifted(rx.slots[i], rx.ack, g);
    }
  }

  /** `later` is `slots` with some slots released, seen from an acknowledgement `g` bytes further on. */
  predicate Kept(slots: seq<Slot>, ack: U32, later: seq<Slot>, ack': U32, g: int) {
    && |later| == |slots|
    && forall i :: 0 <= i < |later| && later[i].Held? ==>
                     later[i] == slots[i] && Off(later[i], ack') == Off(slots[i], ack) - g
  }

  lemma KeptCovers(slots: seq<Slot>, ack: U32, later: seq<Slot>, ack': U32, g: int, x: int)
    requires Kept(slots, ack, later, ack', g)
    ensures SomeCovers(later, ack', x - g) ==> SomeCovers(slots, ack, x)
  {
    if SomeCovers(later, ack', x - g) {
      var i :| 0 <= i < |later| && Covers(later[i], ack', x - g);
      assert Covers(slots[i], ack, x);
    }
  }

  /** Byte `n` is the first one at or beyond `ack` that no slot holds. */
  predicate FirstMissing(slots: seq<Slot>, ack: U32, n: nat) {
    && (forall x :: 0 <= x < n ==> SomeCovers(slots, ack, x))
    && !SomeCovers(slots, ack, n)
  }

  /** Exactly the slots that start at or before byte `n` have been released. */
  predicate ReleasedUpTo(slots: seq<Slot>, ack: U32, n: nat, later: seq<Slot>) {
    && |later| == |slots|
    && forall i :: 0 <= i < |slots| ==>
                     later[i] == if slots[i].Held? && Off(slots[i], ack) <= n then Free else slots[i]
  }

  /** Releasing slot `b`, which ends at byte `g`, moves the first missing byte from `m` to `g + m`. */
  lemma FirstMissingStep(slots: seq<Slot>, ack: U32, b: nat, ack': U32, g: nat, m: nat)
    requires b < |slots| && slots[b].Held? && Off(slots[b], ack) <= 0
    requires g == if End(slots[b], ack) > 0 then End(slots[b], ack) else 0
    requires Kept(slots, ack, slots[b := Free], ack', g)
    requires FirstMissing(slots[b := Free], ack', m)
    ensures FirstMissing(slots, ack, g + m)
  {
    forall x | 0 <= x < g + m ensures SomeCovers(slots, ack, x) {
      if x < g {
        assert Covers(slots[b], ack, x);
      } else {
        KeptCovers(slots, ack, slots[b := Free], ack', g, x);
      }
    }
    forall i | 0 <= i < |slots| ensures !Covers(slots[i], ack, g + m) {
      assert i != b ==> !Covers(slots[b := Free][i], ack', m);
    }
  }

  lemma {:induction false} ReplayAck(rx: Rx)
    ensures Replay(rx).ack == WrapAdd(rx.ack, |Replayed(rx)|)
    decreases HeldCount(rx.slots)
  {
    var b := Best(rx.slots, rx.ack, |rx.slots|);
    if b < |rx.slots| {
      HeldCountFree(rx.slots, b);
      var one := ReplayOne(rx, b);
      ReplayAck(one);
      WrapAddAdd(rx.ack, |Fresh(rx.slots[b], rx.ack)|, |Replayed(one)|);
    }
  }

  /** The replay loop ends exactly at the first byte that no slot holds, and releases
      only the slots that start at or before it. */
  lemma {:induction false} ReplayExact(rx: Rx, back: nat)
    requires SLOT_MAX <= back < HALF32 && Within(rx.slots, rx.ack, back)
    ensures FirstMissing(rx.slots, rx.ack, |Replayed(rx)|)
    ensures ReleasedUpTo(rx.slots, rx.ack, |Replayed(rx)|, Replay(rx).slots)
    decreases HeldCount(rx.slots)
  {
    var b := Best(rx.slots, rx.ack, |rx.slots|);
    BestIsEarliest(rx.slots, rx.ack, back, |rx.slots|);
    if b < |rx.slots| {
      HeldCountFree(rx.slots, b);
      ReplayOneWithin(rx, back);
      var one := ReplayOne(rx, b);
      ReplayExact(one, back);
      var g, m := |Fresh(rx.slots[b], rx.ack)|, |Replayed(one)|;
      assert Replay(rx) == Replay(one) && |Replayed(rx)| == g + m;
      FirstMissingStep(rx.slots, rx.ack, b, one.ack, g, m);
    } else {
      assert Replay(rx) == rx && Replayed(rx) == [];
    }
  }

  /** Replayed bytes are appended whole exactly when they all fit; otherwise an overflow reset is counted. */
  lemma {:induction false} ReplayQueue(rx: Rx)
    requires |rx.queue| <= RX_CAP
    ensures var fits := |rx.queue| + |Replayed(rx)| <= RX_CAP;
            && |Replay(rx).queue| <= RX_CAP
            && Replay(rx).resets >= rx.resets
            && Replay(rx).dropped == rx.dropped
            && (fits <==> Replay(rx).resets == rx.resets)
            && (fits ==> Replay(rx).queue == rx.queue + Replayed(rx))
    decreases HeldCount(rx.slots)
  {
    hide SeqCmp, Fresh, WrapAdd;
    var b := Best(rx.slots, rx.ack, |rx.slots|);
    if b < |rx.slots| {
      HeldCountFree(rx.slots, b);
      ReplayQueue(ReplayOne(rx, b));
    }
  }

  lemma DeliverShifts(rx: Rx, data: seq<Byte>)
    requires Ready(rx) && |data| < HALF32
    ensures var r := Deliver(rx, data);
            && r.slots == rx.slots
            && Within(r.slots, r.ack, if |data| < SLOT_MAX then SLOT_MAX else |data|)
            && Kept(rx.slots, rx.ack, r.slots, r.ack, |data|)
  {
    var r := Deliver(rx, data);
    forall i | 0 <= i < |r.slots| && r.slots[i].Held?
      ensures Off(r.slots[i], r.ack) == Off(rx.slots[i], rx.ack) - |data|
    {
      Shifted(rx.slots[i], rx.ack, |data|);
    }
  }

  /** All bytes that a run of in-order bytes adds to the stream: itself, then what it unlocks. */
  function Unlocked(rx: Rx, data: seq<Byte>): seq<Byte> {
    data + Replayed(Deliver(rx, data))
  }

  /** Accepting in-order bytes moves the acknowledgement to the first byte missing from the union
      of those bytes and everything parked. */
  lemma AcceptAdvances(rx: Rx, data: seq<Byte>)
    requires Ready(rx) && |data| < HALF32
    ensures var n := |Unlocked(rx, data)|;
            && Accept(rx, data).ack == WrapAdd(rx.ack, n)
            && (forall x :: |data| <= x < n ==> SomeCovers(rx.slots, rx.ack, x))
            && !SomeCovers(rx.slots, rx.ack, n)
  {
    var mid, g := Deliver(rx, data), |data|;
    DeliverShifts(rx, data);
    ReplayExact(mid, if g < SLOT_MAX then SLOT_MAX else g);
    ReplayAck(mid);
    var m := |Replayed(mid)|;
    WrapAddAdd(rx.ack, g, m);
    forall x | g <= x < g + m ensures SomeCovers(rx.slots, rx.ack, x) {
      KeptCovers(rx.slots, rx.ack, mid.slots, mid.ack, g, x);
    }
    forall i | 0 <= i < |rx.slots| ensures !Covers(rx.slots[i], rx.ack, g + m) {
      assert !Covers(mid.slots[i], mid.ack, m);
    }
  }

  lemma ReleasedMid(slots: seq<Slot>, ack: U32, g: nat, ack': U32, m: nat, later: seq<Slot>)
    requires Kept(slots, ack, slots, ack', g) && ReleasedUpTo(slots, ack', m, later)
    ensures ReleasedUpTo(slots, ack, g + m, later)
  {
  }

  lemma ReleasedKept(slots: seq<Slot>, ack: U32, n: nat, later: seq<Slot>)
    requires ReleasedUpTo(slots, ack, n, later)
    ensures Kept(slots, ack, later, WrapAdd(ack, n), n)
    ensures forall i :: 0 <= i < |later| && later[i].Held? ==> Off(later[i], WrapAdd(ack, n)) > 0
  {
    forall i | 0 <= i < |later| && later[i].Held?
      ensures Off(later[i], WrapAdd(ack, n)) == Off(slots[i], ack) - n
    {
      Shifted(slots[i], ack, n);
    }
  }

  /** It releases exactly the slots that the acknowledgement has reached, keeps the rest at their
      places, and again leaves every parked segment beyond the acknowledgement. */
  lemma AcceptReleases(rx: Rx, data: seq<Byte>)
    requires Ready(rx) && |data| < HALF32
    ensures var end, n := Accept(rx, data), |Unlocked(rx, data)|;
            && Ready(end)
            && ReleasedUpTo(rx.slots, rx.ack, n, end.slots)
            && Kept(rx.slots, rx.ack, end.slots, end.ack, n)
  {
    var mid, g := Deliver(rx, data), |data|;
    DeliverShifts(rx, data);
    ReplayExact(mid, if g < SLOT_MAX then SLOT_MAX else g);
    ReplayQueue(mid);
    AcceptAdvances(rx, data);
    var m := |Replayed(mid)|;
    ReleasedMid(rx.slots, rx.ack, g, mid.ack, m, Accept(rx, data).slots);
    ReleasedKept(rx.slots, rx.ack, g + m, Accept(rx, data).slots);
  }

  /** The receive buffer overflows exactly when the added bytes do not fit beside the bytes still
      queued; otherwise they are appended whole. */
  lemma AcceptOverflowsIff(rx: Rx, data: seq<Byte>)
    requires |rx.queue| <= RX_CAP
    ensures var end, gained := Accept(rx, data), Unlocked(rx, data);
            && end.resets >= rx.resets && end.dropped == rx.dropped
            && (end.resets == rx.resets <==> |rx.queue| + |gained| <= RX_CAP)
            && (end.resets == rx.resets ==> end.queue == rx.queue + gained)
  {
    var mid := Deliver(rx, data);
    ReplayQueue(mid);
    assert (rx.queue + data) + Replayed(mid) == rx.queue + Unlocked(rx, data);
  }

  /** The three ways a segment is treated, told apart by its distance from the acknowledgement. */
  lemma PushCases(rx: Rx, seqno: U32, data: seq<Byte>)
    ensures var d := SeqCmp(seqno, rx.ack);
            && (data == [] ==> Push(rx, seqno, data) == (rx, Empty))
            && (data != [] && d + |data| <= 0 ==> Push(rx, seqno, data) == (rx, Old))
            && (d <= 0 < d + |data| ==> Push(rx, seqno, data) == (Accept(rx, data[-d..]), Advanced))
            && (data != [] && d > 0 ==> Push(rx, seqno, data) == Park(rx, seqno, data))
  {
    OverlapIs(seqno, rx.ack);
  }
}
