/** Whole runs of the TLS receive path against the sender's byte stream: whatever the order,
    duplication or overlap of the segments, the application reads exactly the stream. */
module TcpStream {
  import opened Words
  import opened Reassembly
  import opened ReassemblyExact

  /** A segment carries `stream[at..at + len]`; a read asks for up to `max` bytes. */
  datatype Event = Segment(at: nat, len: nat) | Read(max: nat)

  /** The receive path and everything the application has read so far. */
  datatype Conn = Conn(rx: Rx, out: seq<Byte>)

  /** How many stream bytes have been handed out or queued. */
  function Pos(c: Conn): nat {
    |c.out| + |c.rx.queue|
  }

  /** The sender numbers byte `p` of its stream `isn + p` modulo 2^32; segments stay inside the
      stream and within half the sequence space of the acknowledgement. */
  predicate Legal(c: Conn, stream: seq<Byte>, e: Event) {
    match e
    case Segment(at, len) => at + len <= |stream| && len < HALF32 && -HALF32 <= at - Pos(c) < HALF32
    case Read(_) => true
  }

  function Step(c: Conn, isn: U32, stream: seq<Byte>, e: Event): Conn
    requires Legal(c, stream, e)
  {
    match e
    case Segment(at, len) => c.(rx := Push(c.rx, WrapAdd(isn, at), stream[at..at + len]).0)
    case Read(max) => var (rx, bytes) := Take(c.rx, max); Conn(rx, c.out + bytes)
  }

  predicate LegalRun(c: Conn, isn: U32, stream: seq<Byte>, es: seq<Event>)
    decreases |es|
  {
    es == [] || (Legal(c, stream, es[0]) && LegalRun(Step(c, isn, stream, es[0]), isn, stream, es[1..]))
  }

  function Run(c: Conn, isn: U32, stream: seq<Byte>, es: seq<Event>): Conn
    requires LegalRun(c, isn, stream, es)
    decreases |es|
  {
    if es == [] then c else Run(Step(c, isn, stream, es[0]), isn, stream, es[1..])
  }

  function Fresh0(isn: U32): Conn {
    Conn(Rx(isn, [], seq(SLOTS, _ => Free), 0, 0), [])
  }

  /** Slot `s` holds true stream bytes, seen from byte `n`. */
  predicate Agrees(s: Slot, ack: U32, stream: seq<Byte>, n: nat) {
    s.Held? ==>
      && 0 <= n + Off(s, ack) && n + End(s, ack) <= |stream|
      && s.data == stream[n + Off(s, ack)..n + End(s, ack)]
  }

  predicate AllAgree(slots: seq<Slot>, ack: U32, stream: seq<Byte>, n: nat) {
    forall i :: 0 <= i < |slots| ==> Agrees(slots[i], ack, stream, n)
  }

  /** Read bytes followed by queued bytes are a prefix of the stream, the acknowledgement names the
      next byte, and every parked segment is beyond it and holds true stream bytes. */
  predicate Faithful(c: Conn, isn: U32, stream: seq<Byte>) {
    && Ready(c.rx)
    && Pos(c) <= |stream|
    && c.out + c.rx.queue == stream[..Pos(c)]
    && c.rx.ack == WrapAdd(isn, Pos(c))
    && AllAgree(c.rx.slots, c.rx.ack, stream, Pos(c))
  }

  lemma KeptAgrees(slots: seq<Slot>, ack: U32, later: seq<Slot>, ack': U32, g: nat, stream: seq<Byte>, n: nat)
    requires Kept(slots, ack, later, ack', g) && AllAgree(slots, ack, stream, n)
    ensures AllAgree(later, ack', stream, n + g)
  {
    forall i | 0 <= i < |later| ensures Agrees(later[i], ack', stream, n + g) {
      assert Agrees(slots[i], ack, stream, n);
    }
  }

  /** `bytes` are the stream bytes from position `n` on. */
  predicate IsAt(bytes: seq<Byte>, stream: seq<Byte>, n: nat) {
    n + |bytes| <= |stream| && forall k :: 0 <= k < |bytes| ==> bytes[k] == stream[n + k]
  }

  lemma IsAtAppend(a: seq<Byte>, b: seq<Byte>, stream: seq<Byte>, n: nat)
    requires IsAt(a, stream, n) && IsAt(b, stream, n + |a|)
    ensures IsAt(a + b, stream, n)
  {
  }

  lemma FreshIsStream(s: Slot, ack: U32, stream: seq<Byte>, n: nat)
    requires s.Held? && Off(s, ack) <= 0 && n <= |stream| && Agrees(s, ack, stream, n)
    ensures IsAt(Fresh(s, ack), stream, n)
  {
    OverlapIs(s.seqno, ack);
  }

  lemma NothingIsAt(stream: seq<Byte>, n: nat)
    requires n <= |stream|
    ensures IsAt([], stream, n)
  {
  }

  lemma AgreesAt(slots: seq<Slot>, ack: U32, stream: seq<Byte>, n: nat, b: nat)
    requires AllAgree(slots, ack, stream, n) && b < |slots|
    ensures Agrees(slots[b], ack, stream, n)
  {
  }

  /** Replay delivers true stream bytes. */
  lemma {:induction false} ReplayedIsStream(rx: Rx, back: nat, stream: seq<Byte>, n: nat)
    requires SLOT_MAX <= back < HALF32 && Within(rx.slots, rx.ack, back)
    requires n <= |stream| && AllAgree(rx.slots, rx.ack, stream, n)
    ensures IsAt(Replayed(rx), stream, n)
    decreases HeldCount(rx.slots)
  {
    hide SeqCmp, Fresh, Kept, Deliver, IsAt, AllAgree, Within;
    var b := Best(rx.slots, rx.ack, |rx.slots|);
    NothingIsAt(stream, n);
    if b < |rx.slots| {
      AgreesAt(rx.slots, rx.ack, stream, n, b);
      HeldCountFree(rx.slots, b);
      ReplayOneWithin(rx, back);
      var one := ReplayOne(rx, b);
      var bytes := Fresh(rx.slots[b], rx.ack);
      FreshIsStream(rx.slots[b], rx.ack, stream, n);
      KeptAgrees(rx.slots, rx.ack, one.slots, one.ack, |bytes|, stream, n);
      ReplayedIsStream(one, back, stream, n + |bytes|);
      assert Replayed(rx) == bytes + Replayed(one);
      IsAtAppend(bytes, Replayed(one), stream, n);
    }
  }

  lemma UnlockedIsStream(rx: Rx, data: seq<Byte>, stream: seq<Byte>, n: nat)
    requires Ready(rx) && |data| < HALF32
    requires IsAt(data, stream, n) && AllAgree(rx.slots, rx.ack, stream, n)
    ensures IsAt(Unlocked(rx, data), stream, n)
  {
    hide SeqCmp, Replayed, Kept, AllAgree;
    var mid, g := Deliver(rx, data), |data|;
    DeliverShifts(rx, data);
    KeptAgrees(rx.slots, rx.ack, mid.slots, mid.ack, g, stream, n);
    ReplayedIsStream(mid, if g < SLOT_MAX then SLOT_MAX else g, stream, n + g);
    IsAtAppend(data, Replayed(mid), stream, n);
  }

  lemma AcceptFaithful(c: Conn, isn: U32, stream: seq<Byte>, data: seq<Byte>)
    requires Faithful(c, isn, stream) && |data| < HALF32
    requires IsAt(data, stream, Pos(c))
    requires Accept(c.rx, data).resets == c.rx.resets
    ensures Faithful(c.(rx := Accept(c.rx, data)), isn, stream)
    ensures Pos(c.(rx := Accept(c.rx, data))) == Pos(c) + |Unlocked(c.rx, data)|
  {
    hide SeqCmp, Accept, Unlocked, Kept;
    var end, n, gained := Accept(c.rx, data), Pos(c), Unlocked(c.rx, data);
    AcceptOverflowsIff(c.rx, data);
    AcceptReleases(c.rx, data);
    AcceptAdvances(c.rx, data);
    UnlockedIsStream(c.rx, data, stream, n);
    assert c.out + end.queue == (c.out + c.rx.queue) + gained;
    WrapAddAdd(isn, n, |gained|);
    KeptAgrees(c.rx.slots, c.rx.ack, end.slots, end.ack, |gained|, stream, n);
  }

  /** Parking touches only the count of refused segments and at most one slot. */
  lemma ParkFrame(rx: Rx, seqno: U32, data: seq<Byte>)
    ensures var end := Park(rx, seqno, data).0;
            && end.queue == rx.queue && end.ack == rx.ack && end.resets == rx.resets
            && end.dropped >= rx.dropped && |end.slots| == |rx.slots|
            && forall i :: 0 <= i < |rx.slots| ==>
                             end.slots[i] == rx.slots[i] || (end.slots[i] == Held(seqno, data) && |data| <= SLOT_MAX)
  {
  }

  lemma ParkFaithful(c: Conn, isn: U32, stream: seq<Byte>, at: nat, len: nat)
    requires Faithful(c, isn, stream) && Legal(c, stream, Segment(at, len))
    requires len > 0 && at > Pos(c)
    ensures Faithful(c.(rx := Park(c.rx, WrapAdd(isn, at), stream[at..at + len]).0), isn, stream)
  {
    hide Park, SeqCmp;
    var seqno, data := WrapAdd(isn, at), stream[at..at + len];
    SeqCmpWire(isn, at, Pos(c));
    ParkFrame(c.rx, seqno, data);
    var end := Park(c.rx, seqno, data).0;
    forall i | 0 <= i < |end.slots| ensures Agrees(end.slots[i], end.ack, stream, Pos(c)) {
      assert Agrees(c.rx.slots[i], c.rx.ack, stream, Pos(c));
    }
  }

  /** The three ways a segment is treated, told apart by stream positions. */
  lemma PushAt(rx: Rx, isn: U32, stream: seq<Byte>, n: nat, at: nat, len: nat)
    requires rx.ack == WrapAdd(isn, n) && at + len <= |stream| && -HALF32 <= at - n < HALF32
    ensures SeqCmp(WrapAdd(isn, at), rx.ack) == at - n
    ensures var pushed := Push(rx, WrapAdd(isn, at), stream[at..at + len]).0;
            && (len == 0 || at + len <= n ==> pushed == rx)
            && (at <= n < at + len ==> pushed == Accept(rx, stream[n..at + len]))
            && (at > n && len > 0 ==> pushed == Park(rx, WrapAdd(isn, at), stream[at..at + len]).0)
  {
    SeqCmpWire(isn, at, n);
    var data := stream[at..at + len];
    PushCases(rx, WrapAdd(isn, at), data);
    assert at <= n < at + len ==> data[n - at..] == stream[n..at + len];
  }

  lemma ReadFaithful(c: Conn, isn: U32, stream: seq<Byte>, max: nat)
    requires Faithful(c, isn, stream)
    ensures Faithful(Step(c, isn, stream, Read(max)), isn, stream)
    ensures Pos(Step(c, isn, stream, Read(max))) == Pos(c)
  {
    var k := if |c.rx.queue| < max then |c.rx.queue| else max;
    assert c.out + c.rx.queue[..k] + c.rx.queue[k..] == c.out + c.rx.queue;
  }

  /** Every step without an overflow reset stays faithful to the stream. */
  lemma StepFaithful(c: Conn, isn: U32, stream: seq<Byte>, e: Event)
    requires Faithful(c, isn, stream) && Legal(c, stream, e)
    requires Step(c, isn, stream, e).rx.resets == c.rx.resets
    ensures Faithful(Step(c, isn, stream, e), isn, stream)
  {
    hide Push, Accept, Park, Ready, AllAgree, SeqCmp, WrapAdd, Unlocked;
    match e
    case Read(max) => ReadFaithful(c, isn, stream, max);
    case Segment(at, len) =>
      var n := Pos(c);
      PushAt(c.rx, isn, stream, n, at, len);
      if at > n && len > 0 {
        ParkFaithful(c, isn, stream, at, len);
      } else if at <= n < at + len {
        AcceptFaithful(c, isn, stream, stream[n..at + len]);
      } else {
        assert Step(c, isn, stream, e) == c;
      }
  }

  lemma PushCounters(rx: Rx, seqno: U32, data: seq<Byte>)
    requires |rx.queue| <= RX_CAP
    ensures var end := Push(rx, seqno, data).0;
            |end.queue| <= RX_CAP && end.resets >= rx.resets && end.dropped >= rx.dropped
  {
    hide Park, Replay, SeqCmp, WrapSub, WrapAdd;
    PushCases(rx, seqno, data);
    ParkFrame(rx, seqno, data);
    var d := SeqCmp(seqno, rx.ack);
    if d <= 0 < d + |data| {
      ReplayQueue(Deliver(rx, data[-d..]));
    }
  }

  lemma StepCounters(c: Conn, isn: U32, stream: seq<Byte>, e: Event)
    requires Legal(c, stream, e) && |c.rx.queue| <= RX_CAP
    ensures var d := Step(c, isn, stream, e);
            |d.rx.queue| <= RX_CAP && d.rx.resets >= c.rx.resets && d.rx.dropped >= c.rx.dropped
  {
    hide Push;
    match e
    case Read(_) =>
    case Segment(at, len) => PushCounters(c.rx, WrapAdd(isn, at), stream[at..at + len]);
  }

  lemma {:induction false} RunCounters(c: Conn, isn: U32, stream: seq<Byte>, es: seq<Event>)
    requires LegalRun(c, isn, stream, es) && |c.rx.queue| <= RX_CAP
    ensures Run(c, isn, stream, es).rx.resets >= c.rx.resets
    ensures Run(c, isn, stream, es).rx.dropped >= c.rx.dropped
    decreases |es|
  {
    hide Step;
    if es != [] {
      StepCounters(c, isn, stream, es[0]);
      RunCounters(Step(c, isn, stream, es[0]), isn, stream, es[1..]);
    }
  }

  /** Every run without an overflow reset is faithful to the stream. */
  lemma {:induction false} RunFaithful(c: Conn, isn: U32, stream: seq<Byte>, es: seq<Event>)
    requires Faithful(c, isn, stream) && LegalRun(c, isn, stream, es)
    requires Run(c, isn, stream, es).rx.resets == c.rx.resets
    ensures Faithful(Run(c, isn, stream, es), isn, stream)
    decreases |es|
  {
    if es != [] {
      var d := Step(c, isn, stream, es[0]);
      StepCounters(c, isn, stream, es[0]);
      RunCounters(d, isn, stream, es[1..]);
      StepFaithful(c, isn, stream, es[0]);
      RunFaithful(d, isn, stream, es[1..]);
    }
  }

  lemma InitFaithful(isn: U32, stream: seq<Byte>)
    ensures Faithful(Fresh0(isn), isn, stream)
  {
  }

  /** A newly configured connection reads exactly the first `n` bytes of the stream, and acknowledges
      byte `n`, after any legal run without an overflow reset. */
  lemma DeliversStream(isn: U32, stream: seq<Byte>, es: seq<Event>)
    requires LegalRun(Fresh0(isn), isn, stream, es)
    requires Run(Fresh0(isn), isn, stream, es).rx.resets == 0
    ensures var end := Run(Fresh0(isn), isn, stream, es);
            var n := Pos(end);
            && n <= |stream| && end.out + end.rx.queue == stream[..n]
            && end.rx.ack == (isn + n) % TWO32
            && AllAgree(end.rx.slots, end.rx.ack, stream, n)
  {
    hide AllAgree, Run, LegalRun;
    InitFaithful(isn, stream);
    RunFaithful(Fresh0(isn), isn, stream, es);
  }

  /** Stream byte `x` has been received and not lost. */
  predicate Has(c: Conn, x: nat) {
    x < Pos(c) || SomeCovers(c.rx.slots, c.rx.ack, x - Pos(c))
  }

  predicate Carries(e: Event, x: nat) {
    e.Segment? && e.at <= x < e.at + e.len
  }

  predicate Sent(es: seq<Event>, x: nat) {
    exists j :: 0 <= j < |es| && Carries(es[j], x)
  }

  lemma AcceptHas(c: Conn, isn: U32, stream: seq<Byte>, data: seq<Byte>, x: nat)
    requires Faithful(c, isn, stream) && |data| < HALF32
    requires Accept(c.rx, data).resets == c.rx.resets
    ensures Has(c.(rx := Accept(c.rx, data)), x) <==> Has(c, x) || Pos(c) <= x < Pos(c) + |data|
  {
    var end, n := Accept(c.rx, data), |Unlocked(c.rx, data)|;
    AcceptOverflowsIff(c.rx, data);
    AcceptAdvances(c.rx, data);
    AcceptReleases(c.rx, data);
    var y := x - Pos(c);
    if SomeCovers(end.slots, end.ack, y - n) {
      KeptCovers(c.rx.slots, c.rx.ack, end.slots, end.ack, n, y);
    }
    if y >= n && SomeCovers(c.rx.slots, c.rx.ack, y) {
      var i :| 0 <= i < |c.rx.slots| && Covers(c.rx.slots[i], c.rx.ack, y);
      assert !Covers(c.rx.slots[i], c.rx.ack, n);
      assert Covers(end.slots[i], end.ack, y - n);
    }
  }

  lemma ParkHas(rx: Rx, seqno: U32, data: seq<Byte>, y: int)
    requires data != [] && Park(rx, seqno, data).0.dropped == rx.dropped
    ensures var end := Park(rx, seqno, data).0;
            SomeCovers(end.slots, end.ack, y) <==>
            SomeCovers(rx.slots, rx.ack, y) || SeqCmp(seqno, rx.ack) <= y < SeqCmp(seqno, rx.ack) + |data|
  {
    var end := Park(rx, seqno, data).0;
    var i := FindSeq(rx.slots, seqno, 0);
    var k := if i < |rx.slots| then i else FindFree(rx.slots, 0);
    assert k < |rx.slots|;
    assert SeqCmp(seqno, rx.ack) <= y < SeqCmp(seqno, rx.ack) + |data| ==> Covers(end.slots[k], end.ack, y);
    forall j | 0 <= j < |rx.slots| && Covers(rx.slots[j], rx.ack, y) ensures Covers(end.slots[j], end.ack, y) {
    }
    forall j | 0 <= j < |rx.slots| && Covers(end.slots[j], end.ack, y)
      ensures Covers(rx.slots[j], rx.ack, y) || SeqCmp(seqno, rx.ack) <= y < SeqCmp(seqno, rx.ack) + |data|
    {
    }
  }

  /** A step that drops nothing adds exactly the bytes its segment carries. */
  lemma StepHas(c: Conn, isn: U32, stream: seq<Byte>, e: Event, x: nat)
    requires Faithful(c, isn, stream) && Legal(c, stream, e)
    requires var d := Step(c, isn, stream, e); d.rx.resets == c.rx.resets && d.rx.dropped == c.rx.dropped
    ensures Has(Step(c, isn, stream, e), x) <==> Has(c, x) || Carries(e, x)
  {
    hide Push, Accept, Park, Ready, AllAgree, SeqCmp, WrapAdd, SomeCovers;
    match e
    case Read(max) => ReadFaithful(c, isn, stream, max);
    case Segment(at, len) =>
      var n := Pos(c);
      PushAt(c.rx, isn, stream, n, at, len);
      if at > n && len > 0 {
        ParkFrame(c.rx, WrapAdd(isn, at), stream[at..at + len]);
        ParkHas(c.rx, WrapAdd(isn, at), stream[at..at + len], x - n);
      } else if at <= n < at + len {
        AcceptHas(c, isn, stream, stream[n..at + len], x);
      } else {
        assert Step(c, isn, stream, e) == c;
      }
  }

  lemma {:induction false} RunHas(c: Conn, isn: U32, stream: seq<Byte>, es: seq<Event>, x: nat)
    requires Faithful(c, isn, stream) && LegalRun(c, isn, stream, es)
    requires var d := Run(c, isn, stream, es); d.rx.resets == c.rx.resets && d.rx.dropped == c.rx.dropped
    ensures Has(Run(c, isn, stream, es), x) <==> Has(c, x) || Sent(es, x)
    decreases |es|
  {
    if es != [] {
      var d := Step(c, isn, stream, es[0]);
      StepCounters(c, isn, stream, es[0]);
      RunCounters(d, isn, stream, es[1..]);
      StepFaithful(c, isn, stream, es[0]);
      StepHas(c, isn, stream, es[0], x);
      RunHas(d, isn, stream, es[1..], x);
      assert Sent(es, x) <==> Carries(es[0], x) || Sent(es[1..], x) by {
        if Sent(es[1..], x) {
          var j :| 0 <= j < |es[1..]| && Carries(es[1..][j], x);
          assert Carries(es[j + 1], x);
        }
        if Sent(es, x) {
          var j :| 0 <= j < |es| && Carries(es[j], x);
          assert j > 0 ==> Carries(es[1..][j - 1], x);
        }
      }
    }
  }

  /** When no segment was refused for want of room, the receiver stands at the first byte that no
      segment carried, however the segments were cut, repeated and reordered. */
  lemma StopsAtFirstMissing(isn: U32, stream: seq<Byte>, es: seq<Event>)
    requires LegalRun(Fresh0(isn), isn, stream, es)
    requires var d := Run(Fresh0(isn), isn, stream, es); d.rx.resets == 0 && d.rx.dropped == 0
    ensures var n := Pos(Run(Fresh0(isn), isn, stream, es));
            (forall x: nat :: x < n ==> Sent(es, x)) && !Sent(es, n)
  {
    hide AllAgree, Run, LegalRun;
    var c := Fresh0(isn);
    var end := Run(c, isn, stream, es);
    InitFaithful(isn, stream);
    RunFaithful(c, isn, stream, es);
    forall x: nat ensures Has(end, x) <==> Sent(es, x) {
      RunHas(c, isn, stream, es, x);
    }
    assert !Has(end, Pos(end));
    forall x: nat | x < Pos(end) ensures Sent(es, x) {
      assert Has(end, x);
    }
  }

  /** Two arrival orders that carry the same bytes leave the receiver at the same place. */
  lemma ArrivalOrderIrrelevant(isn: U32, stream: seq<Byte>, es: seq<Event>, fs: seq<Event>)
    requires LegalRun(Fresh0(isn), isn, stream, es) && LegalRun(Fresh0(isn), isn, stream, fs)
    requires forall x: nat :: Sent(es, x) <==> Sent(fs, x)
    requires var d := Run(Fresh0(isn), isn, stream, es); d.rx.resets == 0 && d.rx.dropped == 0
    requires var d := Run(Fresh0(isn), isn, stream, fs); d.rx.resets == 0 && d.rx.dropped == 0
    ensures var a, b := Run(Fresh0(isn), isn, stream, es), Run(Fresh0(isn), isn, stream, fs);
            a.rx.ack == b.rx.ack && a.out + a.rx.queue == b.out + b.rx.queue
  {
    hide Run, LegalRun, AllAgree;
    DeliversStream(isn, stream, es);
    DeliversStream(isn, stream, fs);
    StopsAtFirstMissing(isn, stream, es);
    StopsAtFirstMissing(isn, stream, fs);
    var a, b := Run(Fresh0(isn), isn, stream, es), Run(Fresh0(isn), isn, stream, fs);
    assert Pos(a) == Pos(b) by {
      assert Pos(a) < Pos(b) ==> Sent(fs, Pos(a));
      assert Pos(b) < Pos(a) ==> Sent(es, Pos(b));
    }
  }
}
