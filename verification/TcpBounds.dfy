/** When the receive buffer can overflow, and how the buffered receive path compares with the
    in-order one used for plain HTTP. */
module TcpBounds {
  import opened Words
  import opened Reassembly
  import opened ReassemblyExact
  import opened TcpStream

  const YIELD_BYTES: nat := 131072
  const SAFE_LEN: nat := 3971

  /** Every parked segment has at most `SAFE_LEN` bytes. */
  predicate SmallSlots(slots: seq<Slot>) {
    forall i :: 0 <= i < |slots| && slots[i].Held? ==> |slots[i].data| <= SAFE_LEN
  }

  lemma {:induction false} HeldCountAtMost(slots: seq<Slot>)
    ensures HeldCount(slots) <= |slots|
  {
    if slots != [] {
      HeldCountAtMost(slots[1..]);
    }
  }

  lemma {:induction false} ReplayedAtMost(rx: Rx)
    requires SmallSlots(rx.slots)
    ensures |Replayed(rx)| <= HeldCount(rx.slots) * SAFE_LEN
    decreases HeldCount(rx.slots)
  {
    hide SeqCmp, Deliver;
    var b := Best(rx.slots, rx.ack, |rx.slots|);
    if b < |rx.slots| {
      HeldCountFree(rx.slots, b);
      ReplayedAtMost(ReplayOne(rx, b));
      assert |Fresh(rx.slots[b], rx.ack)| <= SAFE_LEN;
    }
  }

  /** One segment of at most `SAFE_LEN` bytes, with at most `SAFE_LEN` bytes in each of the 32 slots
      and fewer than `YIELD_BYTES` queued, never overflows the buffer. */
  lemma SmallSegmentFits(rx: Rx, seqno: U32, data: seq<Byte>)
    requires |rx.queue| < YIELD_BYTES && |data| <= SAFE_LEN
    requires |rx.slots| <= SLOTS && SmallSlots(rx.slots)
    ensures Push(rx, seqno, data).0.resets == rx.resets
  {
    hide SeqCmp, Replay, Replayed;
    PushCases(rx, seqno, data);
    ParkFrame(rx, seqno, data);
    var d := SeqCmp(seqno, rx.ack);
    if d <= 0 < d + |data| {
      var mid := Deliver(rx, data[-d..]);
      ReplayedAtMost(mid);
      HeldCountAtMost(mid.slots);
      assert |Unlocked(rx, data[-d..])| <= 33 * SAFE_LEN;
      AcceptOverflowsIff(rx, data[-d..]);
    }
  }

  /** A run in which segments are at most `limit` bytes and arrive only while fewer than `YIELD_BYTES` are
      queued. */
  predicate Paced(c: Conn, isn: U32, stream: seq<Byte>, es: seq<Event>, limit: nat)
    requires LegalRun(c, isn, stream, es)
    decreases |es|
  {
    es == [] ||
    (&& (es[0].Segment? ==> es[0].len <= limit && |c.rx.queue| < YIELD_BYTES)
     && Paced(Step(c, isn, stream, es[0]), isn, stream, es[1..], limit))
  }

  lemma StepSmall(c: Conn, isn: U32, stream: seq<Byte>, e: Event)
    requires Faithful(c, isn, stream) && Legal(c, stream, e)
    requires |c.rx.slots| <= SLOTS && SmallSlots(c.rx.slots)
    requires e.Segment? ==> e.len <= SAFE_LEN && |c.rx.queue| < YIELD_BYTES
    ensures Step(c, isn, stream, e).rx.resets == c.rx.resets
    ensures |Step(c, isn, stream, e).rx.slots| <= SLOTS && SmallSlots(Step(c, isn, stream, e).rx.slots)
  {
    hide Push, Park, Accept, SeqCmp, WrapAdd, AllAgree, Unlocked;
    match e
    case Read(_) =>
    case Segment(at, len) =>
      var seqno, data := WrapAdd(isn, at), stream[at..at + len];
      SmallSegmentFits(c.rx, seqno, data);
      PushAt(c.rx, isn, stream, Pos(c), at, len);
      ParkFrame(c.rx, seqno, data);
      if at <= Pos(c) < at + len {
        AcceptReleases(c.rx, stream[Pos(c)..at + len]);
      }
  }

  lemma {:induction false} PacedNeverResets(c: Conn, isn: U32, stream: seq<Byte>, es: seq<Event>)
    requires Faithful(c, isn, stream) && LegalRun(c, isn, stream, es) && Paced(c, isn, stream, es, SAFE_LEN)
    requires |c.rx.slots| <= SLOTS && SmallSlots(c.rx.slots)
    ensures Run(c, isn, stream, es).rx.resets == c.rx.resets
    decreases |es|
  {
    hide Step, Faithful, Legal, SmallSlots;
    if es != [] {
      StepSmall(c, isn, stream, es[0]);
      StepFaithful(c, isn, stream, es[0]);
      PacedNeverResets(Step(c, isn, stream, es[0]), isn, stream, es[1..]);
    }
  }

  /** Paced runs deliver the stream with no further assumption. */
  lemma PacedDeliversStream(isn: U32, stream: seq<Byte>, es: seq<Event>)
    requires LegalRun(Fresh0(isn), isn, stream, es) && Paced(Fresh0(isn), isn, stream, es, SAFE_LEN)
    ensures var end := Run(Fresh0(isn), isn, stream, es);
            && Pos(end) <= |stream| && end.out + end.rx.queue == stream[..Pos(end)]
            && end.rx.ack == (isn + Pos(end)) % TWO32
  {
    hide Run, LegalRun, Paced;
    InitFaithful(isn, stream);
    PacedNeverResets(Fresh0(isn), isn, stream, es);
    DeliversStream(isn, stream, es);
  }

  /** The plain-HTTP receiver: no reordering buffer, only the next byte expected and the body fed so far. */
  datatype Plain = Plain(ack: U32, fed: seq<Byte>)

  function PlainPush(p: Plain, seqno: U32, data: seq<Byte>): Plain {
    var d := SeqCmp(seqno, p.ack);
    if data == [] || d > 0 then p
    else
      var overlap := if d < 0 then WrapSub(p.ack, seqno) else 0;
      if overlap >= |data| then p
      else Plain(WrapAdd(seqno, |data|), p.fed + data[overlap..])
  }

  predicate PlainLegal(p: Plain, stream: seq<Byte>, e: Event) {
    match e
    case Segment(at, len) => at + len <= |stream| && len < HALF32 && -HALF32 <= at - |p.fed| < HALF32
    case Read(_) => true
  }

  function PlainStep(p: Plain, isn: U32, stream: seq<Byte>, e: Event): Plain
    requires PlainLegal(p, stream, e)
  {
    match e
    case Segment(at, len) => PlainPush(p, WrapAdd(isn, at), stream[at..at + len])
    case Read(_) => p
  }

  predicate PlainLegalRun(p: Plain, isn: U32, stream: seq<Byte>, es: seq<Event>)
    decreases |es|
  {
    es == [] || (PlainLegal(p, stream, es[0]) && PlainLegalRun(PlainStep(p, isn, stream, es[0]), isn, stream, es[1..]))
  }

  function PlainRun(p: Plain, isn: U32, stream: seq<Byte>, es: seq<Event>): Plain
    requires PlainLegalRun(p, isn, stream, es)
    decreases |es|
  {
    if es == [] then p else PlainRun(PlainStep(p, isn, stream, es[0]), isn, stream, es[1..])
  }

  predicate PlainFaithful(p: Plain, isn: U32, stream: seq<Byte>) {
    |p.fed| <= |stream| && p.fed == stream[..|p.fed|] && p.ack == WrapAdd(isn, |p.fed|)
  }

  /** The in-order receiver's three cases, told apart by the distance from its acknowledgement. */
  lemma PlainPushCases(p: Plain, seqno: U32, data: seq<Byte>)
    ensures var d := SeqCmp(seqno, p.ack);
            && (d > 0 || d + |data| <= 0 ==> PlainPush(p, seqno, data) == p)
            && (d <= 0 < d + |data| ==> PlainPush(p, seqno, data) == Plain(WrapAdd(seqno, |data|), p.fed + data[-d..]))
  {
    hide SeqCmp, WrapAdd, WrapSub;
    OverlapIs(seqno, p.ack);
  }

  /** The in-order receiver takes a segment exactly when it contains the next byte. */
  lemma PlainPushAt(p: Plain, isn: U32, stream: seq<Byte>, at: nat, len: nat)
    requires p.ack == WrapAdd(isn, |p.fed|) && PlainLegal(p, stream, Segment(at, len))
    ensures PlainPush(p, WrapAdd(isn, at), stream[at..at + len]) ==
            if at <= |p.fed| < at + len
            then Plain(WrapAdd(isn, at + len), p.fed + stream[|p.fed|..at + len]) else p
  {
    hide SeqCmp, WrapAdd, WrapSub, PlainPush;
    var m := |p.fed|;
    SeqCmpWire(isn, at, m);
    WrapAddAdd(isn, at, len);
    PlainPushCases(p, WrapAdd(isn, at), stream[at..at + len]);
    if at <= m < at + len {
      assert stream[at..at + len][m - at..] == stream[m..at + len];
    }
  }

  lemma PlainStepExact(p: Plain, isn: U32, stream: seq<Byte>, e: Event)
    requires PlainFaithful(p, isn, stream) && PlainLegal(p, stream, e)
    ensures var q := PlainStep(p, isn, stream, e);
            && PlainFaithful(q, isn, stream)
            && |q.fed| == if e.Segment? && e.at <= |p.fed| < e.at + e.len then e.at + e.len else |p.fed|
  {
    hide PlainPush, WrapAdd;
    if e.Segment? {
      PlainPushAt(p, isn, stream, e.at, e.len);
      assert e.at <= |p.fed| < e.at + e.len ==>
          stream[..|p.fed|] + stream[|p.fed|..e.at + e.len] == stream[..e.at + e.len];
    }
  }

  /** The buffered receiver never moves back, and passes every segment that contains its next byte. */
  lemma StepPos(c: Conn, isn: U32, stream: seq<Byte>, e: Event)
    requires Faithful(c, isn, stream) && Legal(c, stream, e)
    requires Step(c, isn, stream, e).rx.resets == c.rx.resets
    ensures Pos(Step(c, isn, stream, e)) >= Pos(c)
    ensures e.Segment? && e.at <= Pos(c) ==> Pos(Step(c, isn, stream, e)) >= e.at + e.len
  {
    hide Push, Park, Accept, SeqCmp, WrapAdd, AllAgree, Replayed, Replay;
    match e
    case Read(max) => ReadFaithful(c, isn, stream, max);
    case Segment(at, len) =>
      var n := Pos(c);
      PushAt(c.rx, isn, stream, n, at, len);
      ParkFrame(c.rx, WrapAdd(isn, at), stream[at..at + len]);
      if at <= n < at + len {
        AcceptFaithful(c, isn, stream, stream[n..at + len]);
      }
  }

  lemma {:induction false} RunDominates(c: Conn, p: Plain, isn: U32, stream: seq<Byte>, es: seq<Event>)
    requires Faithful(c, isn, stream) && PlainFaithful(p, isn, stream) && |p.fed| <= Pos(c)
    requires LegalRun(c, isn, stream, es) && PlainLegalRun(p, isn, stream, es)
    requires Run(c, isn, stream, es).rx.resets == c.rx.resets
    ensures PlainFaithful(PlainRun(p, isn, stream, es), isn, stream)
    ensures |PlainRun(p, isn, stream, es).fed| <= Pos(Run(c, isn, stream, es))
    decreases |es|
  {
    hide Step, PlainStep, PlainFaithful, AllAgree;
    if es != [] {
      var d, q := Step(c, isn, stream, es[0]), PlainStep(p, isn, stream, es[0]);
      StepCounters(c, isn, stream, es[0]);
      RunCounters(d, isn, stream, es[1..]);
      StepFaithful(c, isn, stream, es[0]);
      StepPos(c, isn, stream, es[0]);
      PlainStepExact(p, isn, stream, es[0]);
      RunDominates(d, q, isn, stream, es[1..]);
    }
  }

  /** On the same segments, the plain path has fed a prefix of what the TLS path has delivered,
      and its acknowledgement is never ahead. */
  lemma BufferedDominatesInOrder(isn: U32, stream: seq<Byte>, es: seq<Event>)
    requires LegalRun(Fresh0(isn), isn, stream, es) && PlainLegalRun(Plain(isn, []), isn, stream, es)
    requires Run(Fresh0(isn), isn, stream, es).rx.resets == 0
    ensures var c, p := Run(Fresh0(isn), isn, stream, es), PlainRun(Plain(isn, []), isn, stream, es);
            && p.fed <= c.out + c.rx.queue
            && p.ack == (isn + |p.fed|) % TWO32 && c.rx.ack == (isn + Pos(c)) % TWO32
            && |p.fed| <= Pos(c)
  {
    hide Run, PlainRun, LegalRun, PlainLegalRun, AllAgree;
    InitFaithful(isn, stream);
    RunDominates(Fresh0(isn), Plain(isn, []), isn, stream, es);
    DeliversStream(isn, stream, es);
  }
}
