/** The safe segment length is the largest one: a run of slightly longer segments that keeps to the yield rule
    and overflows the receive buffer. */
module TcpTight {
  import opened Words
  import opened Reassembly
  import opened ReassemblyExact
  import opened TcpStream
  import opened TcpBounds

  const LONG: nat := 3972
  const FULL: nat := 131071
  const STREAM_LEN: nat := 262147

  function Stream(): seq<Byte> {
    Zeros(STREAM_LEN)
  }

  lemma {:induction false} RunAppend(c: Conn, isn: U32, stream: seq<Byte>, es: seq<Event>, e: Event, limit: nat)
    requires LegalRun(c, isn, stream, es) && Paced(c, isn, stream, es, limit)
    requires var d := Run(c, isn, stream, es);
             Legal(d, stream, e) && (e.Segment? ==> e.len <= limit && |d.rx.queue| < YIELD_BYTES)
    ensures LegalRun(c, isn, stream, es + [e]) && Paced(c, isn, stream, es + [e], limit)
    ensures Run(c, isn, stream, es + [e]) == Step(Run(c, isn, stream, es), isn, stream, e)
    decreases |es|
  {
    hide Step, Legal;
    if es == [] {
      assert es + [e] == [e] && [e][1..] == [];
    } else {
      RunAppend(Step(c, isn, stream, es[0]), isn, stream, es[1..], e, limit);
      assert (es + [e])[0] == es[0] && (es + [e])[1..] == es[1..] + [e];
    }
  }

  /** A legal run with segments of at most `LONG` bytes, within the yield rule, leads from a new connection to
      `c`. */
  ghost predicate Reached(c: Conn) {
    exists es: seq<Event> ::
      LegalRun(Fresh0(0), 0, Stream(), es) && Paced(Fresh0(0), 0, Stream(), es, LONG) &&
      Run(Fresh0(0), 0, Stream(), es) == c
  }

  lemma ReachStep(c: Conn, e: Event)
    requires Reached(c) && Legal(c, Stream(), e) && (e.Segment? ==> e.len <= LONG && |c.rx.queue| < YIELD_BYTES)
    ensures Reached(Step(c, 0, Stream(), e))
  {
    hide Step, Legal, Run, LegalRun, Paced, Stream;
    var es: seq<Event> :|
      LegalRun(Fresh0(0), 0, Stream(), es) && Paced(Fresh0(0), 0, Stream(), es, LONG) &&
      Run(Fresh0(0), 0, Stream(), es) == c;
    RunAppend(Fresh0(0), 0, Stream(), es, e, LONG);
  }

  /** `n` bytes queued, nothing parked. */
  function Filled(n: nat): Conn {
    Conn(Rx(WrapAdd(0, n), Zeros(n), seq(SLOTS, _ => Free), 0, 0), [])
  }

  lemma {:induction false} NothingToReplay(slots: seq<Slot>, ack: U32, k: nat)
    requires k <= |slots| && forall i :: 0 <= i < |slots| ==> slots[i].Free?
    ensures Best(slots, ack, k) == |slots|
  {
    if k > 0 {
      NothingToReplay(slots, ack, k - 1);
    }
  }

  lemma FillStep(n: nat, len: nat)
    requires 0 < len && n + len <= FULL
    ensures Legal(Filled(n), Stream(), Segment(n, len))
    ensures Step(Filled(n), 0, Stream(), Segment(n, len)) == Filled(n + len)
  {
    hide SeqCmp, WrapAdd, Push;
    var rx := Filled(n).rx;
    PushAt(rx, 0, Stream(), n, n, len);
    WrapAddAdd(0, n, len);
    var mid := Deliver(rx, Stream()[n..n + len]);
    NothingToReplay(mid.slots, mid.ack, SLOTS);
    assert Zeros(n) + Stream()[n..n + len] == Zeros(n + len);
  }

  lemma {:induction false} FillRun(k: nat)
    requires k <= 33
    ensures Reached(Filled(3971 * k))
  {
    hide Filled, Step, Legal, Reached;
    if k == 0 {
      StartReached();
    } else {
      FillRun(k - 1);
      FillStep(3971 * (k - 1), 3971);
      FilledQueue(3971 * (k - 1));
      ReachStep(Filled(3971 * (k - 1)), Segment(3971 * (k - 1), 3971));
    }
  }

  lemma FilledQueue(n: nat)
    ensures |Filled(n).rx.queue| == n
  {
  }

  lemma StartReached()
    ensures Reached(Filled(0))
  {
    assert Zeros(0) == [] && Run(Fresh0(0), 0, Stream(), []) == Filled(0);
  }

  function Parked(k: nat): (slots: seq<Slot>)
    requires k <= SLOTS
    ensures |slots| == SLOTS
  {
    seq(SLOTS, i requires 0 <= i < SLOTS => if i < k then Held(FULL + (i + 1) * 3972, Zeros(LONG)) else Free)
  }

  /** `FULL` bytes queued, and `k` segments parked end to end behind a gap of one segment. */
  function Crowding(k: nat): Conn
    requires k <= SLOTS
  {
    Conn(Rx(FULL, Zeros(FULL), Parked(k), 0, 0), [])
  }

  lemma ParkNext(k: nat)
    requires k < SLOTS
    ensures var rx := Crowding(k).rx;
            Park(rx, FULL + (k + 1) * 3972, Zeros(LONG)).0 == Crowding(k + 1).rx
  {
    var rx := Crowding(k).rx;
    var seqno := FULL + (k + 1) * 3972;
    assert FindSeq(rx.slots, seqno, 0) == SLOTS;
    FreeAt(rx.slots, 0, k);
    assert rx.slots[k := Held(seqno, Zeros(LONG))] == Parked(k + 1);
  }

  lemma {:induction false} FreeAt(slots: seq<Slot>, from: nat, k: nat)
    requires from <= k < |slots| && slots[k].Free? && forall i :: from <= i < k ==> slots[i].Held?
    ensures FindFree(slots, from) == k
    decreases k - from
  {
    if from < k {
      FreeAt(slots, from + 1, k);
    }
  }

  lemma ParkStep(k: nat)
    requires k < SLOTS
    ensures var e := Segment(FULL + (k + 1) * 3972, LONG);
            Legal(Crowding(k), Stream(), e) && Step(Crowding(k), 0, Stream(), e) == Crowding(k + 1)
  {
    hide SeqCmp, Push, Park, Parked;
    var rx, at := Crowding(k).rx, FULL + (k + 1) * 3972;
    PushAt(rx, 0, Stream(), FULL, at, LONG);
    assert Stream()[at..at + LONG] == Zeros(LONG);
    ParkNext(k);
  }

  lemma {:induction false} CrowdRun(k: nat)
    requires k <= SLOTS
    ensures Reached(Crowding(k))
  {
    hide Step, Legal, Reached, Parked, Filled;
    if k == 0 {
      FillRun(33);
      FillStep(131043, 28);
      FilledQueue(131043);
      ReachStep(Filled(131043), Segment(131043, 28));
      FilledIsCrowding();
    } else {
      CrowdRun(k - 1);
      ParkStep(k - 1);
      ReachStep(Crowding(k - 1), Segment(FULL + k * 3972, LONG));
    }
  }

  lemma FilledIsCrowding()
    ensures Filled(FULL) == Crowding(0)
  {
    assert Parked(0) == seq(SLOTS, _ => Free);
  }

  lemma ParkedAt(i: nat)
    requires i < SLOTS
    ensures var s := Parked(SLOTS)[i]; s.Held? && Off(s, 131071) == (i + 1) * 3972 && |s.data| == 3972
  {
    assert Parked(SLOTS)[i] == Held(FULL + (i + 1) * 3972, Zeros(LONG)) && |Zeros(LONG)| == LONG == 3972;
  }

  lemma CrowdedReady()
    ensures Ready(Crowding(SLOTS).rx)
  {
    hide Parked, Off;
    forall i | 0 <= i < SLOTS && Parked(SLOTS)[i].Held?
      ensures 0 < Off(Parked(SLOTS)[i], FULL) && 0 < |Parked(SLOTS)[i].data| <= SLOT_MAX
    {
      ParkedAt(i);
    }
    assert |Parked(SLOTS)| == SLOTS;
  }

  /** The bound is tight: some run that keeps to the yield rule, with segments of at most 3972 bytes, overflows
      the buffer. */
  lemma SafeLenIsTight()
    ensures SAFE_LEN + 1 == LONG
    ensures exists es: seq<Event> ::
              LegalRun(Fresh0(0), 0, Stream(), es) && Paced(Fresh0(0), 0, Stream(), es, LONG) &&
              Run(Fresh0(0), 0, Stream(), es).rx.resets > 0
  {
    hide Replay, Replayed, Ready, Run, LegalRun, Paced, Stream;
    CrowdRun(SLOTS);
    GapOverflows();
    ReachStep(Crowding(SLOTS), Segment(FULL, LONG));
  }

  lemma GapOverflows()
    ensures var c, e := Crowding(SLOTS), Segment(FULL, LONG);
            Legal(c, Stream(), e) && Step(c, 0, Stream(), e).rx.resets > 0
  {
    hide Replay, Replayed, Ready, SeqCmp, Parked;
    var rx, data := Crowding(SLOTS).rx, Stream()[FULL..FULL + LONG];
    CrowdedReady();
    PushAt(rx, 0, Stream(), FULL, FULL, LONG);
    AcceptAdvances(rx, data);
    AcceptOverflowsIff(rx, data);
    AllCovered(|Unlocked(rx, data)|);
  }

  /** Every byte of the parked segments is covered. */
  lemma AllCovered(n: nat)
    ensures 3972 <= n < 33 * 3972 ==> SomeCovers(Parked(SLOTS), FULL, n)
  {
    hide SeqCmp, Off, Parked;
    if 3972 <= n < 33 * 3972 {
      var i := n / 3972 - 1;
      ParkedAt(i);
      assert Covers(Parked(SLOTS)[i], FULL, n);
    }
  }
}
