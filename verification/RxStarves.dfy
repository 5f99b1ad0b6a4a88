/** The receive queue's losses add up: every wrap of the used index costs a buffer, so a queue receives a bounded
    number of entries in its whole life, and then never again. */
module RxStarves {
  import opened Words
  import opened RxQueue

  /** No buffer is in circulation. */
  predicate Empty(q: Queue) {
    Safe(q) && |Places(q)| == 0
  }

  /** The buffers in circulation and the wraps of the used index never exceed the buffers the queue began with. */
  predicate Wearing(q: Queue) {
    && Safe(q)
    && |Places(q)| + q.seen / 65536 <= q.count
    && q.seen <= 65536 * q.count
  }

  /** `n` entries more, over at most one wrap, and what that costs. */
  lemma Wrap(count: nat, seen: nat, n: nat, places: nat, lost: nat)
    requires n <= places && places + seen / 65536 <= count && seen <= 65536 * count && lost <= places
    requires (seen + n) / 65536 > seen / 65536 ==> lost > 0
    requires count <= 65536
    ensures places - lost + (seen + n) / 65536 <= count && seen + n <= 65536 * count
  {
    assert (seen + n) / 65536 <= seen / 65536 + 1;
  }

  lemma StepSeen(q: Queue, e: Event)
    requires Shape(q)
    ensures Step(q, e).seen ==
            if q.usedIdx == q.lastRx then q.seen
            else match e { case DriverNext => q.seen + 1 case DriverLatest => q.returned case _ => q.seen }
  {
    hide Shape;
  }

  /** What the unseen entries say about the indices. */
  lemma Indices(q: Queue)
    requires Safe(q) && q.count <= BUF_COUNT_MAX
    ensures Shape(q) && q.taken <= q.posted && q.seen <= q.returned <= q.seen + 8 && q.returned - q.seen <= |Places(q)|
    ensures q.usedIdx == q.returned % 65536 && q.lastRx == q.seen % 65536
    ensures q.usedIdx == q.lastRx <==> q.returned == q.seen
  {
    hide Places;
    Bounds(q);
    PlacesCount(q);
    IndexApart(q.seen, q.returned);
  }

  lemma WearNext(q: Queue)
    requires Wearing(q) && q.count <= BUF_COUNT_MAX
    ensures Wearing(Step(q, DriverNext))
  {
    hide Safe, Step, Places, Current;
    Indices(q);
    StepSafe(q, DriverNext);
    NextConserves(q);
    StepSeen(q, DriverNext);
    StepShape(q, DriverNext);
    if q.usedIdx != q.lastRx {
      IncCount(q.seen);
      Wrap(q.count, q.seen, 1, |Places(q)|, LostBy(q, DriverNext));
    }
  }

  lemma WearLatest(q: Queue)
    requires Wearing(q) && q.count <= BUF_COUNT_MAX
    ensures Wearing(Step(q, DriverLatest))
  {
    hide Safe, Step, Places, Current;
    Indices(q);
    StepSafe(q, DriverLatest);
    LatestConserves(q);
    StepSeen(q, DriverLatest);
    StepShape(q, DriverLatest);
    if q.usedIdx != q.lastRx {
      Wrap(q.count, q.seen, q.returned - q.seen, |Places(q)|, LostBy(q, DriverLatest));
    }
  }

  lemma WearStep(q: Queue, e: Event)
    requires Wearing(q) && q.count <= BUF_COUNT_MAX
    ensures Wearing(Step(q, e)) && Step(q, e).count == q.count
  {
    hide Safe, Step, Places;
    Indices(q);
    StepShape(q, e);
    StepSeen(q, e);
    match e
    case DriverNext => WearNext(q);
    case DriverLatest => WearLatest(q);
    case _ =>
      StepSafe(q, e);
      OthersConserve(q, e);
  }

  lemma {:induction false} WearRun(q: Queue, es: seq<Event>)
    requires Wearing(q) && q.count <= BUF_COUNT_MAX
    ensures Wearing(Run(q, es)) && Run(q, es).count == q.count
    decreases |es|
  {
    hide Step, Wearing;
    assert Shape(q) by { WearShape(q); }
    if es != [] {
      WearStep(q, es[0]);
      WearRun(Step(q, es[0]), es[1..]);
    }
  }

  lemma WearShape(q: Queue)
    requires Wearing(q)
    ensures Shape(q)
  {
  }

  /** In every interleaving of driver and device, a queue is handed at most 65536 entries for each of its buffers;
      once it has been, no buffer is in circulation and none ever comes back. */
  lemma EveryQueueStarves(qsize: nat, es: seq<Event>, fs: seq<Event>)
    requires PowerOfTwo(qsize)
    ensures var q := Run(Init(qsize), es);
            && Shape(q) && q.count == Init(qsize).count <= BUF_COUNT_MAX
            && Safe(q) && |Places(q)| + q.seen / 65536 <= q.count
            && q.seen <= 65536 * q.count && (qsize >= 8 ==> q.seen <= 524_288)
            && (q.seen == 65536 * q.count ==> Empty(q) && Empty(Run(q, fs)) && Run(q, fs).seen == q.seen)
  {
    hide Run, Places, Init;
    var q := Run(Init(qsize), es);
    InitWears(qsize);
    if qsize >= 8 {
      InitEight(qsize);
    }
    WearRun(Init(qsize), es);
    WearRun(q, fs);
    RunSafe(q, fs);
    if q.seen == 65536 * q.count {
      SeenGrows(q, fs);
    }
  }

  lemma InitEight(qsize: nat)
    requires PowerOfTwo(qsize) && qsize >= 8
    ensures Init(qsize).count == 8
  {
  }

  lemma InitWears(qsize: nat)
    requires PowerOfTwo(qsize)
    ensures Wearing(Init(qsize)) && Init(qsize).count <= BUF_COUNT_MAX
  {
    hide Places;
    InitSafe(qsize);
    PlacesCount(Init(qsize));
  }

  lemma {:induction false} SeenGrows(q: Queue, es: seq<Event>)
    requires Safe(q) && q.count <= BUF_COUNT_MAX
    ensures Safe(Run(q, es)) && Run(q, es).seen >= q.seen
    decreases |es|
  {
    hide Safe, Step, Places;
    Indices(q);
    if es != [] {
      StepSeen(q, es[0]);
      StepShape(q, es[0]);
      StepSafe(q, es[0]);
      SeenGrows(Step(q, es[0]), es[1..]);
    }
  }

  lemma {:induction false} RunAppend(q: Queue, es: seq<Event>, e: Event)
    requires Shape(q)
    ensures Shape(Run(q, es)) && Run(q, es + [e]) == Step(Run(q, es), e)
    decreases |es|
  {
    hide Step, Shape;
    RunKeepsSize(q, es);
    if es == [] {
      StepShape(q, e);
      assert es + [e] == [e] && [e][1..] == [];
    } else {
      StepShape(q, es[0]);
      RunAppend(Step(q, es[0]), es[1..], e);
      assert (es + [e])[0] == es[0] && (es + [e])[1..] == es[1..] + [e];
    }
  }

  /** Some run of the queue with one buffer leads to `q`. */
  ghost predicate Reached(q: Queue) {
    exists es: seq<Event> :: Run(Init(1), es) == q
  }

  lemma ReachStep(q: Queue, e: Event)
    requires Reached(q)
    ensures Shape(q) && Reached(Step(q, e))
  {
    hide Step, Run, Init, Shape;
    var es: seq<Event> :| Run(Init(1), es) == q;
    RunAppend(Init(1), es, e);
  }

  /** After `n` packets, each taken, returned, seen and rearmed at once. */
  function Waiting(n: nat): Queue {
    Queue(1, 1, [0], (n + 1) % 0x1_0000, [0], n % 0x1_0000, n % 0x1_0000, [], n % 0x1_0000, 0, true, false,
          n + 1, n, n, n)
  }

  /** The packet in the driver's hands, before it looks. */
  function Returned(n: nat): Queue {
    Queue(1, 1, [0], (n + 1) % 0x1_0000, [0], (n + 1) % 0x1_0000, (n + 1) % 0x1_0000, [], n % 0x1_0000, 0, true,
          false, n + 1, n + 1, n + 1, n)
  }

  lemma Arrives(n: nat)
    ensures Step(Step(Waiting(n), DeviceTakes), DeviceReturns(0)) == Returned(n)
  {
    var q := Waiting(n);
    IncCount(n);
    var t := Step(q, DeviceTakes);
    assert q.avail[q.devIdx % 1] == 0;
    assert t == q.(held := [0], devIdx := (n + 1) % 0x1_0000, taken := n + 1);
    assert [0][0 := 0] == [0] && t.held[..0] + t.held[1..] == [];
  }

  lemma Rearmed(n: nat)
    requires (n + 1) % 0x1_0000 != 0
    ensures Step(Step(Returned(n), DriverNext), DriverRearms) == Waiting(n + 1)
  {
    var q := Returned(n);
    IncCount(n);
    IncCount(n + 1);
    var next := (n + 1) % 0x1_0000;
    assert q.used[(next - 1) % 1] == 0;
    assert UsedAt(q, next) == [0];
    var s := q.(lastRx := next, seen := n + 1, needsRearm := true);
    assert Step(q, DriverNext) == s;
    assert [0][0 := 0] == [0];
  }

  /** At index 0 the driver sees nothing, and has nothing to rearm. */
  lemma Overlooked()
    ensures Step(Returned(65535), DriverNext) == Returned(65535).(lastRx := 0, seen := 65536)
  {
    IncCount(65535);
  }

  lemma {:induction false} RunsOn(n: nat)
    requires n <= 65535
    ensures Reached(Waiting(n))
    decreases n
  {
    hide Waiting, Returned, Step, Reached;
    if n == 0 {
      InitWaits();
    } else {
      RunsOn(n - 1);
      OnePacket(n - 1);
    }
  }

  lemma OnePacket(n: nat)
    requires n + 1 <= 65535 && Reached(Waiting(n))
    ensures Reached(Waiting(n + 1))
  {
    hide Waiting, Returned, Step, Reached;
    PacketArrives(n);
    ReachStep(Returned(n), DriverNext);
    ReachStep(Step(Returned(n), DriverNext), DriverRearms);
    Rearmed(n);
  }

  lemma PacketArrives(n: nat)
    requires Reached(Waiting(n))
    ensures Reached(Returned(n))
  {
    hide Waiting, Returned, Step, Reached;
    ReachStep(Waiting(n), DeviceTakes);
    ReachStep(Step(Waiting(n), DeviceTakes), DeviceReturns(0));
    Arrives(n);
  }

  lemma InitWaits()
    ensures Reached(Waiting(0))
  {
    InitOne();
    assert Run(Init(1), []) == Init(1);
  }

  lemma InitOne()
    ensures Init(1) == Waiting(0)
  {
    var q := Init(1);
    assert q.avail == [0] && q.used == [0];
  }

  /** It happens: after 65536 packets, each of which was rearmed as soon as it was seen, no buffer is left in
      circulation, and none ever comes back. */
  lemma QueueStarves()
    ensures exists q: Queue :: Reached(q) && Shape(q) && forall fs: seq<Event> :: Empty(Run(q, fs))
  {
    hide Waiting, Returned, Step, Run, Init, Reached, Empty;
    RunsOn(65535);
    PacketArrives(65535);
    ReachStep(Returned(65535), DriverNext);
    Overlooked();
    var q := Returned(65535).(lastRx := 0, seen := 65536);
    forall fs: seq<Event>
      ensures Shape(q) && Empty(Run(q, fs))
    {
      StaysEmpty(q, fs);
    }
    assert Shape(q) by { StaysEmpty(q, []); }
  }

  lemma StaysEmpty(q: Queue, fs: seq<Event>)
    requires Reached(q) && q == Returned(65535).(lastRx := 0, seen := 65536)
    ensures Shape(q) && Empty(Run(q, fs))
  {
    hide Step, Run, Init;
    var es: seq<Event> :| Run(Init(1), es) == q;
    InitSafe(1);
    RunSafe(Init(1), es);
    RunSafe(q, fs);
    PlacesCount(q);
    Smaller(Places(Run(q, fs)), Places(q));
  }
}
