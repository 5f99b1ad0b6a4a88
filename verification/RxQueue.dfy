/** The receive virtqueue (Split Virtqueues, section 2.7 of VIRTIO 1.2): driver and device share two
    rings whose 16-bit indices run freely. Any interleaving of their steps is a run. */
module RxQueue {
  import opened Words

  const BUF_COUNT_MAX: nat := 8
  const QSIZE_MAX: nat := 256

  /** The shared rings and both sides' indices. `posted`, `taken`, `returned` and `seen` count every
      entry ever made available, taken by the device, used, and seen by the driver; the protocol itself
      only looks at the 16-bit indices. */
  datatype Queue = Queue(
    qsize: nat,
    count: nat,
    avail: seq<nat>,
    availIdx: U16,
    used: seq<nat>,
    usedIdx: U16,
    devIdx: U16,
    held: seq<nat>,
    lastRx: U16,
    curId: nat,
    curValid: bool,
    needsRearm: bool,
    posted: nat,
    taken: nat,
    returned: nat,
    seen: nat)

  datatype Event = DeviceTakes | DeviceReturns(which: nat) | DriverNext | DriverLatest | DriverRearms

  predicate Shape(q: Queue) {
    0 < q.count <= q.qsize && |q.avail| == q.qsize && |q.used| == q.qsize
  }

  /** `rx_set_current`. */
  function SetCurrent(q: Queue, id: nat): Queue {
    if id >= q.count then q.(curValid := false) else q.(curId := id, curValid := true, needsRearm := true)
  }

  /** The used entry before index `idx`; none when the index is 0. */
  function UsedAt(q: Queue, idx: U16): seq<nat>
    requires Shape(q)
  {
    if idx == 0 then [] else [q.used[(idx - 1) % q.qsize]]
  }

  function SetIfAny(q: Queue, ids: seq<nat>): Queue {
    if ids == [] then q else SetCurrent(q, ids[0])
  }

  /** `rx_rearm`: give the current buffer back to the device, at most once. */
  function Rearm(q: Queue): Queue
    requires Shape(q)
  {
    if q.curValid && q.needsRearm then
      q.(avail := q.avail[q.availIdx % q.qsize := q.curId], availIdx := Inc(q.availIdx), needsRearm := false,
         posted := q.posted + 1)
    else q
  }

  function Step(q: Queue, e: Event): Queue
    requires Shape(q)
  {
    match e
    case DeviceTakes =>
      if q.devIdx == q.availIdx then q
      else q.(held := q.held + [q.avail[q.devIdx % q.qsize]], devIdx := Inc(q.devIdx), taken := q.taken + 1)
    case DeviceReturns(k) =>
      if k >= |q.held| then q
      else
        q.(used := q.used[q.usedIdx % q.qsize := q.held[k]], usedIdx := Inc(q.usedIdx),
           held := q.held[..k] + q.held[k + 1..], returned := q.returned + 1)
    case DriverNext =>
      if q.usedIdx == q.lastRx then q
      else
        var next := Inc(q.lastRx);
        SetIfAny(q.(lastRx := next, seen := q.seen + 1), UsedAt(q, next))
    case DriverLatest =>
      if q.usedIdx == q.lastRx then q
      else SetIfAny(q.(lastRx := q.usedIdx, seen := q.returned), UsedAt(q, q.usedIdx))
    case DriverRearms => Rearm(q)
  }

  /** All buffers posted, nothing taken, used or current. */
  function Init(qsize: nat): (q: Queue)
    requires 0 < qsize <= QSIZE_MAX
    ensures Shape(q) && q.qsize == qsize && q.count <= BUF_COUNT_MAX
  {
    var count := if qsize < BUF_COUNT_MAX then qsize else BUF_COUNT_MAX;
    Queue(qsize, count, seq(qsize, i requires 0 <= i => i), count, seq(qsize, _ => 0), 0, 0, [], 0, 0, true, false,
          count, 0, 0, 0)
  }

  lemma StepShape(q: Queue, e: Event)
    requires Shape(q)
    ensures Shape(Step(q, e)) && Step(q, e).qsize == q.qsize && Step(q, e).count == q.count
  {
  }

  function Run(q: Queue, es: seq<Event>): Queue
    requires Shape(q)
    decreases |es|
  {
    if es == [] then q else StepShape(q, es[0]); Run(Step(q, es[0]), es[1..])
  }

  /** Ring entries `from..to`, oldest first. */
  function Window(ring: seq<nat>, from: nat, to: nat): seq<nat>
    requires from <= to && |ring| > 0
  {
    seq(to - from, i requires 0 <= i => ring[(from + i) % |ring|])
  }

  /** Posted and not yet taken. */
  function Pending(q: Queue): seq<nat>
    requires Shape(q) && q.taken <= q.posted
  {
    Window(q.avail, q.taken, q.posted)
  }

  /** Used and not yet seen by the driver. */
  function Unseen(q: Queue): seq<nat>
    requires Shape(q) && q.seen <= q.returned
  {
    Window(q.used, q.seen, q.returned)
  }

  function Current(q: Queue): seq<nat> {
    if q.curValid && q.needsRearm then [q.curId] else []
  }

  function Four(a: seq<nat>, b: seq<nat>, c: seq<nat>, d: seq<nat>): multiset<nat> {
    multiset(a) + multiset(b) + multiset(c) + multiset(d)
  }

  /** Every place where a buffer can be, with multiplicity: pending, with the device, unseen, current. */
  function Places(q: Queue): multiset<nat>
    requires Shape(q) && q.taken <= q.posted && q.seen <= q.returned
  {
    Four(Pending(q), q.held, Unseen(q), Current(q))
  }

  /** The buffer ids, once each. */
  function Buffers(count: nat): multiset<nat> {
    if count == 0 then multiset{} else Buffers(count - 1) + multiset{count - 1}
  }

  lemma {:induction false} BuffersOnce(count: nat)
    ensures |Buffers(count)| == count
    ensures forall x: nat :: Buffers(count)[x] == if x < count then 1 else 0
  {
    if count > 0 {
      BuffersOnce(count - 1);
      forall x: nat ensures Buffers(count)[x] == if x < count then 1 else 0 {
        assert Buffers(count)[x] == Buffers(count - 1)[x] + multiset{count - 1}[x];
      }
    }
  }

  /** The 16-bit indices are the counts modulo 2^16, and the queue size is a power of two. */
  predicate Indexed(q: Queue) {
    && Shape(q) && PowerOfTwo(q.qsize)
    && q.taken <= q.posted && q.seen <= q.returned
    && q.availIdx == q.posted % 0x1_0000 && q.devIdx == q.taken % 0x1_0000
    && q.usedIdx == q.returned % 0x1_0000 && q.lastRx == q.seen % 0x1_0000
  }

  /** Each buffer is in at most one place. */
  predicate Safe(q: Queue) {
    Indexed(q) && Places(q) <= Buffers(q.count)
  }

  predicate PowerOfTwo(n: nat) {
    n == 1 || n == 2 || n == 4 || n == 8 || n == 16 || n == 32 || n == 64 || n == 128 || n == 256
  }

  lemma SlotOfSmall(a: nat, n: nat)
    requires n == 1 || n == 2 || n == 4
    ensures (a % 0x1_0000) % n == a % n
  {
    if n == 1 {
    } else if n == 2 {
    }
  }

  lemma SlotOfMiddle(a: nat, n: nat)
    requires n == 8 || n == 16 || n == 32
    ensures (a % 0x1_0000) % n == a % n
  {
    if n == 8 {
    } else if n == 16 {
    }
  }

  lemma SlotOfLarge(a: nat, n: nat)
    requires n == 64 || n == 128
    ensures (a % 0x1_0000) % n == a % n
  {
    if n == 64 {
    }
  }

  lemma SlotOfLargest(a: nat)
    ensures (a % 0x1_0000) % 256 == a % 256
  {
  }

  /** A 16-bit index names the same ring slot as the count it stands for. */
  lemma SlotOf(a: nat, n: nat)
    requires PowerOfTwo(n)
    ensures (a % 0x1_0000) % n == a % n
  {
    if n <= 4 {
      SlotOfSmall(a, n);
    } else if n <= 32 {
      SlotOfMiddle(a, n);
    } else if n <= 128 {
      SlotOfLarge(a, n);
    } else {
      SlotOfLargest(a);
    }
  }

  lemma MulAtLeast(n: nat, d: int)
    ensures d > 0 ==> n * d >= n
    ensures d <= 0 ==> n * d <= 0
  {
  }

  lemma SameSlot(i: nat, j: nat, n: nat)
    requires n > 0 && i < j && i % n == j % n
    ensures i + n <= j
  {
    var a, b := i / n, j / n;
    assert i == n * a + i % n && j == n * b + j % n;
    assert j - i == n * (b - a);
    MulAtLeast(n, b - a);
  }

  /** Entries less than a whole ring apart lie in different slots. */
  lemma SlotsApart(i: nat, j: nat, n: nat)
    requires n > 0 && i < j < i + n
    ensures i % n != j % n
  {
    if i % n == j % n {
      SameSlot(i, j, n);
    }
  }

  /** Writing the next entry appends it, as long as the window is not a whole ring long. */
  lemma WindowPush(ring: seq<nat>, from: nat, to: nat, id: nat)
    requires |ring| > 0 && from <= to < from + |ring|
    ensures Window(ring[to % |ring| := id], from, to + 1) == Window(ring, from, to) + [id]
  {
    var ring' := ring[to % |ring| := id];
    forall i | 0 <= i < to - from ensures Window(ring', from, to + 1)[i] == Window(ring, from, to)[i] {
      SlotsApart(from + i, to, |ring|);
    }
  }

  lemma WindowPop(ring: seq<nat>, from: nat, to: nat)
    requires |ring| > 0 && from < to
    ensures Window(ring, from, to) == [ring[from % |ring|]] + Window(ring, from + 1, to)
  {
  }

  /** Counts that differ by less than 2^16 have different indices. */
  lemma IndexApart(i: nat, j: nat)
    requires i <= j < i + 0x1_0000
    ensures i % 0x1_0000 == j % 0x1_0000 <==> i == j
  {
  }

  /** Nothing can hold more entries than there are buffers. */
  lemma Bounds(q: Queue)
    requires Safe(q)
    ensures Indexed(q)
    ensures q.posted - q.taken + |q.held| + (q.returned - q.seen) + |Current(q)| <= q.count
  {
    BuffersOnce(q.count);
    Smaller(Places(q), Buffers(q.count));
    FourLength(Pending(q), q.held, Unseen(q), Current(q));
  }

  lemma Smaller(a: multiset<nat>, b: multiset<nat>)
    requires a <= b
    ensures |a| <= |b|
  {
    assert b == a + (b - a);
  }

  lemma InitSafe(qsize: nat)
    requires PowerOfTwo(qsize)
    ensures Safe(Init(qsize))
  {
    var q := Init(qsize);
    assert Pending(q) == seq(q.count, i requires 0 <= i => i) by {
      forall i | 0 <= i < q.count ensures q.avail[i % qsize] == i {
        SmallMod(i, qsize);
      }
    }
    CountUp(q.count);
    assert Unseen(q) == [];
  }

  lemma SmallMod(i: nat, n: nat)
    requires i < n
    ensures i % n == i
  {
  }

  lemma {:induction false} CountUp(n: nat)
    ensures multiset(seq(n, i requires 0 <= i => i)) == Buffers(n)
  {
    if n > 0 {
      CountUp(n - 1);
      assert seq(n, i requires 0 <= i => i) == seq(n - 1, i requires 0 <= i => i) + [n - 1];
    }
  }

  lemma FourLength(a: seq<nat>, b: seq<nat>, c: seq<nat>, d: seq<nat>)
    ensures |Four(a, b, c, d)| == |a| + |b| + |c| + |d|
  {
  }

  lemma CountFits(q: Queue)
    requires Indexed(q)
    ensures q.count <= q.qsize <= 256
  {
  }

  /** From pending to the device. */
  lemma FourTake(id: nat, p: seq<nat>, h: seq<nat>, u: seq<nat>, c: seq<nat>)
    ensures Four(p, h + [id], u, c) == Four([id] + p, h, u, c)
  {
  }

  lemma TakesMoves(q: Queue)
    requires Indexed(q) && 0 < q.posted - q.taken <= 256
    ensures var r := Step(q, DeviceTakes);
            && Indexed(r) && Current(r) == Current(q) && Unseen(r) == Unseen(q)
            && exists id: nat :: r.held == q.held + [id] && Pending(q) == [id] + Pending(r)
  {
    hide PowerOfTwo, Inc, Window;
    IndexApart(q.taken, q.posted);
    SlotOf(q.taken, q.qsize);
    IncCount(q.taken);
    WindowPop(q.avail, q.taken, q.posted);
    var r := Step(q, DeviceTakes);
    var id := q.avail[q.taken % q.qsize];
    assert r.held == q.held + [id] && Pending(q) == [id] + Pending(r);
  }

  /** The device takes the oldest pending buffer. */
  lemma TakesSafe(q: Queue)
    requires Safe(q)
    ensures Safe(Step(q, DeviceTakes)) && Places(Step(q, DeviceTakes)) <= Places(q)
  {
    hide Buffers, Indexed, Pending, Unseen, Four;
    Bounds(q);
    CountFits(q);
    Counts(q);
    if q.posted == q.taken {
      assert Step(q, DeviceTakes) == q;
    } else {
      TakesMoves(q);
      var r := Step(q, DeviceTakes);
      var id :| r.held == q.held + [id] && Pending(q) == [id] + Pending(r);
      Counts(r);
      FourTake(id, Pending(r), q.held, Unseen(q), Current(q));
    }
  }

  lemma Counts(q: Queue)
    requires Indexed(q)
    ensures Shape(q) && q.taken <= q.posted && q.seen <= q.returned
    ensures q.availIdx == q.posted % 0x1_0000 && q.devIdx == q.taken % 0x1_0000
    ensures q.usedIdx == q.returned % 0x1_0000 && q.lastRx == q.seen % 0x1_0000
  {
  }

  /** From the device to the unseen entries. */
  lemma FourReturn(p: seq<nat>, h: seq<nat>, k: nat, u: seq<nat>, c: seq<nat>)
    requires k < |h|
    ensures Four(p, h[..k] + h[k + 1..], u + [h[k]], c) == Four(p, h, u, c)
  {
    assert h == h[..k] + ([h[k]] + h[k + 1..]);
  }

  lemma ReturnsMoves(q: Queue, k: nat)
    requires Indexed(q) && k < |q.held| && q.returned - q.seen < q.qsize
    ensures var r := Step(q, DeviceReturns(k));
            && Indexed(r) && Current(r) == Current(q) && Pending(r) == Pending(q)
            && r.held == q.held[..k] + q.held[k + 1..] && Unseen(r) == Unseen(q) + [q.held[k]]
  {
    hide PowerOfTwo, Inc, Window;
    SlotOf(q.returned, q.qsize);
    IncCount(q.returned);
    WindowPush(q.used, q.seen, q.returned, q.held[k]);
  }

  /** The device hands any buffer it holds back to the driver. */
  lemma ReturnsSafe(q: Queue, k: nat)
    requires Safe(q)
    ensures Safe(Step(q, DeviceReturns(k))) && Places(Step(q, DeviceReturns(k))) <= Places(q)
  {
    hide Buffers, Indexed, Pending, Unseen, Four;
    Bounds(q);
    CountFits(q);
    Counts(q);
    if k < |q.held| {
      ReturnsMoves(q, k);
      Counts(Step(q, DeviceReturns(k)));
      FourReturn(Pending(q), q.held, k, Unseen(q), Current(q));
    }
  }

  lemma SetMoves(q: Queue, ids: seq<nat>)
    requires Indexed(q) && |ids| <= 1
    ensures var r := SetIfAny(q, ids);
            && Indexed(r) && r.count == q.count
            && Pending(r) == Pending(q) && Unseen(r) == Unseen(q) && r.held == q.held
            && (Current(r) == [] || Current(r) == ids || Current(r) == Current(q))
  {
    hide PowerOfTwo;
    assert ids != [] ==> ids == [ids[0]];
  }

  /** Making a seen buffer current keeps it in one place; a buffer still current is dropped. */
  lemma CurrentSafe(q: Queue, ids: seq<nat>, spare: multiset<nat>)
    requires Indexed(q) && |ids| <= 1
    requires Four(Pending(q), q.held, Unseen(q), ids) <= spare <= Buffers(q.count)
    requires Places(q) <= spare
    ensures Safe(SetIfAny(q, ids)) && Places(SetIfAny(q, ids)) <= spare
  {
    hide Buffers, Indexed, Pending, Unseen, Current, SetIfAny;
    Counts(q);
    SetMoves(q, ids);
    Counts(SetIfAny(q, ids));
    assert Four(Pending(q), q.held, Unseen(q), []) <= Four(Pending(q), q.held, Unseen(q), ids);
  }

  /** What the driver finds at the next index: the oldest unseen entry, or nothing when the index is 0. */
  lemma NextMoves(q: Queue)
    requires Indexed(q) && 0 < q.returned - q.seen <= 256
    ensures var q1 := q.(lastRx := Inc(q.lastRx), seen := q.seen + 1);
            && Step(q, DriverNext) == SetIfAny(q1, UsedAt(q, Inc(q.lastRx)))
            && Indexed(q1) && Pending(q1) == Pending(q) && Current(q1) == Current(q)
            && exists id: nat :: Unseen(q) == [id] + Unseen(q1) &&
                                 (UsedAt(q, Inc(q.lastRx)) == [] || UsedAt(q, Inc(q.lastRx)) == [id])
  {
    IndexApart(q.seen, q.returned);
    SlotBefore(q.seen, q.qsize);
    hide PowerOfTwo;
    WindowPop(q.used, q.seen, q.returned);
    var q1 := q.(lastRx := Inc(q.lastRx), seen := q.seen + 1);
    var id := q.used[q.seen % q.qsize];
    assert Unseen(q) == [id] + Unseen(q1);
  }

  lemma FourSee(p: seq<nat>, h: seq<nat>, id: nat, u: seq<nat>, c: seq<nat>, ids: seq<nat>)
    requires ids == [] || ids == [id]
    ensures Four(p, h, u, ids) <= Four(p, h, [id] + u, c)
    ensures Four(p, h, u, c) <= Four(p, h, [id] + u, c)
  {
  }

  lemma NextSafe(q: Queue)
    requires Safe(q)
    ensures Safe(Step(q, DriverNext)) && Places(Step(q, DriverNext)) <= Places(q)
  {
    hide Buffers, Indexed, Pending, Unseen, Four, UsedAt, SetIfAny, Current;
    Bounds(q);
    CountFits(q);
    Counts(q);
    if q.returned == q.seen {
      assert Step(q, DriverNext) == q;
    } else {
      NextMoves(q);
      var q1 := q.(lastRx := Inc(q.lastRx), seen := q.seen + 1);
      var ids := UsedAt(q, Inc(q.lastRx));
      var id :| Unseen(q) == [id] + Unseen(q1) && (ids == [] || ids == [id]);
      FourSee(Pending(q), q.held, id, Unseen(q1), Current(q), ids);
      CurrentSafe(q1, ids, Places(q));
    }
  }

  /** The entry before the next index is the oldest unseen one. */
  lemma SlotBefore(seen: nat, n: nat)
    requires PowerOfTwo(n)
    ensures var next := (seen % 0x1_0000 + 1) % 0x1_0000;
            && next == (seen + 1) % 0x1_0000
            && (next != 0 ==> (next - 1) % n == seen % n)
  {
    SlotOf(seen, n);
    hide PowerOfTwo;
  }

  lemma LatestMoves(q: Queue)
    requires Indexed(q) && 0 < q.returned - q.seen <= 256
    ensures var q1 := q.(lastRx := q.usedIdx, seen := q.returned);
            && Step(q, DriverLatest) == SetIfAny(q1, UsedAt(q, q.usedIdx))
            && Indexed(q1) && Pending(q1) == Pending(q) && Current(q1) == Current(q) && Unseen(q1) == []
            && exists u: seq<nat>, id: nat :: Unseen(q) == u + [id] &&
                                              (UsedAt(q, q.usedIdx) == [] || UsedAt(q, q.usedIdx) == [id])
  {
    IndexApart(q.seen, q.returned);
    SlotBefore(q.returned - 1, q.qsize);
    hide PowerOfTwo;
    WindowLast(q.used, q.seen, q.returned);
    var id := q.used[(q.returned - 1) % q.qsize];
    assert Unseen(q) == Window(q.used, q.seen, q.returned - 1) + [id];
  }

  lemma FourSkip(p: seq<nat>, h: seq<nat>, u: seq<nat>, id: nat, c: seq<nat>, ids: seq<nat>)
    requires ids == [] || ids == [id]
    ensures Four(p, h, [], ids) <= Four(p, h, u + [id], c)
    ensures Four(p, h, [], c) <= Four(p, h, u + [id], c)
  {
  }

  lemma LatestSafe(q: Queue)
    requires Safe(q)
    ensures Safe(Step(q, DriverLatest)) && Places(Step(q, DriverLatest)) <= Places(q)
  {
    hide Buffers, Indexed, Pending, Unseen, Four, UsedAt, SetIfAny, Current;
    Bounds(q);
    CountFits(q);
    Counts(q);
    if q.returned == q.seen {
      assert Step(q, DriverLatest) == q;
    } else {
      LatestMoves(q);
      var q1 := q.(lastRx := q.usedIdx, seen := q.returned);
      var ids := UsedAt(q, q.usedIdx);
      var u: seq<nat>, id: nat :| Unseen(q) == u + [id] && (ids == [] || ids == [id]);
      FourSkip(Pending(q), q.held, u, id, Current(q), ids);
      CurrentSafe(q1, ids, Places(q));
    }
  }

  lemma WindowLast(ring: seq<nat>, from: nat, to: nat)
    requires |ring| > 0 && from < to
    ensures Window(ring, from, to) == Window(ring, from, to - 1) + [ring[(to - 1) % |ring|]]
  {
  }

  lemma FourPost(p: seq<nat>, h: seq<nat>, u: seq<nat>, id: nat)
    ensures Four(p + [id], h, u, []) == Four(p, h, u, [id])
  {
  }

  lemma RearmIndexed(q: Queue)
    requires Indexed(q)
    ensures Indexed(Rearm(q))
  {
    hide PowerOfTwo, Inc;
    IncCount(q.posted);
  }

  lemma RearmMoves(q: Queue)
    requires Indexed(q) && q.curValid && q.needsRearm && q.posted - q.taken < q.qsize
    ensures var r := Rearm(q);
            && Indexed(r) && Current(r) == [] && Unseen(r) == Unseen(q) && r.held == q.held
            && Pending(r) == Pending(q) + [q.curId]
  {
    hide PowerOfTwo, Inc, Window;
    RearmIndexed(q);
    SlotOf(q.posted, q.qsize);
    WindowPush(q.avail, q.taken, q.posted, q.curId);
  }

  /** Rearming posts the current buffer once, into a slot that holds no pending entry. */
  lemma RearmSafe(q: Queue)
    requires Safe(q)
    ensures Safe(Rearm(q)) && Places(Rearm(q)) <= Places(q)
    ensures q.curValid && q.needsRearm ==> q.posted - q.taken < q.qsize && Pending(Rearm(q)) == Pending(q) + [q.curId]
  {
    hide Buffers, Indexed, Pending, Unseen, Four;
    Bounds(q);
    CountFits(q);
    Counts(q);
    if q.curValid && q.needsRearm {
      RearmMoves(q);
      Counts(Rearm(q));
      FourPost(Pending(q), q.held, Unseen(q), q.curId);
    }
  }

  /** Every step of either side keeps each buffer in at most one place. */
  lemma StepSafe(q: Queue, e: Event)
    requires Safe(q)
    ensures Safe(Step(q, e)) && Places(Step(q, e)) <= Places(q)
  {
    hide Places;
    match e
    case DeviceTakes => TakesSafe(q);
    case DeviceReturns(k) => ReturnsSafe(q, k);
    case DriverNext => NextSafe(q);
    case DriverLatest => LatestSafe(q);
    case DriverRearms => RearmSafe(q);
  }

  lemma {:induction false} RunSafe(q: Queue, es: seq<Event>)
    requires Safe(q)
    ensures Safe(Run(q, es)) && Places(Run(q, es)) <= Places(q)
    decreases |es|
  {
    hide Step, Places;
    if es != [] {
      StepShape(q, es[0]);
      StepSafe(q, es[0]);
      RunSafe(Step(q, es[0]), es[1..]);
    }
  }

  /** In every interleaving of driver and device, across index wrap: each buffer is in at most one place,
      posted entries never exceed the buffers or the ring, and the next post never overwrites one. */
  lemma EveryInterleaving(qsize: nat, es: seq<Event>)
    requires PowerOfTwo(qsize)
    ensures var q := Run(Init(qsize), es);
            && Shape(q) && q.qsize == qsize && q.taken <= q.posted && q.seen <= q.returned
            && (forall id: nat :: Places(q)[id] <= 1)
            && q.posted - q.taken <= q.count <= qsize
            && q.returned - q.seen <= q.count
            && (q.curValid && q.needsRearm ==> q.posted - q.taken < q.count)
  {
    hide Step, Places, Run;
    InitSafe(qsize);
    RunSafe(Init(qsize), es);
    RunKeepsSize(Init(qsize), es);
    var q := Run(Init(qsize), es);
    Bounds(q);
    BuffersOnce(q.count);
    forall id: nat ensures Places(q)[id] <= 1 {
      assert Places(q)[id] <= Buffers(q.count)[id];
    }
  }

  lemma {:induction false} RunKeepsSize(q: Queue, es: seq<Event>)
    requires Shape(q)
    ensures Shape(Run(q, es)) && Run(q, es).qsize == q.qsize && Run(q, es).count == q.count
    decreases |es|
  {
    hide Step;
    if es != [] {
      StepShape(q, es[0]);
      RunKeepsSize(Step(q, es[0]), es[1..]);
    }
  }

  /** How many buffers a driver step loses: the entry that index 0 would name is never read, an entry that
      is skipped is not rearmed, and neither is a current buffer that is replaced. */
  function LostBy(q: Queue, e: Event): nat
    requires q.seen <= q.returned
  {
    match e
    case DriverNext =>
      if q.usedIdx == q.lastRx then 0 else if Inc(q.lastRx) == 0 then 1 else |Current(q)|
    case DriverLatest =>
      if q.usedIdx == q.lastRx || q.returned == q.seen then 0
      else if q.usedIdx == 0 then q.returned - q.seen
      else q.returned - q.seen - 1 + |Current(q)|
    case _ => 0
  }

  lemma PlacesCount(q: Queue)
    requires Indexed(q)
    ensures |Places(q)| == q.posted - q.taken + |q.held| + (q.returned - q.seen) + |Current(q)|
  {
    FourLength(Pending(q), q.held, Unseen(q), Current(q));
  }

  /** An unseen buffer is one of the queue's, so it can become current. */
  lemma UnseenIsBuffer(q: Queue, id: nat)
    requires Safe(q) && id in Unseen(q)
    ensures id < q.count
  {
    hide Pending, Unseen, Indexed;
    Counts(q);
    BuffersOnce(q.count);
    FourHas(Pending(q), q.held, Unseen(q), Current(q), id);
    assert 0 < Places(q)[id] <= Buffers(q.count)[id];
  }

  lemma FourHas(a: seq<nat>, b: seq<nat>, c: seq<nat>, d: seq<nat>, id: nat)
    requires id in c
    ensures Four(a, b, c, d)[id] > 0
  {
  }

  lemma SetCount(q: Queue, ids: seq<nat>)
    requires Shape(q) && |ids| <= 1 && (ids != [] ==> ids[0] < q.count)
    ensures var r := SetIfAny(q, ids);
            && r.posted == q.posted && r.taken == q.taken && r.held == q.held
            && r.returned == q.returned && r.seen == q.seen
            && |Current(r)| == if ids == [] then |Current(q)| else 1
  {
  }

  lemma NextConserves(q: Queue)
    requires Safe(q)
    ensures |Places(Step(q, DriverNext))| + LostBy(q, DriverNext) == |Places(q)|
  {
    hide Buffers, Indexed, Pending, Unseen, Four, SetIfAny, Current, Places;
    Bounds(q);
    CountFits(q);
    Counts(q);
    NextSafe(q);
    PlacesCount(q);
    PlacesCount(Step(q, DriverNext));
    IndexApart(q.seen, q.returned);
    if q.returned != q.seen {
      NextMoves(q);
      var q1 := q.(lastRx := Inc(q.lastRx), seen := q.seen + 1);
      var ids := UsedAt(q, Inc(q.lastRx));
      var id :| Unseen(q) == [id] + Unseen(q1) && (ids == [] || ids == [id]);
      UnseenIsBuffer(q, id);
      SetCount(q1, ids);
    }
  }

  lemma LatestConserves(q: Queue)
    requires Safe(q)
    ensures |Places(Step(q, DriverLatest))| + LostBy(q, DriverLatest) == |Places(q)|
  {
    hide Buffers, Indexed, Pending, Unseen, Four, SetIfAny, Current, Places;
    Bounds(q);
    CountFits(q);
    Counts(q);
    LatestSafe(q);
    PlacesCount(q);
    PlacesCount(Step(q, DriverLatest));
    IndexApart(q.seen, q.returned);
    if q.returned != q.seen {
      LatestMoves(q);
      var q1 := q.(lastRx := q.usedIdx, seen := q.returned);
      var ids := UsedAt(q, q.usedIdx);
      var u: seq<nat>, id: nat :| Unseen(q) == u + [id] && (ids == [] || ids == [id]);
      UnseenIsBuffer(q, id);
      SetCount(q1, ids);
    }
  }

  /** The other steps move a buffer without losing any. */
  lemma OthersConserve(q: Queue, e: Event)
    requires Safe(q) && q.seen <= q.returned && !e.DriverNext? && !e.DriverLatest?
    ensures LostBy(q, e) == 0 && |Places(Step(q, e))| == |Places(q)|
  {
    hide Buffers, Indexed, Pending, Unseen, Four, Places;
    Bounds(q);
    CountFits(q);
    Counts(q);
    StepSafe(q, e);
    Bounds(Step(q, e));
    PlacesCount(q);
    PlacesCount(Step(q, e));
    IndexApart(q.taken, q.posted);
  }

  function LostOver(q: Queue, es: seq<Event>): nat
    requires Safe(q)
    decreases |es|
  {
    if es == [] then 0
    else
      StepSafe(q, es[0]);
      LostBy(q, es[0]) + LostOver(Step(q, es[0]), es[1..])
  }

  /** Buffers are conserved but for these losses: over any run, the buffers still in circulation and the
      lost ones add up. */
  lemma {:induction false} RunConserves(q: Queue, es: seq<Event>)
    requires Safe(q)
    ensures Safe(Run(q, es))
    ensures |Places(Run(q, es))| + LostOver(q, es) == |Places(q)|
    decreases |es|
  {
    hide Step, Places, LostBy, Indexed;
    Counts(q);
    if es != [] {
      StepShape(q, es[0]);
      StepSafe(q, es[0]);
      match es[0] {
        case DriverNext => NextConserves(q);
        case DriverLatest => LatestConserves(q);
        case _ => OthersConserve(q, es[0]);
      }
      RunConserves(Step(q, es[0]), es[1..]);
    }
  }
}
