/** The bump allocator: any number of callers share one `next` address through compare-exchange. */
module Allocator {
  import opened Options

  datatype Block = Block(at: nat, size: nat, k: nat)

  function Pow2(k: nat): (p: nat)
    ensures p >= 1
  {
    if k == 0 then 1 else 2 * Pow2(k - 1)
  }

  /** `x & !(2^k - 1)`: the low `k` bits cleared, bit by bit. */
  function ClearLow(x: nat, k: nat): nat
    decreases k
  {
    if k == 0 then x else 2 * ClearLow(x / 2, k - 1)
  }

  /** `align_up` for the alignment `2^k`. */
  function AlignUp(addr: nat, k: nat): nat {
    ClearLow(addr + Pow2(k) - 1, k)
  }

  lemma {:induction false} ClearLowExact(x: nat, k: nat)
    ensures exists q: nat :: ClearLow(x, k) == Pow2(k) * q && Pow2(k) * q <= x < Pow2(k) * q + Pow2(k)
    decreases k
  {
    if k == 0 {
      assert ClearLow(x, 0) == Pow2(0) * x;
    } else {
      ClearLowExact(x / 2, k - 1);
      var p := Pow2(k - 1);
      var q: nat :| ClearLow(x / 2, k - 1) == p * q && p * q <= x / 2 < p * q + p;
      Double(p, q);
      assert ClearLow(x, k) == Pow2(k) * q;
    }
  }

  lemma Double(p: nat, q: nat)
    ensures 2 * (p * q) == (2 * p) * q
  {
  }

  ghost predicate Aligned(at: nat, k: nat) {
    exists q: nat :: at == Pow2(k) * q
  }

  /** `align_up` gives the least multiple of the alignment at or above its argument. */
  lemma AlignUpLeast(addr: nat, k: nat, m: nat)
    ensures addr <= AlignUp(addr, k) < addr + Pow2(k)
    ensures Aligned(AlignUp(addr, k), k)
    ensures addr <= Pow2(k) * m ==> AlignUp(addr, k) <= Pow2(k) * m
  {
    hide ClearLow, Pow2;
    var p := Pow2(k);
    ClearLowExact(addr + p - 1, k);
    var q: nat :| AlignUp(addr, k) == p * q && p * q <= addr + p - 1 < p * q + p;
    assert AlignUp(addr, k) == Pow2(k) * q;
    if addr <= p * m {
      NoMultipleBetween(p, q, m, addr);
    }
  }

  lemma NoMultipleBetween(p: nat, q: nat, m: nat, addr: nat)
    requires p * q < addr + p && addr <= p * m
    ensures p * q <= p * m
  {
    if q > m {
      NextMultiple(p, m, q);
    }
  }

  lemma NextMultiple(p: nat, m: nat, q: nat)
    requires m < q
    ensures p * m + p <= p * q
  {
    var d: nat := q - m - 1;
    assert p * d >= 0;
    assert p * (m + 1 + d) == p * m + p + p * d;
    assert q == m + 1 + d;
  }

  lemma AlignUpMonotone(a: nat, b: nat, k: nat)
    requires a <= b
    ensures AlignUp(a, k) <= AlignUp(b, k)
  {
    AlignUpLeast(b, k, 0);
    var q: nat :| AlignUp(b, k) == Pow2(k) * q;
    AlignUpLeast(a, k, q);
  }

  /** What one caller is doing: having loaded a zero `next`, or about to compare-exchange on what it loaded. */
  datatype Caller = Idle | Storing(size: nat, k: nat) | Trying(cur: nat, size: nat, k: nat)

  datatype Heap = Heap(start: nat, end: nat, next: nat, callers: seq<Caller>, blocks: seq<Block>)

  datatype Event = Loads(who: nat, size: nat, k: nat) | Stores(who: nat) | Exchanges(who: nat)

  function Set(h: Heap, i: nat, c: Caller): Heap
    requires i < |h.callers|
  {
    h.(callers := h.callers[i := c])
  }

  /** One atomic step of one caller; a request is never of size zero. */
  function Step(h: Heap, e: Event): Heap {
    if e.who >= |h.callers| then h
    else
      match (e, h.callers[e.who])
      case (Loads(i, size, k), Idle) =>
        if size == 0 then h
        else Set(h, i, if h.next == 0 then Storing(size, k) else Trying(h.next, size, k))
      case (Stores(i), Storing(size, k)) => Set(h, i, Trying(h.start, size, k)).(next := h.start)
      case (Exchanges(i), Trying(cur, size, k)) =>
        var at := AlignUp(cur, k);
        if at + size > h.end then Set(h, i, Idle)
        else if h.next == cur then
          Set(h, i, Idle).(next := at + size, blocks := h.blocks + [Block(at, size, k)])
        else Set(h, i, Trying(h.next, size, k))
      case _ => h
  }

  function Run(h: Heap, es: seq<Event>): Heap
    decreases |es|
  {
    if es == [] then h else Run(Step(h, es[0]), es[1..])
  }

  ghost predicate Placed(h: Heap, b: Block) {
    h.start <= b.at && b.size > 0 && b.at + b.size <= h.next <= h.end && Aligned(b.at, b.k)
  }

  /** All blocks handed out are inside the heap, aligned, below `next`, and one after another. */
  ghost predicate Laid(h: Heap) {
    && (forall i :: 0 <= i < |h.blocks| ==> Placed(h, h.blocks[i]))
    && (forall i, j :: 0 <= i < j < |h.blocks| ==> h.blocks[i].at + h.blocks[i].size <= h.blocks[j].at)
  }

  predicate InStep(h: Heap, c: Caller) {
    match c
    case Idle => true
    case Storing(size, _) => size > 0
    case Trying(cur, size, _) => size > 0 && h.start <= cur <= h.next
  }

  ghost predicate Inv(h: Heap) {
    && h.start > 0
    && Laid(h)
    && (h.next < h.start ==> h.next == 0)
    && (h.blocks == [] ==> h.next <= h.start)
    && (forall i :: 0 <= i < |h.callers| ==> InStep(h, h.callers[i]))
  }

  /** A store of the heap start that comes after a block was handed out. */
  predicate Late(h: Heap, e: Event) {
    e.Stores? && e.who < |h.callers| && h.callers[e.who].Storing? && h.blocks != []
  }

  lemma StepInv(h: Heap, e: Event)
    requires Inv(h) && !Late(h, e)
    ensures Inv(Step(h, e)) && (Step(h, e).next >= h.next)
  {
    hide AlignUp, Aligned;
    if e.Exchanges? && e.who < |h.callers| && h.callers[e.who].Trying? {
      AlignUpLeast(h.callers[e.who].cur, h.callers[e.who].k, 0);
    }
  }

  /** The initialising store is harmless exactly while nothing has been handed out. */
  lemma StoreSafeIff(h: Heap, i: nat)
    requires Inv(h) && i < |h.callers| && h.callers[i].Storing?
    ensures Inv(Step(h, Stores(i))) <==> h.blocks == []
  {
    hide Aligned;
    if h.blocks == [] {
      StepInv(h, Stores(i));
    } else {
      var b, d := h.blocks[0], Step(h, Stores(i));
      assert Placed(h, b) && d.blocks[0] == b && !Placed(d, b);
    }
  }

  predicate NeverLate(h: Heap, es: seq<Event>)
    decreases |es|
  {
    es == [] || (!Late(h, es[0]) && NeverLate(Step(h, es[0]), es[1..]))
  }

  lemma {:induction false} RunInv(h: Heap, es: seq<Event>)
    requires Inv(h) && NeverLate(h, es)
    ensures Inv(Run(h, es)) && Run(h, es).next >= h.next
    decreases |es|
  {
    hide Inv, Step;
    if es != [] {
      StepInv(h, es[0]);
      RunInv(Step(h, es[0]), es[1..]);
    }
  }

  predicate Initialised(h: Heap) {
    h.next > 0 && forall i :: 0 <= i < |h.callers| ==> !h.callers[i].Storing?
  }

  lemma {:induction false} InitialisedNeverLate(h: Heap, es: seq<Event>)
    requires Inv(h) && Initialised(h)
    ensures NeverLate(h, es)
    decreases |es|
  {
    hide Aligned, AlignUp;
    if es != [] {
      StepInv(h, es[0]);
      InitialisedNeverLate(Step(h, es[0]), es[1..]);
    }
  }

  function Start(start: nat, end: nat, next: nat, callers: nat): Heap {
    Heap(start, end, next, seq(callers, _ => Idle), [])
  }

  /** Once `next` holds the heap start, every interleaving of any number of callers hands out blocks that
      are pairwise disjoint, aligned and inside the heap, and `next` never goes back. */
  lemma EveryInterleavingSafe(start: nat, end: nat, callers: nat, es: seq<Event>, more: seq<Event>)
    requires 0 < start
    ensures var h := Run(Start(start, end, start, callers), es);
            Laid(h) && Laid(Run(h, more)) && h.next <= Run(h, more).next
  {
    hide NeverLate, Run;
    var h := Start(start, end, start, callers);
    InitialisedNeverLate(h, es);
    RunInv(h, es);
    RunInitialised(h, es);
    InitialisedNeverLate(Run(h, es), more);
    RunInv(Run(h, es), more);
  }

  lemma {:induction false} RunInitialised(h: Heap, es: seq<Event>)
    requires Inv(h) && Initialised(h)
    ensures Initialised(Run(h, es))
    decreases |es|
  {
    hide Aligned, AlignUp;
    if es != [] {
      StepInv(h, es[0]);
      RunInitialised(Step(h, es[0]), es[1..]);
    }
  }

  /** From the zero `next` of program start the same holds of every run in which no caller that saw the
      zero stores the heap start after a block has been handed out. */
  lemma ColdStartSafe(start: nat, end: nat, callers: nat, es: seq<Event>)
    requires 0 < start && NeverLate(Start(start, end, 0, callers), es)
    ensures Laid(Run(Start(start, end, 0, callers), es))
  {
    RunInv(Start(start, end, 0, callers), es);
  }

  /** Without that, two first callers are each given the lowest place that suits them, as if the other did not
      exist: the same address when they ask for the same alignment. */
  lemma ColdStartRace(start: nat, end: nat, k0: nat, k1: nat, size0: nat, size1: nat)
    requires 0 < start && 0 < size0 && 0 < size1
    requires AlignUp(start, k0) + size0 <= end && AlignUp(start, k1) + size1 <= end
    ensures Run(Start(start, end, 0, 2),
                [Loads(0, size0, k0), Loads(1, size1, k1), Stores(0), Exchanges(0), Stores(1), Exchanges(1)]).blocks ==
            [Block(AlignUp(start, k0), size0, k0), Block(AlignUp(start, k1), size1, k1)]
  {
    hide AlignUp, Run;
    var h0 := Start(start, end, 0, 2);
    var h1 := Step(h0, Loads(0, size0, k0));
    var h2 := Step(h1, Loads(1, size1, k1));
    var h3 := Step(h2, Stores(0));
    var h4 := Step(h3, Exchanges(0));
    var h5 := Step(h4, Stores(1));
    var a := AlignUp(start, k0);
    assert h1 == Heap(start, end, 0, [Storing(size0, k0), Idle], []);
    assert h2 == Heap(start, end, 0, [Storing(size0, k0), Storing(size1, k1)], []);
    assert h3 == Heap(start, end, start, [Trying(start, size0, k0), Storing(size1, k1)], []);
    assert h4 == Heap(start, end, a + size0, [Idle, Storing(size1, k1)], [Block(a, size0, k0)]);
    assert h5 == Heap(start, end, start, [Idle, Trying(start, size1, k1)], [Block(a, size0, k0)]);
    RunSix(h0, Loads(0, size0, k0), Loads(1, size1, k1), Stores(0), Exchanges(0), Stores(1), Exchanges(1));
  }

  lemma RunFirst(h: Heap, e: Event, es: seq<Event>)
    ensures Run(h, [e] + es) == Run(Step(h, e), es)
  {
    assert ([e] + es)[1..] == es;
  }

  lemma RunSix(h: Heap, a: Event, b: Event, c: Event, d: Event, e: Event, f: Event)
    ensures Run(h, [a, b, c, d, e, f]) == Step(Step(Step(Step(Step(Step(h, a), b), c), d), e), f)
  {
    hide Step, Run;
    RunThree(h, a, b, c, [d, e, f]);
    RunThree(Step(Step(Step(h, a), b), c), d, e, f, []);
    assert [a, b, c, d, e, f] == [a, b, c] + [d, e, f];
    assert [d, e, f] == [d, e, f] + [];
    RunNone(Step(Step(Step(Step(Step(Step(h, a), b), c), d), e), f));
  }

  lemma RunNone(h: Heap)
    ensures Run(h, []) == h
  {
  }

  lemma RunThree(h: Heap, a: Event, b: Event, c: Event, es: seq<Event>)
    ensures Run(h, [a, b, c] + es) == Run(Step(Step(Step(h, a), b), c), es)
  {
    hide Step, Run;
    assert [a, b, c] + es == [a] + ([b] + ([c] + es));
    RunFirst(h, a, [b] + ([c] + es));
    RunFirst(Step(h, a), b, [c] + es);
    RunFirst(Step(Step(h, a), b), c, es);
  }

  /** No two blocks share a byte. */
  predicate Disjoint(blocks: seq<Block>) {
    forall i, j :: 0 <= i < j < |blocks| ==>
      blocks[i].at + blocks[i].size <= blocks[j].at || blocks[j].at + blocks[j].size <= blocks[i].at
  }

  lemma {:induction false} RunJoin(h: Heap, es: seq<Event>, fs: seq<Event>)
    ensures Run(h, es + fs) == Run(Run(h, es), fs)
    decreases |es|
  {
    hide Step;
    if es == [] {
      assert es + fs == fs;
    } else {
      RunJoin(Step(h, es[0]), es[1..], fs);
      assert (es + fs)[1..] == es[1..] + fs;
    }
  }

  lemma RunOne(h: Heap, e: Event)
    ensures Run(h, [e]) == Step(h, e)
  {
    hide Step;
    assert [e][1..] == [];
  }

  /** From `g` some run leads to `h`. */
  ghost predicate Leads(g: Heap, h: Heap) {
    exists es: seq<Event> :: Run(g, es) == h
  }

  lemma LeadsByStep(g: Heap, h: Heap, e: Event)
    requires Leads(g, h)
    ensures Leads(g, Step(h, e))
  {
    hide Step;
    var es: seq<Event> :| Run(g, es) == h;
    RunJoin(g, es, [e]);
    RunOne(h, e);
  }

  /** What stays as it was while caller `j` brings its business to an end. */
  ghost predicate Settled(g: Heap, h: Heap, i: nat, j: nat) {
    && Leads(g, h) && h.start == g.start && h.end == g.end && |h.callers| == |g.callers|
    && i < |h.callers| && j < |h.callers| && i != j
    && h.callers[i] == g.callers[i] && h.callers[j].Idle? && g.blocks <= h.blocks
  }

  lemma LeadsSelf(h: Heap)
    ensures Leads(h, h)
  {
    assert Run(h, []) == h;
  }

  /** A caller about to exchange is done after at most two exchanges, when nobody interferes. */
  lemma SettleTrying(g: Heap, h: Heap, i: nat, j: nat) returns (d: Heap)
    requires Leads(g, h) && h.start == g.start && h.end == g.end && |h.callers| == |g.callers|
    requires i < |h.callers| && j < |h.callers| && i != j && h.callers[i] == g.callers[i] && g.blocks <= h.blocks
    requires h.callers[j].Trying?
    ensures Settled(g, d, i, j)
    ensures Inv(h) ==> Inv(d)
  {
    hide AlignUp, Leads, Inv;
    d := Step(h, Exchanges(j));
    LeadsByStep(g, h, Exchanges(j));
    ExchangeInv(h, j);
    if d.callers[j].Trying? {
      LeadsByStep(g, d, Exchanges(j));
      ExchangeInv(d, j);
      d := Step(d, Exchanges(j));
    }
  }

  lemma ExchangeInv(h: Heap, j: nat)
    ensures Inv(h) ==> Inv(Step(h, Exchanges(j)))
  {
    hide Inv, Step;
    if Inv(h) {
      StepInv(h, Exchanges(j));
    }
  }

  lemma Settle(g: Heap, i: nat, j: nat) returns (d: Heap)
    requires i < |g.callers| && j < |g.callers| && i != j
    ensures Settled(g, d, i, j)
    ensures Inv(g) && g.blocks == [] ==> Inv(d)
  {
    hide AlignUp, Leads, Inv;
    LeadsSelf(g);
    d := g;
    if g.callers[j].Storing? {
      if Inv(g) && g.blocks == [] {
        StepInv(g, Stores(j));
      }
      d := Step(g, Stores(j));
      LeadsByStep(g, g, Stores(j));
    }
    if d.callers[j].Trying? {
      d := SettleTrying(g, d, i, j);
    }
  }

  /** Some run hands out overlapping blocks. */
  ghost predicate Unsafe(h: Heap) {
    exists es: seq<Event> :: !Disjoint(Run(h, es).blocks)
  }

  /** After a late store, a caller can be given memory that is already in use. */
  lemma LateStoreOverlaps(h: Heap, i: nat, j: nat, b: Block)
    requires i < |h.callers| && j < |h.callers| && i != j && h.callers[i].Storing? && h.callers[j].Idle?
    requires 0 < h.start <= b.at && 0 < b.size && b.at + b.size <= h.end && b in h.blocks
    ensures Unsafe(h)
  {
    hide AlignUp, Run, Leads, Disjoint;
    LeadsSelf(h);
    var size := b.at + b.size - h.start;
    var d1 := Step(h, Stores(i));
    LeadsByStep(h, h, Stores(i));
    var d2 := Step(d1, Loads(j, size, 0));
    LeadsByStep(h, d1, Loads(j, size, 0));
    var d3 := Step(d2, Exchanges(j));
    LeadsByStep(h, d2, Exchanges(j));
    Unaligned(h.start);
    assert d3.blocks == h.blocks + [Block(h.start, size, 0)];
    BothPlaced(h.blocks, b, Block(h.start, size, 0));
    LeadsBad(h, d3);
  }

  lemma Unaligned(addr: nat)
    ensures AlignUp(addr, 0) == addr
  {
  }

  lemma BothPlaced(blocks: seq<Block>, b: Block, c: Block)
    requires b in blocks && b.size > 0 && c.at <= b.at && b.at + b.size <= c.at + c.size
    ensures !Disjoint(blocks + [c])
  {
    var k :| 0 <= k < |blocks| && blocks[k] == b;
    assert (blocks + [c])[k] == b && (blocks + [c])[|blocks|] == c;
  }

  lemma LeadsBad(g: Heap, h: Heap)
    requires Leads(g, h) && !Disjoint(h.blocks)
    ensures Unsafe(g)
  {
  }

  lemma UnsafeFrom(g: Heap, h: Heap)
    requires Leads(g, h) && Unsafe(h)
    ensures Unsafe(g)
  {
    hide Run, Disjoint;
    var es: seq<Event> :| Run(g, es) == h;
    var fs: seq<Event> :| !Disjoint(Run(h, fs).blocks);
    RunJoin(g, es, fs);
  }

  /** An idle caller can obtain the first byte of an empty heap. */
  lemma TakeFirst(h: Heap, i: nat, j: nat) returns (d: Heap)
    requires Inv(h) && h.blocks == [] && h.start < h.end
    requires i < |h.callers| && j < |h.callers| && i != j && h.callers[j].Idle?
    ensures Settled(h, d, i, j) && d.blocks == [Block(h.start, 1, 0)]
  {
    hide AlignUp, Leads, Aligned;
    Unaligned(h.start);
    LeadsSelf(h);
    d := Step(h, Loads(j, 1, 0));
    LeadsByStep(h, h, Loads(j, 1, 0));
    if h.next == 0 {
      LeadsByStep(h, d, Stores(j));
      d := Step(d, Stores(j));
    }
    LeadsByStep(h, d, Exchanges(j));
    d := Step(d, Exchanges(j));
  }

  lemma StoringUnsafe(h: Heap, i: nat, j: nat)
    requires Inv(h) && h.start < h.end && i < |h.callers| && j < |h.callers| && i != j && h.callers[i].Storing?
    ensures Unsafe(h)
  {
    hide AlignUp, Leads, Aligned, Step, Run, Disjoint;
    var d := Settle(h, i, j);
    if h.blocks != [] {
      assert Placed(h, h.blocks[0]) && h.blocks[0] == d.blocks[0];
      LateStoreOverlaps(d, i, j, d.blocks[0]);
    } else if d.blocks != [] {
      assert Placed(d, d.blocks[0]);
      LateStoreOverlaps(d, i, j, d.blocks[0]);
    } else {
      var t := TakeFirst(d, i, j);
      LateStoreOverlaps(t, i, j, t.blocks[0]);
      UnsafeFrom(d, t);
    }
    UnsafeFrom(h, d);
  }

  /** Every run hands out blocks that share no byte. */
  ghost predicate AlwaysDisjoint(h: Heap) {
    forall es: seq<Event> :: Disjoint(Run(h, es).blocks)
  }

  lemma Opposites(h: Heap)
    ensures AlwaysDisjoint(h) <==> !Unsafe(h)
  {
    hide Disjoint;
    if Unsafe(h) {
      var es: seq<Event> :| !Disjoint(Run(h, es).blocks);
      assert AlwaysDisjoint(h) ==> Disjoint(Run(h, es).blocks);
    }
  }

  /** With two callers or more, every run hands out disjoint blocks exactly when `next` has been initialised and
      no caller that saw it zero has still to store. */
  lemma SafeIff(h: Heap)
    requires Inv(h) && h.start < h.end && |h.callers| >= 2
    ensures AlwaysDisjoint(h) <==> Initialised(h)
  {
    hide AlignUp, Leads, NeverLate, Step, Aligned;
    if Initialised(h) {
      forall es: seq<Event>
        ensures Disjoint(Run(h, es).blocks)
      {
        InitialisedNeverLate(h, es);
        RunInv(h, es);
        LaidDisjoint(Run(h, es));
      }
    } else {
      StartedUnsafe(h);
      Opposites(h);
    }
  }

  lemma StartedUnsafe(h: Heap)
    requires Inv(h) && h.start < h.end && |h.callers| >= 2 && !Initialised(h)
    ensures Unsafe(h)
  {
    hide AlignUp, Leads, Step, Unsafe;
    if forall i :: 0 <= i < |h.callers| ==> !h.callers[i].Storing? {
      ColdUnsafe(h);
    } else {
      var i :| 0 <= i < |h.callers| && h.callers[i].Storing?;
      StoringUnsafe(h, i, if i == 0 then 1 else 0);
    }
  }

  lemma ColdUnsafe(h: Heap)
    requires Inv(h) && h.start < h.end && |h.callers| >= 2 && h.next == 0
    requires forall i :: 0 <= i < |h.callers| ==> !h.callers[i].Storing?
    ensures Unsafe(h)
  {
    hide AlignUp, Leads, Unsafe;
    NoneTrying(h);
    StepInv(h, Loads(0, 1, 0));
    var d := Step(h, Loads(0, 1, 0));
    StoringUnsafe(d, 0, 1);
    LeadsSelf(h);
    LeadsByStep(h, h, Loads(0, 1, 0));
    UnsafeFrom(h, d);
  }

  lemma LaidDisjoint(h: Heap)
    requires Inv(h)
    ensures Disjoint(h.blocks)
  {
    hide AlignUp, Aligned;
  }

  lemma NoneTrying(h: Heap)
    requires Inv(h) && h.next == 0
    ensures forall i :: 0 <= i < |h.callers| ==> !h.callers[i].Trying?
  {
    hide AlignUp, Aligned;
    assert forall i :: 0 <= i < |h.callers| ==> InStep(h, h.callers[i]);
  }

  /** A caller is turned away only when its request does not fit behind `next`, even though it judged by an
      older value; and it retries only because another caller has moved `next` on. */
  lemma ExchangeOutcome(h: Heap, i: nat)
    requires Inv(h) && i < |h.callers| && h.callers[i].Trying?
    ensures var d, c := Step(h, Exchanges(i)), h.callers[i];
            && (d.callers[i].Idle? && d.blocks == h.blocks ==> AlignUp(h.next, c.k) + c.size > h.end)
            && (AlignUp(c.cur, c.k) + c.size <= h.end && c.cur == h.next <==> d.blocks != h.blocks)
            && (d.callers[i].Trying? ==> d.callers[i].cur > c.cur)
  {
    hide AlignUp, Aligned;
    var c := h.callers[i];
    assert InStep(h, c);
    AlignUpMonotone(c.cur, h.next, c.k);
  }

  /** One caller at work; the others take their steps between its load and its compare-exchange. */
  class BumpAllocator {
    const start: nat
    const end: nat
    var next: nat
    ghost var blocks: seq<Block>

    ghost predicate Valid()
      reads this
    {
      Inv(State())
    }

    ghost function State(): Heap
      reads this
    {
      Heap(start, end, next, [], blocks)
    }

    constructor (start: nat, end: nat)
      requires 0 < start
      ensures Valid() && next == 0 && blocks == [] && this.start == start && this.end == end
    {
      this.start, this.end, next, blocks := start, end, 0, [];
    }

    /** Another caller initialises `next` if need be, and may obtain a block. */
    method Rival()
      requires 0 < start
      modifies this
      ensures old(Valid()) ==> Valid()
      ensures old(next) <= next && old(blocks) <= blocks && (old(next) >= start ==> next >= start)
      ensures next > old(next) ==> next <= end || (old(next) == 0 && next == start)
    {
      hide AlignUp, Aligned;
      var size: nat, k: nat := *, *;
      var from := if next == 0 then start else next;
      var at := AlignUp(from, k);
      AlignUpLeast(from, k, 0);
      if size > 0 && at + size <= end {
        next, blocks := at + size, blocks + [Block(at, size, k)];
      } else {
        next := from;
      }
    }

    /** Any number of other callers. */
    method Rivals()
      requires 0 < start
      modifies this
      ensures old(Valid()) ==> Valid()
      ensures old(next) <= next && old(blocks) <= blocks && (old(next) >= start ==> next >= start)
      ensures next > old(next) ==> next <= end || (old(next) == 0 && next == start)
    {
      var n: nat := *;
      while n > 0
        invariant old(Valid()) ==> Valid()
        invariant old(next) <= next && old(blocks) <= blocks && (old(next) >= start ==> next >= start)
        invariant next > old(next) ==> next <= end || (old(next) == 0 && next == start)
      {
        Rival();
        n := n - 1;
      }
    }

    method CompareExchange(current: nat, updated: nat) returns (was: nat)
      modifies `next
      ensures was == old(next) && next == if was == current then updated else was
    {
      was := next;
      if was == current {
        next := updated;
      }
    }

    /** `alloc`, with other callers between the load of `next` and every later step. The initialising store is
        `late` when another caller was handed a block between the load that saw the zero and the store; unless it is,
        the new block joins those handed out so far, disjoint from all of them. A refusal means that the request
        does not fit. */
    method Alloc(size: nat, k: nat) returns (r: Option<nat>, ghost late: bool)
      requires Valid() && size > 0
      modifies this
      ensures late ==> old(next) == 0 && |blocks| > |old(blocks)|
      ensures !late ==> Valid() && old(next) <= next
      ensures old(blocks) <= blocks
      ensures r.Some? ==> |blocks| > |old(blocks)| && blocks[|blocks| - 1] == Block(r.value, size, k)
      ensures r.Some? ==> start <= r.value && r.value + size <= end && Aligned(r.value, k)
      ensures r.None? ==> AlignUp(next, k) + size > end
    {
      hide AlignUp, Aligned;
      var current := next;
      late := false;
      Rivals();
      if current == 0 {
        late := blocks != old(blocks);
        next := start;
        current := start;
      }
      while true
        invariant !late ==> Valid() && old(next) <= next
        invariant late ==> old(next) == 0 && |blocks| > |old(blocks)|
        invariant start <= current <= next && old(blocks) <= blocks
        decreases end - current
      {
        var at := AlignUp(current, k);
        AlignUpLeast(current, k, 0);
        if at + size > end {
          AlignUpMonotone(current, next, k);
          return None, late;
        }
        Rivals();
        var was := CompareExchange(current, at + size);
        if was == current {
          blocks := blocks + [Block(at, size, k)];
          return Some(at), late;
        }
        current := was;
      }
    }
  }
}
