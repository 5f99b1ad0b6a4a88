/** The driver's side of the receive queue, over rings shared with the device. The device's own state
    appears only as ghost fields; its steps happen between calls. */
module RxDriver {
  import opened Words
  import opened RxQueue

  class Driver {
    const qsize: nat
    const count: nat
    const avail: array<nat>
    const used: array<nat>
    var availIdx: U16
    var usedIdx: U16
    var lastRx: U16
    var curId: nat
    var curValid: bool
    var needsRearm: bool
    ghost var devIdx: U16
    ghost var held: seq<nat>
    ghost var posted: nat
    ghost var taken: nat
    ghost var returned: nat
    ghost var seen: nat

    ghost predicate Valid()
      reads this, avail, used
    {
      avail != used && Shape(State())
    }

    ghost function State(): Queue
      reads this, avail, used
    {
      Queue(qsize, count, avail[..], availIdx, used[..], usedIdx, devIdx, held, lastRx, curId, curValid, needsRearm,
            posted, taken, returned, seen)
    }

    constructor (qsize: nat)
      requires 0 < qsize <= QSIZE_MAX
      ensures Valid() && fresh(avail) && fresh(used) && State() == Init(qsize)
    {
      this.qsize := qsize;
      count := if qsize < BUF_COUNT_MAX then qsize else BUF_COUNT_MAX;
      avail := new nat[qsize](i requires 0 <= i => i);
      used := new nat[qsize](_ => 0);
      availIdx, usedIdx, lastRx := if qsize < BUF_COUNT_MAX then qsize else BUF_COUNT_MAX, 0, 0;
      curId, curValid, needsRearm := 0, true, false;
      posted := if qsize < BUF_COUNT_MAX then qsize else BUF_COUNT_MAX;
      devIdx, held, taken, returned, seen := 0, [], 0, 0, 0;
    }

    /** `rx_set_current`: whether the id names a buffer. */
    method RxSetCurrent(id: nat) returns (ok: bool)
      requires Valid()
      modifies `curId, `curValid, `needsRearm
      ensures Valid() && State() == SetCurrent(old(State()), id) && ok == (id < count)
    {
      if id >= count {
        curValid := false;
        return false;
      }
      curId, curValid, needsRearm := id, true, true;
      return true;
    }

    /** `rx_rearm`. */
    method RxRearm()
      requires Valid()
      modifies `availIdx, `needsRearm, `posted, avail
      ensures Valid() && State() == Rearm(old(State()))
    {
      if !curValid || !needsRearm {
        return;
      }
      var slot := availIdx % qsize;
      avail[slot] := curId;
      availIdx := Inc(availIdx);
      posted := posted + 1;
      needsRearm := false;
      assert avail[..] == old(avail[..])[slot := curId];
    }

    /** One turn of the receive loop up to the packet handlers. */
    method RxNext() returns (more: bool)
      requires Valid()
      modifies `lastRx, `seen, `curId, `curValid, `needsRearm
      ensures Valid() && State() == Step(old(State()), DriverNext)
      ensures more == (old(usedIdx) != old(lastRx))
    {
      if usedIdx == lastRx {
        return false;
      }
      lastRx := Inc(lastRx);
      seen := seen + 1;
      if lastRx != 0 {
        var _ := RxSetCurrent(used[(lastRx - 1) % qsize]);
      }
      return true;
    }
  }
}
