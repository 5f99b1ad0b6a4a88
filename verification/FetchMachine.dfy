/** The fetch control as it runs: fields updated in place by the main loop's ticks and packets. */
module FetchMachine {
  import opened Fetch

  class Machine {
    var phase: Phase
    var rounds: nat
    var retry: nat
    var nextMs: nat
    var inflight: bool
    var haveGw: bool
    var proxy: bool
    var fixed: bool
    var dst: nat
    var deadline: nat
    var redirects: nat
    var pending: bool
    ghost var own: bool
    ghost var since: nat
    ghost var last: nat
    ghost var rearms: nat

    ghost function ConnState(): Conn
      reads this
    {
      Conn(phase, rounds, retry, nextMs, inflight, haveGw, proxy, fixed, dst, own)
    }

    ghost function State(): Fetch
      reads this
    {
      Fetch(ConnState(), deadline, redirects, pending, since, last, rearms)
    }

    /** `fetch_restart_transport_state`. */
    method RestartTransport()
      modifies `phase, `dst, `own
      ensures ConnState() == Restart(old(ConnState()))
    {
      if proxy {
        dst, own, phase := 1, true, Syn;
      } else if fixed {
        dst, own, phase := 1, true, Syn;
      } else {
        dst, own := 0, false;
        phase := if haveGw then Dns else Arp;
      }
    }

    /** A new round: counters cleared, transport restarted. */
    method BeginRound()
      modifies `phase, `dst, `own, `rounds, `retry, `nextMs
      ensures ConnState() == NextRound(old(ConnState()))
    {
      rounds := rounds + 1;
      retry := 0;
      nextMs := 0;
      RestartTransport();
    }

    method Exhaust()
      modifies `phase, `dst, `own, `rounds, `retry, `nextMs
      ensures ConnState() == Exhausted(old(ConnState()))
    {
      if rounds < MAX_ROUNDS {
        BeginRound();
        return;
      }
      phase := Done;
    }

    method NoteSent(now: nat, wait: nat)
      modifies `retry, `nextMs, `inflight
      ensures ConnState() == Sent(old(ConnState()), now, wait)
    {
      retry := retry + 1;
      nextMs := now + wait;
      inflight := true;
    }

    /** `fetch_tick`. */
    method FetchTick(now: nat, sent: bool, built: bool, rest: Rest)
      modifies this
      ensures State() == OnTick(old(State()), now, sent, built, rest)
    {
      hide Work, NextRound;
      if phase == Idle {
        return;
      }
      if deadline == 0 {
        deadline, since := now + DEADLINE_MS, now;
      } else if now > deadline {
        Expire(now);
        return;
      }
      last := now;
      Advance(now, sent, built, rest);
    }

    /** The deadline has passed. */
    method Expire(now: nat)
      modifies `phase, `dst, `own, `rounds, `retry, `nextMs, `deadline, `last, `rearms
      ensures ConnState() == if old(rounds) < MAX_ROUNDS then NextRound(old(ConnState()))
                             else old(ConnState()).(phase := Done)
      ensures last == now
      ensures if old(rounds) < MAX_ROUNDS then deadline == now + DEADLINE_MS && rearms == old(rearms) + 1
              else deadline == old(deadline) && rearms == old(rearms)
    {
      hide NextRound;
      last := now;
      if rounds < MAX_ROUNDS {
        BeginRound();
        deadline, rearms := now + DEADLINE_MS, rearms + 1;
        return;
      }
      phase := Done;
    }

    /** The phases of a tick. */
    method Advance(now: nat, sent: bool, built: bool, rest: Rest)
      modifies `phase, `dst, `own, `rounds, `retry, `nextMs, `inflight
      ensures ConnState() == Work(old(ConnState()), now, sent, built, rest)
    {
      hide Exhausted;
      if phase != Arp && !haveGw {
        phase := Arp;
        return;
      }
      if inflight {
        if !sent {
          return;
        }
        inflight := false;
      }
      if phase == Arp {
        if haveGw {
          phase := if proxy || fixed || dst != 0 then Syn else Dns;
          return;
        }
        if now < nextMs {
          return;
        }
        if retry >= MAX_RETRY {
          Exhaust();
          return;
        }
        NoteSent(now, 200);
      } else if phase == Dns || phase == Syn {
        if now < nextMs {
          return;
        }
        if retry >= MAX_RETRY {
          Exhaust();
          return;
        }
        if phase == Dns && !built {
          phase := Done;
          return;
        }
        NoteSent(now, 2000);
      } else if phase == Transfer {
        phase := if rest.done then Done else Transfer;
        retry, nextMs, inflight := rest.retry, rest.nextMs, rest.inflight;
      }
    }

    /** `capture_redirect`, outside OAuth requests. */
    method CaptureRedirect(usable: bool)
      modifies `pending, `redirects
      ensures State() == Redirected(old(State()), usable)
    {
      if redirects >= MAX_REDIRECTS || pending || !usable {
        return;
      }
      pending := true;
      redirects := redirects + 1;
    }

    /** Where a start begins: an address known by now is used at once, otherwise the old one stays. */
    method ChooseTransport(address: nat)
      modifies `phase, `dst, `own
      requires !own && retry == 0 && rounds == 0 && !inflight
      ensures ConnState() == StartConn(old(ConnState()), Target(false, haveGw, proxy, fixed, address, nextMs))
    {
      if fixed && !proxy {
        dst, own, phase := 1, true, Syn;
      } else if !fixed && !proxy && address != 0 {
        dst, own := address, true;
        phase := if haveGw then Syn else Arp;
      } else if proxy {
        dst, own, phase := 1, true, Syn;
      } else {
        phase := if haveGw then Dns else Arp;
      }
    }

    /** The connection's counters and flags for a new fetch. */
    method ClearConn(t: Target)
      modifies `proxy, `fixed, `haveGw, `retry, `nextMs, `inflight, `rounds, `own
      ensures ConnState() == Conn(phase, 0, 0, t.nextMs, false, t.haveGw, t.proxy, t.fixed, dst, false)
    {
      proxy, fixed, haveGw := t.proxy, t.fixed, t.haveGw;
      retry, nextMs, inflight := 0, t.nextMs, false;
      rounds, own := 0, false;
    }

    /** Deadline and redirects; a followed redirect keeps the count. */
    method ClearFetch(redirected: bool)
      modifies `deadline, `pending, `redirects, `since, `last, `rearms
      ensures deadline == 0 && !pending && redirects == (if redirected then old(redirects) else 0)
      ensures since == 0 && last == 0 && rearms == 0
    {
      deadline := 0;
      if !redirected {
        redirects := 0;
      }
      pending := false;
      since, last, rearms := 0, 0, 0;
    }

    /** An open connection is used again: no address is looked at. */
    method Reuse()
      modifies `phase, `proxy, `fixed, `retry, `nextMs, `inflight, `rounds, `own
      ensures ConnState() == Conn(Transfer, 0, 0, 0, false, haveGw, true, false, dst, true)
    {
      proxy, fixed := true, false;
      retry, nextMs, inflight := 0, 0, false;
      rounds, own, phase := 0, true, Transfer;
    }

    /** The state set by `fetch_start_ex`. */
    method Begin(t: Target, redirected: bool)
      modifies this
      ensures State() == Start(old(State()), t, redirected)
    {
      if t.reuse {
        Reuse();
        ClearFetch(redirected);
        return;
      }
      hide StartConn;
      ghost var was := ConnState();
      ClearConn(t);
      ClearFetch(redirected);
      OldAddressOnly(was, ConnState(), t);
      ChooseTransport(t.address);
    }
  }

  lemma OldAddressOnly(c: Conn, d: Conn, t: Target)
    requires c.dst == d.dst && !t.reuse
    ensures StartConn(c, t) == StartConn(d, t)
  {
  }
}
