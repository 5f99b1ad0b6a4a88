/** Control of one fetch: retries, rounds, the re-armed deadline and redirects, on values. Ticks, packets and
    the end of the main loop interleave freely. */
module Fetch {
  const MAX_RETRY: nat := 5
  const MAX_ROUNDS: nat := 2
  const MAX_REDIRECTS: nat := 3
  const DEADLINE_MS: nat := 30_000

  /** `Transfer` stands for the proxy, HTTP and TLS phases. */
  datatype Phase = Idle | Arp | Dns | Syn | Transfer | Done

  /** The connection attempt. `dst` is 0 while no address is known; `own` records whether it was set for the
      current fetch. */
  datatype Conn = Conn(
    phase: Phase, rounds: nat, retry: nat, nextMs: nat, inflight: bool,
    haveGw: bool, proxy: bool, fixed: bool, dst: nat, own: bool)

  /** `since`, `last` and `rearms` record the times of the fetch's first and latest tick, and how often its
      deadline was re-armed. */
  datatype Fetch = Fetch(
    conn: Conn, deadline: nat, redirects: nat, pending: bool, since: nat, last: nat, rearms: nat)

  /** What a phase beyond the connection makes of a tick or packet. */
  datatype Rest = Rest(done: bool, retry: nat, nextMs: nat, inflight: bool)

  /** What a start finds out: a connection to the same target that is still open, a cached gateway, a proxy, a
      fixed address or a cached name. */
  datatype Target = Target(reuse: bool, haveGw: bool, proxy: bool, fixed: bool, address: nat, nextMs: nat)

  datatype Event =
    | Tick(now: nat, sent: bool, built: bool, rest: Rest)
    | GatewayLearned
    | NameResolved(address: nat)
    | Connected(rest: Rest)
    | Packet(rest: Rest)
    | RedirectSeen(usable: bool)
    | LoopEnd(started: bool, target: Target, closed: bool)

  /** `fetch_restart_transport_state`; the proxy's and a fixed address count as 1. */
  function Restart(c: Conn): Conn {
    if c.proxy || c.fixed then c.(phase := Syn, dst := 1, own := true)
    else c.(phase := if c.haveGw then Dns else Arp, dst := 0, own := false)
  }

  /** `fetch_resume_after_gateway_ready`. */
  function Resume(c: Conn): Conn {
    c.(phase := if c.proxy || c.fixed || c.dst != 0 then Syn else Dns)
  }

  function NextRound(c: Conn): Conn {
    Restart(c.(rounds := c.rounds + 1, retry := 0, nextMs := 0))
  }

  /** Retries of a phase are used up. */
  function Exhausted(c: Conn): Conn {
    if c.rounds < MAX_ROUNDS then NextRound(c) else c.(phase := Done)
  }

  function Sent(c: Conn, now: nat, wait: nat): Conn {
    c.(retry := c.retry + 1, nextMs := now + wait, inflight := true)
  }

  function Settle(c: Conn, rest: Rest): Conn {
    c.(phase := if rest.done then Done else Transfer, retry := rest.retry, nextMs := rest.nextMs,
       inflight := rest.inflight)
  }

  /** A tick within the deadline. */
  function Work(f: Conn, now: nat, sent: bool, built: bool, rest: Rest): Conn {
    if f.phase != Arp && !f.haveGw then f.(phase := Arp)
    else if f.inflight && !sent then f
    else
      var c := f.(inflight := false);
      match c.phase
      case Arp =>
        if c.haveGw then Resume(c)
        else if now < c.nextMs then c
        else if c.retry >= MAX_RETRY then Exhausted(c)
        else Sent(c, now, 200)
      case Dns =>
        if now < c.nextMs then c
        else if c.retry >= MAX_RETRY then Exhausted(c)
        else if !built then c.(phase := Done)
        else Sent(c, now, 2000)
      case Syn =>
        if now < c.nextMs then c
        else if c.retry >= MAX_RETRY then Exhausted(c)
        else Sent(c, now, 2000)
      case Transfer => Settle(c, rest)
      case _ => c
  }

  predicate Expired(f: Fetch, now: nat) {
    f.deadline != 0 && now > f.deadline
  }

  /** `fetch_tick`. */
  function OnTick(f: Fetch, now: nat, sent: bool, built: bool, rest: Rest): Fetch {
    if f.conn.phase == Idle then f
    else if Expired(f, now) then
      if f.conn.rounds < MAX_ROUNDS then
        f.(conn := NextRound(f.conn), deadline := now + DEADLINE_MS, rearms := f.rearms + 1, last := now)
      else f.(conn := f.conn.(phase := Done), last := now)
    else
      var c := Work(f.conn, now, sent, built, rest);
      if f.deadline == 0 then f.(conn := c, deadline := now + DEADLINE_MS, since := now, last := now)
      else f.(conn := c, last := now)
  }

  /** `fetch_start_ex`: an open connection through the proxy is used again; otherwise a known address is used at
      once, and failing that the old one stays. */
  function StartConn(c: Conn, t: Target): Conn {
    if t.reuse then Conn(Transfer, 0, 0, 0, false, c.haveGw, true, false, c.dst, true)
    else
      var d := Conn(Arp, 0, 0, t.nextMs, false, t.haveGw, t.proxy, t.fixed, c.dst, false);
      if t.fixed || t.proxy then d.(dst := 1, own := true, phase := Syn)
      else if t.address != 0 then d.(dst := t.address, own := true, phase := if t.haveGw then Syn else Arp)
      else d.(phase := if t.haveGw then Dns else Arp)
  }

  function Start(f: Fetch, t: Target, redirected: bool): Fetch {
    Fetch(StartConn(f.conn, t), 0, if redirected then f.redirects else 0, false, 0, 0, 0)
  }

  function Move(c: Conn, e: Event): Conn {
    match e
    case GatewayLearned => if c.phase == Arp then Resume(c.(haveGw := true)).(retry := 0, nextMs := 0) else c
    case NameResolved(address) =>
      if c.phase == Dns then c.(dst := address, own := true, retry := 0, nextMs := 0, phase := Syn) else c
    case Connected(rest) => if c.phase == Syn then Settle(c, rest) else c
    case Packet(rest) => if c.phase == Transfer then Settle(c, rest) else c
    case _ => c
  }

  /** `capture_redirect`, for a usable location or none. */
  function Redirected(f: Fetch, usable: bool): Fetch {
    if f.redirects >= MAX_REDIRECTS || f.pending || !usable then f
    else f.(pending := true, redirects := f.redirects + 1)
  }

  /** Response headers are read only while a transfer is going on. */
  function Step(f: Fetch, e: Event): Fetch {
    match e
    case Tick(now, sent, built, rest) => OnTick(f, now, sent, built, rest)
    case RedirectSeen(usable) => if f.conn.phase == Transfer then Redirected(f, usable) else f
    case LoopEnd(started, target, closed) =>
      if f.conn.phase != Done then f
      else if f.pending && started then Start(f, target, true)
      else f.(pending := false, conn := f.conn.(phase := if closed then Idle else Done))
    case _ => f.(conn := Move(f.conn, e))
  }

  function Run(f: Fetch, es: seq<Event>): Fetch
    decreases |es|
  {
    if es == [] then f else Run(Step(f, es[0]), es[1..])
  }

  /** Rounds, redirects and re-armed deadlines stay within their limits. */
  predicate Bounded(f: Fetch) {
    f.conn.rounds <= MAX_ROUNDS && f.rearms <= f.conn.rounds && f.redirects <= MAX_REDIRECTS
  }

  /** A tick within the deadline uses up at most one round. */
  lemma WorkRounds(c: Conn, now: nat, sent: bool, built: bool, rest: Rest)
    ensures var d := Work(c, now, sent, built, rest);
            d.rounds == c.rounds || (d.rounds == c.rounds + 1 && c.rounds < MAX_ROUNDS)
  {
  }

  lemma TickRounds(f: Fetch, now: nat, sent: bool, built: bool, rest: Rest)
    ensures var g := OnTick(f, now, sent, built, rest);
            && (g.conn.rounds == f.conn.rounds || (g.conn.rounds == f.conn.rounds + 1 && f.conn.rounds < MAX_ROUNDS))
            && (g.rearms == f.rearms || (g.rearms == f.rearms + 1 && g.conn.rounds == f.conn.rounds + 1))
            && g.redirects == f.redirects && g.pending == f.pending
  {
    hide Work;
    WorkRounds(f.conn, now, sent, built, rest);
  }

  lemma StepBounded(f: Fetch, e: Event)
    requires Bounded(f)
    ensures Bounded(Step(f, e))
  {
    hide OnTick;
    if e.Tick? {
      TickRounds(f, e.now, e.sent, e.built, e.rest);
    }
  }

  lemma {:induction false} RunBounded(f: Fetch, es: seq<Event>)
    requires Bounded(f)
    ensures Bounded(Run(f, es))
    decreases |es|
  {
    hide Step;
    if es != [] {
      StepBounded(f, es[0]);
      RunBounded(Step(f, es[0]), es[1..]);
    }
  }

  /** In any run of one request no fetch uses more than two extra rounds or re-arms its deadline more than
      twice, and at most three redirects are followed. */
  lemma LimitsHold(f: Fetch, t: Target, es: seq<Event>)
    ensures var g := Run(Start(f, t, false), es); g.conn.rounds <= 2 && g.rearms <= 2 && g.redirects <= 3
  {
    RunBounded(Start(f, t, false), es);
  }

  /** Fetches the request may still start, and rounds its current fetch may still use. */
  function Starts(f: Fetch): int {
    MAX_REDIRECTS - f.redirects + if f.pending then 1 else 0
  }

  function Rounds(f: Fetch): int {
    MAX_ROUNDS - f.conn.rounds
  }

  /** No step of a request raises the pair lexicographically; a followed redirect and a new round lower it. */
  lemma StepDescends(f: Fetch, e: Event)
    requires Bounded(f)
    ensures var g := Step(f, e);
            && Starts(g) >= 0 && Rounds(g) >= 0
            && (Starts(g) < Starts(f) || (Starts(g) == Starts(f) && Rounds(g) <= Rounds(f)))
            && (g.conn.rounds > f.conn.rounds ==> Starts(g) == Starts(f) && Rounds(g) < Rounds(f))
            && (e.LoopEnd? && e.started && f.conn.phase == Done && f.pending ==> Starts(g) < Starts(f))
  {
    hide OnTick;
    if e.Tick? {
      TickRounds(f, e.now, e.sent, e.built, e.rest);
    }
  }

  predicate Over(f: Fetch) {
    f.conn.phase == Done || f.conn.phase == Idle
  }

  /** A deadline is at most one late tick behind per re-arming, and the latest tick is within it unless the
      fetch is over for good. */
  predicate OnTime(f: Fetch, gap: nat) {
    && Bounded(f)
    && (f.deadline != 0 ==>
          && f.deadline <= f.since + f.rearms * (30_000 + gap) + 30_000
          && (f.last > f.deadline ==> Over(f) && f.conn.rounds == MAX_ROUNDS))
  }

  /** The clock never runs back and ticks come at most `gap` apart. */
  predicate Paced(f: Fetch, e: Event, gap: nat) {
    e.Tick? ==> 0 < e.now && (f.deadline != 0 ==> f.last <= e.now <= f.last + gap)
  }

  lemma StepOnTime(f: Fetch, e: Event, gap: nat)
    requires OnTime(f, gap) && Paced(f, e, gap)
    ensures OnTime(Step(f, e), gap)
  {
    hide Work;
    StepBounded(f, e);
    if e.Tick? {
      WorkRounds(f.conn, e.now, e.sent, e.built, e.rest);
    }
  }

  predicate AllPaced(f: Fetch, es: seq<Event>, gap: nat)
    decreases |es|
  {
    es == [] || (Paced(f, es[0], gap) && AllPaced(Step(f, es[0]), es[1..], gap))
  }

  lemma {:induction false} RunOnTime(f: Fetch, es: seq<Event>, gap: nat)
    requires OnTime(f, gap) && AllPaced(f, es, gap)
    ensures OnTime(Run(f, es), gap)
    decreases |es|
  {
    hide Step, OnTime;
    if es != [] {
      StepOnTime(f, es[0], gap);
      RunOnTime(Step(f, es[0]), es[1..], gap);
    }
  }

  /** Whatever the network does, a fetch is over at the first tick later than three deadlines and two gaps
      after its first tick. */
  lemma FetchEndsInTime(f: Fetch, t: Target, es: seq<Event>, gap: nat,
                        now: nat, sent: bool, built: bool, rest: Rest)
    requires AllPaced(Start(f, t, false), es, gap)
    requires var g := Run(Start(f, t, false), es);
             g.deadline != 0 && now > g.since + 3 * 30_000 + 2 * gap && Paced(g, Tick(now, sent, built, rest), gap)
    ensures Over(OnTick(Run(Start(f, t, false), es), now, sent, built, rest))
  {
    hide Run, Work;
    var g := Run(Start(f, t, false), es);
    RunOnTime(Start(f, t, false), es, gap);
    assert g.rearms == 0 || g.rearms == 1 || g.rearms == 2;
    assert Expired(g, now);
    assert g.conn.rounds < MAX_ROUNDS ==> now <= g.last + gap <= g.deadline + gap;
  }

  /** The third deadline has passed. */
  predicate Spent(f: Fetch) {
    f.conn.phase == Done && f.conn.rounds == MAX_ROUNDS && f.deadline != 0 && f.last > f.deadline
  }

  predicate WithinFetch(es: seq<Event>) {
    forall i :: 0 <= i < |es| ==> !es[i].LoopEnd?
  }

  /** From the third expiry on, no tick or packet brings the fetch back. */
  lemma {:induction false} SpentForever(f: Fetch, es: seq<Event>, gap: nat)
    requires Spent(f) && AllPaced(f, es, gap) && WithinFetch(es)
    ensures Spent(Run(f, es))
    decreases |es|
  {
    hide Work;
    if es != [] {
      SpentForever(Step(f, es[0]), es[1..], gap);
    }
  }

  lemma ThirdExpirySpends(f: Fetch, now: nat, sent: bool, built: bool, rest: Rest)
    requires !Over(f) && Expired(f, now)
    ensures Spent(OnTick(f, now, sent, built, rest)) <==> f.conn.rounds == MAX_ROUNDS
  {
  }

  /** Before that, a finished fetch that waits for its reply to be sent can be brought back: it stays
      finished exactly when its deadline has not passed with rounds left, and its gateway is known. */
  lemma TickWhenDone(f: Fetch, now: nat, sent: bool, built: bool, rest: Rest)
    requires Bounded(f) && f.conn.phase == Done
    ensures OnTick(f, now, sent, built, rest).conn.phase == Done <==>
            if Expired(f, now) then f.conn.rounds == MAX_ROUNDS else f.conn.haveGw
  {
  }

  /** The connection is only ever attempted to the address of the current fetch. */
  predicate Own(c: Conn) {
    c.phase == Syn || c.phase == Transfer ==> c.own
  }

  predicate Clean(c: Conn) {
    && Own(c)
    && (c.proxy || c.fixed ==> c.own)
    && (c.dst != 0 && !c.own ==> c.haveGw && c.phase != Arp)
  }

  lemma WorkClean(c: Conn, now: nat, sent: bool, built: bool, rest: Rest)
    requires Clean(c)
    ensures Clean(Work(c, now, sent, built, rest))
  {
  }

  lemma StepClean(f: Fetch, e: Event)
    requires Clean(f.conn) && !e.LoopEnd?
    ensures Clean(Step(f, e).conn)
  {
    hide Work;
    if e.Tick? {
      WorkClean(f.conn, e.now, e.sent, e.built, e.rest);
    }
  }

  lemma {:induction false} RunClean(f: Fetch, es: seq<Event>)
    requires Clean(f.conn) && WithinFetch(es)
    ensures Clean(Run(f, es).conn)
    decreases |es|
  {
    hide Step, Clean;
    if es != [] {
      StepClean(f, es[0]);
      RunClean(Step(f, es[0]), es[1..]);
    }
  }

  /** A start that must look the name up, does not know the gateway, and finds an older address in place. */
  predicate Stale(c: Conn, t: Target) {
    !t.reuse && !t.fixed && !t.proxy && t.address == 0 && !t.haveGw && c.dst != 0
  }

  /** A fetch connects only to an address found for it, in all its runs, exactly when its start is not
      stale: a stale one goes straight to the previous host once the gateway answers. */
  lemma OwnAddressIff(f: Fetch, t: Target, redirected: bool)
    ensures (forall es: seq<Event> :: WithinFetch(es) ==> Own(Run(Start(f, t, redirected), es).conn)) <==>
            !Stale(f.conn, t)
  {
    var g := Start(f, t, redirected);
    if Stale(f.conn, t) {
      var es := [GatewayLearned];
      assert es[1..] == [];
      assert Run(g, es) == Step(g, GatewayLearned);
      assert WithinFetch(es) && !Own(Run(g, es).conn);
    } else {
      forall es: seq<Event> | WithinFetch(es)
        ensures Own(Run(g, es).conn)
      {
        RunClean(g, es);
      }
    }
  }

  lemma RunCons(f: Fetch, e: Event, es: seq<Event>)
    ensures Run(f, [e] + es) == Run(Step(f, e), es)
  {
    hide Step;
    assert ([e] + es)[1..] == es;
  }

  lemma RunNone(f: Fetch)
    ensures Run(f, []) == f
  {
  }

  const COLD: Target := Target(false, false, false, false, 0, 0)
  const WARM: Target := Target(false, true, false, false, 0, 0)
  const OVER: Rest := Rest(true, 0, 0, false)

  /** A fetch that resolves its name, connects and ends. */
  function OneFetch(address: nat): seq<Event> {
    [NameResolved(address)] + ([Connected(OVER)] + ([LoopEnd(false, COLD, true)] + []))
  }

  /** It happens: a fetch that ended leaves its address behind, and the next one, started while the gateway is
      unknown, connects to it as soon as the gateway answers, without looking its own name up. */
  lemma ConnectsToOldAddress(f: Fetch, address: nat)
    requires address != 0
    ensures var first := Run(Start(f, WARM, false), OneFetch(address));
            var second := Run(Start(first, COLD, false), [GatewayLearned]);
            && first.conn.phase == Idle && Stale(first.conn, COLD)
            && second.conn.phase == Syn && second.conn.dst == address && !second.conn.own
  {
    hide Run;
    var a := Start(f, WARM, false);
    var b := Step(a, NameResolved(address));
    var c := Step(b, Connected(OVER));
    var d := Step(c, LoopEnd(false, COLD, true));
    RunCons(a, NameResolved(address), [Connected(OVER)] + ([LoopEnd(false, COLD, true)] + []));
    RunCons(b, Connected(OVER), [LoopEnd(false, COLD, true)] + []);
    RunCons(c, LoopEnd(false, COLD, true), []);
    RunNone(d);
    var e := Start(d, COLD, false);
    RunCons(e, GatewayLearned, []);
    assert [GatewayLearned] + [] == [GatewayLearned];
    RunNone(Step(e, GatewayLearned));
  }

  /** It happens: a fetch is done, its reply still has to be sent, and the tick after its deadline starts it
      over. */
  lemma RevivedWhenDone(f: Fetch)
    ensures var tick := Tick(1, true, true, OVER);
            var g := Run(Start(f, WARM, false), [tick] + ([NameResolved(7)] + ([Connected(OVER)] + [])));
            && g.conn.phase == Done && g.deadline == 30_001
            && OnTick(g, 30_002, true, true, OVER).conn.phase == Dns
  {
    hide Run;
    var tick := Tick(1, true, true, OVER);
    var a := Start(f, WARM, false);
    var b := Step(a, tick);
    var c := Step(b, NameResolved(7));
    RunCons(a, tick, [NameResolved(7)] + ([Connected(OVER)] + []));
    RunCons(b, NameResolved(7), [Connected(OVER)] + []);
    RunCons(c, Connected(OVER), []);
    RunNone(Step(c, Connected(OVER)));
  }
}
