/** How long a whole request can take, redirects included. */
module FetchTime {
  import opened Fetch

  /** The fetches already started to follow redirects. */
  function Followed(f: Fetch): int {
    f.redirects - if f.pending then 1 else 0
  }

  /** The most time one fetch can add: three deadlines, and a tick's delay for each, for the first and for the
      last one. */
  function Share(gap: nat): nat {
    90_000 + 4 * gap
  }

  /** The main loop: the time of its latest tick, and whether this turn of the loop has made its tick. Packets
      come before a turn's tick, and the end of the turn after it. */
  datatype Loop = Loop(clock: nat, ticked: bool)

  /** A turn makes at most one tick, and ticks come at most `gap` apart in the whole request. */
  predicate Prompt(l: Loop, e: Event, gap: nat) {
    e.Tick? ==> 0 < e.now && l.clock <= e.now <= l.clock + gap && !l.ticked
  }

  function Turn(l: Loop, e: Event): Loop {
    match e
    case Tick(now, _, _, _) => Loop(now, true)
    case LoopEnd(_, _, _) => l.(ticked := false)
    case _ => l
  }

  /** Where the clock can be, given when the request began. A finished fetch with a redirect to follow can still
      see the tick of the turn in which it finished. */
  predicate InTime(f: Fetch, l: Loop, begin: nat, gap: nat) {
    && OnTime(f, gap) && 0 <= Followed(f) <= 3
    && (f.conn.phase != Idle ==>
          if f.deadline == 0 then l.clock <= begin + Followed(f) * Share(gap)
          else
            && l.clock == f.last && f.since <= begin + Followed(f) * Share(gap) + gap
            && (f.pending ==> f.last <= f.since + 90_000 + 2 * gap + if l.ticked then gap else 0))
  }

  /** While a fetch is not over, its clock is within its last possible deadline. */
  lemma ActiveWithin(f: Fetch, gap: nat)
    requires OnTime(f, gap) && !Over(f) && f.deadline != 0
    ensures f.last <= f.since + 90_000 + 2 * gap
  {
    assert f.rearms == 0 || f.rearms == 1 || f.rearms == 2;
  }

  lemma TickInTime(f: Fetch, l: Loop, begin: nat, gap: nat, now: nat, sent: bool, built: bool, rest: Rest)
    requires InTime(f, l, begin, gap) && Prompt(l, Tick(now, sent, built, rest), gap)
    ensures InTime(OnTick(f, now, sent, built, rest), Loop(now, true), begin, gap)
  {
    hide Work, Share;
    var e := Tick(now, sent, built, rest);
    if f.conn.phase != Idle {
      StepOnTime(f, e, gap);
      TickRounds(f, now, sent, built, rest);
    }
  }

  lemma StepInTime(f: Fetch, l: Loop, begin: nat, gap: nat, e: Event)
    requires InTime(f, l, begin, gap) && Prompt(l, e, gap)
    ensures InTime(Step(f, e), Turn(l, e), begin, gap)
  {
    hide Work, OnTick, Share;
    match e
    case Tick(now, sent, built, rest) => TickInTime(f, l, begin, gap, now, sent, built, rest);
    case RedirectSeen(usable) =>
      StepOnTime(f, e, gap);
      if f.conn.phase == Transfer && f.deadline != 0 {
        ActiveWithin(f, gap);
      }
    case LoopEnd(started, target, closed) =>
      StepOnTime(f, e, gap);
      RestartInTime(f, l, begin, gap, target);
    case _ => StepOnTime(f, e, gap);
  }

  /** Following a redirect uses up one more share. */
  lemma RestartInTime(f: Fetch, l: Loop, begin: nat, gap: nat, target: Target)
    requires InTime(f, l, begin, gap)
    ensures f.conn.phase == Done && f.pending ==> InTime(Start(f, target, true), l.(ticked := false), begin, gap)
  {
    var k := Followed(f);
    assert (k + 1) * Share(gap) == k * Share(gap) + Share(gap);
  }

  /** Every step of the run is prompt. */
  predicate AllPrompt(l: Loop, es: seq<Event>, gap: nat)
    decreases |es|
  {
    es == [] || (Prompt(l, es[0], gap) && AllPrompt(Turn(l, es[0]), es[1..], gap))
  }

  function Turns(l: Loop, es: seq<Event>): Loop
    decreases |es|
  {
    if es == [] then l else Turns(Turn(l, es[0]), es[1..])
  }

  lemma {:induction false} RunInTime(f: Fetch, l: Loop, begin: nat, gap: nat, es: seq<Event>)
    requires InTime(f, l, begin, gap) && AllPrompt(l, es, gap)
    ensures InTime(Run(f, es), Turns(l, es), begin, gap)
    decreases |es|
  {
    hide Step, InTime, Prompt;
    if es != [] {
      StepInTime(f, l, begin, gap, es[0]);
      RunInTime(Step(f, es[0]), Turn(l, es[0]), begin, gap, es[1..]);
    }
  }

  /** Whatever the network does, however many redirects are followed, and wherever in a turn of the main loop the
      request begins: it is over at every tick later than four shares after its beginning. */
  lemma RequestEndsInTime(f: Fetch, target: Target, begin: nat, ticked: bool, gap: nat, es: seq<Event>,
                          now: nat, sent: bool, built: bool, rest: Rest)
    requires AllPrompt(Loop(begin, ticked), es, gap)
    requires Prompt(Turns(Loop(begin, ticked), es), Tick(now, sent, built, rest), gap)
    ensures now > begin + 4 * (90_000 + 4 * gap) ==>
              Over(OnTick(Run(Start(f, target, false), es), now, sent, built, rest))
  {
    hide Run, Work, OnTick, AllPrompt, OnTime;
    var g, l := Run(Start(f, target, false), es), Loop(begin, ticked);
    StartInTime(f, target, l, gap);
    RunInTime(Start(f, target, false), l, begin, gap, es);
    TickInTime(g, Turns(l, es), begin, gap, now, sent, built, rest);
    StillFetching(g, now, sent, built, rest);
    if OnTick(g, now, sent, built, rest).conn.phase != Idle {
      OverInTime(OnTick(g, now, sent, built, rest), Loop(now, true), begin, gap);
    }
  }

  lemma StartInTime(f: Fetch, target: Target, l: Loop, gap: nat)
    ensures InTime(Start(f, target, false), l, l.clock, gap)
  {
  }

  lemma StillFetching(g: Fetch, now: nat, sent: bool, built: bool, rest: Rest)
    requires 0 < now
    ensures OnTick(g, now, sent, built, rest).conn.phase == Idle || OnTick(g, now, sent, built, rest).deadline != 0
  {
    hide Work;
  }

  lemma OverInTime(f: Fetch, l: Loop, begin: nat, gap: nat)
    requires InTime(f, l, begin, gap) && f.deadline != 0
    ensures l.clock > begin + 4 * (90_000 + 4 * gap) ==> Over(f)
  {
    if !Over(f) {
      ActiveWithin(f, gap);
      var k := Followed(f);
      assert k * Share(gap) <= 3 * Share(gap) by {
        assert k == 0 || k == 1 || k == 2 || k == 3;
      }
    }
  }
}
