/** The checkpointed memory as an object. Entries are objects too: compaction changes them in place, and saving
    and resuming keep saved entries apart from live ones by copying. */
module CheckpointStore {
  import opened Checkpoints
  import opened Options

  /** The entries a listing keeps: all of them, or those of one kind. */
  predicate Wanted(kind: string, e: Entry) {
    kind == "" || e.kind == kind
  }

  function Matching(kind: string, es: seq<Entry>): (r: seq<Entry>)
    ensures |r| <= |es|
    decreases |es|
  {
    if es == [] then []
    else
      var last := es[|es| - 1];
      Matching(kind, es[..|es| - 1]) + if Wanted(kind, last) then [last] else []
  }

  lemma {:induction false} MatchingPrefix(kind: string, es: seq<Entry>, n: nat)
    requires n <= |es|
    ensures Matching(kind, es[..n]) <= Matching(kind, es)
    decreases |es|
  {
    if n < |es| {
      MatchingPrefix(kind, es[..|es| - 1], n);
      assert es[..|es| - 1][..n] == es[..n];
    } else {
      assert es[..n] == es;
    }
  }

  lemma MatchingNone(kind: string, es: seq<Entry>)
    ensures Matching(kind, es[..0]) == []
  {
  }

  lemma MatchingNext(kind: string, es: seq<Entry>, i: nat)
    requires i < |es|
    ensures Matching(kind, es[..i + 1]) == Matching(kind, es[..i]) + if Wanted(kind, es[i]) then [es[i]] else []
  {
    assert es[..i + 1][..i] == es[..i];
  }

  lemma CompactPrefix(s: Store, ids: seq<string>, turn: int)
    requires ids != [] && ids[0] in s.entries
    ensures var e := s.entries[ids[0]];
            CompactStep(s, ids, turn) ==
            CompactStep(s.(entries := s.entries[ids[0] := CompactEntry(e, turn)],
                           events := s.events + [Compacted(turn, ids[0], e.state)]), ids[1..], turn)
  {
  }

  /** An entry, some of whose fields compaction overwrites. */
  class Memo {
    const id: string
    const kind: string
    const source: string
    const created: int
    var summary: string
    var detail: string
    var state: string
    var updated: int
    var chars: nat
    var tokens: nat

    function Value(): Entry
      reads this
    {
      Entry(id, kind, summary, detail, source, state, created, updated, chars, tokens)
    }

    constructor (e: Entry)
      ensures Value() == e
    {
      id, kind, source, created := e.id, e.kind, e.source, e.created;
      summary, detail, state, updated := e.summary, e.detail, e.state, e.updated;
      chars, tokens := e.chars, e.tokens;
    }

    /** The body of the compaction loop. */
    method Compact(turn: int)
      modifies this
      ensures Value() == CompactEntry(old(Value()), turn)
    {
      summary := Clip(summary, 120);
      detail := Clip(detail, 240);
      state := "compacted";
      updated := turn;
      chars := |summary + detail|;
      tokens := Tokens(summary + "\n" + detail);
    }
  }

  ghost function Values(ms: seq<Memo>): (es: seq<Entry>)
    reads set m | m in ms
    ensures |es| == |ms|
  {
    seq(|ms|, i requires 0 <= i < |ms| reads set m | m in ms => ms[i].Value())
  }

  class Substrate {
    var entries: map<string, Memo>
    var order: seq<string>
    var payloads: map<string, seq<Memo>>
    var checkpoints: seq<Checkpoint>
    var events: seq<Event>
    var nextMemory: nat
    var nextCheckpoint: nat

    /** The entry objects in use, and those of the saved copies. */
    ghost var live: set<Memo>
    ghost var saved: set<Memo>

    /** Live and saved objects are apart, and every id has an object of its own. */
    ghost predicate Apart()
      reads `entries, `payloads, `live, `saved
    {
      && (forall id :: id in entries ==> entries[id] in live)
      && (forall c, m :: c in payloads && m in payloads[c] ==> m in saved)
      && live !! saved
      && (forall a, b :: a in entries && b in entries && a != b ==> entries[a] != entries[b])
    }

    ghost function Entries(): map<string, Entry>
      requires Apart()
      reads `entries, `payloads, `live, `saved, live
    {
      map id | id in entries :: entries[id].Value()
    }

    ghost function Payloads(): map<string, seq<Entry>>
      requires Apart()
      reads `entries, `payloads, `live, `saved, saved
    {
      map c | c in payloads :: Values(payloads[c])
    }

    ghost function State(): Store
      requires Apart()
      reads this, live, saved
    {
      Store(Entries(), order, Payloads(), checkpoints, events, nextMemory, nextCheckpoint)
    }

    ghost predicate Valid()
      reads this, live, saved
    {
      Apart() && Inv(State())
    }

    constructor ()
      ensures Valid() && State() == Init() && live == {} && saved == {}
    {
      entries, order, payloads, checkpoints, events := map[], [], map[], [], [];
      nextMemory, nextCheckpoint := 1, 1;
      live, saved := {}, {};
    }

    lemma KeysAre()
      requires Apart()
      ensures Entries().Keys == entries.Keys
      ensures forall id :: id in entries ==> Entries()[id].created == entries[id].created
    {
    }

    /** Put a new entry object under its id. */
    method Insert(e: Entry)
      requires Apart()
      modifies `entries, `live
      ensures Apart() && fresh(live - old(live))
      ensures Entries() == old(Entries())[e.id := e] && Payloads() == old(Payloads())
    {
      var memo := new Memo(e);
      entries := entries[e.id := memo];
      live := live + {memo};
    }

    /** `add_memory`. */
    method AddMemory(kind: string, summary: string, source: string, state: string, detail: string,
                     given: Option<string>, turn: int) returns (ok: bool)
      requires Valid()
      modifies `entries, `order, `events, `nextMemory, `live
      ensures Valid() && ok == KnownKind(kind) && fresh(live - old(live))
      ensures State() == AddStep(old(State()), Add(kind, summary, source, state, detail, given, turn))
    {
      hide Inv, Sized, MemoryId, Apart, Entries, Payloads;
      ghost var was := State();
      KeysAre();
      AddInv(was, Add(kind, summary, source, state, detail, given, turn));
      if !KnownKind(kind) {
        return false;
      }
      var id: string;
      if given.Some? && given.value != "" {
        id := given.value;
      } else {
        id := MemoryId(nextMemory);
        nextMemory := nextMemory + 1;
      }
      var existed := id in entries;
      var created := if existed then entries[id].created else turn;
      SizedId(Entry(id, kind, summary, detail, source, state, created, turn, 0, 0));
      Insert(Sized(Entry(id, kind, summary, detail, source, state, created, turn, 0, 0)));
      if !existed {
        order := order + [id];
        events := events + [Added(turn, id)];
      } else {
        events := events + [Updated(turn, id)];
      }
      return true;
    }

    /** One entry is compacted in place: every other entry and every saved copy stays as it is. */
    method CompactOne(id: string, turn: int)
      requires Apart() && id in entries
      modifies live, `events
      ensures Apart() && entries == old(entries)
      ensures State() == old(State()).(entries := old(Entries())[id := CompactEntry(old(Entries())[id], turn)],
                                       events := old(events) + [Compacted(turn, id, old(Entries())[id].state)])
    {
      hide CompactEntry;
      ghost var was, other := Entries(), Payloads();
      var before := entries[id].state;
      entries[id].Compact(turn);
      events := events + [Compacted(turn, id, before)];
      assert Entries() == was[id := CompactEntry(was[id], turn)];
      assert Payloads() == other;
    }

    /** `compact_memory`. */
    method CompactMemory(ids: seq<string>, turn: int) returns (ok: bool)
      requires Valid()
      modifies live, `events
      ensures Valid() && entries == old(entries)
      ensures State() == CompactStep(old(State()), ids, turn)
      ensures ok <==> forall i :: 0 <= i < |ids| ==> ids[i] in old(entries)
    {
      hide Inv, CompactEntry, CompactStep;
      ghost var was := State();
      CompactInv(was, ids, turn);
      var i := 0;
      assert ids[0..] == ids;
      while i < |ids|
        invariant 0 <= i <= |ids| && Apart() && entries == old(entries)
        invariant CompactStep(State(), ids[i..], turn) == CompactStep(was, ids, turn)
        invariant forall j :: 0 <= j < i ==> ids[j] in old(entries)
        modifies live, `events
      {
        assert ids[i..][0] == ids[i] && ids[i..][1..] == ids[i + 1..];
        if ids[i] !in entries {
          CompactEnds(State(), ids[i..], turn);
          return false;
        }
        CompactPrefix(State(), ids[i..], turn);
        CompactOne(ids[i], turn);
        i := i + 1;
      }
      CompactEnds(State(), ids[i..], turn);
      return true;
    }

    /** `list_memory`: the first `limit` entries of the kind in order, and whether there are more. */
    method ListMemory(kind: string, limit: int) returns (r: Option<(seq<Entry>, bool)>)
      requires Valid()
      ensures r.None? <==> limit < 1 || limit > 100
      ensures r.Some? ==>
              var all := Matching(kind, Listing(Entries(), order));
              r.value.0 == (if |all| <= limit then all else all[..limit]) && (r.value.1 <==> |all| > limit)
    {
      hide Inv, Sized, Matching;
      if limit < 1 || limit > 100 {
        return None;
      }
      var found := FirstMatching(kind, limit);
      var total := CountMatching(kind);
      return Some((found, |found| < total));
    }

    /** The loop that collects entries until the limit is reached. */
    method FirstMatching(kind: string, limit: nat) returns (found: seq<Entry>)
      requires Valid() && limit > 0
      ensures var all := Matching(kind, Listing(Entries(), order));
              found == if |all| <= limit then all else all[..limit]
    {
      hide Inv, Sized, Matching;
      ghost var all := Listing(Entries(), order);
      found := [];
      var i := 0;
      MatchingNone(kind, all);
      while i < |order|
        invariant 0 <= i <= |order|
        invariant found == Matching(kind, all[..i]) && |found| < limit
      {
        MatchingNext(kind, all, i);
        if Wanted(kind, entries[order[i]].Value()) {
          found := found + [entries[order[i]].Value()];
          if |found| >= limit {
            MatchingPrefix(kind, all, i + 1);
            return;
          }
        }
        i := i + 1;
      }
      assert all[..i] == all;
    }

    method CountMatching(kind: string) returns (total: nat)
      requires Valid()
      ensures total == |Matching(kind, Listing(Entries(), order))|
    {
      hide Inv, Sized, Matching;
      ghost var all := Listing(Entries(), order);
      total := 0;
      var i := 0;
      MatchingNone(kind, all);
      while i < |order|
        invariant 0 <= i <= |order| && total == |Matching(kind, all[..i])|
      {
        MatchingNext(kind, all, i);
        if Wanted(kind, entries[order[i]].Value()) {
          total := total + 1;
        }
        i := i + 1;
      }
      assert all[..i] == all;
    }

    /** `copy.deepcopy` of a list of entries: new objects with the same values. */
    static method Copies(ms: seq<Memo>) returns (cs: seq<Memo>)
      ensures Values(cs) == Values(ms) && fresh(set m | m in cs)
      ensures forall i, j :: 0 <= i < j < |cs| ==> cs[i] != cs[j]
    {
      cs := [];
      while |cs| < |ms|
        invariant |cs| <= |ms| && fresh(set m | m in cs)
        invariant forall i :: 0 <= i < |cs| ==> cs[i].Value() == ms[i].Value()
        invariant forall i, j :: 0 <= i < j < |cs| ==> cs[i] != cs[j]
      {
        var c := new Memo(ms[|cs|].Value());
        cs := cs + [c];
      }
    }

    /** Keep saved objects, which nothing else refers to. */
    method Keep(id: string, es: seq<Memo>)
      requires Apart() && (set m | m in es) !! live
      modifies `payloads, `saved
      ensures Apart() && saved == old(saved) + set m | m in es
      ensures Entries() == old(Entries()) && Payloads() == old(Payloads())[id := Values(es)]
    {
      payloads := payloads[id := es];
      saved := saved + set m | m in es;
    }

    /** `save_checkpoint`. */
    method SaveCheckpoint(name: string, turn: int) returns (id: string)
      requires Valid()
      modifies `payloads, `checkpoints, `events, `nextCheckpoint, `saved
      ensures Valid() && fresh(saved - old(saved))
      ensures State() == SaveStep(old(State()), name, turn) && id == CheckpointId(old(nextCheckpoint))
    {
      hide Inv, CheckpointId, Apart, Entries, Payloads, Values, Listing, Ids;
      ghost var was := State();
      SaveInv(was, name, turn);
      var current := InOrder();
      id := CheckpointId(nextCheckpoint);
      nextCheckpoint := nextCheckpoint + 1;
      var es := Copies(current);
      var ids := seq(|es|, i requires 0 <= i < |es| => es[i].id);
      SameIds(es, ids);
      Keep(id, es);
      checkpoints := checkpoints + [Checkpoint(id, name, ids, turn, None)];
      events := events + [Saved(turn, id)];
    }

    /** The entry objects in order. */
    method InOrder() returns (ms: seq<Memo>)
      requires Valid()
      ensures Values(ms) == Listing(Entries(), order)
    {
      hide Inv, Sized;
      ms := [];
      while |ms| < |order|
        invariant |ms| <= |order| && forall i :: 0 <= i < |ms| ==> ms[i] == entries[order[i]]
      {
        ms := ms + [entries[order[|ms|]]];
      }
    }

    method StampFirst(id: string, turn: int)
      modifies `checkpoints
      ensures checkpoints == Stamp(old(checkpoints), id, turn)
    {
      hide Stamp;
      var i := 0;
      assert checkpoints[0..] == checkpoints;
      while i < |checkpoints|
        invariant 0 <= i <= |checkpoints| && checkpoints == old(checkpoints)
        invariant Stamp(checkpoints, id, turn) == checkpoints[..i] + Stamp(checkpoints[i..], id, turn)
      {
        StampNext(checkpoints, id, turn, i);
        if checkpoints[i].id == id {
          checkpoints := checkpoints[i := checkpoints[i].(resumed := Some(turn))];
          return;
        }
        i := i + 1;
      }
    }

    /** `resume_checkpoint`: copies of the saved objects, not the objects themselves, become the live ones. */
    method ResumeCheckpoint(id: string, turn: int) returns (ok: bool)
      requires Valid()
      modifies `entries, `order, `checkpoints, `events, `live
      ensures Valid() && fresh(live - old(live))
      ensures State() == ResumeStep(old(State()), id, turn) && ok == (id in payloads)
    {
      hide Inv, Stamp, ById, Ids, Apart, Entries, Payloads, Values;
      ghost var was := State();
      ResumeInv(was, id, turn);
      PayloadKeys();
      if id !in payloads {
        return false;
      }
      var es := Copies(payloads[id]);
      Rebuild(es);
      StampFirst(id, turn);
      events := events + [Resumed(turn, id)];
      return true;
    }

    lemma PayloadKeys()
      requires Apart()
      ensures Payloads().Keys == payloads.Keys && forall c :: c in payloads ==> Payloads()[c] == Values(payloads[c])
    {
    }

    /** Forget the live entries; `objects` will replace them. */
    method Drop(ghost objects: set<Memo>)
      requires Apart() && objects !! saved
      modifies `entries, `order, `live
      ensures Apart() && entries == map[] && order == [] && live == objects
      ensures Entries() == map[] && Payloads() == old(Payloads())
    {
      live := objects;
      entries, order := map[], [];
    }

    /** Reinsert one entry object that is not in use yet. */
    method Reinsert(m: Memo)
      requires Apart() && m in live && forall id :: id in entries ==> entries[id] != m
      modifies `entries, `order
      ensures Apart() && entries == old(entries)[m.id := m] && order == old(order) + [m.id]
      ensures Entries() == old(Entries())[m.id := m.Value()] && Payloads() == old(Payloads())
    {
      entries := entries[m.id := m];
      order := order + [m.id];
    }

    /** Reinsert entry objects one by one. */
    method Rebuild(es: seq<Memo>)
      requires Apart() && (set m | m in es) !! saved
      requires forall i, j :: 0 <= i < j < |es| ==> es[i] != es[j]
      modifies `entries, `order, `live
      ensures Apart() && live == (set m | m in es)
      ensures Entries() == ById(Values(es)) && order == Ids(Values(es)) && Payloads() == old(Payloads())
    {
      hide Values, Apart, Entries, Payloads, ById, Ids;
      Drop(set m | m in es);
      NoValues();
      var i := 0;
      assert es[..0] == [];
      while i < |es|
        invariant 0 <= i <= |es| && live == (set m | m in es) && Apart()
        invariant forall id :: id in entries ==> entries[id] in es[..i]
        invariant Entries() == ById(Values(es[..i])) && order == Ids(Values(es[..i]))
        invariant Payloads() == old(Payloads())
      {
        ValuesNext(es, i);
        assert es[i] in es && es[i] !in es[..i];
        assert es[..i + 1] == es[..i] + [es[i]];
        Reinsert(es[i]);
        i := i + 1;
      }
      assert es[..i] == es;
    }
  }

  /** Stamping from place `i` either updates that record or moves on. */
  lemma StampNext(cs: seq<Checkpoint>, id: string, turn: int, i: nat)
    requires i < |cs|
    ensures cs[i].id == id ==> cs[..i] + Stamp(cs[i..], id, turn) == cs[i := cs[i].(resumed := Some(turn))]
    ensures cs[i].id != id ==> cs[..i] + Stamp(cs[i..], id, turn) == cs[..i + 1] + Stamp(cs[i + 1..], id, turn)
  {
    assert cs[i..][1..] == cs[i + 1..];
  }

  lemma CompactEnds(s: Store, ids: seq<string>, turn: int)
    requires ids == [] || ids[0] !in s.entries
    ensures CompactStep(s, ids, turn) == s
  {
  }

  lemma SizedId(e: Entry)
    ensures Sized(e).id == e.id
  {
  }

  lemma SameIds(ms: seq<Memo>, ids: seq<string>)
    requires |ids| == |ms| && forall i :: 0 <= i < |ms| ==> ids[i] == ms[i].id
    ensures ids == Ids(Values(ms))
  {
  }

  lemma ValuesNext(ms: seq<Memo>, i: nat)
    requires i < |ms|
    ensures Ids(Values(ms[..i + 1])) == Ids(Values(ms[..i])) + [ms[i].id]
    ensures ById(Values(ms[..i + 1])) == ById(Values(ms[..i]))[ms[i].id := ms[i].Value()]
  {
    assert Values(ms[..i + 1])[..i] == Values(ms[..i]);
  }

  lemma NoValues()
    ensures Ids(Values([])) == [] && ById(Values([])) == map[]
  {
  }
}
