/** The checkpointed memory of the harness, on values: entries by id, their order, saved copies, and a log. */
module Checkpoints {
  import opened Options

  datatype Entry = Entry(
    id: string, kind: string, summary: string, detail: string, source: string, state: string,
    created: int, updated: int, chars: nat, tokens: nat)

  datatype Checkpoint = Checkpoint(id: string, name: string, ids: seq<string>, saved: int, resumed: Option<int>)

  datatype Event =
    | Added(turn: int, id: string)
    | Updated(turn: int, id: string)
    | Compacted(turn: int, id: string, before: string)
    | Saved(turn: int, id: string)
    | Resumed(turn: int, id: string)

  datatype Store = Store(
    entries: map<string, Entry>,
    order: seq<string>,
    payloads: map<string, seq<Entry>>,
    checkpoints: seq<Checkpoint>,
    events: seq<Event>,
    nextMemory: nat,
    nextCheckpoint: nat)

  datatype Op =
    | Add(kind: string, summary: string, source: string, state: string, detail: string, given: Option<string>,
          turn: int)
    | Compact(ids: seq<string>, turn: int)
    | Save(name: string, turn: int)
    | Resume(id: string, turn: int)

  function Digits(n: nat): (s: string)
    ensures |s| > 0
  {
    var last := [('0' as int + n % 10) as char];
    if n < 10 then last else Digits(n / 10) + last
  }

  function Value(s: string): int {
    if s == [] then 0 else 10 * Value(s[..|s| - 1]) + (s[|s| - 1] as int - '0' as int)
  }

  lemma {:induction false} DigitsValue(n: nat)
    ensures Value(Digits(n)) == n
    decreases n
  {
    var last := [('0' as int + n % 10) as char];
    if n < 10 {
      assert last[..0] == [];
    } else {
      DigitsValue(n / 10);
      assert Digits(n)[..|Digits(n)| - 1] == Digits(n / 10);
    }
  }

  function MemoryId(n: nat): string {
    "mem-" + Digits(n)
  }

  function CheckpointId(n: nat): string {
    "ckpt-" + Digits(n)
  }

  lemma CheckpointIdInjective(m: nat, n: nat)
    requires CheckpointId(m) == CheckpointId(n)
    ensures m == n
  {
    assert CheckpointId(m)[5..] == Digits(m) && CheckpointId(n)[5..] == Digits(n);
    DigitsValue(m);
    DigitsValue(n);
  }

  predicate KnownKind(kind: string) {
    kind in {"task", "source", "workspace", "execution", "conversation"}
  }

  function Tokens(text: string): nat {
    if text == [] then 0 else if (|text| + 3) / 4 < 1 then 1 else (|text| + 3) / 4
  }

  /** An entry with its sizes recomputed. */
  function Sized(e: Entry): Entry {
    e.(chars := |e.summary + e.detail|, tokens := Tokens(e.summary + "\n" + e.detail))
  }

  predicate Blank(c: char) {
    c == ' ' || '\t' <= c <= '\r'
  }

  /** `rstrip`. */
  function Stripped(s: string): (r: string)
    ensures r <= s && (r == [] || !Blank(r[|r| - 1]))
  {
    if s != [] && Blank(s[|s| - 1]) then Stripped(s[..|s| - 1]) else s
  }

  /** Shorten a text over `limit` to a prefix and an ellipsis. */
  function Clip(s: string, limit: nat): (r: string)
    requires limit >= 3
    ensures |r| <= limit
  {
    if |s| <= limit then s else Stripped(s[..limit - 3]) + "..."
  }

  function CompactEntry(e: Entry, turn: int): Entry {
    Sized(e.(summary := Clip(e.summary, 120), detail := Clip(e.detail, 240), state := "compacted", updated := turn))
  }

  /** Compacting again changes nothing but the turn. */
  lemma CompactAgain(e: Entry, turn: int, later: int)
    ensures CompactEntry(CompactEntry(e, turn), later) == CompactEntry(e, turn).(updated := later)
  {
    hide Clip, Tokens;
    ClipAgain(e.summary, 120);
    ClipAgain(e.detail, 240);
  }

  lemma ClipAgain(s: string, limit: nat)
    requires limit >= 3
    ensures Clip(Clip(s, limit), limit) == Clip(s, limit)
  {
  }

  function AddStep(s: Store, op: Op): Store
    requires op.Add?
  {
    if !KnownKind(op.kind) then s
    else
      var named := op.given.Some? && op.given.value != "";
      var id := if named then op.given.value else MemoryId(s.nextMemory);
      var known := id in s.entries;
      var created := if known then s.entries[id].created else op.turn;
      var e := Sized(Entry(id, op.kind, op.summary, op.detail, op.source, op.state, created, op.turn, 0, 0));
      s.(entries := s.entries[id := e], order := if known then s.order else s.order + [id],
         events := s.events + [if known then Updated(op.turn, id) else Added(op.turn, id)],
         nextMemory := if named then s.nextMemory else s.nextMemory + 1)
  }

  /** Compact one entry after another; an unknown id stops the pass and leaves the earlier ones compacted. */
  function CompactStep(s: Store, ids: seq<string>, turn: int): Store
    decreases |ids|
  {
    if ids == [] || ids[0] !in s.entries then s
    else
      var e := s.entries[ids[0]];
      CompactStep(s.(entries := s.entries[ids[0] := CompactEntry(e, turn)],
                     events := s.events + [Compacted(turn, ids[0], e.state)]), ids[1..], turn)
  }

  /** The entries in order. */
  function Listing(entries: map<string, Entry>, order: seq<string>): (r: seq<Entry>)
    requires forall i :: 0 <= i < |order| ==> order[i] in entries
    ensures |r| == |order|
  {
    seq(|order|, i requires 0 <= i < |order| => entries[order[i]])
  }

  function Ids(es: seq<Entry>): seq<string> {
    seq(|es|, i requires 0 <= i < |es| => es[i].id)
  }

  /** Entries keyed by their ids, later ones winning. */
  function ById(es: seq<Entry>): (m: map<string, Entry>)
    decreases |es|
  {
    if es == [] then map[] else ById(es[..|es| - 1])[es[|es| - 1].id := es[|es| - 1]]
  }

  predicate Ordered(s: Store) {
    && (forall i :: 0 <= i < |s.order| ==> s.order[i] in s.entries)
    && (forall i, j :: 0 <= i < j < |s.order| ==> s.order[i] != s.order[j])
  }

  function SaveStep(s: Store, name: string, turn: int): Store
    requires Ordered(s)
  {
    var id, es := CheckpointId(s.nextCheckpoint), Listing(s.entries, s.order);
    s.(payloads := s.payloads[id := es], checkpoints := s.checkpoints + [Checkpoint(id, name, Ids(es), turn, None)],
       events := s.events + [Saved(turn, id)], nextCheckpoint := s.nextCheckpoint + 1)
  }

  /** Stamp the first checkpoint record with this id. */
  function Stamp(cs: seq<Checkpoint>, id: string, turn: int): (r: seq<Checkpoint>)
    ensures |r| == |cs|
  {
    if cs == [] then []
    else if cs[0].id == id then [cs[0].(resumed := Some(turn))] + cs[1..]
    else [cs[0]] + Stamp(cs[1..], id, turn)
  }

  function ResumeStep(s: Store, id: string, turn: int): Store {
    if id !in s.payloads then s
    else
      var es := s.payloads[id];
      s.(entries := ById(es), order := Ids(es), checkpoints := Stamp(s.checkpoints, id, turn),
         events := s.events + [Resumed(turn, id)])
  }

  function Step(s: Store, op: Op): Store
    requires Ordered(s)
  {
    match op
    case Add(_, _, _, _, _, _, _) => AddStep(s, op)
    case Compact(ids, turn) => CompactStep(s, ids, turn)
    case Save(name, turn) => SaveStep(s, name, turn)
    case Resume(id, turn) => ResumeStep(s, id, turn)
  }

  function Init(): Store {
    Store(map[], [], map[], [], [], 1, 1)
  }

  predicate Good(e: Entry, id: string) {
    e.id == id && e == Sized(e)
  }

  predicate GoodPayload(es: seq<Entry>) {
    && (forall i :: 0 <= i < |es| ==> Good(es[i], es[i].id))
    && (forall i, j :: 0 <= i < j < |es| ==> es[i].id != es[j].id)
  }

  /** What every reachable store keeps: the order lists exactly the map's keys, once each; every entry knows
      its id and sizes; saved copies are of that kind, under ids not yet due. */
  ghost predicate Inv(s: Store)
    ensures Inv(s) ==> Ordered(s)
  {
    && Ordered(s)
    && (forall id :: id in s.entries ==> id in s.order)
    && (forall id :: id in s.entries ==> Good(s.entries[id], id))
    && (forall id :: id in s.payloads ==> GoodPayload(s.payloads[id]))
    && (forall n: nat :: n >= s.nextCheckpoint ==> CheckpointId(n) !in s.payloads)
  }

  lemma AddInv(s: Store, op: Op)
    requires Inv(s) && op.Add?
    ensures Inv(AddStep(s, op))
  {
    hide CheckpointId, MemoryId, Tokens, GoodPayload;
  }

  lemma {:induction false} CompactInv(s: Store, ids: seq<string>, turn: int)
    requires Inv(s)
    ensures Inv(CompactStep(s, ids, turn)) && CompactStep(s, ids, turn).order == s.order
    ensures CompactStep(s, ids, turn).payloads == s.payloads
    decreases |ids|
  {
    hide CheckpointId, Tokens, GoodPayload, Clip;
    if ids != [] && ids[0] in s.entries {
      var e := s.entries[ids[0]];
      var t := s.(entries := s.entries[ids[0] := CompactEntry(e, turn)],
                  events := s.events + [Compacted(turn, ids[0], e.state)]);
      assert Good(t.entries[ids[0]], ids[0]);
      CompactInv(t, ids[1..], turn);
    }
  }

  lemma SaveInv(s: Store, name: string, turn: int)
    requires Inv(s)
    ensures Inv(SaveStep(s, name, turn))
    ensures SaveStep(s, name, turn).payloads ==
            s.payloads[CheckpointId(s.nextCheckpoint) := Listing(s.entries, s.order)]
  {
    hide Tokens, CheckpointId, Sized;
    var t := SaveStep(s, name, turn);
    forall n: nat | n >= t.nextCheckpoint
      ensures CheckpointId(n) !in t.payloads
    {
      if CheckpointId(n) == CheckpointId(s.nextCheckpoint) {
        CheckpointIdInjective(n, s.nextCheckpoint);
      }
    }
  }

  lemma {:induction false} ByIdExact(es: seq<Entry>)
    requires forall i, j :: 0 <= i < j < |es| ==> es[i].id != es[j].id
    ensures forall i :: 0 <= i < |es| ==> es[i].id in ById(es) && ById(es)[es[i].id] == es[i]
    ensures forall id :: id in ById(es) ==> id in Ids(es)
    decreases |es|
  {
    if es != [] {
      var n := |es| - 1;
      ByIdExact(es[..n]);
      assert Ids(es) == Ids(es[..n]) + [es[n].id];
      forall i | 0 <= i < n
        ensures es[i].id in ById(es) && ById(es)[es[i].id] == es[i]
      {
        assert es[..n][i] == es[i];
      }
    }
  }

  lemma ResumeInv(s: Store, id: string, turn: int)
    requires Inv(s)
    ensures Inv(ResumeStep(s, id, turn)) && ResumeStep(s, id, turn).payloads == s.payloads
    ensures id in s.payloads ==>
            Ordered(ResumeStep(s, id, turn)) &&
            Listing(ResumeStep(s, id, turn).entries, ResumeStep(s, id, turn).order) == s.payloads[id]
  {
    hide Tokens, CheckpointId, ById, Stamp, Sized;
    if id in s.payloads {
      ByIdExact(s.payloads[id]);
    }
  }

  lemma StepInv(s: Store, op: Op)
    requires Inv(s)
    ensures Inv(Step(s, op))
    ensures forall id :: id in s.payloads ==> id in Step(s, op).payloads && Step(s, op).payloads[id] == s.payloads[id]
  {
    hide Inv, AddStep, CompactStep, SaveStep, ResumeStep, CheckpointId;
    match op {
      case Add(_, _, _, _, _, _, _) =>
        AddInv(s, op);
        AddPayloads(s, op);
      case Compact(ids, turn) => CompactInv(s, ids, turn);
      case Save(name, turn) =>
        SaveInv(s, name, turn);
        SaveFresh(s);
      case Resume(id, turn) => ResumeInv(s, id, turn);
    }
  }

  lemma AddPayloads(s: Store, op: Op)
    requires op.Add?
    ensures AddStep(s, op).payloads == s.payloads
  {
    hide Sized, MemoryId;
  }

  lemma SaveFresh(s: Store)
    requires Inv(s)
    ensures CheckpointId(s.nextCheckpoint) !in s.payloads
  {
  }

  function Run(s: Store, ops: seq<Op>): Store
    requires Inv(s)
    decreases |ops|
  {
    if ops == [] then s else StepInv(s, ops[0]); Run(Step(s, ops[0]), ops[1..])
  }

  lemma {:induction false} RunInv(s: Store, ops: seq<Op>)
    requires Inv(s)
    ensures Inv(Run(s, ops))
    ensures forall id :: id in s.payloads ==> id in Run(s, ops).payloads && Run(s, ops).payloads[id] == s.payloads[id]
    decreases |ops|
  {
    hide Inv, Step;
    if ops != [] {
      StepInv(s, ops[0]);
      RunInv(Step(s, ops[0]), ops[1..]);
    }
  }

  /** In every reachable store the order has no duplicates and lists exactly the map's keys. */
  lemma OrderListsKeys(ops: seq<Op>)
    ensures Inv(Init())
    ensures var s := Run(Init(), ops);
            (forall i, j :: 0 <= i < j < |s.order| ==> s.order[i] != s.order[j]) &&
            (forall id :: id in s.order <==> id in s.entries)
  {
    RunInv(Init(), ops);
  }

  lemma ListingDetermines(s: Store)
    requires Inv(s)
    ensures Ids(Listing(s.entries, s.order)) == s.order && ById(Listing(s.entries, s.order)) == s.entries
  {
    hide ById, Sized, CheckpointId;
    var es := Listing(s.entries, s.order);
    ByIdExact(es);
    assert Ids(es) == s.order;
    assert forall id :: id in s.entries ==> exists i :: 0 <= i < |es| && s.order[i] == id && es[i].id == id;
  }

  /** Whatever happens between a save and the resume, the resume brings back exactly the entries and the
      order of the moment of the save. */
  lemma ResumeRestores(s: Store, name: string, turn: int, ops: seq<Op>, later: int)
    requires Inv(s)
    ensures var id := CheckpointId(s.nextCheckpoint);
            Inv(SaveStep(s, name, turn)) &&
            var t := ResumeStep(Run(SaveStep(s, name, turn), ops), id, later);
            t.entries == s.entries && t.order == s.order
  {
    hide Inv, CheckpointId, Run, ById, Ids, Listing, Stamp;
    SaveInv(s, name, turn);
    RunInv(SaveStep(s, name, turn), ops);
    ListingDetermines(s);
  }

  lemma {:induction false} CompactLogs(s: Store, ids: seq<string>, turn: int)
    ensures |CompactStep(s, ids, turn).events| >= |s.events|
    ensures ids != [] && ids[0] in s.entries ==> |CompactStep(s, ids, turn).events| > |s.events|
    decreases |ids|
  {
    hide CompactEntry;
    if ids != [] && ids[0] in s.entries {
      var e := s.entries[ids[0]];
      CompactLogs(s.(entries := s.entries[ids[0] := CompactEntry(e, turn)],
                     events := s.events + [Compacted(turn, ids[0], e.state)]), ids[1..], turn);
    }
  }

  lemma {:induction false} CompactsUpTo(s: Store, ids: seq<string>, turn: int, k: nat)
    requires k < |ids| && ids[k] !in s.entries && forall i :: 0 <= i < k ==> ids[i] in s.entries
    ensures CompactStep(s, ids, turn) == CompactStep(s, ids[..k], turn)
    decreases |ids|
  {
    hide CompactEntry;
    if k > 0 {
      var e := s.entries[ids[0]];
      var t := s.(entries := s.entries[ids[0] := CompactEntry(e, turn)],
                  events := s.events + [Compacted(turn, ids[0], e.state)]);
      assert ids[..k][1..] == ids[1..][..k - 1];
      CompactsUpTo(t, ids[1..], turn, k - 1);
    }
  }

  /** A compaction that meets its first unknown id at place `k` has compacted exactly the ids before it, so it
      leaves the store unchanged exactly when `k` is 0. */
  lemma CompactStops(s: Store, ids: seq<string>, turn: int, k: nat)
    requires k < |ids| && ids[k] !in s.entries && forall i :: 0 <= i < k ==> ids[i] in s.entries
    ensures CompactStep(s, ids, turn) == CompactStep(s, ids[..k], turn)
    ensures CompactStep(s, ids, turn) == s <==> k == 0
  {
    hide CompactEntry, CompactStep;
    CompactsUpTo(s, ids, turn, k);
    CompactLogs(s, ids, turn);
    CompactNone(s, turn);
    assert k == 0 ==> ids[..k] == [];
  }

  lemma CompactNone(s: Store, turn: int)
    ensures CompactStep(s, [], turn) == s
  {
  }

  /** An allocated id is not checked against ids chosen by callers: an add without an id, or with an empty one,
      adds an entry exactly when the next automatic id is not in use, and otherwise replaces the entry that has
      it. */
  lemma AutomaticId(s: Store, op: Op)
    requires Inv(s) && op.Add? && (op.given.None? || op.given == Some("")) && KnownKind(op.kind)
    ensures var id, t := MemoryId(s.nextMemory), AddStep(s, op);
            && id in t.entries && t.entries[id].summary == op.summary
            && (id !in s.entries <==> t.order == s.order + [id])
            && (id in s.entries <==> t.order == s.order)
  {
    hide MemoryId, Tokens;
    assert |s.order + [MemoryId(s.nextMemory)]| == |s.order| + 1;
  }

  lemma MemoryIdInjective(m: nat, n: nat)
    requires MemoryId(m) == MemoryId(n)
    ensures m == n
  {
    assert MemoryId(m)[4..] == Digits(m) && MemoryId(n)[4..] == Digits(n);
    DigitsValue(m);
    DigitsValue(n);
  }

  /** A caller names an entry by an automatic id that is still to come. */
  ghost predicate Claims(s: Store, op: Op) {
    op.Add? && KnownKind(op.kind) && exists n: nat :: n >= s.nextMemory && op.given == Some(MemoryId(n))
  }

  ghost predicate NoneClaimed(s: Store, ops: seq<Op>)
    requires Inv(s)
    decreases |ops|
  {
    ops == [] || (!Claims(s, ops[0]) && (StepInv(s, ops[0]); NoneClaimed(Step(s, ops[0]), ops[1..])))
  }

  /** An automatic id still to come is in use, now or in a saved copy. */
  ghost predicate Claimed(s: Store) {
    exists n: nat :: n >= s.nextMemory && (MemoryId(n) in s.entries || Kept(s, MemoryId(n)))
  }

  ghost predicate Kept(s: Store, id: string) {
    exists c, i :: c in s.payloads && 0 <= i < |s.payloads[c]| && s.payloads[c][i].id == id
  }

  lemma {:induction false} CompactKeys(s: Store, ids: seq<string>, turn: int)
    ensures var t := CompactStep(s, ids, turn);
            t.entries.Keys == s.entries.Keys && t.payloads == s.payloads && t.nextMemory == s.nextMemory
    decreases |ids|
  {
    hide CompactEntry;
    if ids != [] && ids[0] in s.entries {
      var e := s.entries[ids[0]];
      CompactKeys(s.(entries := s.entries[ids[0] := CompactEntry(e, turn)],
                     events := s.events + [Compacted(turn, ids[0], e.state)]), ids[1..], turn);
    }
  }

  /** The add allocates its id. */
  predicate Unnamed(op: Op)
    requires op.Add?
  {
    op.given.None? || op.given.value == ""
  }

  /** Where the ids of the next store come from. */
  lemma StepIds(s: Store, op: Op, id: string)
    requires Inv(s) && !Claims(s, op)
    requires id in Step(s, op).entries || Kept(Step(s, op), id)
    ensures id in s.entries || Kept(s, id) ||
            (op.Add? && KnownKind(op.kind) &&
             if Unnamed(op) then id == MemoryId(s.nextMemory) else op.given == Some(id))
  {
    hide MemoryId, Sized, Stamp, CheckpointId;
    var t := Step(s, op);
    match op
    case Add(_, _, _, _, _, _, _) =>
      AddPayloads(s, op);
    case Compact(ids, turn) =>
      CompactKeys(s, ids, turn);
    case Save(name, turn) =>
      SaveInv(s, name, turn);
      if Kept(t, id) && id !in s.entries {
        var c, i :| c in t.payloads && 0 <= i < |t.payloads[c]| && t.payloads[c][i].id == id;
        assert c in s.payloads && t.payloads[c] == s.payloads[c];
      }
    case Resume(c, turn) =>
      ResumeInv(s, c, turn);
      if c in s.payloads && id in t.entries {
        var i :| 0 <= i < |t.order| && t.order[i] == id;
        assert s.payloads[c][i].id == id;
      }
  }

  lemma NextGrows(s: Store, op: Op)
    requires Inv(s)
    ensures Step(s, op).nextMemory == s.nextMemory + if op.Add? && KnownKind(op.kind) && Unnamed(op) then 1 else 0
  {
    hide MemoryId, Sized, Stamp, CheckpointId;
    if op.Compact? {
      CompactKeys(s, op.ids, op.turn);
    }
  }

  lemma StepUnclaimed(s: Store, op: Op)
    requires Inv(s) && !Claimed(s) && !Claims(s, op)
    ensures !Claimed(Step(s, op))
  {
    hide MemoryId, Inv, Step, KnownKind;
    var t := Step(s, op);
    NextGrows(s, op);
    if Claimed(t) {
      var n: nat :| n >= t.nextMemory && (MemoryId(n) in t.entries || Kept(t, MemoryId(n)));
      StepIds(s, op, MemoryId(n));
      if MemoryId(n) == MemoryId(s.nextMemory) {
        MemoryIdInjective(n, s.nextMemory);
      }
    }
  }

  lemma {:induction false} RunUnclaimed(s: Store, ops: seq<Op>)
    requires Inv(s) && !Claimed(s) && NoneClaimed(s, ops)
    ensures !Claimed(Run(s, ops))
    decreases |ops|
  {
    hide Inv, Step, Claimed, Claims;
    if ops != [] {
      StepInv(s, ops[0]);
      StepUnclaimed(s, ops[0]);
      RunUnclaimed(Step(s, ops[0]), ops[1..]);
    }
  }

  lemma InitUnclaimed()
    ensures Inv(Init()) && !Claimed(Init())
  {
  }

  /** In a run in which no caller names an entry by an automatic id that is still to come, the next automatic id is
      never in use: no automatic add replaces an entry. */
  lemma AutomaticIdsFresh(ops: seq<Op>)
    requires Inv(Init()) && NoneClaimed(Init(), ops)
    ensures MemoryId(Run(Init(), ops).nextMemory) !in Run(Init(), ops).entries
  {
    hide Run, Init;
    InitUnclaimed();
    RunUnclaimed(Init(), ops);
  }

  /** `k` adds without an id. */
  function Notes(k: nat): seq<Op> {
    if k == 0 then [] else [Note("", None)] + Notes(k - 1)
  }

  /** One such add: nothing is claimed, no entry goes away. */
  lemma OneNote(s: Store)
    requires Inv(s)
    ensures var op := Note("", None);
            && !Claims(s, op) && Inv(Step(s, op)) && Step(s, op).nextMemory == s.nextMemory + 1
            && forall id :: id in s.entries ==> id in Step(s, op).entries
  {
    hide Inv, MemoryId, Sized;
    StepInv(s, Note("", None));
  }

  /** Adds without an id come to any id still to come. */
  lemma {:induction false} NotesReach(s: Store, k: nat)
    requires Inv(s)
    ensures NoneClaimed(s, Notes(k)) && Run(s, Notes(k)).nextMemory == s.nextMemory + k
    ensures forall id :: id in s.entries ==> id in Run(s, Notes(k)).entries
    decreases k
  {
    hide Inv, Step, Claims, Note;
    if k > 0 {
      OneNote(s);
      var op := Note("", None);
      NotesReach(Step(s, op), k - 1);
      assert Notes(k)[1..] == Notes(k - 1);
    }
  }

  /** The next automatic add would replace an entry. */
  ghost predicate TakesOver(s: Store) {
    MemoryId(s.nextMemory) in s.entries
  }

  /** And exactly then: from a store, some run without a further claim comes to an automatic add that replaces an
      entry if and only if an automatic id still to come is in use already, now or in a saved copy. */
  lemma TakesOverIff(s: Store)
    requires Inv(s)
    ensures (exists ops: seq<Op> :: NoneClaimed(s, ops) && TakesOver(Run(s, ops))) <==> Claimed(s)
  {
    hide Inv, Run, NoneClaimed, MemoryId, Notes;
    if Claimed(s) {
      var n: nat :| n >= s.nextMemory && (MemoryId(n) in s.entries || Kept(s, MemoryId(n)));
      if MemoryId(n) in s.entries {
        NotesReach(s, n - s.nextMemory);
        assert TakesOver(Run(s, Notes(n - s.nextMemory)));
      } else {
        var c: string, i :| c in s.payloads && 0 <= i < |s.payloads[c]| && s.payloads[c][i].id == MemoryId(n);
        var op, k: nat := Resume(c, 0), n - s.nextMemory;
        BroughtBack(s, c, i);
        NotesReach(Step(s, op), k);
        RunCons(s, op, Notes(k));
        assert TakesOver(Run(s, [op] + Notes(k)));
      }
    } else {
      forall ops: seq<Op> | NoneClaimed(s, ops) ensures !TakesOver(Run(s, ops)) {
        RunUnclaimed(s, ops);
      }
    }
  }

  lemma BroughtBack(s: Store, c: string, i: nat)
    requires Inv(s) && c in s.payloads && i < |s.payloads[c]|
    ensures var t := Step(s, Resume(c, 0));
            Inv(t) && s.payloads[c][i].id in t.entries && t.nextMemory == s.nextMemory && !Claims(s, Resume(c, 0))
  {
    hide Sized, Stamp, CheckpointId;
    ResumeInv(s, c, 0);
    ByIdExact(s.payloads[c]);
  }

  lemma RunCons(s: Store, op: Op, ops: seq<Op>)
    requires Inv(s) && Inv(Step(s, op))
    ensures Run(s, [op] + ops) == Run(Step(s, op), ops)
    ensures NoneClaimed(s, [op] + ops) <==> !Claims(s, op) && NoneClaimed(Step(s, op), ops)
  {
    hide Inv, Step, Claims;
    assert ([op] + ops)[1..] == ops;
  }

  function Note(summary: string, given: Option<string>): Op {
    Add("task", summary, "", "raw", "", given, 0)
  }

  lemma FirstId()
    ensures MemoryId(1) == "mem-1" && KnownKind("task")
  {
    assert Digits(1) == ['1'];
    assert "mem-" + ['1'] == "mem-1";
  }

  /** It happens: an entry stored as "mem-1" is replaced by the first add without an id. */
  lemma AutomaticIdTakesOver(first: string, second: string)
    ensures Inv(Init())
    ensures var s := Run(Init(), [Note(first, Some("mem-1")), Note(second, None)]);
            s.order == ["mem-1"] && "mem-1" in s.entries && s.entries["mem-1"].summary == second
  {
    hide MemoryId, Tokens, Inv;
    FirstId();
    var a, b := Note(first, Some("mem-1")), Note(second, None);
    var s := AddStep(Init(), a);
    assert "mem-1" != "";
    assert s.order == ["mem-1"];
    InitInv();
    RunTwo(a, b);
  }

  lemma InitInv()
    ensures Inv(Init())
  {
  }

  lemma RunTwo(a: Op, b: Op)
    ensures Inv(Init()) && Inv(Step(Init(), a))
    ensures Run(Init(), [a, b]) == Step(Step(Init(), a), b)
  {
    hide Step, Inv;
    InitInv();
    StepInv(Init(), a);
    StepInv(Step(Init(), a), b);
    assert [a, b][1..] == [b] && [b][1..] == [];
    assert Run(Step(Init(), a), [b]) == Run(Step(Step(Init(), a), b), []);
  }

  /** It happens: a compaction fails at its second id and leaves the first entry compacted. */
  lemma FailureLeavesCompacted(summary: string, turn: int)
    ensures var s := AddStep(Init(), Note(summary, Some("a")));
            && "a" in s.entries && "b" !in s.entries && s.entries["a"].state == "raw"
            && var t := CompactStep(s, ["a", "b"], turn);
               "a" in t.entries && t.entries["a"].state == "compacted"
  {
    hide Tokens, Clip;
    var s := AddStep(Init(), Note(summary, Some("a")));
    FirstId();
    assert "a" != "b" && "a" != "" && ["a", "b"][1..] == ["b"];
    assert "a" in s.entries;
    var e := s.entries["a"];
    CompactEndsAt(s.(entries := s.entries["a" := CompactEntry(e, turn)],
                     events := s.events + [Compacted(turn, "a", e.state)]), ["b"], turn);
  }

  lemma CompactEndsAt(s: Store, ids: seq<string>, turn: int)
    requires ids != [] && ids[0] !in s.entries
    ensures CompactStep(s, ids, turn) == s
  {
  }
}
