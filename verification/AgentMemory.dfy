/** The agent's five memory slots: bounded well-formed fields, budgeted prompt sections, and the JSON
    entry that hands them out. */
module AgentMemory {
  import opened Words
  import opened Utf8
  import opened Json
  import opened JsonLookup
  import opened JsonCodec
  import opened Options

  const SLOT_COUNT: nat := 5
  const ID_MAX: nat := 24
  const SUMMARY_MAX: nat := 192
  const DETAIL_MAX: nat := 512
  const SOURCE_MAX: nat := 128
  const LINE_MAX: nat := 896
  const NEWLINE: Byte := 10

  datatype Kind = NoKind | Task | Source | Workspace | Execution | Conversation
  datatype State = NoState | RawState | Compacted | Derived

  datatype Entry = Entry(
    kind: Kind,
    state: State,
    id: seq<Byte>,
    source: seq<Byte>,
    summary: seq<Byte>,
    detail: seq<Byte>,
    createdTurn: nat,
    updatedTurn: nat)

  const EMPTY: Entry := Entry(NoKind, NoState, [], [], [], [], 0, 0)

  function Ascii(text: string): seq<Byte>
    requires forall i :: 0 <= i < |text| ==> text[i] < '\U{80}'
  {
    seq(|text|, i requires 0 <= i < |text| => text[i] as int)
  }

  function KindName(kind: Kind): seq<Byte> {
    match kind
    case Task => Ascii("task")
    case Source => Ascii("source")
    case Workspace => Ascii("workspace")
    case Execution => Ascii("execution")
    case Conversation => Ascii("conversation")
    case NoKind => Ascii("unknown")
  }

  function StateName(state: State): seq<Byte> {
    match state
    case RawState => Ascii("raw")
    case Compacted => Ascii("compacted")
    case Derived => Ascii("derived")
    case NoState => Ascii("unknown")
  }

  function SlotId(slot: nat): seq<Byte> {
    match slot
    case 0 => Ascii("mem-task")
    case 1 => Ascii("mem-source")
    case 2 => Ascii("mem-workspace")
    case 3 => Ascii("mem-execution")
    case 4 => Ascii("mem-conversation")
    case _ => Ascii("mem-unknown")
  }

  /** Every text field is well-formed UTF-8 within its capacity. */
  predicate Bounded(e: Entry) {
    && WellFormed(e.source) && |e.source| <= SOURCE_MAX
    && WellFormed(e.summary) && |e.summary| <= SUMMARY_MAX
    && WellFormed(e.detail) && |e.detail| <= DETAIL_MAX
  }

  /** What a slot can hold: its identifier and turns have their sizes too. */
  predicate Stored(e: Entry) {
    Bounded(e) && |e.id| <= ID_MAX && e.createdTurn < 0x1_0000 && e.updatedTurn < 0x1_0000
  }

  /** The longest well-formed prefix within `max` bytes. */
  function Prefix(text: seq<Byte>, max: nat): seq<Byte> {
    text[..SafeLen(text, max)]
  }

  /** Text without its trailing newlines. */
  function Trimmed(text: seq<Byte>): seq<Byte> {
    if text != [] && text[|text| - 1] == NEWLINE then Trimmed(text[..|text| - 1]) else text
  }

  function Summary(text: seq<Byte>, max: nat): seq<Byte> {
    Trimmed(Prefix(text, max))
  }

  /** Slot 0 after a user's request: its identifier and creation turn are set once. */
  function Noted(was: Entry, text: seq<Byte>, turn: nat): Entry {
    Entry(Task, Derived, if was.id == [] then SlotId(0) else was.id, Ascii("user_turn"), Summary(text, SUMMARY_MAX), [],
          if was.id == [] then turn else was.createdTurn, turn)
  }

  lemma PrefixBounded(text: seq<Byte>, max: nat)
    ensures WellFormed(Prefix(text, max)) && |Prefix(text, max)| <= max
  {
    SafeLenWellFormed(text, max);
  }

  /** The prompt line of an entry, before it is cut to the budget. */
  function PromptLine(e: Entry): seq<Byte> {
    Ascii("- [") + KindName(e.kind) + Ascii("/") + StateName(e.state) + Ascii("] ") + e.summary
    + (if e.detail != [] then Ascii(" | ") + e.detail else []) + [NEWLINE]
  }

  lemma AsciiText(text: string)
    requires forall i :: 0 <= i < |text| ==> text[i] < '\U{80}'
    ensures WellFormed(Ascii(text)) && |Ascii(text)| == |text|
  {
    AsciiWellFormed(Ascii(text));
  }

  lemma NamesWellFormed(e: Entry)
    ensures WellFormed(KindName(e.kind)) && |KindName(e.kind)| <= 12
    ensures WellFormed(StateName(e.state)) && |StateName(e.state)| <= 9
  {
    AsciiWellFormed(KindName(e.kind));
    AsciiWellFormed(StateName(e.state));
  }

  /** A prompt line is well-formed and always fits the line buffer. */
  lemma PromptLineFits(e: Entry)
    requires Bounded(e)
    ensures WellFormed(PromptLine(e)) && |PromptLine(e)| <= LINE_MAX
  {
    hide WellFormed, KindName, StateName;
    AsciiText("- [");
    AsciiText("/");
    AsciiText("] ");
    AsciiText(" | ");
    AsciiWellFormed([NEWLINE]);
    AsciiWellFormed([]);
    NamesWellFormed(e);
    var a := Ascii("- [") + KindName(e.kind);
    WellFormedAppend(Ascii("- ["), KindName(e.kind));
    WellFormedAppend(a, Ascii("/"));
    WellFormedAppend(a + Ascii("/"), StateName(e.state));
    var b := a + Ascii("/") + StateName(e.state);
    WellFormedAppend(b, Ascii("] "));
    WellFormedAppend(b + Ascii("] "), e.summary);
    WellFormedAppend(Ascii(" | "), e.detail);
    var c := if e.detail != [] then Ascii(" | ") + e.detail else [];
    WellFormedAppend(b + Ascii("] ") + e.summary, c);
    WellFormedAppend(b + Ascii("] ") + e.summary + c, [NEWLINE]);
  }

  /** The lines of the listed slots, each cut to what is left of the budget. */
  function Section(entries: seq<Entry>, slots: seq<nat>, budget: nat): seq<Byte>
    requires forall i :: 0 <= i < |slots| ==> slots[i] < |entries|
    decreases |slots|
  {
    if slots == [] || budget == 0 then []
    else
      var e := entries[slots[0]];
      var line := if e.kind != NoKind && e.summary != [] then Prefix(PromptLine(e), budget) else [];
      line + Section(entries, slots[1..], budget - |line|)
  }

  /** A prompt section never exceeds its budget, and is well-formed. */
  lemma {:induction false} SectionExact(entries: seq<Entry>, slots: seq<nat>, budget: nat)
    requires forall i :: 0 <= i < |slots| ==> slots[i] < |entries|
    requires forall i :: 0 <= i < |entries| ==> Bounded(entries[i])
    ensures WellFormed(Section(entries, slots, budget)) && |Section(entries, slots, budget)| <= budget
    decreases |slots|
  {
    hide WellFormed, PromptLine, Prefix;
    AsciiWellFormed([]);
    if slots != [] && budget != 0 {
      var e := entries[slots[0]];
      PrefixBounded(PromptLine(e), budget);
      var line := if e.kind != NoKind && e.summary != [] then Prefix(PromptLine(e), budget) else [];
      SectionExact(entries, slots[1..], budget - |line|);
      WellFormedAppend(line, Section(entries, slots[1..], budget - |line|));
    }
  }

  function Decimal(n: nat): seq<Byte> {
    if n < 10 then [48 + n] else Decimal(n / 10) + [48 + n % 10]
  }

  function EstimateTokens(chars: nat): nat {
    if chars == 0 then 0 else (chars + 3) / 4
  }

  /** A string field followed by a comma. */
  function Text(name: string, value: seq<Byte>): seq<Item>
    requires forall i :: 0 <= i < |name| ==> name[i] < '\U{80}'
  {
    [Key(Ascii(name)), Str(value), Raw([44])]
  }

  /** A number field followed by one more byte. */
  function Number(name: string, value: nat, end: Byte): seq<Item>
    requires forall i :: 0 <= i < |name| ==> name[i] < '\U{80}'
  {
    [Key(Ascii(name)), Raw(Decimal(value) + [end])]
  }

  function NumberItems(e: Entry): seq<Item> {
    var chars := |e.summary| + |e.detail|;
    Number("created_turn", e.createdTurn, 44) + (Number("updated_turn", e.updatedTurn, 44)
    + (Number("chars", chars, 44) + (Number("estimated_tokens", EstimateTokens(chars), 125) + [Raw([125])])))
  }

  /** Text fields in order, then `tail`. */
  function Fields(fields: seq<(string, seq<Byte>)>, tail: seq<Item>): seq<Item>
    requires AllWordy(fields)
    decreases |fields|
  {
    if fields == [] then tail else Text(fields[0].0, fields[0].1) + Fields(fields[1..], tail)
  }

  predicate AllWordy(fields: seq<(string, seq<Byte>)>) {
    forall i :: 0 <= i < |fields| ==> Wordy(fields[i].0)
  }

  /** The value of the first field with this name. */
  function Named(fields: seq<(string, seq<Byte>)>, key: string): Option<seq<Byte>>
    decreases |fields|
  {
    if fields == [] then None else if fields[0].0 == key then Some(fields[0].1) else Named(fields[1..], key)
  }

  function TextFields(e: Entry): (fields: seq<(string, seq<Byte>)>)
    ensures AllWordy(fields)
  {
    [("id", e.id), ("kind", KindName(e.kind)), ("summary", e.summary), ("detail", e.detail), ("source", e.source),
     ("state", StateName(e.state))]
  }

  /** The reply to a request for one entry: its text fields, then its numbers, inside two objects. */
  function ReplyItems(e: Entry): seq<Item> {
    [Raw(Ascii("{"))] + ([Key(Ascii("ok"))] + ([Raw(Ascii("true,"))] + ([Key(Ascii("entry"))] + ([Raw(Ascii("{"))]
    + Fields(TextFields(e), NumberItems(e))))))
  }

  predicate Wordy(name: string) {
    forall i :: 0 <= i < |name| ==> 'a' <= name[i] <= 'z' || name[i] == '_'
  }

  lemma WordyIsWord(name: string)
    requires Wordy(name)
    ensures IsWord(Ascii(name)) && |Ascii(name)| == |name|
  {
  }

  lemma AsciiInjective(a: string, b: string)
    requires Wordy(a) && Wordy(b) && a != b
    ensures Ascii(a) != Ascii(b)
  {
    if |a| == |b| {
      assert !(forall i :: 0 <= i < |a| ==> a[i] == b[i]);
      var i :| 0 <= i < |a| && a[i] != b[i];
      assert Ascii(a)[i] != Ascii(b)[i];
    }
  }

  /** A text field in front keeps the items regular, and is found exactly under its own name. */
  lemma TextField(name: string, value: seq<Byte>, rest: seq<Item>, key: string)
    requires Wordy(name) && Wordy(key) && Regular(rest)
    ensures Regular(Text(name, value) + rest)
    ensures name == key ==> Rest(Text(name, value) + rest, Ascii(key)) == Some([Str(value), Raw([44])] + rest)
    ensures name != key ==> Rest(Text(name, value) + rest, Ascii(key)) == Rest(rest, Ascii(key))
  {
    WordyIsWord(name);
    var items := Text(name, value) + rest;
    assert items[0] == Key(Ascii(name)) && Rest([Raw([44])] + rest, Ascii(key)) == Rest(rest, Ascii(key));
    assert items[1..] == [Str(value), Raw([44])] + rest && items[1..][1..] == [Raw([44])] + rest;
    assert ([Raw([44])] + rest)[1..] == rest;
    assert Regular([Raw([44])] + rest);
    if name != key {
      AsciiInjective(name, key);
    }
  }

  lemma {:induction false} DecimalHasNoQuote(n: nat)
    ensures QUOTE !in Decimal(n)
  {
    if n >= 10 {
      DecimalHasNoQuote(n / 10);
    }
  }

  /** A number field in front keeps the items regular, and is passed over by other names. */
  lemma NumberField(name: string, value: nat, end: Byte, rest: seq<Item>, key: string)
    requires Wordy(name) && Wordy(key) && Regular(rest) && end != QUOTE
    ensures Regular(Number(name, value, end) + rest)
    ensures name != key ==> Rest(Number(name, value, end) + rest, Ascii(key)) == Rest(rest, Ascii(key))
  {
    WordyIsWord(name);
    DecimalHasNoQuote(value);
    var items := Number(name, value, end) + rest;
    assert items[1..] == [Raw(Decimal(value) + [end])] + rest;
    assert items[1..][1..] == rest;
    if name != key {
      AsciiInjective(name, key);
    }
  }

  lemma NumbersRegular(e: Entry)
    ensures Regular(NumberItems(e))
  {
    hide Regular, Rest, Number, Decimal, EstimateTokens;
    var chars := |e.summary| + |e.detail|;
    LastRaw();
    NumberField("estimated_tokens", EstimateTokens(chars), 125, [Raw([125])], "chars");
    var r3 := Number("estimated_tokens", EstimateTokens(chars), 125) + [Raw([125])];
    NumberField("chars", chars, 44, r3, "chars");
    NumberField("updated_turn", e.updatedTurn, 44, Number("chars", chars, 44) + r3, "chars");
    NumberField("created_turn", e.createdTurn, 44,
                Number("updated_turn", e.updatedTurn, 44) + (Number("chars", chars, 44) + r3), "chars");
  }

  lemma LastRaw()
    ensures Regular([Raw([125])])
  {
    assert [Raw([125])][1..] == [];
  }

  lemma ConsRaw(text: seq<Byte>, rest: seq<Item>, key: seq<Byte>)
    requires Regular(rest) && QUOTE !in text
    ensures Regular([Raw(text)] + rest) && Rest([Raw(text)] + rest, key) == Rest(rest, key)
  {
    assert ([Raw(text)] + rest)[1..] == rest;
  }

  lemma ConsKey(name: string, rest: seq<Item>, key: string)
    requires Regular(rest) && Wordy(name) && Wordy(key) && name != key
    ensures Regular([Key(Ascii(name))] + rest) && Rest([Key(Ascii(name))] + rest, Ascii(key)) == Rest(rest, Ascii(key))
  {
    WordyIsWord(name);
    AsciiInjective(name, key);
    assert ([Key(Ascii(name))] + rest)[1..] == rest;
  }

  /** The opening of the reply is passed over. */
  lemma OpeningRegular(rest: seq<Item>, key: string)
    requires Regular(rest) && Wordy(key) && key != "ok" && key != "entry"
    ensures var items := [Raw(Ascii("{"))] + ([Key(Ascii("ok"))] + ([Raw(Ascii("true,"))]
                         + ([Key(Ascii("entry"))] + ([Raw(Ascii("{"))] + rest))));
            Regular(items) && Rest(items, Ascii(key)) == Rest(rest, Ascii(key))
  {
    hide Regular, Rest;
    var brace, yes := Ascii("{"), Ascii("true,");
    ConsRaw(brace, rest, Ascii(key));
    var r1 := [Raw(brace)] + rest;
    ConsKey("entry", r1, key);
    var r2 := [Key(Ascii("entry"))] + r1;
    ConsRaw(yes, r2, Ascii(key));
    var r3 := [Raw(yes)] + r2;
    ConsKey("ok", r3, key);
    ConsRaw(brace, [Key(Ascii("ok"))] + r3, Ascii(key));
  }

  /** Text fields keep the items regular, and the first one with the name is found. */
  lemma {:induction false} FieldsLookup(fields: seq<(string, seq<Byte>)>, tail: seq<Item>, key: string)
    requires AllWordy(fields) && Wordy(key) && Regular(tail)
    ensures Regular(Fields(fields, tail))
    ensures Named(fields, key).Some? ==>
              var found := Rest(Fields(fields, tail), Ascii(key));
              found.Some? && found.value != [] && found.value[0] == Str(Named(fields, key).value)
    decreases |fields|
  {
    hide Regular, Rest, Text, Ascii;
    if fields != [] {
      FieldsLookup(fields[1..], tail, key);
      TextField(fields[0].0, fields[0].1, Fields(fields[1..], tail), key);
    }
  }

  function FieldOf(e: Entry, key: string): seq<Byte>
    requires key == "summary" || key == "detail" || key == "source"
  {
    if key == "summary" then e.summary else if key == "detail" then e.detail else e.source
  }

  lemma NamedField(e: Entry, key: string)
    requires key == "summary" || key == "detail" || key == "source"
    ensures Named(TextFields(e), key) == Some(FieldOf(e, key))
  {
    hide KindName, StateName;
    var f := TextFields(e);
    assert |"id"| == 2 && |"kind"| == 4 && |"summary"| == 7 && |"detail"| == 6;
    assert "summary"[1] == 'u' && "source"[1] == 'o';
    assert f[0].0 != key && f[1].0 != key;
    NamedSkip(f, key);
    NamedSkip(f[1..], key);
    if key != "summary" {
      NamedSkip(f[2..], key);
    }
    if key == "source" {
      NamedSkip(f[3..], key);
    }
  }

  lemma NamedSkip(fields: seq<(string, seq<Byte>)>, key: string)
    requires fields != [] && fields[0].0 != key
    ensures Named(fields, key) == Named(fields[1..], key)
    ensures |fields| > 1 ==> fields[1..][1..] == fields[2..] && fields[1..][0] == fields[1]
  {
  }

  /** In the printed reply, each text field is found under its name. */
  lemma ReplyField(e: Entry, key: string)
    requires key == "summary" || key == "detail" || key == "source"
    ensures Regular(ReplyItems(e)) && IsWord(Ascii(key))
    ensures Rest(ReplyItems(e), Ascii(key)).Some?
    ensures var rest := Rest(ReplyItems(e), Ascii(key)).value; rest != [] && rest[0] == Str(FieldOf(e, key))
  {
    hide Regular, Rest, Fields, NumberItems, TextFields, Named, Ascii, IsWord;
    WordyIsWord(key);
    NumbersRegular(e);
    FieldsLookup(TextFields(e), NumberItems(e), key);
    NamedField(e, key);
    OpeningRegular(Fields(TextFields(e), NumberItems(e)), key);
  }

  /** Reading a memory entry's reply gives back the stored summary, detail and source exactly,
      whatever bytes they contain. */
  lemma ReadMemoryRoundTrip(e: Entry, key: string, cap: nat)
    requires Bounded(e) && cap >= DETAIL_MAX
    requires key == "summary" || key == "detail" || key == "source"
    ensures Extract(Print(ReplyItems(e)), Ascii(key), cap) == Some(FieldOf(e, key))
  {
    hide Extract, Print, ReplyItems, Regular, Rest, IsWord, Sanitize, Ascii;
    ReplyField(e, key);
    SanitizeGrows(FieldOf(e, key));
    ExtractExact(ReplyItems(e), Ascii(key), FieldOf(e, key), cap);
  }

  /** What a buffer with this much room takes of some text. */
  function Cut(s: seq<Byte>, room: nat): (r: seq<Byte>)
    ensures r <= s && |r| <= room
  {
    if |s| <= room then s else s[..room]
  }

  lemma CutAll(s: seq<Byte>, room: nat)
    ensures |s| <= room ==> Cut(s, room) == s
    ensures |s| > room ==> |Cut(s, room)| == room
    ensures forall t: seq<Byte> :: Cut(t, 0) == []
  {
  }

  lemma CutAppend(s: seq<Byte>, t: seq<Byte>, room: nat)
    requires |s| <= room
    ensures Cut(s + t, room) == s + Cut(t, room - |s|)
  {
  }

  lemma CutPrefix(s: seq<Byte>, t: seq<Byte>, room: nat)
    requires s <= t && (|s| <= room ==> s == t)
    ensures Cut(s, room) == Cut(t, room)
  {
  }

  class Memory {
    var started: bool
    var turn: nat
    var slots: seq<Entry>

    ghost predicate Valid()
      reads this
    {
      && |slots| == SLOT_COUNT && turn < 0x1_0000
      && forall i :: 0 <= i < SLOT_COUNT ==> Stored(slots[i])
    }

    /** The entries as the next call finds them: none before the memory is first used. */
    ghost function Known(): seq<Entry>
      reads this
    {
      if started then slots else seq(SLOT_COUNT, _ => EMPTY)
    }

    ghost function Turn(): nat
      reads this
    {
      if started then turn else 0
    }

    constructor ()
      ensures Valid() && !started && slots == seq(SLOT_COUNT, _ => EMPTY)
    {
      started, turn := false, 0;
      slots := seq(SLOT_COUNT, _ => EMPTY);
    }

    method ClearAll()
      modifies this
      ensures Valid() && started && turn == 0 && slots == seq(SLOT_COUNT, _ => EMPTY)
    {
      started, turn := true, 0;
      slots := seq(SLOT_COUNT, _ => EMPTY);
    }

    method EnsureStarted()
      requires Valid()
      modifies this
      ensures Valid() && started && slots == old(Known()) && turn == old(Turn())
    {
      if !started {
        ClearAll();
      }
    }

    /** `set_slot`: keep the longest well-formed prefix of each text that fits; the identifier and the
        creation turn are set once. */
    method SetSlot(slot: nat, kind: Kind, state: State, source: seq<Byte>, summary: seq<Byte>, detail: seq<Byte>)
        returns (previous: State)
      requires Valid() && started && slot < SLOT_COUNT
      modifies `slots
      ensures Valid()
      ensures previous == old(slots)[slot].state
      ensures var was := old(slots)[slot];
              slots == old(slots)[slot := Entry(
                kind, state,
                if was.id == [] then SlotId(slot) else was.id,
                Prefix(source, SOURCE_MAX), Prefix(summary, SUMMARY_MAX), Prefix(detail, DETAIL_MAX),
                if was.id == [] then turn else was.createdTurn, turn)]
    {
      hide WellFormed, SafeLen;
      var was := slots[slot];
      var source_n := SafePrefixLen(source, SOURCE_MAX);
      var summary_n := SafePrefixLen(summary, SUMMARY_MAX);
      var detail_n := SafePrefixLen(detail, DETAIL_MAX);
      slots := slots[slot := Entry(
        kind, state,
        if was.id == [] then SlotId(slot) else was.id,
        source[..source_n], summary[..summary_n], detail[..detail_n],
        if was.id == [] then turn else was.createdTurn, turn)];
      return was.state;
    }

    /** A user request: a new turn, and slot `mem-task` now holds it without trailing newlines. */
    method NoteUserRequest(text: seq<Byte>)
      requires Valid()
      modifies this
      ensures Valid() && started && turn == (old(Turn()) + 1) % 0x1_0000
      ensures slots == old(Known())[0 := Noted(old(Known())[0], text, turn)]
    {
      hide WellFormed, SafeLen, Summary, SlotId;
      EnsureStarted();
      turn := (turn + 1) % 0x1_0000;
      var summary := SummaryFromText(text, SUMMARY_MAX);
      SafeLenOfWellFormed(summary, SUMMARY_MAX);
      assert summary[..|summary|] == summary;
      assert Prefix([], DETAIL_MAX) == [];
      SourceFits();
      var _ := SetSlot(0, Task, Derived, Ascii("user_turn"), summary, []);
    }

    /** `summary_from_text`: the longest well-formed prefix that fits, less exactly its trailing newlines. */
    method SummaryFromText(text: seq<Byte>, max: nat) returns (summary: seq<Byte>)
      ensures summary == Summary(text, max)
      ensures summary <= text && |summary| <= SafeLen(text, max) <= max && WellFormed(summary)
      ensures summary != [] ==> summary[|summary| - 1] != NEWLINE
      ensures forall j :: |summary| <= j < SafeLen(text, max) ==> text[j] == NEWLINE
    {
      hide WellFormed, SafeLen;
      var n: nat := SafePrefixLen(text, max);
      while n != 0 && text[n - 1] == NEWLINE
        invariant 0 <= n <= SafeLen(text, max) <= |text| && SafeLen(text, max) <= max && WellFormed(text[..n])
        invariant forall j :: n <= j < SafeLen(text, max) ==> text[j] == NEWLINE
        invariant Trimmed(text[..n]) == Summary(text, max)
        decreases n
      {
        ChopNewline(text[..n]);
        assert text[..n][..n - 1] == text[..n - 1];
        n := n - 1;
      }
      return text[..n];
    }

    lemma SourceFits()
      ensures Prefix(Ascii("user_turn"), SOURCE_MAX) == Ascii("user_turn")
    {
      hide WellFormed, SafeLen;
      AsciiText("user_turn");
      SafeLenOfWellFormed(Ascii("user_turn"), SOURCE_MAX);
      assert Ascii("user_turn")[..9] == Ascii("user_turn");
    }

    lemma ChopNewline(s: seq<Byte>)
      requires WellFormed(s) && s != [] && s[|s| - 1] == NEWLINE
      ensures WellFormed(s[..|s| - 1])
    {
      PrefixAtStart(s, |s| - 1);
    }

    /** `append_slots_to`: put the prompt section of the listed slots behind `start`, cut at the buffer's end. */
    method PromptSection(out: array<Byte>, start: nat, wanted: seq<nat>, budget: nat) returns (end: nat)
      requires Valid() && start <= out.Length && forall i :: 0 <= i < |wanted| ==> wanted[i] < SLOT_COUNT
      modifies out
      ensures var section := Cut(Section(slots, wanted, budget), out.Length - start);
              end == start + |section| && out[..end] == old(out[..start]) + section
    {
      hide Section, Cut, Prefix, PromptLine, Stored;
      ghost var all, done, before, room := Section(slots, wanted, budget), [], out[..start], out.Length - start;
      end := start;
      var i := 0;
      assert wanted[0..] == wanted;
      CutAll(done, room);
      assert before + done == before && done + all == all;
      while i < |wanted| && end - start < budget
        invariant 0 <= i <= |wanted| && |done| <= budget
        invariant done <= all && (|done| <= room ==> all == done + Section(slots, wanted[i..], budget - |done|))
        invariant end == start + |Cut(done, room)| <= out.Length && out[..end] == before + Cut(done, room)
      {
        ghost var line;
        CutAll(done, room);
        end, line := AppendLine(out, end, slots[wanted[i]], budget - (end - start));
        if |done| <= room {
          SectionCons(slots, wanted[i..], budget - |done|, line);
          assert wanted[i..][1..] == wanted[i + 1..];
          Regroup(done, line, Section(slots, wanted[i + 1..], budget - |done| - |line|));
          Regroup(before, done, Cut(line, room - |done|));
          CutAppend(done, line, room);
          done := done + line;
        }
        i := i + 1;
      }
      CutAll(done, room);
      if |done| <= room {
        SectionEnd(slots, wanted[i..], budget - |done|);
        assert done + [] == done;
      }
      CutPrefix(done, all, room);
    }

    /** One line, when the slot is in use: cut to the budget, then at the buffer's end. */
    method AppendLine(out: array<Byte>, idx: nat, e: Entry, remaining: nat) returns (end: nat, ghost line: seq<Byte>)
      requires Stored(e) && idx <= out.Length
      modifies out
      ensures line == if e.kind != NoKind && e.summary != [] then Prefix(PromptLine(e), remaining) else []
      ensures |line| <= remaining
      ensures end == idx + |Cut(line, out.Length - idx)| && out[..end] == old(out[..idx]) + Cut(line, out.Length - idx)
    {
      hide PromptLine, Prefix;
      end, line := idx, [];
      if e.kind != NoKind && e.summary != [] {
        var cut := CutLine(e, remaining);
        end := Copy(out, idx, cut);
        line := cut;
      }
    }

    lemma Regroup(a: seq<Byte>, b: seq<Byte>, c: seq<Byte>)
      ensures a + (b + c) == (a + b) + c
    {
    }

    lemma SectionCons(entries: seq<Entry>, wanted: seq<nat>, budget: nat, line: seq<Byte>)
      requires forall i :: 0 <= i < |wanted| ==> wanted[i] < |entries|
      requires wanted != [] && budget > 0 && |line| <= budget
      requires var e := entries[wanted[0]];
               line == if e.kind != NoKind && e.summary != [] then Prefix(PromptLine(e), budget) else []
      ensures Section(entries, wanted, budget) == line + Section(entries, wanted[1..], budget - |line|)
    {
    }

    lemma SectionEnd(entries: seq<Entry>, wanted: seq<nat>, budget: nat)
      requires forall i :: 0 <= i < |wanted| ==> wanted[i] < |entries|
      requires wanted == [] || budget == 0
      ensures Section(entries, wanted, budget) == []
    {
    }

    method CutLine(e: Entry, remaining: nat) returns (line: seq<Byte>)
      requires Bounded(e)
      ensures line == Prefix(PromptLine(e), remaining) && |line| <= remaining
    {
      hide WellFormed, SafeLen;
      var full := PromptLine(e);
      PromptLineFits(e);
      var take := SafePrefixLen(full, remaining);
      return full[..take];
    }
  }
}
