/** The reply to a request for one memory entry, written piece by piece into a caller's buffer. A piece that
    does not fit is cut, so the reply is the printed entry when all of it fits. */
module MemoryReply {
  import opened Words
  import opened Utf8
  import opened Json
  import opened JsonLookup
  import opened JsonCodec
  import opened AgentMemory
  import opened Options

  /** Text written as it is, cut anywhere, or escaped, cut between escapes. */
  datatype Piece = Plain(bytes: seq<Byte>) | Escaped(bytes: seq<Byte>)

  /** What is written of one piece, and of pieces one after another. */
  function One(room: nat, p: Piece): (w: seq<Byte>)
    ensures |w| <= room
  {
    if p.Plain? then Cut(p.bytes, room) else EscapeInto(room, p.bytes)
  }

  function Written(room: nat, ps: seq<Piece>): (w: seq<Byte>)
    ensures |w| <= room
    decreases |ps|
  {
    if ps == [] then [] else One(room, ps[0]) + Written(room - |One(room, ps[0])|, ps[1..])
  }

  function Whole(ps: seq<Piece>): seq<Byte> {
    if ps == [] then [] else (if ps[0].Plain? then ps[0].bytes else Escape(ps[0].bytes)) + Whole(ps[1..])
  }

  /** Where everything fits, everything is written. */
  lemma {:induction false} WrittenFits(room: nat, ps: seq<Piece>)
    requires |Whole(ps)| <= room
    ensures Written(room, ps) == Whole(ps)
    decreases |ps|
  {
    hide Escape, EscapeInto;
    if ps != [] {
      if ps[0].Escaped? {
        EscapeFits(room, ps[0].bytes);
      }
      WrittenFits(room - |One(room, ps[0])|, ps[1..]);
    }
  }

  lemma WrittenCons(room: nat, p: Piece, ps: seq<Piece>)
    ensures Written(room, [p] + ps) == One(room, p) + Written(room - |One(room, p)|, ps)
  {
    hide One;
    assert ([p] + ps)[1..] == ps;
  }

  lemma Associate(a: seq<Byte>, b: seq<Byte>, c: seq<Byte>)
    ensures a + (b + c) == (a + b) + c
  {
  }

  lemma WrittenNone(room: nat)
    ensures Written(room, []) == []
  {
  }

  lemma {:induction false} WrittenAppend(room: nat, ps: seq<Piece>, qs: seq<Piece>)
    ensures Written(room, ps + qs) == Written(room, ps) + Written(room - |Written(room, ps)|, qs)
    decreases |ps|
  {
    hide One, Written;
    if ps == [] {
      WrittenNone(room);
      assert ps + qs == qs && [] + Written(room, qs) == Written(room, qs);
    } else {
      var first, rest := One(room, ps[0]), ps[1..];
      var left := room - |first|;
      assert ps + qs == [ps[0]] + (rest + qs) && ps == [ps[0]] + rest;
      WrittenAppend(left, rest, qs);
      WrittenCons(room, ps[0], rest + qs);
      WrittenCons(room, ps[0], rest);
      Associate(first, Written(left, rest), Written(left - |Written(left, rest)|, qs));
    }
  }

  lemma {:induction false} WholeAppend(ps: seq<Piece>, qs: seq<Piece>)
    ensures Whole(ps + qs) == Whole(ps) + Whole(qs)
    decreases |ps|
  {
    hide Escape;
    if ps == [] {
      assert ps + qs == qs;
    } else {
      assert (ps + qs)[0] == ps[0] && (ps + qs)[1..] == ps[1..] + qs;
      WholeAppend(ps[1..], qs);
    }
  }

  lemma WrittenOne(room: nat, p: Piece)
    ensures Written(room, [p]) == One(room, p)
  {
    hide One;
    assert [p][1..] == [];
  }

  /** `s` was in the buffer, and these pieces have been written behind it. */
  ghost predicate Holds(out: array<Byte>, end: nat, s: seq<Byte>, ps: seq<Piece>)
    reads out
  {
    |s| <= out.Length && end == |s| + |Written(out.Length - |s|, ps)| && out[..end] == s + Written(out.Length - |s|, ps)
  }

  lemma Continues(room: nat, s: seq<Byte>, ps: seq<Piece>, p: Piece)
    ensures s + Written(room, ps + [p]) == (s + Written(room, ps)) + One(room - |Written(room, ps)|, p)
  {
    hide One, Written;
    WrittenAppend(room, ps, [p]);
    WrittenOne(room - |Written(room, ps)|, p);
  }

  method PutPlain(out: array<Byte>, idx: nat, text: seq<Byte>, ghost s: seq<Byte>, ghost ps: seq<Piece>)
    returns (end: nat)
    requires idx <= out.Length && Holds(out, idx, s, ps)
    modifies out
    ensures end <= out.Length && Holds(out, end, s, ps + [Plain(text)])
  {
    Continues(out.Length - |s|, s, ps, Plain(text));
    end := Copy(out, idx, text);
  }

  method PutEscaped(out: array<Byte>, idx: nat, text: seq<Byte>, ghost s: seq<Byte>, ghost ps: seq<Piece>)
    returns (end: nat)
    requires idx <= out.Length && Holds(out, idx, s, ps)
    modifies out
    ensures end <= out.Length && Holds(out, end, s, ps + [Escaped(text)])
  {
    hide EscapeInto;
    Continues(out.Length - |s|, s, ps, Escaped(text));
    end := EscapeAppend(out, idx, text);
    assert |out[..end]| == end;
  }

  /** `u64_to_dec_local`: digits are collected from the last to the first, then copied in order. */
  method CopyDecimal(out: array<Byte>, idx: nat, value: nat) returns (end: nat)
    requires idx <= out.Length
    modifies out
    ensures end == idx + |Cut(Decimal(value), out.Length - idx)|
    ensures out[..end] == old(out[..idx]) + Cut(Decimal(value), out.Length - idx)
  {
    if value == 0 {
      end := Copy(out, idx, [48]);
      return;
    }
    var digits: seq<Byte> := [];
    var v := value;
    while v != 0
      invariant if v == 0 then digits == Decimal(value) else Decimal(v) + digits == Decimal(value)
    {
      digits := [48 + v % 10] + digits;
      assert v >= 10 ==> Decimal(v) == Decimal(v / 10) + [48 + v % 10];
      v := v / 10;
    }
    end := Copy(out, idx, digits);
  }

  method PutDecimal(out: array<Byte>, idx: nat, value: nat, ghost s: seq<Byte>, ghost ps: seq<Piece>)
    returns (end: nat)
    requires idx <= out.Length && Holds(out, idx, s, ps)
    modifies out
    ensures end <= out.Length && Holds(out, end, s, ps + [Plain(Decimal(value))])
  {
    hide Decimal, Cut;
    Continues(out.Length - |s|, s, ps, Plain(Decimal(value)));
    end := CopyDecimal(out, idx, value);
  }

  lemma {:induction false} PrintConcat(a: seq<Item>, b: seq<Item>)
    ensures Print(a + b) == Print(a) + Print(b)
    decreases |a|
  {
    hide PrintItem;
    if a == [] {
      assert a + b == b;
    } else {
      PrintConcat(a[1..], b);
      assert (a + b)[1..] == a[1..] + b;
    }
  }

  lemma PrintTwo(x: Item, y: Item)
    ensures Print([x, y]) == PrintItem(x) + PrintItem(y)
  {
    hide PrintItem;
    assert [x, y][1..] == [y] && [y][1..] == [];
    assert Print([y]) == PrintItem(y) + Print([]);
  }

  lemma PrintThree(x: Item, y: Item, z: Item)
    ensures Print([x, y, z]) == PrintItem(x) + PrintItem(y) + PrintItem(z)
  {
    hide PrintItem;
    assert [x, y, z][1..] == [y, z];
    PrintTwo(y, z);
  }

  lemma PrintText(name: string, value: seq<Byte>)
    requires Wordy(name)
    ensures Print(Text(name, value)) ==
            [QUOTE] + Ascii(name) + [QUOTE, COLON, QUOTE] + Escape(value) + [QUOTE, 44]
  {
    hide Escape, Ascii;
    PrintThree(Key(Ascii(name)), Str(value), Raw([44]));
  }

  lemma PrintNumber(name: string, value: nat, close: Byte)
    requires Wordy(name)
    ensures Print(Number(name, value, close)) ==
            [QUOTE] + Ascii(name) + [QUOTE, COLON] + Decimal(value) + [close]
  {
    hide Decimal, Ascii;
    PrintTwo(Key(Ascii(name)), Raw(Decimal(value) + [close]));
  }

  function TextPieces(name: string, value: Piece): seq<Piece>
    requires Wordy(name)
  {
    [Plain([QUOTE] + Ascii(name) + [QUOTE, COLON, QUOTE]), value, Plain([QUOTE, 44])]
  }

  function NumberPieces(name: string, value: nat, close: Byte): seq<Piece>
    requires Wordy(name)
  {
    [Plain([QUOTE] + Ascii(name) + [QUOTE, COLON]), Plain(Decimal(value)), Plain([close])]
  }

  /** An entry's JSON in the order of writing, with its detail or without. */
  function EntryPieces(e: Entry, detail: bool): seq<Piece> {
    var chars := |e.summary| + |e.detail|;
    [Plain([123])] + TextPieces("id", Escaped(e.id)) + TextPieces("kind", Plain(KindName(e.kind)))
    + TextPieces("summary", Escaped(e.summary)) + (if detail then TextPieces("detail", Escaped(e.detail)) else [])
    + TextPieces("source", Escaped(e.source)) + TextPieces("state", Plain(StateName(e.state)))
    + NumberPieces("created_turn", e.createdTurn, 44) + NumberPieces("updated_turn", e.updatedTurn, 44)
    + NumberPieces("chars", chars, 44) + NumberPieces("estimated_tokens", EstimateTokens(chars), 125)
  }

  method PutText(out: array<Byte>, idx: nat, name: string, value: seq<Byte>, ghost s: seq<Byte>, ghost ps: seq<Piece>)
    returns (end: nat)
    requires idx <= out.Length && Wordy(name) && Holds(out, idx, s, ps)
    modifies out
    ensures end <= out.Length && Holds(out, end, s, ps + TextPieces(name, Escaped(value)))
  {
    hide Holds, Ascii;
    var open := [QUOTE] + Ascii(name) + [QUOTE, COLON, QUOTE];
    end := PutPlain(out, idx, open, s, ps);
    end := PutEscaped(out, end, value, s, ps + [Plain(open)]);
    end := PutPlain(out, end, [QUOTE, 44], s, ps + [Plain(open)] + [Escaped(value)]);
    assert ps + [Plain(open)] + [Escaped(value)] + [Plain([QUOTE, 44])] == ps + TextPieces(name, Escaped(value));
  }

  /** The name of a kind or state is written without escapes. */
  method PutName(out: array<Byte>, idx: nat, name: string, value: seq<Byte>, ghost s: seq<Byte>, ghost ps: seq<Piece>)
    returns (end: nat)
    requires idx <= out.Length && Wordy(name) && Holds(out, idx, s, ps)
    modifies out
    ensures end <= out.Length && Holds(out, end, s, ps + TextPieces(name, Plain(value)))
  {
    hide Holds, Ascii;
    var open := [QUOTE] + Ascii(name) + [QUOTE, COLON, QUOTE];
    end := PutPlain(out, idx, open, s, ps);
    end := PutPlain(out, end, value, s, ps + [Plain(open)]);
    end := PutPlain(out, end, [QUOTE, 44], s, ps + [Plain(open)] + [Plain(value)]);
    assert ps + [Plain(open)] + [Plain(value)] + [Plain([QUOTE, 44])] == ps + TextPieces(name, Plain(value));
  }

  method PutNumber(out: array<Byte>, idx: nat, name: string, value: nat, close: Byte,
                   ghost s: seq<Byte>, ghost ps: seq<Piece>) returns (end: nat)
    requires idx <= out.Length && Wordy(name) && Holds(out, idx, s, ps)
    modifies out
    ensures end <= out.Length && Holds(out, end, s, ps + NumberPieces(name, value, close))
  {
    hide Holds, Ascii, Decimal;
    var open := [QUOTE] + Ascii(name) + [QUOTE, COLON];
    end := PutPlain(out, idx, open, s, ps);
    end := PutDecimal(out, end, value, s, ps + [Plain(open)]);
    end := PutPlain(out, end, [close], s, ps + [Plain(open)] + [Plain(Decimal(value))]);
    assert ps + [Plain(open)] + [Plain(Decimal(value))] + [Plain([close])] == ps + NumberPieces(name, value, close);
  }

  lemma StartsEmpty(out: array<Byte>, idx: nat)
    requires idx <= out.Length
    ensures Holds(out, idx, out[..idx], [])
  {
  }

  lemma HoldsMeans(out: array<Byte>, end: nat, s: seq<Byte>, ps: seq<Piece>)
    requires Holds(out, end, s, ps)
    ensures |s| <= out.Length
    ensures end == |s| + |Written(out.Length - |s|, ps)| && out[..end] == s + Written(out.Length - |s|, ps)
  {
  }

  /** `append_entry_json`: what is written, also when it does not fit. */
  method AppendEntryJson(out: array<Byte>, idx: nat, e: Entry, detail: bool) returns (end: nat)
    requires idx <= out.Length
    modifies out
    ensures var w := Written(out.Length - idx, EntryPieces(e, detail));
            end == idx + |w| <= out.Length && out[..end] == old(out[..idx]) + w
  {
    hide Holds, TextPieces, NumberPieces, KindName, StateName, Written, EstimateTokens;
    ghost var s := out[..idx];
    StartsEmpty(out, idx);
    ghost var ps: seq<Piece> := [] + [Plain([123])];
    end := PutPlain(out, idx, [123], s, []);
    end := PutText(out, end, "id", e.id, s, ps);
    ps := ps + TextPieces("id", Escaped(e.id));
    end := PutName(out, end, "kind", KindName(e.kind), s, ps);
    ps := ps + TextPieces("kind", Plain(KindName(e.kind)));
    end := PutText(out, end, "summary", e.summary, s, ps);
    ps := ps + TextPieces("summary", Escaped(e.summary));
    assert ps + [] == ps;
    if detail {
      end := PutText(out, end, "detail", e.detail, s, ps);
    }
    ps := ps + if detail then TextPieces("detail", Escaped(e.detail)) else [];
    end := PutText(out, end, "source", e.source, s, ps);
    ps := ps + TextPieces("source", Escaped(e.source));
    end := PutName(out, end, "state", StateName(e.state), s, ps);
    ps := ps + TextPieces("state", Plain(StateName(e.state)));
    end := PutNumber(out, end, "created_turn", e.createdTurn, 44, s, ps);
    ps := ps + NumberPieces("created_turn", e.createdTurn, 44);
    end := PutNumber(out, end, "updated_turn", e.updatedTurn, 44, s, ps);
    ps := ps + NumberPieces("updated_turn", e.updatedTurn, 44);
    var chars := |e.summary| + |e.detail|;
    end := PutNumber(out, end, "chars", chars, 44, s, ps);
    ps := ps + NumberPieces("chars", chars, 44);
    end := PutNumber(out, end, "estimated_tokens", EstimateTokens(chars), 125, s, ps);
    ps := ps + NumberPieces("estimated_tokens", EstimateTokens(chars), 125);
    HoldsMeans(out, end, s, ps);
    assert ps == EntryPieces(e, detail);
  }

  /** The printed text fields and numbers of an entry. */
  function FirstTexts(e: Entry): seq<Byte> {
    Print(Text("id", e.id)) + Print(Text("kind", KindName(e.kind))) + Print(Text("summary", e.summary))
  }

  function LastTexts(e: Entry): seq<Byte> {
    Print(Text("detail", e.detail)) + Print(Text("source", e.source)) + Print(Text("state", StateName(e.state)))
  }

  function FirstNumbers(e: Entry): seq<Byte> {
    Print(Number("created_turn", e.createdTurn, 44)) + Print(Number("updated_turn", e.updatedTurn, 44))
  }

  function LastNumbers(e: Entry): seq<Byte> {
    var chars := |e.summary| + |e.detail|;
    Print(Number("chars", chars, 44)) + Print(Number("estimated_tokens", EstimateTokens(chars), 125))
  }

  function EntryJson(e: Entry): seq<Byte> {
    [123] + (FirstTexts(e) + LastTexts(e)) + (FirstNumbers(e) + LastNumbers(e))
  }

  /** Letters and underscores are not escaped. */
  lemma {:induction false} WordyEscape(name: string)
    requires Wordy(name)
    ensures Escape(Ascii(name)) == Ascii(name)
  {
    if name != "" {
      var s := Ascii(name);
      assert SeqLen(s) == 1 && s[1..] == Ascii(name[1..]);
      WordyEscape(name[1..]);
      assert Unit(s) == (s[..1], 1);
    }
  }

  lemma NamesEscape(e: Entry)
    ensures Escape(KindName(e.kind)) == KindName(e.kind) && Escape(StateName(e.state)) == StateName(e.state)
  {
    hide Escape, Ascii;
    WordyEscape("task");
    WordyEscape("source");
    WordyEscape("workspace");
    WordyEscape("execution");
    WordyEscape("conversation");
    WordyEscape("unknown");
    WordyEscape("raw");
    WordyEscape("compacted");
    WordyEscape("derived");
  }

  lemma WholeThree(p: Piece, q: Piece, x: Piece)
    ensures Whole([p, q, x]) == Whole([p]) + Whole([q]) + Whole([x])
  {
    hide Whole;
    assert [p, q, x] == [p] + [q] + [x];
    WholeAppend([p] + [q], [x]);
    WholeAppend([p], [q]);
  }

  lemma WholeOne(p: Piece)
    ensures Whole([p]) == if p.Plain? then p.bytes else Escape(p.bytes)
  {
    hide Escape;
    assert [p][1..] == [];
  }

  lemma WholeText(name: string, value: Piece)
    requires Wordy(name) && (value.Plain? ==> Escape(value.bytes) == value.bytes)
    ensures Whole(TextPieces(name, value)) == Print(Text(name, value.bytes))
  {
    hide Escape, Ascii, Print, Whole;
    var open := Plain([QUOTE] + Ascii(name) + [QUOTE, COLON, QUOTE]);
    PrintText(name, value.bytes);
    WholeThree(open, value, Plain([QUOTE, 44]));
    WholeOne(open);
    WholeOne(value);
    WholeOne(Plain([QUOTE, 44]));
  }

  lemma WholeNumber(name: string, value: nat, close: Byte)
    requires Wordy(name)
    ensures Whole(NumberPieces(name, value, close)) == Print(Number(name, value, close))
  {
    hide Decimal, Ascii, Print, Whole;
    var open := Plain([QUOTE] + Ascii(name) + [QUOTE, COLON]);
    PrintNumber(name, value, close);
    WholeThree(open, Plain(Decimal(value)), Plain([close]));
    WholeOne(open);
    WholeOne(Plain(Decimal(value)));
    WholeOne(Plain([close]));
  }

  /** With its detail, the whole of an entry's pieces is its JSON. */
  lemma EntryWhole(e: Entry)
    ensures Whole(EntryPieces(e, true)) == EntryJson(e)
  {
    hide Whole, Print, Text, Number, TextPieces, NumberPieces, KindName, StateName, EstimateTokens, Escape;
    var chars := |e.summary| + |e.detail|;
    var a, b := TextPieces("id", Escaped(e.id)), TextPieces("kind", Plain(KindName(e.kind)));
    var c, d := TextPieces("summary", Escaped(e.summary)), TextPieces("detail", Escaped(e.detail));
    var f, g := TextPieces("source", Escaped(e.source)), TextPieces("state", Plain(StateName(e.state)));
    var h, i := NumberPieces("created_turn", e.createdTurn, 44), NumberPieces("updated_turn", e.updatedTurn, 44);
    var j, k := NumberPieces("chars", chars, 44), NumberPieces("estimated_tokens", EstimateTokens(chars), 125);
    var brace := [Plain([123])];
    WholeAppend(brace + a + b + c + d + f + g + h + i + j, k);
    WholeAppend(brace + a + b + c + d + f + g + h + i, j);
    WholeAppend(brace + a + b + c + d + f + g + h, i);
    WholeAppend(brace + a + b + c + d + f + g, h);
    WholeAppend(brace + a + b + c + d + f, g);
    WholeAppend(brace + a + b + c + d, f);
    WholeAppend(brace + a + b + c, d);
    WholeAppend(brace + a + b, c);
    WholeAppend(brace + a, b);
    WholeAppend(brace, a);
    WholeOne(Plain([123]));
    NamesEscape(e);
    WholeText("id", Escaped(e.id));
    WholeText("kind", Plain(KindName(e.kind)));
    WholeText("summary", Escaped(e.summary));
    WholeText("detail", Escaped(e.detail));
    WholeText("source", Escaped(e.source));
    WholeText("state", Plain(StateName(e.state)));
    WholeNumber("created_turn", e.createdTurn, 44);
    WholeNumber("updated_turn", e.updatedTurn, 44);
    WholeNumber("chars", chars, 44);
    WholeNumber("estimated_tokens", EstimateTokens(chars), 125);
  }

  function Opening(): seq<Byte> {
    Ascii("{\"ok\":true,\"entry\":")
  }

  lemma PrintCons(item: Item, rest: seq<Item>)
    ensures Print([item] + rest) == PrintItem(item) + Print(rest)
  {
    hide PrintItem;
    assert ([item] + rest)[1..] == rest;
  }

  function Texts(fields: seq<(string, seq<Byte>)>): seq<Byte>
    requires AllWordy(fields)
    decreases |fields|
  {
    if fields == [] then [] else Print(Text(fields[0].0, fields[0].1)) + Texts(fields[1..])
  }

  lemma {:induction false} PrintFields(fields: seq<(string, seq<Byte>)>, tail: seq<Item>)
    requires AllWordy(fields)
    ensures Print(Fields(fields, tail)) == Texts(fields) + Print(tail)
    decreases |fields|
  {
    hide Print, Text;
    if fields != [] {
      PrintFields(fields[1..], tail);
      PrintConcat(Text(fields[0].0, fields[0].1), Fields(fields[1..], tail));
    }
  }

  lemma TextsCons(field: (string, seq<Byte>), rest: seq<(string, seq<Byte>)>)
    requires Wordy(field.0) && AllWordy(rest)
    ensures AllWordy([field] + rest) && Texts([field] + rest) == Print(Text(field.0, field.1)) + Texts(rest)
  {
    hide Print, Text, Wordy;
    assert ([field] + rest)[1..] == rest;
  }

  lemma EntryTexts(e: Entry)
    ensures Texts(TextFields(e)) == FirstTexts(e) + LastTexts(e)
  {
    hide Print, Text, KindName, StateName, Texts, Wordy;
    var f := TextFields(e);
    var f5: seq<(string, seq<Byte>)> := [f[5]] + [];
    var f4 := [f[4]] + f5;
    var f3 := [f[3]] + f4;
    var f2 := [f[2]] + f3;
    var f1 := [f[1]] + f2;
    assert f == [f[0]] + f1;
    TextsNone();
    TextsCons(f[5], []);
    TextsCons(f[4], f5);
    TextsCons(f[3], f4);
    TextsCons(f[2], f3);
    TextsCons(f[1], f2);
    TextsCons(f[0], f1);
  }

  lemma TextsNone()
    ensures Texts([]) == []
  {
  }

  lemma EntryNumbers(e: Entry)
    ensures Print(NumberItems(e)) == FirstNumbers(e) + LastNumbers(e) + [125]
  {
    hide Print, Number, PrintItem;
    var chars := |e.summary| + |e.detail|;
    var a, b := Number("created_turn", e.createdTurn, 44), Number("updated_turn", e.updatedTurn, 44);
    var c, d, last := Number("chars", chars, 44), Number("estimated_tokens", EstimateTokens(chars), 125), [Raw([125])];
    PrintConcat(a, b + (c + (d + last)));
    PrintConcat(b, c + (d + last));
    PrintConcat(c, d + last);
    PrintConcat(d, last);
    PrintLast();
  }

  lemma PrintLast()
    ensures Print([Raw([125])]) == [125]
  {
    assert [Raw([125])][1..] == [];
  }

  /** The reply's pieces make up the printed items. */
  lemma ReplyPrinted(e: Entry)
    ensures Opening() + EntryJson(e) + [125] == Print(ReplyItems(e))
  {
    hide Print, PrintItem, Fields, NumberItems, TextFields, FirstTexts, LastTexts, FirstNumbers, LastNumbers, Ascii;
    var body := Fields(TextFields(e), NumberItems(e));
    PrintFields(TextFields(e), NumberItems(e));
    EntryTexts(e);
    EntryNumbers(e);
    var i4 := [Raw(Ascii("{"))] + body;
    var i3 := [Key(Ascii("entry"))] + i4;
    var i2 := [Raw(Ascii("true,"))] + i3;
    var i1 := [Key(Ascii("ok"))] + i2;
    PrintCons(Raw(Ascii("{")), body);
    PrintCons(Key(Ascii("entry")), i4);
    PrintCons(Raw(Ascii("true,")), i3);
    PrintCons(Key(Ascii("ok")), i2);
    PrintCons(Raw(Ascii("{")), i1);
    OpeningPieces();
    Brace();
  }

  lemma Brace()
    ensures PrintItem(Raw(Ascii("{"))) == [123]
  {
  }

  lemma AsciiConcat(a: string, b: string)
    requires forall i :: 0 <= i < |a| ==> a[i] < '\U{80}'
    requires forall i :: 0 <= i < |b| ==> b[i] < '\U{80}'
    ensures Ascii(a + b) == Ascii(a) + Ascii(b)
  {
  }

  lemma Quoted(name: string)
    requires Wordy(name)
    ensures Ascii("\"" + name + "\":") == PrintItem(Key(Ascii(name)))
  {
  }

  lemma OpeningText()
    ensures "{\"ok\":true,\"entry\":" == "{" + ("\"" + "ok" + "\":") + "true," + ("\"" + "entry" + "\":")
  {
    assert "\"" + "entry" + "\":" == "\"entry\":";
    assert "{" + ("\"" + "ok" + "\":") + "true," == "{\"ok\":true,";
  }

  lemma OpeningPieces()
    ensures Opening() == PrintItem(Raw(Ascii("{"))) + PrintItem(Key(Ascii("ok"))) + PrintItem(Raw(Ascii("true,")))
                         + PrintItem(Key(Ascii("entry")))
  {
    hide Ascii;
    Quoted("ok");
    Quoted("entry");
    OpeningText();
    FourParts("{", "\"" + "ok" + "\":", "true,", "\"" + "entry" + "\":");
  }

  lemma FourParts(a: string, b: string, c: string, d: string)
    requires forall i :: 0 <= i < |a + b + c + d| ==> (a + b + c + d)[i] < '\U{80}'
    ensures forall i :: 0 <= i < |a| ==> a[i] < '\U{80}'
    ensures forall i :: 0 <= i < |b| ==> b[i] < '\U{80}'
    ensures forall i :: 0 <= i < |c| ==> c[i] < '\U{80}'
    ensures forall i :: 0 <= i < |d| ==> d[i] < '\U{80}'
    ensures Ascii(a + b + c + d) == Ascii(a) + Ascii(b) + Ascii(c) + Ascii(d)
  {
    hide Ascii;
    var t := a + b + c + d;
    assert forall i :: 0 <= i < |a| ==> a[i] == t[i];
    assert forall i :: 0 <= i < |b| ==> b[i] == t[|a| + i];
    assert forall i :: 0 <= i < |c| ==> c[i] == t[|a| + |b| + i];
    assert forall i :: 0 <= i < |d| ==> d[i] == t[|a| + |b| + |c| + i];
    AsciiConcat(a, b);
    AsciiConcat(a + b, c);
    AsciiConcat(a + b + c, d);
  }

  function NotFound(): seq<Byte> {
    Ascii("{\"ok\":false,\"error\":") + Ascii("{\"code\":\"unknown_memory_id\",")
    + Ascii("\"message\":\"memory entry was ")
    + Ascii("not found\"}}")
  }

  /** The first slot with this identifier, or the number of slots. */
  function SlotOf(slots: seq<Entry>, id: seq<Byte>): (k: nat)
    ensures k <= |slots| && (k < |slots| ==> slots[k].id == id) && forall i :: 0 <= i < k ==> slots[i].id != id
    decreases |slots|
  {
    if slots == [] || slots[0].id == id then 0 else 1 + SlotOf(slots[1..], id)
  }

  /** `slot_from_id`. */
  method SlotFromId(m: Memory, id: seq<Byte>) returns (k: nat)
    requires m.Valid()
    ensures k == SlotOf(m.slots, id)
  {
    k := 0;
    while k < SLOT_COUNT
      invariant k <= SLOT_COUNT && forall i :: 0 <= i < k ==> m.slots[i].id != id
    {
      if m.slots[k].id == id {
        return;
      }
      k := k + 1;
    }
  }

  /** The reply in the order of writing. */
  function ReplyPieces(e: Entry): seq<Piece> {
    [Plain(Opening())] + EntryPieces(e, true) + [Plain([125])]
  }

  lemma ReplyWhole(e: Entry)
    ensures Whole(ReplyPieces(e)) == Print(ReplyItems(e))
  {
    hide Whole, EntryPieces, Print, ReplyItems, EntryJson;
    WholeAppend([Plain(Opening())] + EntryPieces(e, true), [Plain([125])]);
    WholeAppend([Plain(Opening())], EntryPieces(e, true));
    WholeOne(Plain(Opening()));
    WholeOne(Plain([125]));
    EntryWhole(e);
    ReplyPrinted(e);
  }

  /** The pieces written in reply to `id`. */
  function Reply(slots: seq<Entry>, id: seq<Byte>): seq<Piece> {
    var k := SlotOf(slots, id);
    if k < |slots| then ReplyPieces(slots[k]) else [Plain(NotFound())]
  }

  /** `build_read_memory_json`: what is written, also when it does not fit. */
  method BuildReadMemoryJson(m: Memory, id: seq<Byte>, out: array<Byte>) returns (n: nat)
    requires m.Valid()
    modifies m, out
    ensures m.Valid() && m.started && m.slots == old(m.Known()) && m.turn == old(m.Turn())
    ensures n <= out.Length && out[..n] == Written(out.Length, Reply(old(m.Known()), id))
  {
    hide Stored, EntryPieces, Opening, NotFound, Written, Holds;
    m.EnsureStarted();
    var k := SlotFromId(m, id);
    StartsEmpty(out, 0);
    if k == SLOT_COUNT {
      n := PutPlain(out, 0, NotFound(), [], []);
      assert [] + [Plain(NotFound())] == [Plain(NotFound())];
      HoldsMeans(out, n, [], [Plain(NotFound())]);
      return;
    }
    ghost var opening := [Plain(Opening())];
    assert [] + opening == opening;
    n := PutPlain(out, 0, Opening(), [], []);
    n := PutEntry(out, n, m.slots[k], opening);
    n := PutPlain(out, n, [125], [], opening + EntryPieces(m.slots[k], true));
    HoldsMeans(out, n, [], ReplyPieces(m.slots[k]));
  }

  method PutEntry(out: array<Byte>, idx: nat, e: Entry, ghost ps: seq<Piece>) returns (end: nat)
    requires idx <= out.Length && Holds(out, idx, [], ps)
    modifies out
    ensures end <= out.Length && Holds(out, end, [], ps + EntryPieces(e, true))
  {
    hide EntryPieces, Written;
    WrittenAppend(out.Length, ps, EntryPieces(e, true));
    end := AppendEntryJson(out, idx, e, true);
  }

  lemma {:induction false} EscapeLength(src: seq<Byte>)
    ensures |Escape(src)| <= 6 * |src|
    decreases |src|
  {
    hide SeqLen;
    if src != [] {
      EscapeLength(src[Unit(src).1..]);
    }
  }

  function Ten(k: nat): nat {
    if k == 0 then 1 else 10 * Ten(k - 1)
  }

  lemma {:induction false} DecimalLength(n: nat, k: nat)
    requires 0 < k && n < Ten(k)
    ensures |Decimal(n)| <= k
    decreases k
  {
    if n >= 10 {
      DecimalLength(n / 10, k - 1);
    }
  }

  lemma TextLength(name: string, value: seq<Byte>)
    requires Wordy(name)
    ensures |Print(Text(name, value))| == |name| + |Escape(value)| + 6 <= |name| + 6 * |value| + 6
  {
    hide Escape, Print, Text;
    PrintText(name, value);
    EscapeLength(value);
  }

  lemma NumberLength(name: string, value: nat, close: Byte)
    requires Wordy(name) && value < 100_000
    ensures |Print(Number(name, value, close))| <= |name| + 9
  {
    hide Decimal, Print, Number;
    PrintNumber(name, value, close);
    assert Ten(5) == 100_000;
    DecimalLength(value, 5);
  }

  /** The tool's result buffer, and the console's. */
  const TOOL_BUFFER: nat := 8192
  const CONSOLE_BUFFER: nat := 2048

  /** Every entry that can be stored has a reply that fits the tool's buffer. */
  lemma ReplyFits(e: Entry)
    requires Stored(e)
    ensures |Print(ReplyItems(e))| <= TOOL_BUFFER
  {
    hide Print, ReplyItems, Text, Number, Ascii, WellFormed, Escape;
    ReplyPrinted(e);
    TextsLength(e);
    var chars := |e.summary| + |e.detail|;
    NumberLength("created_turn", e.createdTurn, 44);
    NumberLength("updated_turn", e.updatedTurn, 44);
    NumberLength("chars", chars, 44);
    NumberLength("estimated_tokens", EstimateTokens(chars), 125);
    OpeningLength();
  }

  lemma TextsLength(e: Entry)
    requires Stored(e)
    ensures |FirstTexts(e)| + |LastTexts(e)| <= 7000
  {
    hide Print, Text, WellFormed, Escape, KindName, StateName;
    NamesWellFormed(e);
    TextLength("id", e.id);
    TextLength("kind", KindName(e.kind));
    TextLength("summary", e.summary);
    TextLength("detail", e.detail);
    TextLength("source", e.source);
    TextLength("state", StateName(e.state));
  }

  lemma OpeningLength()
    ensures |Opening()| <= 20
  {
  }

  /** Whatever was stored, the reply in the tool's buffer is read back exactly, and so is any other reply that fits
      its buffer. */
  method ReadBack(m: Memory, id: seq<Byte>, key: string, out: array<Byte>, field: array<Byte>) returns (r: Option<nat>)
    requires m.Valid() && out != field && field.Length >= DETAIL_MAX
    requires key == "summary" || key == "detail" || key == "source"
    modifies m, out, field
    ensures m.Valid() && m.started && m.slots == old(m.Known()) && m.turn == old(m.Turn())
    ensures var k := SlotOf(old(m.Known()), id);
            k < SLOT_COUNT && (out.Length >= TOOL_BUFFER || |Print(ReplyItems(old(m.Known())[k]))| <= out.Length) ==>
              r.Some? && r.value <= field.Length && field[..r.value] == FieldOf(old(m.Known())[k], key)
  {
    hide Print, ReplyItems, ReplyPieces, NotFound, Ascii, Extract, KindName, StateName, Written, Whole, Bounded;
    var n := BuildReadMemoryJson(m, id, out);
    ghost var k := SlotOf(m.slots, id);
    if k < SLOT_COUNT {
      ghost var e := m.slots[k];
      ReplyFits(e);
      ReplyWhole(e);
      if |Print(ReplyItems(e))| <= out.Length {
        WrittenFits(out.Length, ReplyPieces(e));
        ReadMemoryRoundTrip(e, key, field.Length);
      }
    }
    r := ExtractString(out[..n], Ascii(key), field);
  }

  /** An entry whose detail is all control characters. */
  function Controls(): Entry {
    Entry(Task, Derived, SlotId(0), [], [], seq(DETAIL_MAX, _ => 1), 1, 1)
  }

  lemma {:induction false} ControlsEscape(n: nat)
    ensures |Escape(seq(n, _ => 1))| == 6 * n && WellFormed(seq(n, _ => 1))
  {
    var s: seq<Byte> := seq(n, _ => 1);
    if n > 0 {
      assert s[1..] == seq(n - 1, _ => 1);
      ControlsEscape(n - 1);
    }
  }

  /** It happens: an entry that can be stored has a reply that does not fit the console's buffer. */
  lemma ConsoleReplyCut()
    ensures Stored(Controls()) && |Print(ReplyItems(Controls()))| > CONSOLE_BUFFER
    ensures |Written(CONSOLE_BUFFER, ReplyPieces(Controls()))| < |Print(ReplyItems(Controls()))|
  {
    hide Print, ReplyItems, Text, Number, Escape, WellFormed, Written, ReplyPieces;
    var e := Controls();
    ReplyPrinted(e);
    ControlsEscape(DETAIL_MAX);
    TextLength("detail", e.detail);
    AsciiText("mem-task");
    AsciiWellFormed([]);
  }
}
