/** The agent's JSON text layer on byte sequences: escaping strings, and the scanning lookup that
    reads them back. The printer and the parser are separate code. */
module Json {
  import opened Words
  import opened Utf8
  import opened Options

  const QUOTE: Byte := 34
  const BACKSLASH: Byte := 92
  const COLON: Byte := 58
  const LETTER_U: Byte := 117
  const REPLACEMENT: seq<Byte> := [0xef, 0xbf, 0xbd]

  function HexNibble(b: Byte): Option<nat> {
    if 48 <= b <= 57 then Some(b - 48)
    else if 97 <= b <= 102 then Some(b - 87)
    else if 65 <= b <= 70 then Some(b - 55)
    else None
  }

  /** `append_utf8_codepoint`: the bytes of a code point, with no check for surrogates. */
  function EncodePoint(cp: nat): seq<Byte> {
    if cp <= 0x7f then [cp]
    else if cp <= 0x7ff then [0xc0 + cp / 64, 0x80 + cp % 64]
    else if cp <= 0xffff then [0xe0 + cp / 4096, 0x80 + cp / 64 % 64, 0x80 + cp % 64]
    else if cp <= 0x10ffff then [0xf0 + cp / 262144, 0x80 + cp / 4096 % 64, 0x80 + cp / 64 % 64, 0x80 + cp % 64]
    else []
  }

  predicate IsControl(b: Byte) {
    b <= 0x1f || b == 0x7f
  }

  /** The escape of one character: `n` bytes of `s`, or one byte that starts no character. */
  function Unit(s: seq<Byte>): (seq<Byte>, nat)
    requires s != []
  {
    var b := s[0];
    if b == QUOTE || b == BACKSLASH then ([BACKSLASH, b], 1)
    else if b == 10 then ([BACKSLASH, 110], 1)
    else if b == 13 then ([BACKSLASH, 114], 1)
    else if b == 9 then ([BACKSLASH, 116], 1)
    else if IsControl(b) then ([BACKSLASH, LETTER_U, 48, 48, HexDigit(b / 16), HexDigit(b % 16)], 1)
    else if SeqLen(s) == 0 then (REPLACEMENT, 1)
    else (s[..SeqLen(s)], SeqLen(s))
  }

  /** `src` escaped, when there is room for all of it. */
  function Escape(src: seq<Byte>): seq<Byte>
    decreases |src|
  {
    if src == [] then [] else Unit(src).0 + Escape(src[Unit(src).1..])
  }

  /** `src` with every byte that starts no well-formed character replaced. */
  function Sanitize(src: seq<Byte>): seq<Byte>
    decreases |src|
  {
    if src == [] then []
    else (if SeqLen(src) == 0 then REPLACEMENT else src[..SeqLen(src)]) + Sanitize(src[Unit(src).1..])
  }

  /** What fits: an escape that does not fit ends the text, except that a replacement that does not
      fit is skipped. */
  function EscapeInto(room: nat, src: seq<Byte>): (out: seq<Byte>)
    ensures |out| <= room
    decreases |src|
  {
    if src == [] || room == 0 then []
    else
      var (bytes, n) := Unit(src);
      if |bytes| <= room then bytes + EscapeInto(room - |bytes|, src[n..])
      else if SeqLen(src) == 0 then EscapeInto(room, src[n..])
      else []
  }

  lemma {:induction false} EscapeFits(room: nat, src: seq<Byte>)
    requires |Escape(src)| <= room
    ensures EscapeInto(room, src) == Escape(src)
    decreases |src|
  {
    hide Unit;
    if src != [] {
      UnitShape(src);
      EscapeFits(room - |Unit(src).0|, src[Unit(src).1..]);
    }
  }

  lemma UnitShape(s: seq<Byte>)
    requires s != []
    ensures 1 <= Unit(s).1 <= |s| && Unit(s).0 != []
    ensures SeqLen(s) != 0 ==> Unit(s).1 == SeqLen(s)
    ensures SeqLen(s) == 0 ==> Unit(s) == (REPLACEMENT, 1)
  {
  }

  /** Put bytes into an output buffer of `cap` bytes, or drop them when they do not fit. */
  function Put(acc: seq<Byte>, bytes: seq<Byte>, cap: nat): seq<Byte> {
    if |acc| + |bytes| <= cap then acc + bytes else acc
  }

  function Unescaped(b: Byte): Byte {
    if b == 110 then 10 else if b == 114 then 13 else if b == 116 then 9 else b
  }

  /** Read a string body up to its closing quote. */
  function ReadString(s: seq<Byte>, acc: seq<Byte>, cap: nat): Option<seq<Byte>>
    decreases |s|
  {
    if s == [] then None
    else if s[0] == QUOTE then Some(acc)
    else if s[0] != BACKSLASH then ReadString(s[1..], Put(acc, [s[0]], cap), cap)
    else if |s| == 1 then None
    else if s[1] != LETTER_U then ReadString(s[2..], Put(acc, [Unescaped(s[1])], cap), cap)
    else if |s| < 6 then None
    else
      var (a, b, c, d) := (HexNibble(s[2]), HexNibble(s[3]), HexNibble(s[4]), HexNibble(s[5]));
      if a == None || b == None || c == None || d == None then None
      else
        var cp := a.value * 4096 + b.value * 256 + c.value * 16 + d.value;
        ReadString(s[6..], Put(acc, EncodePoint(cp), cap), cap)
  }

  predicate IsSpace(b: Byte) {
    b == 32 || b == 9 || b == 13 || b == 10
  }

  function SkipSpace(s: seq<Byte>): (t: seq<Byte>)
    ensures |t| <= |s| && s[|s| - |t|..] == t
    ensures t != [] ==> !IsSpace(t[0])
  {
    if s != [] && IsSpace(s[0]) then SkipSpace(s[1..]) else s
  }

  /** `"key"`, optional space and a colon start here. */
  predicate KeyHere(s: seq<Byte>, key: seq<Byte>) {
    && |key| + 2 < |s|
    && s[0] == QUOTE && s[1..1 + |key|] == key && s[1 + |key|] == QUOTE
    && var t := SkipSpace(s[|key| + 2..]); t != [] && t[0] == COLON
  }

  /** The text after the colon of the first place that looks like the key. */
  function AfterKey(s: seq<Byte>, key: seq<Byte>): Option<seq<Byte>>
    decreases |s|
  {
    if |key| + 2 >= |s| then None
    else if KeyHere(s, key) then Some(SkipSpace(s[|key| + 2..])[1..])
    else AfterKey(s[1..], key)
  }

  /** `json_extract_string`. */
  function Extract(s: seq<Byte>, key: seq<Byte>, cap: nat): Option<seq<Byte>> {
    match AfterKey(s, key)
    case None => None
    case Some(rest) =>
      var t := SkipSpace(rest);
      if t == [] || t[0] != QUOTE then None else ReadString(t[1..], [], cap)
  }

  /** Reading one escaped character gives back the character, or the replacement for a stray byte. */
  lemma ReadUnit(s: seq<Byte>, rest: seq<Byte>, acc: seq<Byte>, cap: nat)
    requires s != []
    requires |acc| + (if SeqLen(s) == 0 then 3 else SeqLen(s)) <= cap
    ensures ReadString(Unit(s).0 + rest, acc, cap) ==
            ReadString(rest, acc + (if SeqLen(s) == 0 then REPLACEMENT else s[..SeqLen(s)]), cap)
  {
    var b, e := s[0], Unit(s).0;
    var text := e + rest;
    if b == QUOTE || b == BACKSLASH || b == 10 || b == 13 || b == 9 {
      assert text[0] == BACKSLASH && text[1] == e[1] && text[2..] == rest;
      assert s[..1] == [b];
    } else if IsControl(b) {
      ReadControl(b, rest, acc, cap);
      assert s[..1] == [b];
    } else {
      ReadPlain(e, rest, acc, cap);
    }
  }

  lemma ReadControl(b: Byte, rest: seq<Byte>, acc: seq<Byte>, cap: nat)
    requires b <= 0x7f && |acc| + 1 <= cap
    ensures ReadString([BACKSLASH, LETTER_U, 48, 48, HexDigit(b / 16), HexDigit(b % 16)] + rest, acc, cap) ==
            ReadString(rest, acc + [b], cap)
  {
    var text := [BACKSLASH, LETTER_U, 48, 48, HexDigit(b / 16), HexDigit(b % 16)] + rest;
    assert text[6..] == rest;
    assert HexNibble(text[2]) == Some(0) && HexNibble(text[3]) == Some(0);
    assert HexNibble(text[4]) == Some(b / 16) && HexNibble(text[5]) == Some(b % 16);
    assert EncodePoint(b / 16 * 16 + b % 16) == [b];
  }

  /** Bytes that are neither quotes nor backslashes are read as they are. */
  lemma {:induction false} ReadPlain(e: seq<Byte>, rest: seq<Byte>, acc: seq<Byte>, cap: nat)
    requires |acc| + |e| <= cap
    requires forall i :: 0 <= i < |e| ==> e[i] != QUOTE && e[i] != BACKSLASH
    ensures ReadString(e + rest, acc, cap) == ReadString(rest, acc + e, cap)
    decreases |e|
  {
    if e == [] {
      assert e + rest == rest && acc + e == acc;
    } else {
      assert (e + rest)[0] == e[0] && (e + rest)[1..] == e[1..] + rest;
      ReadPlain(e[1..], rest, acc + [e[0]], cap);
      assert acc + [e[0]] + e[1..] == acc + e;
    }
  }

  /** Reading an escaped string gives the sanitized original. */
  lemma {:induction false} ReadEscaped(v: seq<Byte>, rest: seq<Byte>, acc: seq<Byte>, cap: nat)
    requires |acc| + |Sanitize(v)| <= cap
    ensures ReadString(Escape(v) + [QUOTE] + rest, acc, cap) == Some(acc + Sanitize(v))
    decreases |v|
  {
    hide Unit, SeqLen, ReadString;
    if v == [] {
      assert [] + [QUOTE] + rest == [QUOTE] + rest && acc + [] == acc;
      ReadEnd(rest, acc, cap);
    } else {
      UnitShape(v);
      var n := Unit(v).1;
      var part := if SeqLen(v) == 0 then REPLACEMENT else v[..SeqLen(v)];
      var tail := Escape(v[n..]) + [QUOTE] + rest;
      assert Escape(v) + [QUOTE] + rest == Unit(v).0 + tail;
      ReadUnit(v, tail, acc, cap);
      ReadEscaped(v[n..], rest, acc + part, cap);
      assert acc + part + Sanitize(v[n..]) == acc + Sanitize(v);
    }
  }

  lemma ReadEnd(rest: seq<Byte>, acc: seq<Byte>, cap: nat)
    ensures ReadString([QUOTE] + rest, acc, cap) == Some(acc)
  {
  }

  lemma {:induction false} SanitizeGrows(v: seq<Byte>)
    ensures |Sanitize(v)| >= |v|
    ensures Sanitize(v) == v <==> WellFormed(v)
    ensures !WellFormed(v) ==> |Sanitize(v)| > |v|
    decreases |v|
  {
    hide SeqLen, Unit;
    if v != [] {
      UnitShape(v);
      var k := Unit(v).1;
      SanitizeGrows(v[k..]);
      if SeqLen(v) != 0 {
        assert v[..k] + v[k..] == v;
        assert Sanitize(v)[k..] == Sanitize(v[k..]);
      }
    }
  }

  /** Escaping then reading gives the original back exactly when it is well-formed UTF-8. */
  lemma EscapeRoundTripIff(v: seq<Byte>, rest: seq<Byte>, cap: nat)
    requires |Sanitize(v)| <= cap
    ensures ReadString(Escape(v) + [QUOTE] + rest, [], cap) == Some(v) <==> WellFormed(v)
  {
    hide ReadString, Escape, Sanitize, WellFormed;
    ReadEscaped(v, rest, [], cap);
    SanitizeGrows(v);
    assert [] + Sanitize(v) == Sanitize(v);
  }

  /** What `\u` escapes decode to is well-formed UTF-8 exactly for code points that are not surrogates. */
  lemma EncodePointWellFormedIff(cp: nat)
    ensures WellFormed(EncodePoint(cp)) <==> !(0xd800 <= cp <= 0xdfff)
  {
    var e := EncodePoint(cp);
    assert SeqLen(e) == |e| <==> !(0xd800 <= cp <= 0xdfff);
    assert SeqLen(e) == 0 || SeqLen(e) == |e|;
    assert SeqLen(e) == |e| ==> e[|e|..] == [];
  }
}
