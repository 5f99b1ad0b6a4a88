/** When reading a string body yields well-formed UTF-8: exactly, for every body and every output size. */
module JsonDecoding {
  import opened Words
  import opened Utf8
  import opened Json
  import opened JsonCodec
  import opened Options

  /** A part of a string body that is read in one step: the bytes it stands for, and its length. */
  datatype Piece = Piece(bytes: seq<Byte>, length: nat)

  function Token(s: seq<Byte>): Option<Piece>
    requires s != [] && s[0] != QUOTE
  {
    if s[0] != BACKSLASH then Some(Piece([s[0]], 1))
    else if |s| == 1 then None
    else if s[1] != LETTER_U then Some(Piece([Unescaped(s[1])], 2))
    else
      match Point(s)
      case None => None
      case Some(cp) => Some(Piece(EncodePoint(cp), 6))
  }

  lemma TokenShape(s: seq<Byte>)
    requires s != [] && s[0] != QUOTE
    ensures Token(s).Some? ==> 0 < Token(s).value.length <= |s| && Token(s).value.bytes != []
  {
  }

  /** The code point named by a `\u` escape. */
  function Point(s: seq<Byte>): (cp: Option<nat>)
    ensures cp.Some? ==> |s| >= 6 && cp.value <= 0xffff
  {
    if |s| < 6 || s[0] != BACKSLASH || s[1] != LETTER_U then None
    else
      var (a, b, c, d) := (HexNibble(s[2]), HexNibble(s[3]), HexNibble(s[4]), HexNibble(s[5]));
      if a == None || b == None || c == None || d == None then None
      else Some(a.value * 4096 + b.value * 256 + c.value * 16 + d.value)
  }

  predicate Surrogate(cp: nat) {
    0xd800 <= cp <= 0xdfff
  }

  lemma ReadToken(s: seq<Byte>, acc: seq<Byte>, cap: nat)
    requires s != [] && s[0] != QUOTE
    ensures Token(s).Some? ==> Token(s).value.length <= |s|
    ensures ReadString(s, acc, cap) ==
            match Token(s)
            case None => None
            case Some(t) => ReadString(s[t.length..], Put(acc, t.bytes, cap), cap)
  {
  }

  /** The text of a string body, up to its closing quote. */
  function Body(s: seq<Byte>): seq<Byte>
    decreases |s|
  {
    if s == [] || s[0] == QUOTE then []
    else
      TokenShape(s);
      match Token(s)
      case None => s
      case Some(t) => s[..t.length] + Body(s[t.length..])
  }

  /** Reading `s` into `room` bytes leaves ill-formed text: some `\u` escape that fits names a surrogate, or a
      character that stands for itself meets a room that is not empty and too small for it. */
  predicate Broken(s: seq<Byte>, room: nat)
    decreases |s|
  {
    if s == [] || s[0] == QUOTE then false
    else if s[0] != BACKSLASH then
      var n := if SeqLen(s) == 0 then 1 else SeqLen(s);
      if n <= room then Broken(s[n..], room - n) else room > 0
    else
      TokenShape(s);
      match Token(s)
      case None => false
      case Some(t) =>
        if s[1] >= 0x80 then Broken(s[1..], room)
        else if |t.bytes| > room then Broken(s[t.length..], room)
        else (Point(s).Some? && Surrogate(Point(s).value)) || Broken(s[t.length..], room - |t.bytes|)
  }

  lemma {:induction false} WellFormedAfter(a: seq<Byte>, b: seq<Byte>)
    requires WellFormed(a)
    ensures WellFormed(a + b) <==> WellFormed(b)
    decreases |a|
  {
    hide SeqLen;
    if a == [] {
      assert a + b == b;
    } else {
      var k := SeqLen(a);
      SeqLenLocal(a, a + b);
      WellFormedAfter(a[k..], b);
      assert (a + b)[k..] == a[k..] + b;
    }
  }

  /** What has been read stays in front. */
  lemma {:induction false} ReadExtends(s: seq<Byte>, acc: seq<Byte>, cap: nat)
    ensures ReadString(s, acc, cap).Some? ==> acc <= ReadString(s, acc, cap).value
    decreases |s|
  {
    hide Token, ReadString;
    if s == [] || s[0] == QUOTE {
      ReadOver(s, acc, cap);
    } else {
      ReadToken(s, acc, cap);
      if Token(s).Some? {
        TokenShape(s);
        var t := Token(s).value;
        ReadExtends(s[t.length..], Put(acc, t.bytes, cap), cap);
      }
    }
  }

  lemma ReadOver(s: seq<Byte>, acc: seq<Byte>, cap: nat)
    requires s == [] || s[0] == QUOTE
    ensures ReadString(s, acc, cap) == if s == [] then None else Some(acc)
  {
  }

  /** A full output stays as it is. */
  lemma {:induction false} FullStays(s: seq<Byte>, acc: seq<Byte>, cap: nat)
    requires |acc| == cap
    ensures ReadString(s, acc, cap).Some? ==> ReadString(s, acc, cap).value == acc
    decreases |s|
  {
    hide Token, ReadString;
    if s == [] || s[0] == QUOTE {
      ReadOver(s, acc, cap);
    } else {
      ReadToken(s, acc, cap);
      if Token(s).Some? {
        TokenShape(s);
        FullStays(s[Token(s).value.length..], acc, cap);
      }
    }
  }

  predicate Plain(s: seq<Byte>, n: nat)
    requires n <= |s|
  {
    forall i :: 0 <= i < n ==> s[i] != QUOTE && s[i] != BACKSLASH
  }

  lemma {:induction false} BodyPlain(s: seq<Byte>, n: nat)
    requires n <= |s| && Plain(s, n)
    ensures Body(s) == s[..n] + Body(s[n..])
    decreases n
  {
    hide Body;
    if n == 0 {
      assert s[0..] == s;
    } else {
      BodyPlain(s[1..], n - 1);
      assert s[1..][n - 1..] == s[n..] && s[..n] == [s[0]] + s[1..][..n - 1];
      OnePlain(s);
    }
  }

  lemma OnePlain(s: seq<Byte>)
    requires s != [] && s[0] != QUOTE && s[0] != BACKSLASH
    ensures Body(s) == [s[0]] + Body(s[1..])
  {
    assert s[..1] == [s[0]];
  }

  lemma {:induction false} BodyPrefix(s: seq<Byte>)
    ensures Body(s) <= s
    decreases |s|
  {
    hide Token;
    if s != [] && s[0] != QUOTE && Token(s).Some? {
      TokenShape(s);
      BodyPrefix(s[Token(s).value.length..]);
    }
  }

  /** The first character of a well-formed body that stands for itself. */
  lemma PlainChar(s: seq<Byte>)
    requires s != [] && s[0] != QUOTE && s[0] != BACKSLASH && WellFormed(Body(s))
    ensures var k := SeqLen(s);
            0 < k && Plain(s, k) && WellFormed(s[..k]) && Body(s) == s[..k] + Body(s[k..]) && WellFormed(Body(s[k..]))
  {
    hide SeqLen, WellFormed, Body;
    PlainLength(s);
    var k := SeqLen(s);
    SeqLenShape(s);
    BodyPlain(s, k);
    OneChar(s);
    WellFormedAfter(s[..k], Body(s[k..]));
  }

  /** The string's own part of the text starts with that character. */
  lemma PlainLength(s: seq<Byte>)
    requires s != [] && s[0] != QUOTE && s[0] != BACKSLASH && WellFormed(Body(s))
    ensures SeqLen(Body(s)) == SeqLen(s) > 0 && SeqLen(s) <= |Body(s)| && Body(s) <= s
  {
    hide SeqLen, WellFormed, Body;
    OnePlain(s);
    BodyPrefix(s);
    FirstChar(Body(s));
    SeqLenLocal(Body(s), s);
    SeqLenShape(s);
  }

  lemma FirstChar(b: seq<Byte>)
    ensures WellFormed(b) && b != [] ==> SeqLen(b) > 0
  {
  }

  lemma OneChar(s: seq<Byte>)
    requires SeqLen(s) > 0
    ensures WellFormed(s[..SeqLen(s)]) && SeqLen(s[..SeqLen(s)]) == SeqLen(s)
  {
    hide SeqLen;
    var k := SeqLen(s);
    SeqLenLocal(s, s[..k]);
    assert s[..k][k..] == [];
  }

  /** A cut inside a character leaves no character. */
  lemma CutChar(s: seq<Byte>, r: nat)
    requires 0 < r < SeqLen(s)
    ensures !WellFormed(s[..r])
  {
    hide SeqLen;
    FirstChar(s[..r]);
    if SeqLen(s[..r]) > 0 {
      SeqLenLocal(s[..r], s);
    }
  }

  /** The iff for the step that reads a character standing for itself. */
  lemma PlainStep(s: seq<Byte>, acc: seq<Byte>, cap: nat)
    requires s != [] && s[0] != QUOTE && s[0] != BACKSLASH && WellFormed(Body(s))
    requires WellFormed(acc) && |acc| <= cap && ReadString(s, acc, cap).Some?
    ensures var k := SeqLen(s);
            && 0 < k && WellFormed(Body(s[k..]))
            && (k <= cap - |acc| ==>
                  ReadString(s, acc, cap) == ReadString(s[k..], acc + s[..k], cap) && WellFormed(acc + s[..k]))
            && (k > cap - |acc| ==> (WellFormed(ReadString(s, acc, cap).value) <==> cap == |acc|))
  {
    hide SeqLen, WellFormed, ReadString, Body;
    PlainChar(s);
    var k, room := SeqLen(s), cap - |acc|;
    WellFormedAfter(acc, s[..k]);
    if k <= room {
      assert s == s[..k] + s[k..];
      ReadPlain(s[..k], s[k..], acc, cap);
    } else {
      assert s == s[..room] + s[room..];
      ReadPlain(s[..room], s[room..], acc, cap);
      FullStays(s[room..], acc + s[..room], cap);
      if room > 0 {
        CutChar(s, room);
        WellFormedAfter(acc, s[..room]);
      } else {
        assert acc + s[..room] == acc;
      }
    }
  }

  /** A backslash before a byte of a longer character adds nothing. */
  lemma LongEscape(s: seq<Byte>, acc: seq<Byte>, cap: nat)
    requires |s| >= 2 && s[0] == BACKSLASH && s[1] >= 0x80 && WellFormed(Body(s))
    ensures ReadString(s, acc, cap) == ReadString(s[1..], acc, cap) && WellFormed(Body(s[1..]))
  {
    hide SeqLen, WellFormed;
    assert s[1..][1..] == s[2..] && s[..2] == [BACKSLASH] + [s[1]];
    OnePlain(s[1..]);
    assert Body(s) == [BACKSLASH] + Body(s[1..]);
    AsciiWellFormed([BACKSLASH]);
    WellFormedAfter([BACKSLASH], Body(s[1..]));
  }

  /** An escape in ASCII: what it stands for is well-formed unless it names a surrogate. */
  lemma AsciiEscape(s: seq<Byte>)
    requires |s| >= 2 && s[0] == BACKSLASH && s[1] < 0x80 && Token(s).Some? && WellFormed(Body(s))
    ensures var t := Token(s).value;
            && 0 < t.length <= |s| && WellFormed(Body(s[t.length..]))
            && (Point(s).Some? && Surrogate(Point(s).value) ==> forall y :: !WellFormed(t.bytes + y))
            && (!(Point(s).Some? && Surrogate(Point(s).value)) ==> WellFormed(t.bytes))
  {
    hide SeqLen, WellFormed, Body;
    var t := Token(s).value;
    TokenShape(s);
    BodyStep(s);
    EscapeBytes(s);
    AsciiWellFormed(s[..t.length]);
    WellFormedAfter(s[..t.length], Body(s[t.length..]));
    if Point(s).Some? {
      PointEncoded(Point(s).value);
    } else {
      AsciiWellFormed(t.bytes);
    }
  }

  lemma BodyStep(s: seq<Byte>)
    requires s != [] && s[0] != QUOTE && Token(s).Some?
    ensures Token(s).value.length <= |s|
    ensures Body(s) == s[..Token(s).value.length] + Body(s[Token(s).value.length..])
  {
    hide Token;
    TokenShape(s);
  }

  lemma EscapeBytes(s: seq<Byte>)
    requires |s| >= 2 && s[0] == BACKSLASH && s[1] < 0x80 && Token(s).Some?
    ensures var t := Token(s).value;
            && t.length <= |s| && (forall i :: 0 <= i < t.length ==> s[i] <= 0x7f)
            && (Point(s).Some? ==> t.bytes == EncodePoint(Point(s).value))
            && (Point(s).None? ==> forall i :: 0 <= i < |t.bytes| ==> t.bytes[i] <= 0x7f)
  {
  }

  lemma PointEncoded(cp: nat)
    requires cp <= 0xffff
    ensures Surrogate(cp) ==> forall y :: !WellFormed(EncodePoint(cp) + y)
    ensures !Surrogate(cp) ==> WellFormed(EncodePoint(cp))
  {
    EncodePointWellFormedIff(cp);
    if Surrogate(cp) {
      forall y ensures !WellFormed(EncodePoint(cp) + y) {
        SurrogateHead(cp, y);
      }
    }
  }

  lemma SurrogateHead(cp: nat, y: seq<Byte>)
    requires Surrogate(cp)
    ensures !WellFormed(EncodePoint(cp) + y)
  {
    var e := EncodePoint(cp) + y;
    assert e[0] == 0xed && e[1] >= 0xa0;
    assert SeqLen(e) == 0;
  }

  /** The exact condition, for every well-formed body and every output size. */
  lemma {:induction false} ReadsWellFormedIff(s: seq<Byte>, acc: seq<Byte>, cap: nat)
    requires WellFormed(acc) && |acc| <= cap && WellFormed(Body(s)) && ReadString(s, acc, cap).Some?
    ensures WellFormed(ReadString(s, acc, cap).value) <==> !Broken(s, cap - |acc|)
    decreases |s|
  {
    hide SeqLen, WellFormed, Token, Body, ReadString, Point, Surrogate;
    if s == [] || s[0] == QUOTE {
      ReadOver(s, acc, cap);
    } else if s[0] != BACKSLASH {
      PlainStep(s, acc, cap);
      var k := SeqLen(s);
      if k <= cap - |acc| {
        ReadsWellFormedIff(s[k..], acc + s[..k], cap);
      }
    } else {
      ReadToken(s, acc, cap);
      TwoBytes(s);
      var t := Token(s).value;
      if s[1] >= 0x80 {
        LongEscape(s, acc, cap);
        ReadsWellFormedIff(s[1..], acc, cap);
      } else {
        AsciiEscape(s);
        if |t.bytes| > cap - |acc| {
          ReadsWellFormedIff(s[t.length..], acc, cap);
        } else if Point(s).Some? && Surrogate(Point(s).value) {
          SurrogateRead(s, acc, cap);
        } else {
          WellFormedAfter(acc, t.bytes);
          ReadsWellFormedIff(s[t.length..], acc + t.bytes, cap);
        }
      }
    }
  }

  lemma TwoBytes(s: seq<Byte>)
    requires s != [] && s[0] == BACKSLASH && Token(s).Some?
    ensures |s| >= 2
  {
  }

  lemma SurrogateRead(s: seq<Byte>, acc: seq<Byte>, cap: nat)
    requires |s| >= 2 && s[0] == BACKSLASH && s[1] < 0x80 && Token(s).Some? && WellFormed(Body(s)) && WellFormed(acc)
    requires Point(s).Some? && Surrogate(Point(s).value) && |acc| + |Token(s).value.bytes| <= cap
    requires ReadString(s, acc, cap).Some?
    ensures !WellFormed(ReadString(s, acc, cap).value)
  {
    hide SeqLen, WellFormed, Token, Body, ReadString, Point, Surrogate;
    var t := Token(s).value;
    AsciiEscape(s);
    ReadToken(s, acc, cap);
    ReadExtends(s[t.length..], acc + t.bytes, cap);
    var v := ReadString(s, acc, cap).value;
    var y := v[|acc + t.bytes|..];
    assert v == acc + (t.bytes + y);
    WellFormedAfter(acc, t.bytes + y);
  }

  /** How many bytes a string body stands for. */
  function DecodedLength(s: seq<Byte>): nat
    decreases |s|
  {
    if s == [] || s[0] == QUOTE || Token(s).None? then 0
    else TokenShape(s); |Token(s).value.bytes| + DecodedLength(s[Token(s).value.length..])
  }

  /** Some `\u` escape of the body names a surrogate. */
  predicate NamesSurrogate(s: seq<Byte>)
    decreases |s|
  {
    if s == [] || s[0] == QUOTE || Token(s).None? then false
    else
      TokenShape(s);
      (Point(s).Some? && Surrogate(Point(s).value)) || NamesSurrogate(s[Token(s).value.length..])
  }

  lemma {:induction false} PlainCounts(s: seq<Byte>, n: nat)
    requires n <= |s| && Plain(s, n)
    ensures DecodedLength(s) == n + DecodedLength(s[n..]) && NamesSurrogate(s) == NamesSurrogate(s[n..])
    decreases n
  {
    hide DecodedLength, NamesSurrogate;
    if n == 0 {
      assert s[0..] == s;
    } else {
      PlainCounts(s[1..], n - 1);
      assert s[1..][n - 1..] == s[n..];
      OnePlainCounts(s);
    }
  }

  lemma OnePlainCounts(s: seq<Byte>)
    requires s != [] && s[0] != QUOTE && s[0] != BACKSLASH
    ensures DecodedLength(s) == 1 + DecodedLength(s[1..]) && NamesSurrogate(s) == NamesSurrogate(s[1..])
  {
    assert Token(s) == Some(Piece([s[0]], 1)) && Point(s).None?;
  }

  lemma LongEscapeCounts(s: seq<Byte>)
    requires |s| >= 2 && s[0] == BACKSLASH && s[1] >= 0x80
    ensures DecodedLength(s) == DecodedLength(s[1..]) && NamesSurrogate(s) == NamesSurrogate(s[1..])
  {
    hide DecodedLength, NamesSurrogate;
    assert s[1..][1..] == s[2..];
    OnePlainCounts(s[1..]);
    EscapeCounts(s);
    assert Token(s) == Some(Piece([s[1]], 2)) && Point(s).None?;
  }

  lemma EscapeCounts(s: seq<Byte>)
    requires s != [] && s[0] != QUOTE && Token(s).Some?
    ensures var t := Token(s).value;
            && t.length <= |s|
            && DecodedLength(s) == |t.bytes| + DecodedLength(s[t.length..])
            && NamesSurrogate(s) ==
               ((Point(s).Some? && Surrogate(Point(s).value)) || NamesSurrogate(s[t.length..]))
  {
    hide Token, Point, Surrogate;
    TokenShape(s);
  }

  /** With room for everything, only surrogates break the text. */
  lemma {:induction false} RoomyBroken(s: seq<Byte>, room: nat)
    requires WellFormed(Body(s)) && DecodedLength(s) <= room
    ensures Broken(s, room) == NamesSurrogate(s)
    decreases |s|
  {
    hide SeqLen, WellFormed, Token, Body, Point, Surrogate, DecodedLength, NamesSurrogate;
    if s == [] || s[0] == QUOTE {
      NothingCounts(s);
    } else if s[0] != BACKSLASH {
      PlainChar(s);
      PlainCounts(s, SeqLen(s));
      RoomyBroken(s[SeqLen(s)..], room - SeqLen(s));
    } else if Token(s).None? {
      NothingCounts(s);
    } else {
      TwoBytes(s);
      EscapeCounts(s);
      if s[1] >= 0x80 {
        LongEscapeCounts(s);
        BodyOfLongEscape(s);
        RoomyBroken(s[1..], room);
      } else {
        AsciiEscape(s);
        RoomyBroken(s[Token(s).value.length..], room - |Token(s).value.bytes|);
      }
    }
  }

  lemma BodyOfLongEscape(s: seq<Byte>)
    requires |s| >= 2 && s[0] == BACKSLASH && s[1] >= 0x80 && WellFormed(Body(s))
    ensures WellFormed(Body(s[1..]))
  {
    LongEscape(s, [], 0);
  }

  lemma NothingCounts(s: seq<Byte>)
    requires s == [] || s[0] == QUOTE || Token(s).None?
    ensures DecodedLength(s) == 0 && !NamesSurrogate(s)
  {
  }

  /** What is read out of a well-formed body that fits the output is well-formed if and only if no escape names
      a surrogate. */
  lemma FittingReadIff(s: seq<Byte>, cap: nat)
    requires WellFormed(Body(s)) && DecodedLength(s) <= cap && ReadString(s, [], cap).Some?
    ensures WellFormed(ReadString(s, [], cap).value) <==> !NamesSurrogate(s)
  {
    hide Broken, Body, ReadString, NamesSurrogate, DecodedLength;
    ReadsWellFormedIff(s, [], cap);
    RoomyBroken(s, cap);
  }

  /** It happens without any escape: a three-byte character read into two bytes is cut. */
  lemma CutCharacterRead()
    ensures var s := [0xe2, 0x82, 0xac, QUOTE];
            && WellFormed(Body(s)) && ReadString(s, [], 2) == Some([0xe2, 0x82])
            && !WellFormed([0xe2, 0x82])
  {
    hide ReadString, Body;
    var s := [0xe2, 0x82, 0xac, QUOTE];
    BodyPlain(s, 3);
    assert s[..3] == [0xe2, 0x82, 0xac] && s[3..] == [QUOTE] && s[2..] == [0xac, QUOTE] && s[..2] == [0xe2, 0x82];
    assert Body([QUOTE]) == [] by { BodyOver([QUOTE]); }
    assert s[..3][3..] == [];
    assert s == s[..2] + s[2..];
    ReadPlain(s[..2], s[2..], [], 2);
    assert [] + s[..2] == [0xe2, 0x82];
    assert ReadString(s, [], 2) == ReadString(s[2..], [0xe2, 0x82], 2);
    ReadToken(s[2..], [0xe2, 0x82], 2);
    assert Token(s[2..]) == Some(Piece([0xac], 1)) && Put([0xe2, 0x82], [0xac], 2) == [0xe2, 0x82];
    assert s[2..][1..] == [QUOTE];
    ReadOver([QUOTE], [0xe2, 0x82], 2);
  }

  lemma BodyOver(s: seq<Byte>)
    requires s == [] || s[0] == QUOTE
    ensures Body(s) == []
  {
  }
}
