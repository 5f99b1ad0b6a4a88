/** The incremental HTTP response decoder as functions on values. In the body phases it is a
    machine that reads one byte at a time. */
module HttpDecoding {
  import opened Words

  type U64 = w: int | 0 <= w < 0x1_0000_0000_0000_0000

  const U64_MAX: U64 := 0xffff_ffff_ffff_ffff
  const HEADER_CAP: nat := 4096
  const CR: Byte := 13
  const LF: Byte := 10
  const SEMICOLON: Byte := 59

  datatype Phase = Header | Fixed | SizeLine | ChunkData | ChunkEnd | Done

  datatype Decoder = Decoder(
    phase: Phase,
    header: seq<Byte>,
    failed: bool,
    contentLen: U64,
    received: U64,
    remain: U64,
    size: U64,
    ext: bool,
    expectLf: bool)

  /** What the header fields say about the body. */
  datatype Head = Head(chunked: bool, contentLen: U64)

  function SatAdd(a: U64, k: nat): U64 {
    if a + k <= U64_MAX then a + k else U64_MAX
  }

  predicate IsHex(b: Byte) {
    48 <= b <= 57 || 65 <= b <= 70 || 97 <= b <= 102
  }

  function HexValue(b: Byte): (v: nat)
    requires IsHex(b)
    ensures v < 16
  {
    if b <= 57 then b - 48 else if b <= 70 then b - 55 else b - 87
  }

  /** `(size << 4) | digit` on a 64-bit word. */
  function ShiftIn(size: U64, digit: nat): U64
    requires digit < 16
  {
    (size * 16) % 0x1_0000_0000_0000_0000 + digit
  }

  function StepSizeLine(d: Decoder, b: Byte): Decoder {
    if d.expectLf then
      if b == LF then
        d.(size := 0, ext := false, expectLf := false, remain := d.size,
           phase := if d.size == 0 then Done else ChunkData)
      else d
    else if b == CR then d.(expectLf := true)
    else if d.ext then d
    else if b == SEMICOLON then d.(ext := true)
    else if IsHex(b) then d.(size := ShiftIn(d.size, HexValue(b)))
    else d
  }

  /** One body byte: the next decoder, and the bytes it emits. */
  function Step(d: Decoder, b: Byte): (Decoder, seq<Byte>) {
    match d.phase
    case Fixed =>
      if d.contentLen > 0 && d.received >= d.contentLen then (d, [])
      else
        var r := SatAdd(d.received, 1);
        (d.(received := r, phase := if d.contentLen > 0 && r >= d.contentLen then Done else Fixed), [b])
    case SizeLine => (StepSizeLine(d, b), [])
    case ChunkData =>
      if d.remain == 0 then (d, [])
      else (d.(remain := d.remain - 1, phase := if d.remain == 1 then ChunkEnd else ChunkData), [b])
    case ChunkEnd => (if b == CR then d.(phase := SizeLine) else d, [])
    case _ => (d, [])
  }

  function After(d: Decoder, data: seq<Byte>): Decoder
    decreases |data|
  {
    if data == [] then d else After(Step(d, data[0]).0, data[1..])
  }

  function Emitted(d: Decoder, data: seq<Byte>): seq<Byte>
    decreases |data|
  {
    if data == [] then [] else Step(d, data[0]).1 + Emitted(Step(d, data[0]).0, data[1..])
  }

  /** An empty line ends the header at `i`. */
  predicate EndsAt(data: seq<Byte>, i: int) {
    0 <= i && i + 3 < |data| && data[i] == CR && data[i + 1] == LF && data[i + 2] == CR && data[i + 3] == LF
  }

  /** The first header end at or after `from`, or `|data|`. */
  function FindEnd(data: seq<Byte>, from: nat): (i: nat)
    requires from <= |data|
    ensures from <= i <= |data|
    ensures i < |data| ==> EndsAt(data, i)
    ensures forall j :: from <= j < i ==> !EndsAt(data, j)
    decreases |data| - from
  {
    if from == |data| || EndsAt(data, from) then from else FindEnd(data, from + 1)
  }

  function StartBody(d: Decoder, header: seq<Byte>, head: Head): Decoder {
    d.(header := header, contentLen := head.contentLen, phase := if head.chunked then SizeLine else Fixed)
  }

  /** One call: search the header end inside these bytes only, then decode the rest as body. */
  function Feed(parse: seq<Byte> -> Head, d: Decoder, data: seq<Byte>): (Decoder, seq<Byte>) {
    if d.phase != Header || data == [] then (After(d, data), Emitted(d, data))
    else
      var e := FindEnd(data, 0);
      var n := if e < |data| then e + 4 else |data|;
      if |d.header| + n > HEADER_CAP then (d.(failed := true), [])
      else
        var h := d.header + data[..n];
        if e < |data| then
          var s := StartBody(d, h, parse(h));
          (After(s, data[n..]), Emitted(s, data[n..]))
        else (d.(header := h), [])
  }

  function Reset(): Decoder {
    Decoder(Header, [], false, 0, 0, 0, 0, false, false)
  }

  /** The size-line fields are clear while a chunk is being read, and a chunk being read is not empty. */
  predicate Clean(d: Decoder) {
    && (d.phase == ChunkData || d.phase == ChunkEnd || d.phase == Header ==> d.size == 0 && !d.ext && !d.expectLf)
    && (d.phase == ChunkData ==> d.remain > 0)
  }

  lemma StepClean(d: Decoder, b: Byte)
    requires Clean(d)
    ensures Clean(Step(d, b).0)
  {
  }

  lemma {:induction false} AfterClean(d: Decoder, data: seq<Byte>)
    requires Clean(d)
    ensures Clean(After(d, data))
    decreases |data|
  {
    if data != [] {
      StepClean(d, data[0]);
      AfterClean(Step(d, data[0]).0, data[1..]);
    }
  }

  /** Decoding body bytes does not depend on where the network cuts them. */
  lemma {:induction false} BodySplit(d: Decoder, a: seq<Byte>, b: seq<Byte>)
    ensures After(d, a + b) == After(After(d, a), b)
    ensures Emitted(d, a + b) == Emitted(d, a) + Emitted(After(d, a), b)
    decreases |a|
  {
    if a == [] {
      assert a + b == b;
    } else {
      assert (a + b)[0] == a[0] && (a + b)[1..] == a[1..] + b;
      BodySplit(Step(d, a[0]).0, a[1..], b);
    }
  }

  /** Once the decoder has left the header phase it never returns to it. */
  lemma {:induction false} StaysInBody(d: Decoder, data: seq<Byte>)
    requires d.phase != Header
    ensures After(d, data).phase != Header
    decreases |data|
  {
    if data != [] {
      StaysInBody(Step(d, data[0]).0, data[1..]);
    }
  }

  lemma {:induction false} DoneIgnores(d: Decoder, data: seq<Byte>)
    requires d.phase == Done || (d.phase == Fixed && d.contentLen > 0 && d.received >= d.contentLen)
    ensures After(d, data) == d && Emitted(d, data) == []
    decreases |data|
  {
    if data != [] {
      DoneIgnores(d, data[1..]);
    }
  }

  /** Feeding a list of pieces one call at a time. */
  function FeedAll(parse: seq<Byte> -> Head, d: Decoder, pieces: seq<seq<Byte>>): (Decoder, seq<Byte>)
    decreases |pieces|
  {
    if pieces == [] then (d, [])
    else
      var (d1, out1) := Feed(parse, d, pieces[0]);
      var (d2, out2) := FeedAll(parse, d1, pieces[1..]);
      (d2, out1 + out2)
  }

  function Concat(pieces: seq<seq<Byte>>): seq<Byte> {
    if pieces == [] then [] else pieces[0] + Concat(pieces[1..])
  }

  /** In any body phase, every partition of the input into calls gives the same result. */
  lemma {:induction false} PartitionIrrelevant(parse: seq<Byte> -> Head, d: Decoder, pieces: seq<seq<Byte>>)
    requires d.phase != Header
    ensures FeedAll(parse, d, pieces) == Feed(parse, d, Concat(pieces))
    decreases |pieces|
  {
    if pieces != [] {
      StaysInBody(d, pieces[0]);
      PartitionIrrelevant(parse, Feed(parse, d, pieces[0]).0, pieces[1..]);
      BodySplit(d, pieces[0], Concat(pieces[1..]));
    }
  }
}
