/** Printing a body and decoding it again: chunked transfer coding (section 7.1 of RFC 9112) and
    bodies of known length. */
module HttpChunks {
  import opened Words
  import opened HttpDecoding

  /** A chunk as sent: size digits, an optional extension, and its bytes. */
  datatype Chunk = Chunk(digits: seq<Byte>, ext: seq<Byte>, data: seq<Byte>)

  /** The number written by hexadecimal digits, continuing from `start`. */
  function HexFrom(start: nat, digits: seq<Byte>): nat
    requires forall b :: b in digits ==> IsHex(b)
    decreases |digits|
  {
    if digits == [] then start else HexFrom(start * 16 + HexValue(digits[0]), digits[1..])
  }

  /** An extension is empty, or starts with ';' and contains no CR. */
  predicate IsExt(ext: seq<Byte>) {
    ext == [] || (ext[0] == SEMICOLON && CR !in ext)
  }

  /** The size digits name the chunk's length, which fits 64 bits. */
  predicate WellSized(c: Chunk) {
    && (forall b :: b in c.digits ==> IsHex(b))
    && IsExt(c.ext)
    && HexFrom(0, c.digits) == |c.data| <= U64_MAX
  }

  function PrintLine(c: Chunk): seq<Byte> {
    c.digits + (c.ext + [CR, LF])
  }

  function Print(chunks: seq<Chunk>): seq<Byte> {
    if chunks == [] then [] else PrintLine(chunks[0]) + (chunks[0].data + [CR, LF]) + Print(chunks[1..])
  }

  function Payload(chunks: seq<Chunk>): seq<Byte> {
    if chunks == [] then [] else chunks[0].data + Payload(chunks[1..])
  }

  /** The decoder at the start of a size line. */
  predicate AtSizeLine(d: Decoder) {
    d.phase == SizeLine && d.size == 0 && !d.ext && !d.expectLf
  }

  lemma {:induction false} HexFromGrows(start: nat, digits: seq<Byte>)
    requires forall b :: b in digits ==> IsHex(b)
    ensures HexFrom(start, digits) >= start
    decreases |digits|
  {
    if digits != [] {
      HexFromGrows(start * 16 + HexValue(digits[0]), digits[1..]);
    }
  }

  /** Digits accumulate without 64-bit overflow when the whole number fits. */
  lemma {:induction false} ReadDigits(d: Decoder, digits: seq<Byte>)
    requires d.phase == SizeLine && !d.ext && !d.expectLf
    requires forall b :: b in digits ==> IsHex(b)
    requires HexFrom(d.size, digits) <= U64_MAX
    ensures After(d, digits) == d.(size := HexFrom(d.size, digits))
    ensures Emitted(d, digits) == []
    decreases |digits|
  {
    if digits != [] {
      var b := digits[0];
      assert IsHex(b);
      HexFromGrows(d.size * 16 + HexValue(b), digits[1..]);
      ReadDigits(Step(d, b).0, digits[1..]);
    }
  }

  lemma {:induction false} SkipExt(d: Decoder, ext: seq<Byte>)
    requires d.phase == SizeLine && d.ext && !d.expectLf && CR !in ext
    ensures After(d, ext) == d && Emitted(d, ext) == []
    decreases |ext|
  {
    if ext != [] {
      assert ext[0] in ext;
      SkipExt(d, ext[1..]);
    }
  }

  lemma ReadExt(d: Decoder, ext: seq<Byte>)
    requires d.phase == SizeLine && !d.ext && !d.expectLf && IsExt(ext)
    ensures After(d, ext) == d.(ext := ext != []) && Emitted(d, ext) == []
  {
    if ext != [] {
      SkipExt(Step(d, ext[0]).0, ext[1..]);
    }
  }

  lemma ReadCrLf(d: Decoder)
    requires d.phase == SizeLine && !d.expectLf
    ensures After(d, [CR, LF]) ==
            d.(size := 0, ext := false, remain := d.size, phase := if d.size == 0 then Done else ChunkData)
    ensures Emitted(d, [CR, LF]) == []
  {
    var d1 := Step(d, CR).0;
    assert [CR, LF][1..] == [LF] && [LF][1..] == [];
    assert After(d1, [LF]) == Step(d1, LF).0 && Emitted(d1, [LF]) == [];
  }

  /** A whole size line. */
  lemma ReadLine(d: Decoder, c: Chunk)
    requires AtSizeLine(d) && WellSized(c)
    ensures After(d, PrintLine(c)) == d.(remain := |c.data|, phase := if c.data == [] then Done else ChunkData)
    ensures Emitted(d, PrintLine(c)) == []
  {
    var n := HexFrom(0, c.digits);
    ReadDigits(d, c.digits);
    var d1 := d.(size := n);
    ReadExt(d1, c.ext);
    var d2 := d1.(ext := c.ext != []);
    ReadCrLf(d2);
    BodySplit(d1, c.ext, [CR, LF]);
    BodySplit(d, c.digits, c.ext + [CR, LF]);
  }

  /** Chunk bytes are emitted as they are, up to the announced size. */
  lemma {:induction false} ReadData(d: Decoder, data: seq<Byte>)
    requires d.phase == ChunkData && 0 < |data| <= d.remain
    ensures After(d, data) ==
            d.(remain := d.remain - |data|, phase := if |data| == d.remain then ChunkEnd else ChunkData)
    ensures Emitted(d, data) == data
    decreases |data|
  {
    if |data| == 1 {
      assert After(Step(d, data[0]).0, data[1..]) == Step(d, data[0]).0;
    } else {
      ReadData(Step(d, data[0]).0, data[1..]);
    }
  }

  /** The line end after a chunk, even when LF is only seen at the start of the next size line. */
  lemma ReadChunkEnd(d: Decoder)
    requires d.phase == ChunkEnd && d.size == 0 && !d.ext && !d.expectLf
    ensures After(d, [CR, LF]) == d.(phase := SizeLine) && Emitted(d, [CR, LF]) == []
  {
    var d1 := Step(d, CR).0;
    assert [CR, LF][1..] == [LF] && [LF][1..] == [];
    assert After(d1, [LF]) == Step(d1, LF).0 && Emitted(d1, [LF]) == [];
  }

  lemma ReadChunk(d: Decoder, c: Chunk)
    requires AtSizeLine(d) && WellSized(c) && c.data != []
    ensures var text := PrintLine(c) + (c.data + [CR, LF]);
            After(d, text) == d.(remain := 0) && Emitted(d, text) == c.data
  {
    hide After, Emitted, Step;
    ReadLine(d, c);
    var d1 := d.(remain := |c.data|, phase := ChunkData);
    ReadData(d1, c.data);
    var d2 := d1.(remain := 0, phase := ChunkEnd);
    ReadChunkEnd(d2);
    BodySplit(d1, c.data, [CR, LF]);
    BodySplit(d, PrintLine(c), c.data + [CR, LF]);
    assert [] + (c.data + []) == c.data;
  }

  lemma {:induction false} ReadChunks(d: Decoder, chunks: seq<Chunk>)
    requires AtSizeLine(d) && forall c :: c in chunks ==> WellSized(c) && c.data != []
    ensures AtSizeLine(After(d, Print(chunks)))
    ensures Emitted(d, Print(chunks)) == Payload(chunks)
    decreases |chunks|
  {
    hide Step, WellSized;
    if chunks != [] {
      var text := PrintLine(chunks[0]) + (chunks[0].data + [CR, LF]);
      assert WellSized(chunks[0]) && chunks[0].data != [];
      ReadChunk(d, chunks[0]);
      ReadChunks(d.(remain := 0), chunks[1..]);
      BodySplit(d, text, Print(chunks[1..]));
    }
  }

  /** Chunks printed with any size digits and extensions, ended by a zero chunk and followed by
      anything, decode to exactly their data, however the bytes are cut into calls. */
  lemma ChunkedRoundTrip(parse: seq<Byte> -> Head, d: Decoder, chunks: seq<Chunk>, last: Chunk,
                         trailer: seq<Byte>, pieces: seq<seq<Byte>>)
    requires AtSizeLine(d) && forall c :: c in chunks ==> WellSized(c) && c.data != []
    requires WellSized(last) && last.data == []
    requires Concat(pieces) == Print(chunks) + (PrintLine(last) + trailer)
    ensures FeedAll(parse, d, pieces).0.phase == Done
    ensures FeedAll(parse, d, pieces).1 == Payload(chunks)
  {
    hide Step, After, Emitted, FeedAll, WellSized;
    PartitionIrrelevant(parse, d, pieces);
    ReadChunks(d, chunks);
    var d1 := After(d, Print(chunks));
    ReadLine(d1, last);
    var d2 := d1.(remain := 0, phase := Done);
    DoneIgnores(d2, trailer);
    BodySplit(d1, PrintLine(last), trailer);
    BodySplit(d, Print(chunks), PrintLine(last) + trailer);
    assert Payload(chunks) + ([] + []) == Payload(chunks);
  }

  lemma HexDigitIs(v: nat)
    requires v < 16
    ensures IsHex(HexDigit(v)) && HexValue(HexDigit(v)) == v
  {
  }

  /** The usual way to write a size: lower-case digits without leading zeros. */
  function HexOf(n: nat): (digits: seq<Byte>)
    ensures forall b :: b in digits ==> IsHex(b)
  {
    HexDigitIs(n % 16);
    if n < 16 then [HexDigit(n)] else HexOf(n / 16) + [HexDigit(n % 16)]
  }

  lemma {:induction false} HexFromAppend(start: nat, a: seq<Byte>, b: Byte)
    requires IsHex(b) && forall x :: x in a ==> IsHex(x)
    ensures HexFrom(start, a + [b]) == HexFrom(start, a) * 16 + HexValue(b)
    decreases |a|
  {
    if a == [] {
      assert a + [b] == [b] && [b][1..] == [];
      assert HexFrom(start * 16 + HexValue(b), []) == start * 16 + HexValue(b);
    } else {
      assert (a + [b])[0] == a[0] && (a + [b])[1..] == a[1..] + [b];
      HexFromAppend(start * 16 + HexValue(a[0]), a[1..], b);
    }
  }

  /** Every length can be written: the canonical digits name it. */
  lemma {:induction false} HexOfRoundTrip(n: nat)
    ensures HexFrom(0, HexOf(n)) == n
  {
    HexDigitIs(n % 16);
    if n >= 16 {
      HexOfRoundTrip(n / 16);
      HexFromAppend(0, HexOf(n / 16), HexDigit(n % 16));
    } else {
      assert HexOf(n)[1..] == [];
      assert HexFrom(HexValue(HexDigit(n)), []) == n;
    }
  }

  /** Chunks as they are usually sent: sized in lower-case hexadecimal, without extensions. */
  function Sized(bodies: seq<seq<Byte>>): (chunks: seq<Chunk>)
    ensures |chunks| == |bodies|
  {
    seq(|bodies|, i requires 0 <= i < |bodies| => Chunk(HexOf(|bodies[i]|), [], bodies[i]))
  }

  lemma {:induction false} SizedPayload(bodies: seq<seq<Byte>>)
    ensures Payload(Sized(bodies)) == Concat(bodies)
    decreases |bodies|
  {
    if bodies != [] {
      SizedPayload(bodies[1..]);
      assert Sized(bodies)[1..] == Sized(bodies[1..]);
    }
  }

  /** Any list of non-empty strings, sent as chunks of exactly these lengths, is decoded to their
      concatenation under every partition into calls. */
  lemma SizedRoundTrip(parse: seq<Byte> -> Head, d: Decoder, bodies: seq<seq<Byte>>, trailer: seq<Byte>,
                       pieces: seq<seq<Byte>>)
    requires AtSizeLine(d) && forall b :: b in bodies ==> 0 < |b| <= U64_MAX
    requires Concat(pieces) == Print(Sized(bodies)) + (PrintLine(Chunk(HexOf(0), [], [])) + trailer)
    ensures FeedAll(parse, d, pieces).0.phase == Done
    ensures FeedAll(parse, d, pieces).1 == Concat(bodies)
  {
    hide FeedAll, Print, PrintLine, Concat, HexOf, HexFrom;
    var last := Chunk(HexOf(0), [], []);
    forall c | c in Sized(bodies)
      ensures WellSized(c) && c.data != []
    {
      HexOfRoundTrip(|c.data|);
    }
    HexOfRoundTrip(0);
    ChunkedRoundTrip(parse, d, Sized(bodies), last, trailer, pieces);
    SizedPayload(bodies);
  }

  /** A body of known length is exactly its first `contentLen` bytes; without a length, everything is body. */
  lemma {:induction false} FixedExact(d: Decoder, data: seq<Byte>)
    requires d.phase == Fixed && (d.contentLen > 0 ==> d.received < d.contentLen)
    ensures var left := d.contentLen - d.received;
            var take := if d.contentLen > 0 && left < |data| then left else |data|;
            && Emitted(d, data) == data[..take]
            && After(d, data) == d.(received := SatAdd(d.received, take),
                                    phase := if d.contentLen > 0 && left <= |data| then Done else Fixed)
    decreases |data|
  {
    if data != [] {
      var d1 := Step(d, data[0]).0;
      if d1.phase == Done {
        DoneIgnores(d1, data[1..]);
      } else {
        FixedExact(d1, data[1..]);
      }
    }
  }
}
