/** The response decoder with its fields updated in place, and the plain-HTTP receive path that
    feeds it. Every call is proved equal to the value-level `Feed`. */
module HttpDecoder {
  import opened Words
  import opened HttpDecoding
  import opened HttpChunks

  /** What is left after consuming part of a call's bytes and emitting `out`. */
  ghost predicate Progress(parse: seq<Byte> -> Head, d: Decoder, rest: seq<Byte>,
                           d': Decoder, rest': seq<Byte>, out: seq<Byte>) {
    Feed(parse, d, rest) == (Feed(parse, d', rest').0, out + Feed(parse, d', rest').1)
  }

  lemma BodyProgress(parse: seq<Byte> -> Head, d: Decoder, piece: seq<Byte>, rest: seq<Byte>)
    requires d.phase != Header
    ensures Progress(parse, d, piece + rest, After(d, piece), rest, Emitted(d, piece))
  {
    BodySplit(d, piece, rest);
    StaysInBody(d, piece);
  }

  lemma ProgressTrans(parse: seq<Byte> -> Head, a: Decoder, ra: seq<Byte>, b: Decoder, rb: seq<Byte>, x: seq<Byte>,
                      c: Decoder, rc: seq<Byte>, y: seq<Byte>)
    requires Progress(parse, a, ra, b, rb, x) && Progress(parse, b, rb, c, rc, y)
    ensures Progress(parse, a, ra, c, rc, x + y)
  {
    hide Feed;
    assert x + (y + Feed(parse, c, rc).1) == (x + y) + Feed(parse, c, rc).1;
  }

  lemma ProgressEnd(parse: seq<Byte> -> Head, d: Decoder, rest: seq<Byte>, d': Decoder, out: seq<Byte>)
    ensures Progress(parse, d, rest, d', [], out) <==> Feed(parse, d, rest) == (d', out)
  {
    assert Feed(parse, d', []) == (d', []);
    assert out + [] == out;
  }

  lemma ProgressRefl(parse: seq<Byte> -> Head, d: Decoder, rest: seq<Byte>)
    ensures Progress(parse, d, rest, d, rest, [])
  {
    hide Feed;
    assert [] + Feed(parse, d, rest).1 == Feed(parse, d, rest).1;
  }

  lemma OneByte(d: Decoder, b: Byte)
    ensures After(d, [b]) == Step(d, b).0 && Emitted(d, [b]) == Step(d, b).1
  {
    assert [b][1..] == [];
    assert After(Step(d, b).0, []) == Step(d, b).0;
    assert Step(d, b).1 + [] == Step(d, b).1;
  }

  /** Body bytes within the announced length are all emitted. */
  lemma FixedPiece(d: Decoder, piece: seq<Byte>)
    requires d.phase == Fixed && piece != [] && (d.contentLen > 0 ==> |piece| <= d.contentLen - d.received)
    ensures Emitted(d, piece) == piece
    ensures var r := SatAdd(d.received, |piece|);
            After(d, piece) == d.(received := r, phase := if d.contentLen > 0 && r >= d.contentLen then Done else Fixed)
  {
    FixedExact(d, piece);
    assert piece[..|piece|] == piece;
  }

  lemma DoneProgress(parse: seq<Byte> -> Head, d: Decoder, rest: seq<Byte>)
    requires d.phase == Done || (d.phase == Fixed && d.contentLen > 0 && d.received >= d.contentLen)
    ensures Progress(parse, d, rest, d, [], [])
  {
    DoneIgnores(d, rest);
    ProgressEnd(parse, d, rest, d, []);
  }

  function PhaseOf(n: nat): Phase {
    match n
    case 0 => Header
    case 1 => Fixed
    case 2 => SizeLine
    case 3 => ChunkData
    case 4 => ChunkEnd
    case _ => Done
  }

  class Response {
    const parse: seq<Byte> -> Head
    const headerBuf: array<Byte>
    var headerLen: nat
    var parseState: nat
    var failed: bool
    var contentLen: U64
    var bodyRecv: U64
    var chunkRemain: U64
    var chunkParse: U64
    var chunkExt: bool
    var chunkExpectLf: bool
    var body: seq<Byte>

    ghost predicate Valid()
      reads this, headerBuf
    {
      && headerBuf.Length == HEADER_CAP && headerLen <= HEADER_CAP && parseState <= 5
      && Clean(State())
    }

    ghost function State(): Decoder
      requires headerLen <= headerBuf.Length
      reads this, headerBuf
    {
      Decoder(PhaseOf(parseState), headerBuf[..headerLen], failed, contentLen, bodyRecv, chunkRemain, chunkParse,
              chunkExt, chunkExpectLf)
    }

    constructor (parse: seq<Byte> -> Head)
      ensures Valid() && fresh(headerBuf) && this.parse == parse
      ensures State() == Reset() && body == []
    {
      this.parse := parse;
      headerBuf := new Byte[HEADER_CAP](_ => 0);
      headerLen, parseState, failed, contentLen, bodyRecv := 0, 0, false, 0, 0;
      chunkRemain, chunkParse, chunkExt, chunkExpectLf := 0, 0, false, false;
      body := [];
    }

    /** Append header bytes, or reject a header that is too large. */
    method KeepHeader(bytes: seq<Byte>) returns (ok: bool)
      requires Valid() && parseState == 0
      modifies `headerLen, `failed, headerBuf
      ensures Valid() && parseState == 0
      ensures ok <==> old(headerLen) + |bytes| <= HEADER_CAP
      ensures State() ==
              if ok then old(State()).(header := old(State()).header + bytes) else old(State()).(failed := true)
    {
      if headerLen + |bytes| > headerBuf.Length {
        failed := true;
        return false;
      }
      var j := 0;
      while j < |bytes|
        invariant 0 <= j <= |bytes|
        invariant headerBuf[..headerLen + j] == old(headerBuf[..headerLen]) + bytes[..j]
        modifies headerBuf
      {
        headerBuf[headerLen + j] := bytes[j];
        j := j + 1;
      }
      headerLen := headerLen + |bytes|;
      return true;
    }

    /** The end of the header that starts at `idx`, if these bytes contain it. */
    method SearchEnd(data: seq<Byte>, idx: nat) returns (found: bool, end: nat)
      requires idx < |data|
      ensures idx < end <= |data| && (!found ==> end == |data|)
      ensures FindEnd(data[idx..], 0) == if found then end - idx - 4 else |data| - idx
    {
      var rest := data[idx..];
      var i := idx;
      while i + 3 < |data| && !(data[i] == CR && data[i + 1] == LF && data[i + 2] == CR && data[i + 3] == LF)
        invariant idx <= i <= |data|
        invariant forall j :: 0 <= j < i - idx ==> !EndsAt(rest, j)
      {
        i := i + 1;
      }
      found := i + 3 < |data|;
      end := if found then i + 4 else |data|;
      assert forall j :: 0 <= j < |rest| && EndsAt(rest, j) ==> j + 3 < |rest|;
      assert found ==> EndsAt(rest, i - idx);
    }

    /** The header phase: everything up to the first empty line in these bytes belongs to the header. */
    method FeedHeader(data: seq<Byte>, idx: nat) returns (next: nat)
      requires Valid() && parseState == 0 && idx < |data|
      modifies `headerLen, `failed, `parseState, `contentLen, headerBuf
      ensures Valid() && idx < next <= |data|
      ensures Progress(parse, old(State()), data[idx..], State(), data[next..], [])
    {
      var rest := data[idx..];
      var found, end := SearchEnd(data, idx);
      var bytes := data[idx..end];
      assert bytes == rest[..end - idx] && data[end..] == rest[end - idx..];
      var ok := KeepHeader(bytes);
      if !ok || !found {
        ProgressEnd(parse, old(State()), rest, State(), []);
        assert data[|data|..] == [];
        return |data|;
      }
      var head := parse(headerBuf[..headerLen]);
      contentLen := head.contentLen;
      parseState := if head.chunked then 2 else 1;
      assert [] + Emitted(State(), data[end..]) == Emitted(State(), data[end..]);
      return end;
    }

    /** Emit as much as the announced length allows. */
    method FeedFixed(data: seq<Byte>, idx: nat) returns (next: nat)
      requires Valid() && parseState == 1 && idx < |data|
      modifies `bodyRecv, `parseState, `body
      ensures Valid() && idx < next <= |data|
      ensures old(body) <= body
      ensures Progress(parse, old(State()), data[idx..], State(), data[next..], body[|old(body)|..])
    {
      hide Feed, After, Emitted;
      var take := |data| - idx;
      if contentLen > 0 {
        var remaining := if contentLen > bodyRecv then contentLen - bodyRecv else 0;
        if take > remaining {
          take := remaining;
        }
      }
      if take == 0 {
        DoneProgress(parse, State(), data[idx..]);
        assert data[|data|..] == [] && body[|body|..] == [];
        return |data|;
      }
      var piece := data[idx..idx + take];
      FixedPiece(State(), piece);
      BodyProgress(parse, State(), piece, data[idx + take..]);
      assert piece + data[idx + take..] == data[idx..];
      body := body + piece;
      assert body[|old(body)|..] == piece;
      bodyRecv := SatAdd(bodyRecv, take);
      next := idx + take;
      if contentLen > 0 && bodyRecv >= contentLen {
        parseState := 5;
        DoneProgress(parse, State(), data[next..]);
        ProgressTrans(parse, old(State()), data[idx..], State(), data[next..], piece, State(), [], []);
        assert data[|data|..] == [] && piece + [] == piece;
        return |data|;
      }
    }

    /** One byte of a chunk-size line. */
    method FeedSizeByte(b: Byte)
      requires Valid() && parseState == 2
      modifies `chunkParse, `chunkExt, `chunkExpectLf, `chunkRemain, `parseState
      ensures Valid()
      ensures State() == Step(old(State()), b).0
    {
      if chunkExpectLf {
        if b == LF {
          var size := chunkParse;
          chunkParse, chunkExt, chunkExpectLf := 0, false, false;
          chunkRemain := size;
          parseState := if size == 0 then 5 else 3;
        }
        return;
      }
      if b == CR {
        chunkExpectLf := true;
        return;
      }
      if chunkExt {
        return;
      }
      if b == SEMICOLON {
        chunkExt := true;
        return;
      }
      if IsHex(b) {
        chunkParse := ShiftIn(chunkParse, HexValue(b));
      }
    }

    /** Emit as much of the current chunk as these bytes hold. */
    method FeedChunk(data: seq<Byte>, idx: nat) returns (next: nat)
      requires Valid() && parseState == 3 && idx < |data|
      modifies `chunkRemain, `parseState, `body
      ensures Valid() && idx < next <= |data|
      ensures old(body) <= body
      ensures Progress(parse, old(State()), data[idx..], State(), data[next..], body[|old(body)|..])
    {
      var take := |data| - idx;
      if take > chunkRemain {
        take := chunkRemain;
      }
      var piece := data[idx..idx + take];
      ReadData(State(), piece);
      BodyProgress(parse, State(), piece, data[idx + take..]);
      assert piece + data[idx + take..] == data[idx..];
      body := body + piece;
      assert body[|old(body)|..] == piece;
      chunkRemain := chunkRemain - take;
      next := idx + take;
      if chunkRemain == 0 {
        parseState := 4;
      }
    }

    /** The line end after a chunk; a LF that these bytes already hold is taken with its CR. */
    method FeedChunkEnd(data: seq<Byte>, idx: nat) returns (next: nat)
      requires Valid() && parseState == 4 && idx < |data|
      modifies `parseState
      ensures Valid() && idx < next <= |data|
      ensures Progress(parse, old(State()), data[idx..], State(), data[next..], [])
    {
      next := idx + 1;
      assert [data[idx]] + data[next..] == data[idx..];
      OneByte(State(), data[idx]);
      BodyProgress(parse, State(), [data[idx]], data[next..]);
      if data[idx] == CR {
        if next < |data| && data[next] == LF {
          ReadChunkEnd(State());
          assert [CR, LF] + data[next + 1..] == data[idx..];
          BodyProgress(parse, State(), [CR, LF], data[next + 1..]);
          next := next + 1;
        }
        parseState := 2;
      }
    }

    /** One call: decode these bytes and capture the body bytes they contain. */
    method FeedBytes(data: seq<Byte>)
      requires Valid()
      modifies this, headerBuf
      ensures Valid()
      ensures State() == Feed(parse, old(State()), data).0
      ensures body == old(body) + Feed(parse, old(State()), data).1
    {
      var idx := 0;
      assert data[0..] == data && body[|old(body)|..] == [];
      ProgressRefl(parse, State(), data);
      while idx < |data|
        invariant Valid() && idx <= |data| && old(body) <= body
        invariant Progress(parse, old(State()), data, State(), data[idx..], body[|old(body)|..])
      {
        ghost var before, rest, emitted := State(), data[idx..], body;
        idx := FeedOnce(data, idx);
        ProgressTrans(parse, old(State()), data, before, rest, emitted[|old(body)|..],
                      State(), data[idx..], body[|emitted|..]);
        assert body[|old(body)|..] == emitted[|old(body)|..] + body[|emitted|..];
      }
      assert data[idx..] == [];
      ProgressEnd(parse, old(State()), data, State(), body[|old(body)|..]);
    }

    /** One turn of the decoding loop. */
    method FeedOnce(data: seq<Byte>, idx: nat) returns (next: nat)
      requires Valid() && idx < |data|
      modifies this, headerBuf
      ensures Valid() && idx < next <= |data|
      ensures old(body) <= body
      ensures Progress(parse, old(State()), data[idx..], State(), data[next..], body[|old(body)|..])
    {
      hide Feed, After, Emitted;
      assert body[|body|..] == [];
      match parseState
      case 0 => next := FeedHeader(data, idx);
      case 1 => next := FeedFixed(data, idx);
      case 2 =>
        OneByte(State(), data[idx]);
        assert [data[idx]] + data[idx + 1..] == data[idx..];
        BodyProgress(parse, State(), [data[idx]], data[idx + 1..]);
        FeedSizeByte(data[idx]);
        next := idx + 1;
      case 3 => next := FeedChunk(data, idx);
      case 4 => next := FeedChunkEnd(data, idx);
      case _ =>
        DoneProgress(parse, State(), data[idx..]);
        assert data[|data|..] == [];
        next := |data|;
    }
  }
}
