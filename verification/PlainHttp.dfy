/** The plain-HTTP receive path: in-order TCP bytes, fed to the response decoder in pieces. */
module PlainHttp {
  import opened Words
  import opened TcpStream
  import opened TcpBounds
  import opened HttpDecoding
  import opened HttpHeaderCut
  import opened HttpChunks
  import HttpDecoder

  const PIECE: nat := 900

  /** The pieces in which new payload bytes are copied out and fed. */
  function Chop(data: seq<Byte>): seq<seq<Byte>> {
    if |data| <= PIECE then (if data == [] then [] else [data])
    else [data[..PIECE]] + Chop(data[PIECE..])
  }

  lemma {:induction false} ChopConcat(data: seq<Byte>)
    ensures Concat(Chop(data)) == data
  {
    if |data| > PIECE {
      var tail := Chop(data[PIECE..]);
      ChopConcat(data[PIECE..]);
      assert ([data[..PIECE]] + tail)[1..] == tail;
      assert data[..PIECE] + data[PIECE..] == data;
    } else if data != [] {
      assert [data][1..] == [] && Concat([]) == [];
    }
  }

  /** The in-order receiver, the decoder behind it, and the body captured so far. */
  datatype Fetch = Fetch(tcp: Plain, decoder: Decoder, body: seq<Byte>)

  function OnBytes(parse: seq<Byte> -> Head, f: Fetch, tcp: Plain): Fetch
    requires |f.tcp.fed| <= |tcp.fed|
  {
    var r := FeedAll(parse, f.decoder, Chop(tcp.fed[|f.tcp.fed|..]));
    Fetch(tcp, r.0, f.body + r.1)
  }

  lemma PlainGrows(p: Plain, seqno: U32, data: seq<Byte>)
    ensures p.fed <= PlainPush(p, seqno, data).fed
  {
  }

  function OnSegment(parse: seq<Byte> -> Head, f: Fetch, seqno: U32, data: seq<Byte>): Fetch {
    PlainGrows(f.tcp, seqno, data);
    OnBytes(parse, f, PlainPush(f.tcp, seqno, data))
  }

  class Receiver {
    const response: HttpDecoder.Response
    var ack: U32
    ghost var fed: seq<Byte>

    ghost predicate Valid()
      reads this, response, response.headerBuf
    {
      response.Valid()
    }

    ghost function State(): Fetch
      requires Valid()
      reads this, response, response.headerBuf
    {
      Fetch(Plain(ack, fed), response.State(), response.body)
    }

    constructor (response: HttpDecoder.Response, ack: U32)
      requires response.Valid()
      ensures Valid() && this.response == response && State() == Fetch(Plain(ack, []), response.State(), response.body)
    {
      this.response := response;
      this.ack := ack;
      fed := [];
    }

    /** Copy out and feed at most `PIECE` bytes at a time. */
    method FeedPieces(data: seq<Byte>)
      requires Valid()
      modifies response, response.headerBuf
      ensures Valid()
      ensures (response.State(), response.body) ==
              (var r := FeedAll(response.parse, old(response.State()), Chop(data)); (r.0, old(response.body) + r.1))
    {
      hide FeedAll, Feed, Chop;
      var offset := 0;
      ghost var parse, start, body := response.parse, response.State(), response.body;
      assert data[0..] == data && body[|body|..] == [];
      FedNone(parse, start, Chop(data));
      while offset < |data|
        invariant Valid() && offset <= |data| && body <= response.body
        invariant Fed(parse, start, Chop(data), response.State(), Chop(data[offset..]), response.body[|body|..])
      {
        var copyLen := if |data| - offset > PIECE then PIECE else |data| - offset;
        var piece := data[offset..offset + copyLen];
        ghost var before, mid := response.State(), response.body;
        ChopFirst(data[offset..], copyLen);
        assert data[offset..][..copyLen] == piece && data[offset..][copyLen..] == data[offset + copyLen..];
        response.FeedBytes(piece);
        FedMore(parse, start, Chop(data), before, piece, Chop(data[offset + copyLen..]), mid[|body|..]);
        assert response.body[|body|..] == mid[|body|..] + Feed(parse, before, piece).1;
        offset := offset + copyLen;
      }
      assert data[offset..] == [];
      FedAllDone(parse, start, Chop(data), response.State(), response.body[|body|..]);
      assert body + response.body[|body|..] == response.body;
    }

    /** One segment: feed what is new in it, and acknowledge it if anything was. */
    method PushSegment(seqno: U32, data: seq<Byte>)
      requires Valid()
      modifies this, response, response.headerBuf
      ensures Valid()
      ensures State() == OnSegment(response.parse, old(State()), seqno, data)
    {
      var bytes := data;
      if data != [] {
        var cmp := SeqCmp(seqno, ack);
        if cmp > 0 {
          bytes := [];
        } else if cmp < 0 {
          var overlap := WrapSub(ack, seqno);
          bytes := if overlap >= |data| then [] else data[overlap..];
        }
        ghost var tcp := PlainPush(Plain(ack, fed), seqno, data);
        assert tcp.fed[|fed|..] == bytes;
        FeedPieces(bytes);
        if bytes != [] {
          ack := WrapAdd(seqno, |data|);
          fed := fed + bytes;
        }
      } else {
        assert fed[|fed|..] == [];
        assert response.body + [] == response.body;
      }
    }
  }

  lemma ChopFirst(data: seq<Byte>, k: nat)
    requires 0 < k <= |data| && k == if |data| > PIECE then PIECE else |data|
    ensures Chop(data) == [data[..k]] + Chop(data[k..])
  {
    if |data| <= PIECE {
      assert data[..k] == data && [data] + [] == [data];
    }
  }

  /** What is left of a list of pieces after some were fed and emitted `out`. */
  ghost predicate Fed(parse: seq<Byte> -> Head, d: Decoder, pieces: seq<seq<Byte>>,
                      d': Decoder, rest: seq<seq<Byte>>, out: seq<Byte>) {
    FeedAll(parse, d, pieces) == (FeedAll(parse, d', rest).0, out + FeedAll(parse, d', rest).1)
  }

  lemma FedNone(parse: seq<Byte> -> Head, d: Decoder, pieces: seq<seq<Byte>>)
    ensures Fed(parse, d, pieces, d, pieces, [])
  {
    hide FeedAll;
    assert [] + FeedAll(parse, d, pieces).1 == FeedAll(parse, d, pieces).1;
  }

  lemma FedMore(parse: seq<Byte> -> Head, d: Decoder, pieces: seq<seq<Byte>>, d': Decoder, piece: seq<Byte>,
                rest: seq<seq<Byte>>, out: seq<Byte>)
    requires Fed(parse, d, pieces, d', [piece] + rest, out)
    ensures Fed(parse, d, pieces, Feed(parse, d', piece).0, rest, out + Feed(parse, d', piece).1)
  {
    hide Feed;
    var one := Feed(parse, d', piece);
    assert ([piece] + rest)[1..] == rest;
    assert FeedAll(parse, d', [piece] + rest) ==
           (FeedAll(parse, one.0, rest).0, one.1 + FeedAll(parse, one.0, rest).1);
    assert out + (one.1 + FeedAll(parse, one.0, rest).1) == (out + one.1) + FeedAll(parse, one.0, rest).1;
  }

  lemma FedAllDone(parse: seq<Byte> -> Head, d: Decoder, pieces: seq<seq<Byte>>, d': Decoder, out: seq<Byte>)
    requires Fed(parse, d, pieces, d', Chop([]), out)
    ensures FeedAll(parse, d, pieces) == (d', out)
  {
    assert FeedAll(parse, d', []) == (d', []) && out + [] == out;
  }

  /** A run of segments, as the receiver sees them. */
  function Run(parse: seq<Byte> -> Head, f: Fetch, isn: U32, stream: seq<Byte>, es: seq<Event>): Fetch
    requires PlainFaithful(f.tcp, isn, stream) && PlainLegalRun(f.tcp, isn, stream, es)
    decreases |es|
  {
    if es == [] then f
    else
      PlainStepExact(f.tcp, isn, stream, es[0]);
      Run(parse, OnBytes(parse, f, PlainStep(f.tcp, isn, stream, es[0])), isn, stream, es[1..])
  }

  /** The pieces that reach the decoder in a run. */
  function Pieces(p: Plain, isn: U32, stream: seq<Byte>, es: seq<Event>): seq<seq<Byte>>
    requires PlainFaithful(p, isn, stream) && PlainLegalRun(p, isn, stream, es)
    decreases |es|
  {
    if es == [] then []
    else
      PlainStepExact(p, isn, stream, es[0]);
      var q := PlainStep(p, isn, stream, es[0]);
      Chop(q.fed[|p.fed|..]) + Pieces(q, isn, stream, es[1..])
  }

  lemma {:induction false} ConcatBoth(a: seq<seq<Byte>>, b: seq<seq<Byte>>)
    ensures Concat(a + b) == Concat(a) + Concat(b)
    decreases |a|
  {
    if a == [] {
      assert a + b == b;
    } else {
      ConcatBoth(a[1..], b);
      assert (a + b)[1..] == a[1..] + b;
    }
  }

  lemma {:induction false} FeedBoth(parse: seq<Byte> -> Head, d: Decoder, a: seq<seq<Byte>>, b: seq<seq<Byte>>)
    ensures var r := FeedAll(parse, d, a);
            FeedAll(parse, d, a + b) == (FeedAll(parse, r.0, b).0, r.1 + FeedAll(parse, r.0, b).1)
    decreases |a|
  {
    hide Feed;
    if a == [] {
      assert a + b == b && [] + FeedAll(parse, d, b).1 == FeedAll(parse, d, b).1;
    } else {
      var one := Feed(parse, d, a[0]);
      FeedBoth(parse, one.0, a[1..], b);
      assert (a + b)[0] == a[0] && (a + b)[1..] == a[1..] + b;
      var r := FeedAll(parse, one.0, a[1..]);
      Associate(one.1, r.1, FeedAll(parse, r.0, b).1);
      assert FeedAll(parse, d, a) == (r.0, one.1 + r.1);
    }
  }

  /** A run feeds its pieces one after another, and together they are the stretch of the stream that it
      took in. */
  lemma {:induction false} RunFeedsPieces(parse: seq<Byte> -> Head, f: Fetch, isn: U32, stream: seq<Byte>,
                                          es: seq<Event>)
    requires PlainFaithful(f.tcp, isn, stream) && PlainLegalRun(f.tcp, isn, stream, es)
    ensures var end, pieces := Run(parse, f, isn, stream, es), Pieces(f.tcp, isn, stream, es);
            && PlainFaithful(end.tcp, isn, stream) && |f.tcp.fed| <= |end.tcp.fed|
            && Concat(pieces) == stream[|f.tcp.fed|..|end.tcp.fed|]
            && end.decoder == FeedAll(parse, f.decoder, pieces).0
            && end.body == f.body + FeedAll(parse, f.decoder, pieces).1
    decreases |es|
  {
    hide FeedAll, Chop, PlainStep, Concat;
    if es == [] {
      NothingFed(parse, f.decoder);
      assert f.body + [] == f.body && stream[|f.tcp.fed|..|f.tcp.fed|] == [];
    } else {
      var tcp := PlainStep(f.tcp, isn, stream, es[0]);
      PlainStepExact(f.tcp, isn, stream, es[0]);
      var m, k := |f.tcp.fed|, |tcp.fed|;
      var first, g := Chop(tcp.fed[m..]), OnBytes(parse, f, tcp);
      var rest := Pieces(tcp, isn, stream, es[1..]);
      ChopConcat(tcp.fed[m..]);
      RunFeedsPieces(parse, g, isn, stream, es[1..]);
      ConcatBoth(first, rest);
      FeedBoth(parse, f.decoder, first, rest);
      Adjacent(stream, m, k, |Run(parse, g, isn, stream, es[1..]).tcp.fed|);
      assert tcp.fed[m..] == stream[m..k];
      Associate(f.body, FeedAll(parse, f.decoder, first).1, FeedAll(parse, g.decoder, rest).1);
    }
  }

  lemma NothingFed(parse: seq<Byte> -> Head, d: Decoder)
    ensures FeedAll(parse, d, []) == (d, []) && Concat([]) == []
  {
  }

  lemma Adjacent(s: seq<Byte>, m: nat, k: nat, n: nat)
    requires m <= k <= n <= |s|
    ensures s[m..k] + s[k..n] == s[m..n]
  {
  }

  lemma Associate(a: seq<Byte>, b: seq<Byte>, c: seq<Byte>)
    ensures a + b + c == a + (b + c)
  {
  }

  /** From any state of the decoder, the header included: whatever segments arrive, and however they are cut
      into pieces, the result is the one-call decoding of a contiguous stretch of the sender's stream, exactly
      when no piece ends inside the header's closing empty line. */
  lemma RunDecodesStream(parse: seq<Byte> -> Head, f: Fetch, isn: U32, stream: seq<Byte>, es: seq<Event>)
    requires PlainFaithful(f.tcp, isn, stream) && PlainLegalRun(f.tcp, isn, stream, es)
    requires !f.decoder.failed
    ensures var end := Run(parse, f, isn, stream, es);
            && PlainFaithful(end.tcp, isn, stream) && |f.tcp.fed| <= |end.tcp.fed| && f.body <= end.body
            && (Same((end.decoder, end.body[|f.body|..]),
                     Feed(parse, f.decoder, stream[|f.tcp.fed|..|end.tcp.fed|])) <==>
                NoCutInside(parse, f.decoder, Pieces(f.tcp, isn, stream, es)))
  {
    hide FeedAll, Feed, Run, Pieces, NoCutInside, Concat;
    var pieces := Pieces(f.tcp, isn, stream, es);
    RunFeedsPieces(parse, f, isn, stream, es);
    WholeResponsePartition(parse, f.decoder, pieces);
    var out := FeedAll(parse, f.decoder, pieces).1;
    assert (f.body + out)[|f.body|..] == out;
  }

  /** No piece ends inside the four bytes from `e` on. */
  predicate ClearOf(pieces: seq<seq<Byte>>, e: nat)
    decreases |pieces|
  {
    pieces == [] || |pieces[0]| >= e + 4 || (|pieces[0]| <= e && ClearOf(pieces[1..], e - |pieces[0]|))
  }

  /** Boundaries that keep clear of the first empty line never cut it. */
  lemma {:induction false} ClearNeverCuts(parse: seq<Byte> -> Head, d: Decoder, pieces: seq<seq<Byte>>)
    requires ClearOf(pieces, FindEnd(Concat(pieces), 0))
    ensures NoCutInside(parse, d, pieces)
    decreases |pieces|
  {
    hide Feed, FindEnd, EndsAt;
    if pieces != [] && d.phase == Header && !d.failed {
      var a, rest := pieces[0], Concat(pieces[1..]);
      var e := FindEnd(a + rest, 0);
      EndsIn(a, rest);
      if |a| >= e + 4 {
        FindEndIs(a, 0, e);
        FeedFound(parse, d, a, e);
        var h := d.header + a[..e + 4];
        StaysInBody(StartBody(d, h, parse(h)), a[e + 4..]);
        BodyPieces(parse, Feed(parse, d, a).0, pieces[1..]);
      } else {
        if e < |a + rest| {
          FindEndIs(rest, 0, e - |a|);
        } else {
          NoEndIn(rest);
        }
        ClearNeverCuts(parse, Feed(parse, d, a).0, pieces[1..]);
      }
    }
  }

  lemma BodyPieces(parse: seq<Byte> -> Head, d: Decoder, pieces: seq<seq<Byte>>)
    requires d.phase != Header || d.failed
    ensures NoCutInside(parse, d, pieces)
  {
  }

  /** A response with a header that announces a chunked body. */
  predicate ChunkedResponse(parse: seq<Byte> -> Head, header: seq<Byte>, chunks: seq<Chunk>, last: Chunk) {
    && 4 <= |header| <= HEADER_CAP && FindEnd(header, 0) == |header| - 4 && parse(header).chunked
    && (forall c :: c in chunks ==> WellSized(c) && c.data != []) && WellSized(last) && last.data == []
  }

  /** One call on the whole response. */
  lemma DecodeResponse(parse: seq<Byte> -> Head, header: seq<Byte>, chunks: seq<Chunk>, last: Chunk, rest: seq<Byte>)
    requires ChunkedResponse(parse, header, chunks, last)
    ensures var data := header + (Print(chunks) + PrintLine(last) + rest);
            && FindEnd(data, 0) == |header| - 4
            && Feed(parse, Reset(), data).0.phase == Done && !Feed(parse, Reset(), data).0.failed
            && Feed(parse, Reset(), data).1 == Payload(chunks)
  {
    hide Feed, FindEnd, EndsAt, Print, PrintLine, WellSized, After, Emitted, FeedAll;
    var tail := Print(chunks) + (PrintLine(last) + rest);
    var data := header + tail;
    assert data == header + (Print(chunks) + PrintLine(last) + rest);
    EndsIn(header, tail);
    FindEndIs(data, 0, |header| - 4);
    FeedFound(parse, Reset(), data, |header| - 4);
    assert data[..|header|] == header && data[|header|..] == tail && [] + header == header;
    var d := StartBody(Reset(), header, parse(header));
    OneConcat(tail);
    ChunkedRoundTrip(parse, d, chunks, last, rest, [tail]);
    OnePiece(parse, d, tail);
    BodyKeepsHeader(d, tail);
  }

  lemma OneConcat(data: seq<Byte>)
    ensures Concat([data]) == data
  {
    assert [data][1..] == [];
    assert Concat([data]) == data + Concat([data][1..]);
  }

  lemma OnePiece(parse: seq<Byte> -> Head, d: Decoder, data: seq<Byte>)
    requires d.phase != Header
    ensures FeedAll(parse, d, [data]) == (After(d, data), Emitted(d, data))
  {
    assert [data][1..] == [];
    assert FeedAll(parse, After(d, data), []) == (After(d, data), []);
    assert Emitted(d, data) + [] == Emitted(d, data);
  }

  /** A whole download, from the first segment on: once header and chunks have been fed, whatever segments
      brought them, the captured body is exactly the chunks' data, unless a piece ended inside the header's
      closing empty line. */
  lemma ChunkedDownload(parse: seq<Byte> -> Head, isn: U32, stream: seq<Byte>, es: seq<Event>,
                        header: seq<Byte>, chunks: seq<Chunk>, last: Chunk, trailer: seq<Byte>)
    requires PlainLegalRun(Plain(isn, []), isn, stream, es) && ChunkedResponse(parse, header, chunks, last)
    requires stream == header + (Print(chunks) + PrintLine(last)) + trailer
    requires PlainFaithful(Plain(isn, []), isn, stream)
    requires |Run(parse, NewFetch(isn), isn, stream, es).tcp.fed| >= |header| + |Print(chunks) + PrintLine(last)|
    requires ClearOf(Pieces(Plain(isn, []), isn, stream, es), |header| - 4)
    ensures var end := Run(parse, NewFetch(isn), isn, stream, es);
            end.decoder.phase == Done && end.body == Payload(chunks)
  {
    hide Run, Feed, Pieces, ChunkedResponse, PlainLegalRun, NoCutInside, FindEnd, ClearOf, FeedAll, Concat;
    hide Print, PrintLine;
    var f, pieces := NewFetch(isn), Pieces(Plain(isn, []), isn, stream, es);
    RunFeedsPieces(parse, f, isn, stream, es);
    var n := |Run(parse, f, isn, stream, es).tcp.fed|;
    var text := Print(chunks) + PrintLine(last);
    var rest := stream[|header| + |text|..n];
    assert stream[0..n] == header + (text + rest);
    DecodeResponse(parse, header, chunks, last, rest);
    ClearNeverCuts(parse, Reset(), pieces);
    RunDecodesStream(parse, f, isn, stream, es);
  }

  function NewFetch(isn: U32): Fetch {
    Fetch(Plain(isn, []), Reset(), [])
  }
}
