/** A fetch together with the decoder that its response bytes go to. The decoder is reset when a fetch starts, and
    not when a round of it is started over. */
module FetchDecoding {
  import opened Words
  import opened HttpDecoding
  import opened HttpHeaderCut
  import opened HttpChunks
  import Fetch
  import PlainHttp

  /** `body` holds the bytes decoded since the fetch started. */
  datatype Download = Download(fetch: Fetch.Fetch, decoder: Decoder, body: seq<Byte>)

  /** Response bytes reach the decoder while the transfer goes on; the rest is the fetch's own. */
  datatype Event = Control(event: Fetch.Event) | Bytes(data: seq<Byte>)

  function Begin(f: Fetch.Fetch, t: Fetch.Target, redirected: bool): Download {
    Download(Fetch.Start(f, t, redirected), Reset(), [])
  }

  /** The end of the main loop starts the fetch that follows a redirect. */
  predicate Restarts(f: Fetch.Fetch, e: Fetch.Event) {
    e.LoopEnd? && e.started && f.conn.phase == Fetch.Done && f.pending
  }

  function Follow(parse: seq<Byte> -> Head, d: Download, e: Event): Download {
    match e
    case Control(c) =>
      if Restarts(d.fetch, c) then Begin(d.fetch, c.target, true) else d.(fetch := Fetch.Step(d.fetch, c))
    case Bytes(data) =>
      if d.fetch.conn.phase != Fetch.Transfer then d
      else
        var (r, out) := Feed(parse, d.decoder, data);
        var conn := if r.failed then d.fetch.conn.(phase := Fetch.Done) else d.fetch.conn;
        Download(d.fetch.(conn := conn), r, d.body + out)
  }

  function Run(parse: seq<Byte> -> Head, d: Download, es: seq<Event>): Download
    decreases |es|
  {
    if es == [] then d else Run(parse, Follow(parse, d, es[0]), es[1..])
  }

  /** The pieces of response bytes that the decoder is given in a run. */
  function Fed(parse: seq<Byte> -> Head, d: Download, es: seq<Event>): seq<seq<Byte>>
    decreases |es|
  {
    if es == [] then []
    else
      (if es[0].Bytes? && d.fetch.conn.phase == Fetch.Transfer then [es[0].data] else [])
      + Fed(parse, Follow(parse, d, es[0]), es[1..])
  }

  predicate WithinFetch(es: seq<Event>) {
    forall i :: 0 <= i < |es| ==> !(es[i].Control? && es[i].event.LoopEnd?)
  }

  lemma FedCons(parse: seq<Byte> -> Head, d: Decoder, piece: seq<Byte>, pieces: seq<seq<Byte>>, body: seq<Byte>)
    ensures var (r, out), all := Feed(parse, d, piece), FeedAll(parse, d, [piece] + pieces);
            all.0 == FeedAll(parse, r, pieces).0 && body + all.1 == (body + out) + FeedAll(parse, r, pieces).1
  {
    hide Feed;
    assert ([piece] + pieces)[1..] == pieces;
  }

  /** Within a fetch, the decoder has been given all pieces of all rounds, one after another. */
  lemma {:induction false} RunFeeds(parse: seq<Byte> -> Head, d: Download, es: seq<Event>)
    requires WithinFetch(es)
    ensures var end, r := Run(parse, d, es), FeedAll(parse, d.decoder, Fed(parse, d, es));
            end.decoder == r.0 && end.body == d.body + r.1
    decreases |es|
  {
    hide Feed;
    if es == [] {
      assert d.body + [] == d.body;
    } else {
      var e, next := es[0], Follow(parse, d, es[0]);
      RunFeeds(parse, next, es[1..]);
      var rest := Fed(parse, next, es[1..]);
      if e.Bytes? && d.fetch.conn.phase == Fetch.Transfer {
        FedCons(parse, d.decoder, e.data, rest, d.body);
      } else {
        assert [] + rest == rest;
      }
    }
  }

  /** A new decoder that has been given some bytes, and has not failed, remembers some of them. */
  lemma {:induction false} RemembersBytes(parse: seq<Byte> -> Head, d: Decoder, pieces: seq<seq<Byte>>)
    requires !d.failed && Clean(d) && (d.phase != Header ==> d.header != [])
    ensures var r := FeedAll(parse, d, pieces).0;
            r.failed || (Clean(r) && (r.phase != Header ==> r.header != []) &&
                         (Concat(pieces) != [] || d.header != [] ==> r.header != []))
    ensures Concat(pieces) == [] ==> FeedAll(parse, d, pieces) == (d, [])
    decreases |pieces|
  {
    hide Feed, Clean;
    if pieces != [] {
      var r := Feed(parse, d, pieces[0]).0;
      OneRemembers(parse, d, pieces[0]);
      assert Concat(pieces) == [] ==> pieces[0] == [] && Concat(pieces[1..]) == [];
      if r.failed {
        AllFailedStays(parse, r, pieces[1..]);
      } else {
        RemembersBytes(parse, r, pieces[1..]);
      }
    }
  }

  lemma OneRemembers(parse: seq<Byte> -> Head, d: Decoder, data: seq<Byte>)
    requires Clean(d) && (d.phase != Header ==> d.header != [])
    ensures var r := Feed(parse, d, data).0;
            r.failed || (Clean(r) && (r.phase != Header ==> r.header != []) &&
                         (data != [] || d.header != [] ==> r.header != []))
    ensures data == [] ==> Feed(parse, d, data) == (d, [])
  {
    hide Feed, FindEnd;
    var e := FindEnd(data, 0);
    assert d.header + [] == d.header;
    if d.phase != Header {
      FeedBody(parse, d, data);
      AfterClean(d, data);
      BodyKeepsHeader(d, data);
    } else if e == |data| {
      FeedNone(parse, d, data);
    } else {
      FeedFound(parse, d, data, e);
      var s := StartBody(d, d.header + data[..e + 4], parse(d.header + data[..e + 4]));
      AfterClean(s, data[e + 4..]);
      BodyKeepsHeader(s, data[e + 4..]);
    }
  }

  const EMPTY_LINE: seq<Byte> := [CR, LF, CR, LF]

  /** The body that gives away a new decoder: it emits something of it. */
  function Telltale(head: Head): seq<Byte> {
    if head.chunked then [49, CR, LF, 65] else [65]
  }

  /** A header of `n + 4` bytes. */
  function LongHeader(n: nat): seq<Byte> {
    seq(n, _ => 65) + EMPTY_LINE
  }

  lemma LongHeaderEnds(n: nat, rest: seq<Byte>)
    ensures FindEnd(LongHeader(n) + rest, 0) == n && (LongHeader(n) + rest)[..n + 4] == LongHeader(n)
    ensures (LongHeader(n) + rest)[n + 4..] == rest
  {
    var w := LongHeader(n) + rest;
    assert forall j :: 0 <= j < n ==> w[j] == 65;
    FindEndIs(w, 0, n);
    assert |LongHeader(n)| == n + 4;
    assert w[..n + 4] == LongHeader(n) && w[n + 4..] == rest;
  }

  lemma TelltaleEmitted(d: Decoder, head: Head)
    requires d.received == 0 && d.size == 0 && !d.ext && !d.expectLf
    requires d.phase == (if head.chunked then SizeLine else Fixed) && d.contentLen == head.contentLen
    ensures Emitted(d, Telltale(head)) == [65]
  {
    if head.chunked {
      var w1, w2, w3: seq<Byte> := [CR, LF, 65], [LF, 65], [65];
      assert Telltale(head)[1..] == w1 && w1[1..] == w2 && w2[1..] == w3;
      var a := Step(d, 49).0;
      var b := Step(a, CR).0;
      var c := Step(b, LF).0;
      assert c.phase == ChunkData && c.remain == 1;
      OneByte(c);
      assert Emitted(b, w2) == Emitted(c, w3);
      assert Emitted(a, w1) == Emitted(b, w2);
    } else {
      OneByte(d);
    }
  }

  lemma OneByte(d: Decoder)
    ensures Emitted(d, [65]) == Step(d, 65).1
  {
    var none: seq<Byte> := [65][1..];
    assert none == [];
    assert Emitted(Step(d, 65).0, none) == [];
  }

  /** A new decoder emits the telltale body behind a header that fits. */
  lemma NewEmits(parse: seq<Byte> -> Head, n: nat)
    requires n + 4 <= HEADER_CAP
    ensures Feed(parse, Reset(), LongHeader(n) + Telltale(parse(LongHeader(n)))).1 == [65]
  {
    hide Feed, FindEnd, Emitted;
    var h := LongHeader(n);
    LongHeaderEnds(n, Telltale(parse(h)));
    FeedFound(parse, Reset(), h + Telltale(parse(h)), n);
    assert [] + h == h;
    TelltaleEmitted(StartBody(Reset(), h, parse(h)), parse(h));
  }

  /** In the middle of a body an empty line is either taken for body, or leads to a decoder that emits nothing. */
  lemma EmptyLineTells(d: Decoder)
    requires d.phase != Header && Clean(d) && Emitted(d, EMPTY_LINE) == []
    ensures var r := After(d, EMPTY_LINE);
            r.phase == Done || (r.phase == Fixed && r.contentLen > 0 && r.received >= r.contentLen)
  {
    hide StepSizeLine;
    var a, b, c := Step(d, CR).0, Step(Step(d, CR).0, LF).0, Step(Step(Step(d, CR).0, LF).0, CR).0;
    FourBytes(d);
    if d.phase == SizeLine {
      SizeLineEnds(d);
      if d.size == 0 {
        assert b.phase == Done;
      }
    } else if d.phase == ChunkEnd {
      assert a.phase == SizeLine && a.size == 0;
      AnotherLine(a);
    }
  }

  lemma FourBytes(d: Decoder)
    ensures var a, b := Step(d, CR).0, Step(Step(d, CR).0, LF).0;
            var c := Step(b, CR).0;
            && After(d, EMPTY_LINE) == Step(c, LF).0
            && Emitted(d, EMPTY_LINE) == Step(d, CR).1 + (Step(a, LF).1 + (Step(b, CR).1 + Step(c, LF).1))
  {
    hide Step;
    var w1, w2, w3, none: seq<Byte> := [LF, CR, LF], [CR, LF], [LF], [];
    assert EMPTY_LINE[1..] == w1 && w1[1..] == w2 && w2[1..] == w3 && w3[1..] == none;
    var a, b := Step(d, CR).0, Step(Step(d, CR).0, LF).0;
    var c := Step(b, CR).0;
    NoBytes(Step(c, LF).0);
    assert After(c, w3) == Step(c, LF).0 && Emitted(c, w3) == Step(c, LF).1;
    assert After(b, w2) == After(c, w3) && Emitted(b, w2) == Step(b, CR).1 + Emitted(c, w3);
    assert After(a, w1) == After(b, w2) && Emitted(a, w1) == Step(a, LF).1 + Emitted(b, w2);
    assert After(d, EMPTY_LINE) == After(a, w1) && Emitted(d, EMPTY_LINE) == Step(d, CR).1 + Emitted(a, w1);
  }

  lemma NoBytes(d: Decoder)
    ensures After(d, []) == d && Emitted(d, []) == []
  {
  }

  lemma SizeLineEnds(d: Decoder)
    requires d.phase == SizeLine
    ensures var b := Step(Step(d, CR).0, LF).0;
            b.phase == (if d.size == 0 then Done else ChunkData) && b.remain == d.size
  {
  }

  /** After the end of a chunk the line feed is passed over, and the next line end is read as size 0. */
  lemma AnotherLine(a: Decoder)
    requires a.phase == SizeLine && a.size == 0 && !a.ext && !a.expectLf
    ensures var b := Step(a, LF).0; Step(Step(b, CR).0, LF).0.phase == Done
  {
  }

  /** A response that a decoder which remembers something treats differently from a new one. */
  lemma OldDecoderDiffers(parse: seq<Byte> -> Head, d: Decoder)
    requires Clean(d) && d.header != []
    ensures exists w :: Feed(parse, d, w).1 != Feed(parse, Reset(), w).1
  {
    hide Feed, FindEnd, Emitted, After, EndsAt, Clean, Telltale;
    if d.phase == Header {
      var n := HEADER_CAP - 4;
      var h, body := LongHeader(n), Telltale(parse(LongHeader(n)));
      NewEmits(parse, n);
      LongHeaderEnds(n, body);
      FeedFound(parse, d, h + body, n);
      assert Feed(parse, d, h + body).1 == [];
    } else {
      OldBodyDiffers(parse, d);
    }
  }

  lemma OldBodyDiffers(parse: seq<Byte> -> Head, d: Decoder)
    requires Clean(d) && d.phase != Header
    ensures exists w :: Feed(parse, d, w).1 != Feed(parse, Reset(), w).1
  {
    hide Feed, FindEnd, Emitted, After, EndsAt, Clean, Telltale;
    var h, body := LongHeader(0), Telltale(parse(LongHeader(0)));
    assert h == EMPTY_LINE;
    if Emitted(d, h) != [] {
      var none: seq<Byte> := [];
      LongHeaderEnds(0, none);
      assert h + none == h;
      FeedFound(parse, Reset(), h, 0);
      NoBytes(StartBody(Reset(), Reset().header + h, parse(Reset().header + h)));
      FeedBody(parse, d, h);
      assert Feed(parse, Reset(), h).1 == [];
    } else {
      NewEmits(parse, 0);
      EmptyLineTells(d);
      BodySplit(d, h, body);
      DoneIgnores(After(d, h), body);
      FeedBody(parse, d, h + body);
      assert Feed(parse, d, h + body).1 == [];
    }
  }

  /** What it takes to get from the start of a round to its transfer, whatever the round has to find out. */
  function ToTransfer(): seq<Event> {
    [Control(Fetch.GatewayLearned), Control(Fetch.NameResolved(1)),
     Control(Fetch.Connected(Fetch.Rest(false, 0, 0, false)))]
  }

  lemma {:induction false} RunAppend(parse: seq<Byte> -> Head, d: Download, es: seq<Event>, fs: seq<Event>)
    ensures Run(parse, d, es + fs) == Run(parse, Run(parse, d, es), fs)
    ensures Fed(parse, d, es + fs) == Fed(parse, d, es) + Fed(parse, Run(parse, d, es), fs)
    decreases |es|
  {
    hide Follow;
    if es == [] {
      assert es + fs == fs;
    } else {
      assert (es + fs)[0] == es[0] && (es + fs)[1..] == es[1..] + fs;
      var next := Follow(parse, d, es[0]);
      RunAppend(parse, next, es[1..], fs);
      var head := if es[0].Bytes? && d.fetch.conn.phase == Fetch.Transfer then [es[0].data] else [];
      assert Fed(parse, d, es + fs) == head + (Fed(parse, next, es[1..]) + Fed(parse, Run(parse, next, es[1..]), fs));
    }
  }

  lemma RunOne(parse: seq<Byte> -> Head, d: Download, e: Event)
    ensures Run(parse, d, [e]) == Follow(parse, d, e)
    ensures Fed(parse, d, [e]) == if e.Bytes? && d.fetch.conn.phase == Fetch.Transfer then [e.data] else []
  {
    hide Follow;
    var none: seq<Event> := [e][1..];
    assert none == [];
  }

  /** A round can reach its transfer, and then be given any response. */
  lemma RoundReachesTransfer(parse: seq<Byte> -> Head, d: Download)
    requires d.fetch.conn.phase == Fetch.Arp || d.fetch.conn.phase == Fetch.Dns || d.fetch.conn.phase == Fetch.Syn
    ensures var r := Run(parse, d, ToTransfer());
            r.fetch.conn.phase == Fetch.Transfer && r.decoder == d.decoder && r.body == d.body
    ensures Fed(parse, d, ToTransfer()) == []
  {
    hide Feed, Run, Fed;
    var es := ToTransfer();
    assert es == ([es[0]] + [es[1]]) + [es[2]];
    RunAppend(parse, d, [es[0]] + [es[1]], [es[2]]);
    RunAppend(parse, d, [es[0]], [es[1]]);
    RunOne(parse, d, es[0]);
    var a := Follow(parse, d, es[0]);
    RunOne(parse, a, es[1]);
    var b := Follow(parse, a, es[1]);
    RunOne(parse, b, es[2]);
  }

  lemma RoundGiven(parse: seq<Byte> -> Head, d: Download, w: seq<Byte>)
    requires d.fetch.conn.phase == Fetch.Arp || d.fetch.conn.phase == Fetch.Dns || d.fetch.conn.phase == Fetch.Syn
    ensures var es := ToTransfer() + [Bytes(w)];
            && WithinFetch(es) && Fed(parse, d, es) == [w]
            && Run(parse, d, es).body == d.body + Feed(parse, d.decoder, w).1
  {
    hide Feed, Run, Fed;
    RoundReachesTransfer(parse, d);
    RunAppend(parse, d, ToTransfer(), [Bytes(w)]);
    RunOne(parse, Run(parse, d, ToTransfer()), Bytes(w));
    assert [] + [w] == [w];
  }

  lemma FedOne(parse: seq<Byte> -> Head, d: Decoder, w: seq<Byte>)
    ensures FeedAll(parse, d, [w]) == Feed(parse, d, w)
  {
    hide Feed;
    var none: seq<seq<Byte>> := [w][1..];
    assert none == [];
    assert Feed(parse, d, w).1 + [] == Feed(parse, d, w).1;
  }

  /** The body that the rest of the fetch adds is that of its own response bytes. */
  predicate DecodesAfresh(parse: seq<Byte> -> Head, d: Download, es: seq<Event>) {
    Run(parse, d, es).body == d.body + FeedAll(parse, Reset(), Fed(parse, d, es)).1
  }

  /** An expired deadline starts a round over and leaves the decoder as it is. So whatever arrives from then on is
      decoded as the response it is, in every run, exactly when no response byte had arrived before. */
  lemma RoundDecodesIff(parse: seq<Byte> -> Head, f: Fetch.Fetch, t: Fetch.Target, redirected: bool, es: seq<Event>,
                        now: nat, sent: bool, built: bool, rest: Fetch.Rest)
    requires WithinFetch(es)
    requires var g := Run(parse, Begin(f, t, redirected), es);
             !g.decoder.failed && g.fetch.conn.phase != Fetch.Idle &&
             Fetch.Expired(g.fetch, now) && g.fetch.conn.rounds < Fetch.MAX_ROUNDS
    ensures var g := Run(parse, Begin(f, t, redirected), es);
            var h := Follow(parse, g, Control(Fetch.Tick(now, sent, built, rest)));
            && h.fetch.conn.rounds == g.fetch.conn.rounds + 1 && h.decoder == g.decoder && h.body == g.body
            && ((forall fs :: WithinFetch(fs) ==> DecodesAfresh(parse, h, fs)) <==>
                Concat(Fed(parse, Begin(f, t, redirected), es)) == [])
  {
    hide Feed, Run, Fed, Concat, FeedAll, Clean, WithinFetch;
    var d := Begin(f, t, redirected);
    var g, pieces := Run(parse, d, es), Fed(parse, d, es);
    var h := Follow(parse, g, Control(Fetch.Tick(now, sent, built, rest)));
    RunFeeds(parse, d, es);
    ResetClean();
    RemembersBytes(parse, Reset(), pieces);
    if Concat(pieces) == [] {
      forall fs | WithinFetch(fs) ensures DecodesAfresh(parse, h, fs) {
        RunFeeds(parse, h, fs);
      }
    } else {
      OldDecoderDiffers(parse, h.decoder);
      var w :| Feed(parse, h.decoder, w).1 != Feed(parse, Reset(), w).1;
      RoundGiven(parse, h, w);
      FedOne(parse, Reset(), w);
      var x, y := Feed(parse, h.decoder, w).1, Feed(parse, Reset(), w).1;
      assert (h.body + x)[|h.body|..] == x && (h.body + y)[|h.body|..] == y;
      assert !DecodesAfresh(parse, h, ToTransfer() + [Bytes(w)]);
    }
  }

  lemma ResetClean()
    ensures Clean(Reset())
  {
  }

  /** A response whose header fits and announces the length of its body. */
  predicate FixedResponse(parse: seq<Byte> -> Head, header: seq<Byte>, data: seq<Byte>) {
    && 4 <= |header| <= HEADER_CAP && FindEnd(header, 0) == |header| - 4
    && 0 < |data| <= U64_MAX && parse(header) == Head(false, |data|)
  }

  /** The part of such a response that a first round was given. */
  lemma FirstPart(parse: seq<Byte> -> Head, header: seq<Byte>, data: seq<Byte>, m: nat)
    requires FixedResponse(parse, header, data) && m <= |data|
    ensures var r := Feed(parse, Reset(), header + data[..m]);
            && r.1 == data[..m] && !r.0.failed
            && (m < |data| ==> r.0.phase == Fixed && r.0.contentLen == |data| && r.0.received == m)
            && (m == |data| ==> r.0.phase == Done)
  {
    hide Feed, FindEnd, EndsAt, After, Emitted;
    var w := header + data[..m];
    EndsIn(header, data[..m]);
    FindEndIs(w, 0, |header| - 4);
    FeedFound(parse, Reset(), w, |header| - 4);
    assert w[..|header|] == header && w[|header|..] == data[..m] && [] + header == header;
    var s := StartBody(Reset(), header, parse(header));
    FixedExact(s, data[..m]);
    BodyKeepsHeader(s, data[..m]);
    assert data[..m][..m] == data[..m];
  }

  /** A round that is started over after `m` body bytes, and is sent the whole response again, ends with the right
      body exactly when what was missing happens to be how the response begins. */
  lemma FixedRestartIff(parse: seq<Byte> -> Head, header: seq<Byte>, data: seq<Byte>, m: nat,
                        first: seq<seq<Byte>>, second: seq<seq<Byte>>)
    requires FixedResponse(parse, header, data) && m <= |data|
    requires Concat(first) == header + data[..m] && NoCutInside(parse, Reset(), first)
    requires Concat(second) == header + data
    ensures FeedAll(parse, Reset(), first + second).1 == data <==> data[m..] == (header + data)[..|data| - m]
  {
    hide Feed, FeedAll, FindEnd, NoCutInside, Concat;
    var w := header + data;
    FirstPart(parse, header, data, m);
    WholeResponsePartition(parse, Reset(), first);
    var d := FeedAll(parse, Reset(), first).0;
    PlainHttp.FeedBoth(parse, Reset(), first, second);
    PartitionIrrelevant(parse, d, second);
    FeedBody(parse, d, w);
    if m < |data| {
      FixedExact(d, w);
      assert FeedAll(parse, Reset(), first + second).1 == data[..m] + w[..|data| - m];
    } else {
      DoneIgnores(d, w);
      assert data[..m] + [] == data;
    }
    assert data == data[..m] + data[m..];
    assert (data[..m] + w[..|data| - m])[m..] == w[..|data| - m];
  }

  /** The whole run of a fetch that is started over in the middle of a response. */
  function TwoRounds(half: seq<Byte>, whole: seq<Byte>): seq<Event> {
    [Control(Fetch.Tick(1, true, true, Fetch.OVER))]
    + ((ToTransfer() + [Bytes(half)])
       + ([Control(Fetch.Tick(30_002, true, true, Fetch.OVER))] + (ToTransfer() + [Bytes(whole)])))
  }

  lemma StaysOnTime(parse: seq<Byte> -> Head, d: Download, w: seq<Byte>)
    requires d.fetch.conn.phase == Fetch.Dns
    ensures var r := Run(parse, d, ToTransfer() + [Bytes(w)]);
            && r.decoder == Feed(parse, d.decoder, w).0 && r.body == d.body + Feed(parse, d.decoder, w).1
            && r.fetch.deadline == d.fetch.deadline && r.fetch.conn.rounds == d.fetch.conn.rounds
            && r.fetch.conn.phase != Fetch.Idle && r.fetch.conn.haveGw == d.fetch.conn.haveGw
            && r.fetch.conn.proxy == d.fetch.conn.proxy && r.fetch.conn.fixed == d.fetch.conn.fixed
  {
    hide Feed, Run, Fed;
    var es := ToTransfer();
    assert es + [Bytes(w)] == (([es[0]] + [es[1]]) + [es[2]]) + [Bytes(w)];
    RunAppend(parse, d, ([es[0]] + [es[1]]) + [es[2]], [Bytes(w)]);
    RunAppend(parse, d, [es[0]] + [es[1]], [es[2]]);
    RunAppend(parse, d, [es[0]], [es[1]]);
    RunOne(parse, d, es[0]);
    var a := Follow(parse, d, es[0]);
    RunOne(parse, a, es[1]);
    var b := Follow(parse, a, es[1]);
    RunOne(parse, b, es[2]);
    RunOne(parse, Follow(parse, b, es[2]), Bytes(w));
  }

  /** It happens: a response "ab" is cut off after its "a"; the deadline starts a round over, the response arrives
      again, and the body ends as "a" and the first byte of the header. */
  lemma RestartGarbles(parse: seq<Byte> -> Head, f: Fetch.Fetch)
    requires parse(EMPTY_LINE) == Head(false, 2)
    ensures var end := Run(parse, Begin(f, Fetch.WARM, false), TwoRounds(EMPTY_LINE + [97], EMPTY_LINE + [97, 98]));
            end.decoder.phase == Done && end.body == [97, CR]
  {
    hide Feed, Run, FindEnd, FeedAll, EndsAt;
    var half, whole: seq<Byte> := EMPTY_LINE + [97], EMPTY_LINE + [97, 98];
    var tick := Control(Fetch.Tick(1, true, true, Fetch.OVER));
    var late := Control(Fetch.Tick(30_002, true, true, Fetch.OVER));
    var d := Begin(f, Fetch.WARM, false);
    var again := ToTransfer() + [Bytes(whole)];
    RunAppend(parse, d, [tick], (ToTransfer() + [Bytes(half)]) + ([late] + again));
    RunOne(parse, d, tick);
    var a := Follow(parse, d, tick);
    RunAppend(parse, a, ToTransfer() + [Bytes(half)], [late] + again);
    StaysOnTime(parse, a, half);
    var b := Run(parse, a, ToTransfer() + [Bytes(half)]);
    RunAppend(parse, b, [late], again);
    RunOne(parse, b, late);
    var c := Follow(parse, b, late);
    assert Fetch.Expired(b.fetch, 30_002) && c.fetch.conn.phase == Fetch.Dns;
    StaysOnTime(parse, c, whole);
    HalfFed(parse);
    WholeFed(parse, c.decoder);
  }

  lemma HalfFed(parse: seq<Byte> -> Head)
    requires parse(EMPTY_LINE) == Head(false, 2)
    ensures var r := Feed(parse, Reset(), EMPTY_LINE + [97]);
            r.1 == [97] && r.0.phase == Fixed && r.0.contentLen == 2 && r.0.received == 1
  {
    hide Feed, FindEnd;
    var data: seq<Byte> := [97, 98];
    FindEndIs(EMPTY_LINE, 0, 0);
    FirstPart(parse, EMPTY_LINE, data, 1);
    assert data[..1] == [97];
  }

  lemma WholeFed(parse: seq<Byte> -> Head, d: Decoder)
    requires d.phase == Fixed && d.contentLen == 2 && d.received == 1
    ensures var r := Feed(parse, d, EMPTY_LINE + [97, 98]); r.0.phase == Done && r.1 == [CR]
  {
    hide Feed;
    var w: seq<Byte> := EMPTY_LINE + [97, 98];
    FeedBody(parse, d, w);
    FixedExact(d, w);
    assert w[..1] == [CR];
  }
}
