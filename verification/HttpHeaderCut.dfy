/** The header phase searches for the empty line inside one call only. This module says exactly
    which cuts of the input change the result. */
module HttpHeaderCut {
  import opened Words
  import opened HttpDecoding

  lemma {:induction false} BodyKeepsHeader(d: Decoder, data: seq<Byte>)
    ensures After(d, data).header == d.header && After(d, data).failed == d.failed
    decreases |data|
  {
    if data != [] {
      BodyKeepsHeader(Step(d, data[0]).0, data[1..]);
    }
  }

  lemma FindEndIs(data: seq<Byte>, from: nat, e: nat)
    requires from <= e < |data| && EndsAt(data, e)
    requires forall j :: from <= j < e ==> !EndsAt(data, j)
    ensures FindEnd(data, from) == e
  {
  }

  /** Two results agree: they are equal, or the header was rejected as too large in both. */
  predicate Same(x: (Decoder, seq<Byte>), y: (Decoder, seq<Byte>)) {
    x == y || (x.0.failed && y.0.failed)
  }

  function FeedTwo(parse: seq<Byte> -> Head, d: Decoder, a: seq<Byte>, b: seq<Byte>): (Decoder, seq<Byte>) {
    var (d1, out1) := Feed(parse, d, a);
    var (d2, out2) := Feed(parse, d1, b);
    (d2, out1 + out2)
  }

  /** The empty line that ends the header of `a + b` lies partly in `a` and partly in `b`, and the
      header would have fitted. */
  predicate CutInside(d: Decoder, a: seq<Byte>, b: seq<Byte>) {
    var e := FindEnd(a + b, 0);
    e < |a| < e + 4 <= |a + b| && |d.header| + e + 4 <= HEADER_CAP
  }

  lemma FailedStays(parse: seq<Byte> -> Head, d: Decoder, data: seq<Byte>)
    requires d.failed
    ensures Feed(parse, d, data).0.failed
  {
    BodyKeepsHeader(d, data);
    if d.phase == Header && data != [] {
      var e := FindEnd(data, 0);
      if e < |data| {
        var h := d.header + data[..e + 4];
        BodyKeepsHeader(StartBody(d, h, parse(h)), data[e + 4..]);
      }
    }
  }

  /** Header ends of `a + b` that do not cross the cut are those of `a` and those of `b`. */
  lemma EndsIn(a: seq<Byte>, b: seq<Byte>)
    ensures forall j :: 0 <= j < |a| && EndsAt(a, j) ==> EndsAt(a + b, j)
    ensures forall j :: 0 <= j && j + 4 <= |a| && EndsAt(a + b, j) ==> EndsAt(a, j)
    ensures forall j :: EndsAt(a, j) ==> j + 4 <= |a|
    ensures forall j :: 0 <= j < |b| ==> (EndsAt(b, j) <==> EndsAt(a + b, |a| + j))
    ensures forall j :: |a| <= j < |a + b| && EndsAt(a + b, j) ==> EndsAt(b, j - |a|)
  {
  }

  lemma FeedBody(parse: seq<Byte> -> Head, d: Decoder, data: seq<Byte>)
    requires d.phase != Header
    ensures Feed(parse, d, data) == (After(d, data), Emitted(d, data))
  {
  }

  /** A call that sees the whole header end. */
  lemma FeedFound(parse: seq<Byte> -> Head, d: Decoder, data: seq<Byte>, e: nat)
    requires d.phase == Header && FindEnd(data, 0) == e < |data|
    ensures Feed(parse, d, data) ==
            if |d.header| + e + 4 > HEADER_CAP then (d.(failed := true), [])
            else
              var h := d.header + data[..e + 4];
              (After(StartBody(d, h, parse(h)), data[e + 4..]), Emitted(StartBody(d, h, parse(h)), data[e + 4..]))
  {
  }

  /** A call that sees no header end. */
  lemma FeedNone(parse: seq<Byte> -> Head, d: Decoder, data: seq<Byte>)
    requires d.phase == Header && FindEnd(data, 0) == |data|
    ensures Feed(parse, d, data) ==
            if data != [] && |d.header| + |data| > HEADER_CAP then (d.(failed := true), [])
            else (d.(header := d.header + data), [])
  {
    assert data[..|data|] == data && d.header + [] == d.header;
  }

  /** The header ends inside `a`. */
  lemma EndInFirst(parse: seq<Byte> -> Head, d: Decoder, a: seq<Byte>, b: seq<Byte>)
    requires d.phase == Header && FindEnd(a + b, 0) + 4 <= |a|
    ensures Same(FeedTwo(parse, d, a, b), Feed(parse, d, a + b))
  {
    hide Feed, FindEnd, EndsAt;
    var e := FindEnd(a + b, 0);
    EndsIn(a, b);
    assert EndsAt(a, e) && forall j :: 0 <= j < e ==> EndsAt(a, j) ==> EndsAt(a + b, j);
    FindEndIs(a, 0, e);
    FeedFound(parse, d, a, e);
    FeedFound(parse, d, a + b, e);
    assert (a + b)[..e + 4] == a[..e + 4] && (a + b)[e + 4..] == a[e + 4..] + b;
    if |d.header| + e + 4 <= HEADER_CAP {
      var h := d.header + a[..e + 4];
      var s := StartBody(d, h, parse(h));
      BodySplit(s, a[e + 4..], b);
      StaysInBody(s, a[e + 4..]);
      FeedBody(parse, After(s, a[e + 4..]), b);
    } else {
      FailedStays(parse, d.(failed := true), b);
    }
  }

  lemma NoEndIn(data: seq<Byte>)
    requires forall j :: 0 <= j < |data| ==> !EndsAt(data, j)
    ensures FindEnd(data, 0) == |data|
  {
  }

  /** The header ends inside `b`. */
  lemma EndInSecond(parse: seq<Byte> -> Head, d: Decoder, a: seq<Byte>, b: seq<Byte>)
    requires d.phase == Header && 0 < |a| <= FindEnd(a + b, 0) < |a + b| && |d.header| + |a| <= HEADER_CAP
    ensures Same(FeedTwo(parse, d, a, b), Feed(parse, d, a + b))
  {
    hide Feed, FindEnd, EndsAt;
    var e := FindEnd(a + b, 0);
    EndsIn(a, b);
    NoEndIn(a);
    FeedNone(parse, d, a);
    EndsIn(a + b, []);
    FindEndIs(b, 0, e - |a|);
    FeedFound(parse, d.(header := d.header + a), b, e - |a|);
    FeedFound(parse, d, a + b, e);
    assert d.header + a + b[..e + 4 - |a|] == d.header + (a + b)[..e + 4];
    assert (a + b)[e + 4..] == b[e + 4 - |a|..];
    var out := Feed(parse, d.(header := d.header + a), b).1;
    assert [] + out == out;
  }

  /** The header does not end at all. */
  lemma EndNowhere(parse: seq<Byte> -> Head, d: Decoder, a: seq<Byte>, b: seq<Byte>)
    requires d.phase == Header && 0 < |a| && FindEnd(a + b, 0) == |a + b| && |d.header| + |a| <= HEADER_CAP
    ensures Same(FeedTwo(parse, d, a, b), Feed(parse, d, a + b))
  {
    hide Feed, FindEnd, EndsAt;
    EndsIn(a, b);
    NoEndIn(a);
    NoEndIn(b);
    FeedNone(parse, d, a);
    FeedNone(parse, d.(header := d.header + a), b);
    FeedNone(parse, d, a + b);
    assert d.header + a + b == d.header + (a + b);
  }

  /** `a` alone is already too large a header. */
  lemma FirstTooLarge(parse: seq<Byte> -> Head, d: Decoder, a: seq<Byte>, b: seq<Byte>)
    requires d.phase == Header && 0 < |a| <= FindEnd(a + b, 0) && |d.header| + |a| > HEADER_CAP
    ensures Same(FeedTwo(parse, d, a, b), Feed(parse, d, a + b))
  {
    hide Feed, FindEnd, EndsAt;
    EndsIn(a, b);
    NoEndIn(a);
    FeedNone(parse, d, a);
    FailedStays(parse, d.(failed := true), b);
    if FindEnd(a + b, 0) == |a + b| {
      FeedNone(parse, d, a + b);
    } else {
      FeedFound(parse, d, a + b, FindEnd(a + b, 0));
    }
  }

  /** A cut inside the empty line loses the header end: the result differs unless the header was too large. */
  lemma EndAcross(parse: seq<Byte> -> Head, d: Decoder, a: seq<Byte>, b: seq<Byte>)
    requires d.phase == Header && !d.failed
    requires var e := FindEnd(a + b, 0); e < |a| < e + 4 <= |a + b|
    ensures Same(FeedTwo(parse, d, a, b), Feed(parse, d, a + b)) <==>
            |d.header| + FindEnd(a + b, 0) + 4 > HEADER_CAP
  {
    hide Feed, FindEnd, EndsAt;
    var e := FindEnd(a + b, 0);
    EndsIn(a, b);
    NoEndIn(a);
    FeedNone(parse, d, a);
    FeedFound(parse, d, a + b, e);
    var h := d.header + (a + b)[..e + 4];
    var s := StartBody(d, h, parse(h));
    BodyKeepsHeader(s, (a + b)[e + 4..]);
    StaysInBody(s, (a + b)[e + 4..]);
    if |d.header| + |a| > HEADER_CAP {
      FailedStays(parse, d.(failed := true), b);
    } else {
      SecondPartHeader(parse, d.(header := d.header + a), b, e + 4 - |a|);
    }
  }

  /** A further call in the header phase either stays in it, or makes the header longer by at least 4 bytes. */
  lemma SecondPartHeader(parse: seq<Byte> -> Head, d: Decoder, b: seq<Byte>, k: nat)
    requires d.phase == Header && !d.failed && 0 < k < 4 && k <= |b|
    ensures var r := Feed(parse, d, b).0;
            && (|d.header| + k > HEADER_CAP ==> r.failed)
            && (r.failed || r.phase == Header || |r.header| >= |d.header| + 4)
  {
    var e := FindEnd(b, 0);
    if e == |b| {
      FeedNone(parse, d, b);
    } else {
      FeedFound(parse, d, b, e);
      var h := d.header + b[..e + 4];
      BodyKeepsHeader(StartBody(d, h, parse(h)), b[e + 4..]);
    }
  }

  /** Feeding `a` then `b` gives what feeding `a + b` gives, except exactly when the cut falls inside
      the empty line that ends a header that fits. */
  lemma HeaderCutExact(parse: seq<Byte> -> Head, d: Decoder, a: seq<Byte>, b: seq<Byte>)
    requires !d.failed
    ensures Same(FeedTwo(parse, d, a, b), Feed(parse, d, a + b)) <==> d.phase != Header || !CutInside(d, a, b)
  {
    if d.phase != Header {
      BodySplit(d, a, b);
      StaysInBody(d, a);
      FeedBody(parse, d, a);
      FeedBody(parse, After(d, a), b);
      FeedBody(parse, d, a + b);
    } else if a == [] {
      assert a + b == b && [] + Feed(parse, d, b).1 == Feed(parse, d, b).1;
    } else {
      var e := FindEnd(a + b, 0);
      if e + 4 <= |a| {
        EndInFirst(parse, d, a, b);
      } else if e >= |a| && |d.header| + |a| > HEADER_CAP {
        FirstTooLarge(parse, d, a, b);
      } else if e == |a + b| {
        EndNowhere(parse, d, a, b);
      } else if e >= |a| {
        EndInSecond(parse, d, a, b);
      } else {
        EndAcross(parse, d, a, b);
      }
    }
  }

  /** It happens: an empty header cut between its two line ends is never found, and the bytes after it are
      taken for more header. */
  lemma CutLosesHeader(parse: seq<Byte> -> Head)
    ensures var a, b := [CR, LF], [CR, LF];
            && Feed(parse, Reset(), a + b).0.phase != Header
            && FeedTwo(parse, Reset(), a, b).0.phase == Header
            && !Same(FeedTwo(parse, Reset(), a, b), Feed(parse, Reset(), a + b))
  {
    hide Feed, FindEnd;
    var a, b := [CR, LF], [CR, LF];
    var d := Reset().(header := [] + a);
    assert EndsAt(a + b, 0);
    FindEndIs(a + b, 0, 0);
    NoEndIn(a);
    FeedFound(parse, Reset(), a + b, 0);
    FeedNone(parse, Reset(), a);
    FeedNone(parse, d, b);
    var h := [] + (a + b)[..4];
    StaysInBody(StartBody(Reset(), h, parse(h)), (a + b)[4..]);
  }

  /** No boundary between pieces falls inside the empty line that ends the header. */
  predicate NoCutInside(parse: seq<Byte> -> Head, d: Decoder, pieces: seq<seq<Byte>>)
    decreases |pieces|
  {
    pieces == [] || d.phase != Header || d.failed ||
    (!CutInside(d, pieces[0], Concat(pieces[1..])) && NoCutInside(parse, Feed(parse, d, pieces[0]).0, pieces[1..]))
  }

  lemma {:induction false} AllFailedStays(parse: seq<Byte> -> Head, d: Decoder, pieces: seq<seq<Byte>>)
    requires d.failed
    ensures FeedAll(parse, d, pieces).0.failed
    decreases |pieces|
  {
    if pieces != [] {
      FailedStays(parse, d, pieces[0]);
      AllFailedStays(parse, Feed(parse, d, pieces[0]).0, pieces[1..]);
    }
  }

  /** Further calls in the header phase fail, stay in it, or make the header longer by at least 4 bytes. */
  lemma {:induction false} HeaderGrows(parse: seq<Byte> -> Head, d: Decoder, pieces: seq<seq<Byte>>)
    requires d.phase == Header && !d.failed
    ensures var r := FeedAll(parse, d, pieces).0;
            r.failed || r.phase == Header || |r.header| >= |d.header| + 4
    decreases |pieces|
  {
    hide Feed, FindEnd;
    if pieces != [] {
      var d1 := Feed(parse, d, pieces[0]).0;
      OneCall(parse, d, pieces[0]);
      if d1.failed {
        AllFailedStays(parse, d1, pieces[1..]);
      } else if d1.phase == Header {
        HeaderGrows(parse, d1, pieces[1..]);
      } else {
        PartitionIrrelevant(parse, d1, pieces[1..]);
        FeedBody(parse, d1, Concat(pieces[1..]));
        BodyKeepsHeader(d1, Concat(pieces[1..]));
      }
    }
  }

  lemma OneCall(parse: seq<Byte> -> Head, d: Decoder, data: seq<Byte>)
    requires d.phase == Header && !d.failed
    ensures var r := Feed(parse, d, data).0;
            r.failed || |r.header| >= |d.header| + if r.phase == Header then 0 else 4
  {
    hide Feed, FindEnd;
    var e := FindEnd(data, 0);
    if e < |data| {
      FeedFound(parse, d, data, e);
      var h := d.header + data[..e + 4];
      BodyKeepsHeader(StartBody(d, h, parse(h)), data[e + 4..]);
    } else {
      FeedNone(parse, d, data);
    }
  }

  /** Once the closing empty line has been cut, no later piece makes up for it. */
  lemma CutNeverHeals(parse: seq<Byte> -> Head, d: Decoder, a: seq<Byte>, pieces: seq<seq<Byte>>)
    requires d.phase == Header && !d.failed && CutInside(d, a, Concat(pieces))
    ensures !Same(FeedAll(parse, Feed(parse, d, a).0, pieces), Feed(parse, d, a + Concat(pieces)))
    ensures Feed(parse, d, a).1 == []
  {
    hide Feed, FindEnd, EndsAt, FeedAll, Concat;
    var b := Concat(pieces);
    var e := FindEnd(a + b, 0);
    EndsIn(a, b);
    NoEndIn(a);
    FeedNone(parse, d, a);
    FeedFound(parse, d, a + b, e);
    var h := d.header + (a + b)[..e + 4];
    BodyKeepsHeader(StartBody(d, h, parse(h)), (a + b)[e + 4..]);
    StaysInBody(StartBody(d, h, parse(h)), (a + b)[e + 4..]);
    HeaderGrows(parse, d.(header := d.header + a), pieces);
  }

  lemma SameTransitive(x: (Decoder, seq<Byte>), y: (Decoder, seq<Byte>), z: (Decoder, seq<Byte>))
    requires Same(y, z)
    ensures Same(x, y) <==> Same(x, z)
  {
  }

  lemma SamePrefixed(out: seq<Byte>, x: (Decoder, seq<Byte>), y: (Decoder, seq<Byte>))
    ensures Same((x.0, out + x.1), (y.0, out + y.1)) <==> Same(x, y)
  {
    assert (out + x.1)[|out|..] == x.1 && (out + y.1)[|out|..] == y.1;
  }

  /** A whole response, header and body, decodes like one call under exactly those partitions that do not cut
      inside the header's closing empty line. */
  lemma {:induction false} WholeResponsePartition(parse: seq<Byte> -> Head, d: Decoder, pieces: seq<seq<Byte>>)
    requires !d.failed
    ensures Same(FeedAll(parse, d, pieces), Feed(parse, d, Concat(pieces))) <==> NoCutInside(parse, d, pieces)
    decreases |pieces|
  {
    hide Feed, CutInside;
    if d.phase != Header {
      PartitionIrrelevant(parse, d, pieces);
    } else if pieces == [] {
      FeedNothing(parse, d);
    } else {
      var d1, out1, rest := Feed(parse, d, pieces[0]).0, Feed(parse, d, pieces[0]).1, Concat(pieces[1..]);
      HeaderCutExact(parse, d, pieces[0], rest);
      if CutInside(d, pieces[0], rest) {
        CutNeverHeals(parse, d, pieces[0], pieces[1..]);
        assert out1 + FeedAll(parse, d1, pieces[1..]).1 == FeedAll(parse, d1, pieces[1..]).1;
      } else {
        SameTransitive(FeedAll(parse, d, pieces), FeedTwo(parse, d, pieces[0], rest), Feed(parse, d, pieces[0] + rest));
        if d1.failed {
          AllFailedStays(parse, d1, pieces[1..]);
          FailedStays(parse, d1, rest);
        } else if d1.phase != Header {
          PartitionIrrelevant(parse, d1, pieces[1..]);
        } else {
          WholeResponsePartition(parse, d1, pieces[1..]);
          SamePrefixed(out1, FeedAll(parse, d1, pieces[1..]), Feed(parse, d1, rest));
        }
      }
    }
  }

  lemma FeedNothing(parse: seq<Byte> -> Head, d: Decoder)
    ensures Feed(parse, d, []) == (d, [])
  {
  }
}
