/** Building an outgoing TCP frame in the transmit buffer, and parsing one out of a receive buffer. */
module TcpFrame {
  import opened Words
  import opened Checksum
  import opened Options
  import TxQueue

  const BUF_LEN: nat := 8192
  const HEADERS: nat := 64

  datatype Header = Header(
    srcMac: seq<Byte>, srcIp: seq<Byte>, srcPort: U16,
    dstMac: seq<Byte>, dstIp: seq<Byte>, dstPort: U16,
    seqNo: U32, ackNo: U32, flags: Byte)
  {
    predicate Valid() {
      |srcMac| == 6 && |dstMac| == 6 && |srcIp| == 4 && |dstIp| == 4
    }
  }

  function Be32(v: U32): (b: seq<Byte>)
    ensures |b| == 4 && Word32(b) == v
  {
    Be16(v / 0x1_0000) + Be16(v % 0x1_0000)
  }

  function Word16(b: seq<Byte>): int
    requires |b| >= 2
  {
    Word(b[0], b[1])
  }

  function Word32(b: seq<Byte>): int
    requires |b| >= 4
  {
    0x1_0000 * Word16(b) + Word16(b[2..])
  }

  function EthHeader(h: Header): (b: seq<Byte>)
    requires h.Valid()
    ensures |b| == 14
  {
    h.dstMac + h.srcMac + [0x08, 0x00]
  }

  /** The IP header around its checksum. */
  function IpHead(len: U16): (b: seq<Byte>)
    ensures |b| == 10
  {
    [0x45, 0x00] + Be16(len) + [0, 0, 0, 0, 64, 6]
  }

  function IpHeader(h: Header, len: U16, csum: U16): (b: seq<Byte>)
    requires h.Valid()
    ensures |b| == 20
  {
    IpHead(len) + Be16(csum) + (h.srcIp + h.dstIp)
  }

  /** The TCP header before its checksum. */
  function TcpHead(h: Header): (b: seq<Byte>)
    ensures |b| == 16
  {
    Be16(h.srcPort) + Be16(h.dstPort) + Be32(h.seqNo) + Be32(h.ackNo) + [0x50, h.flags] + Be16(16384)
  }

  function TcpHeader(h: Header, csum: U16): (b: seq<Byte>)
    ensures |b| == 20
  {
    TcpHead(h) + Be16(csum) + [0, 0]
  }

  function IpSum(h: Header, len: U16): U16
    requires h.Valid()
  {
    Check(IpHeader(h, len, 0))
  }

  function TcpSum(h: Header, payload: seq<Byte>): U16
    requires h.Valid() && |payload| + HEADERS <= BUF_LEN
  {
    Check(Pseudo(h.srcIp, h.dstIp, 20 + |payload|) + (TcpHeader(h, 0) + payload))
  }

  function Segment(h: Header, payload: seq<Byte>): seq<Byte>
    requires h.Valid() && |payload| + HEADERS <= BUF_LEN
  {
    TcpHeader(h, TcpSum(h, payload)) + payload
  }

  /** The virtio-net header, then the Ethernet frame. */
  function Frame(h: Header, payload: seq<Byte>): (b: seq<Byte>)
    requires h.Valid() && |payload| + HEADERS <= BUF_LEN
    ensures |b| == HEADERS + |payload|
  {
    var len := 40 + |payload|;
    Zeros(10) + EthHeader(h) + IpHeader(h, len, IpSum(h, len)) + Segment(h, payload)
  }

  /** Both checksums of a built frame verify at the receiver, whatever the header and for odd and even
      payloads. */
  lemma FrameVerifies(h: Header, payload: seq<Byte>)
    requires h.Valid() && |payload| + HEADERS <= BUF_LEN
    ensures var f := Frame(h, payload);
            Verifies(f[24..44]) && Verifies(Pseudo(h.srcIp, h.dstIp, 20 + |payload|) + f[44..])
  {
    hide Verifies, Check, Be16, Be32;
    var f, len := Frame(h, payload), 40 + |payload|;
    assert f[24..44] == IpHeader(h, len, IpSum(h, len));
    assert f[44..] == Segment(h, payload);
    IpVerifies(h, len);
    SegmentVerifies(h, payload);
  }

  /** A checksum computed over a zero field and written there verifies. */
  lemma FieldVerifies(head: seq<Byte>, tail: seq<Byte>)
    requires |head| % 2 == 0 && |head| + 2 + |tail| <= 131074
    ensures Verifies(head + Be16(Check(head + [0, 0] + tail)) + tail)
  {
    hide Verifies, Check;
    var b := head + [0, 0] + tail;
    var c := Be16(Check(b));
    FilledVerifies(b, |head|);
    assert b[|head| := c[0]][|head| + 1 := c[1]] == head + c + tail;
  }

  lemma Be16Zero()
    ensures Be16(0) == [0, 0]
  {
  }

  lemma IpVerifies(h: Header, len: U16)
    requires h.Valid()
    ensures Verifies(IpHeader(h, len, IpSum(h, len)))
  {
    hide Verifies, Check, IpHead;
    FieldVerifies(IpHead(len), h.srcIp + h.dstIp);
    Be16Zero();
  }

  lemma Regroup(p: seq<Byte>, head: seq<Byte>, field: seq<Byte>, urgent: seq<Byte>, payload: seq<Byte>)
    ensures p + ((head + field + urgent) + payload) == (p + head) + field + (urgent + payload)
  {
  }

  lemma SegmentFilled(p: seq<Byte>, head: seq<Byte>, urgent: seq<Byte>, payload: seq<Byte>)
    requires |p + head| % 2 == 0 && |p| + |head| + 2 + |urgent| + |payload| <= 131074
    ensures var c := Check(p + ((head + [0, 0] + urgent) + payload));
            Verifies(p + ((head + Be16(c) + urgent) + payload))
  {
    hide Verifies, Check, Be16;
    Regroup(p, head, [0, 0], urgent, payload);
    Regroup(p, head, Be16(Check(p + head + [0, 0] + (urgent + payload))), urgent, payload);
    FieldVerifies(p + head, urgent + payload);
  }

  lemma SegmentVerifies(h: Header, payload: seq<Byte>)
    requires h.Valid() && |payload| + HEADERS <= BUF_LEN
    ensures Verifies(Pseudo(h.srcIp, h.dstIp, 20 + |payload|) + Segment(h, payload))
  {
    hide Verifies, Check, TcpHead, Pseudo, Be16;
    Be16Zero();
    SegmentFilled(Pseudo(h.srcIp, h.dstIp, 20 + |payload|), TcpHead(h), [0, 0], payload);
  }

  /** Store a run of bytes, the rest untouched. */
  method Put(buf: array<Byte>, off: nat, bytes: seq<Byte>)
    requires off + |bytes| <= buf.Length
    modifies buf
    ensures buf[..off] == old(buf[..off])
    ensures buf[off..off + |bytes|] == bytes
    ensures buf[off + |bytes|..] == old(buf[off + |bytes|..])
  {
    var j := 0;
    while j < |bytes|
      invariant 0 <= j <= |bytes|
      invariant buf[..off] == old(buf[..off])
      invariant buf[off..off + j] == bytes[..j]
      invariant buf[off + j..] == old(buf[off + j..])
    {
      buf[off + j] := bytes[j];
      j := j + 1;
    }
    assert bytes[..j] == bytes;
  }

  /** The same, for bytes that extend what has been written so far. */
  method Extend(buf: array<Byte>, off: nat, bytes: seq<Byte>)
    requires off + |bytes| <= buf.Length
    modifies buf
    ensures buf[..off + |bytes|] == old(buf[..off]) + bytes
    ensures buf[off + |bytes|..] == old(buf[off + |bytes|..])
  {
    Put(buf, off, bytes);
    assert buf[..off + |bytes|] == buf[..off] + buf[off..off + |bytes|];
  }

  lemma SplitAt(s: seq<Byte>, head: seq<Byte>, was: seq<Byte>, tail: seq<Byte>)
    requires head + was + tail <= s
    ensures s[..|head|] == head && s[|head| + |was|..][..|tail|] == tail
    ensures s[|head| + |was|..][|tail|..] == s[|head| + |was| + |tail|..]
  {
  }

  /** Overwrite a field inside the bytes written so far. */
  method PutInside(buf: array<Byte>, off: nat, bytes: seq<Byte>,
                   ghost head: seq<Byte>, ghost was: seq<Byte>, ghost tail: seq<Byte>)
    requires off == |head| && |was| == |bytes| && off + |bytes| + |tail| <= buf.Length
    requires buf[..off + |bytes| + |tail|] == head + was + tail
    modifies buf
    ensures buf[..off + |bytes| + |tail|] == head + bytes + tail
    ensures buf[off + |bytes| + |tail|..] == old(buf[off + |bytes| + |tail|..])
  {
    ghost var m, n, before := off + |bytes|, off + |bytes| + |tail|, buf[..];
    SplitAt(before, head, was, tail);
    Extend(buf, off, bytes);
    assert buf[..n] == buf[..m] + buf[m..][..|tail|];
    assert buf[n..] == buf[m..][|tail|..];
    assert before[m..] == old(buf[m..]) && before[..off] == old(buf[..off]);
    assert before[n..] == old(buf[n..]);
  }

  /** The Ethernet and IP headers, with the IP checksum filled in last. */
  method WriteIp(tx: array<Byte>, h: Header, len: U16)
    requires h.Valid() && tx.Length >= 44
    modifies tx
    ensures tx[..44] == Zeros(10) + EthHeader(h) + IpHeader(h, len, IpSum(h, len))
    ensures tx[44..] == old(tx[44..])
  {
    hide Be16, Check, IpHead;
    Extend(tx, 0, Zeros(10));
    Extend(tx, 10, EthHeader(h));
    ghost var head := Zeros(10) + EthHeader(h);
    Extend(tx, 24, IpHeader(h, len, 0));
    assert tx[24..44] == IpHeader(h, len, 0);
    var c := Checksum16(tx, 24, 20);
    PutInside(tx, 34, Be16(c), head + IpHead(len), Be16(0), h.srcIp + h.dstIp);
    assert head + IpHeader(h, len, c) == (head + IpHead(len)) + Be16(c) + (h.srcIp + h.dstIp);
  }

  /** The TCP segment behind the headers, with its checksum filled in last. */
  method WriteSegment(tx: array<Byte>, h: Header, payload: seq<Byte>)
    requires h.Valid() && |payload| + HEADERS <= tx.Length == BUF_LEN
    modifies tx
    ensures tx[..HEADERS + |payload|] == old(tx[..44]) + Segment(h, payload)
    ensures tx[HEADERS + |payload|..] == old(tx[HEADERS + |payload|..])
  {
    hide Be16, Check, TcpHead;
    ghost var before := tx[..44];
    Extend(tx, 44, TcpHeader(h, 0));
    Extend(tx, 64, payload);
    assert tx[44..64 + |payload|] == TcpHeader(h, 0) + payload;
    var c := Checksum16Tcp(h.srcIp, h.dstIp, tx, 44, 20 + |payload|);
    ghost var tail := [0, 0] + payload;
    Regroup(before, TcpHead(h), Be16(0), [0, 0], payload);
    Regroup(before, TcpHead(h), Be16(c), [0, 0], payload);
    assert tx[..64 + |payload|] == (before + TcpHead(h)) + Be16(0) + tail;
    PutInside(tx, 60, Be16(c), before + TcpHead(h), Be16(0), tail);
  }

  /** `send_tcp` up to publication: wait for the buffer, refuse a payload that does not fit, else build the
      frame. `seen` are the used indices read while waiting. */
  method SendTcp(tx: array<Byte>, seen: seq<U16>, lastSent: U16, h: Header, payload: seq<Byte>) returns (ok: bool)
    requires h.Valid() && tx.Length == BUF_LEN && |seen| >= TxQueue.LOOKS
    modifies tx
    ensures ok == (lastSent in seen[..TxQueue.LOOKS] && HEADERS + |payload| <= BUF_LEN)
    ensures !ok ==> tx[..] == old(tx[..])
    ensures ok ==> tx[..HEADERS + |payload|] == Frame(h, payload)
    ensures ok ==> tx[HEADERS + |payload|..] == old(tx[HEADERS + |payload|..])
  {
    hide EthHeader, IpHeader, TcpHeader;
    var ready := TxQueue.TxWaitReady(seen, lastSent);
    if !ready {
      return false;
    }
    if 10 + (14 + (20 + (20 + |payload|))) > BUF_LEN {
      return false;
    }
    WriteIp(tx, h, 40 + |payload|);
    assert tx[44..][20 + |payload|..] == tx[64 + |payload|..];
    assert old(tx[44..])[20 + |payload|..] == old(tx[64 + |payload|..]);
    WriteSegment(tx, h, payload);
    return true;
  }

  datatype Parsed = Parsed(srcIp: seq<Byte>, srcPort: U16, dstPort: U16, seqNo: U32, ackNo: U32, flags: Byte,
                           at: nat, len: nat)

  function Get16(b: seq<Byte>, at: nat): (v: U16)
    requires at + 2 <= |b|
  {
    Word(b[at], b[at + 1])
  }

  function Get32(b: seq<Byte>, at: nat): (v: U32)
    requires at + 4 <= |b|
  {
    0x1_0000 * Get16(b, at) + Get16(b, at + 2)
  }

  /** `parse_rx_tcp` on a receive buffer of which `rxLen` bytes were received. A payload it reports lies
      within those bytes, behind at least the minimal headers. */
  function ParseTcp(rx: seq<Byte>, rxLen: nat): (r: Option<Parsed>)
    requires |rx| == BUF_LEN && rxLen <= BUF_LEN
    ensures r.Some? ==> HEADERS <= r.value.at && r.value.at + r.value.len <= rxLen
    ensures r.Some? ==> r.value.at - 24 + r.value.len == Get16(rx, 26)
  {
    if rxLen < 44 then None
    else if Get16(rx, 22) != 0x0800 || rx[24] / 16 != 4 then None
    else
      var ihl: int := rx[24] % 16 * 4;
      if ihl < 20 then None
      else
        var total: int := Get16(rx, 26);
        if total < ihl + 20 || total > BUF_LEN - 24 || rx[33] != 6 then None
        else
          var tcp := 24 + ihl;
          var dataOff: int := rx[tcp + 12] / 16 * 4;
          if dataOff < 20 || total - ihl < dataOff then None
          else
            var len, at := total - ihl - dataOff, tcp + dataOff;
            if at + len > rxLen then None
            else
              Some(Parsed(rx[36..40], Get16(rx, tcp), Get16(rx, tcp + 2), Get32(rx, tcp + 4), Get32(rx, tcp + 8),
                          rx[tcp + 13], at, len))
  }

  lemma FieldAt(rx: seq<Byte>, head: seq<Byte>, field: seq<Byte>, tail: seq<Byte>)
    requires head + field + tail <= rx
    ensures rx[|head|..|head| + |field|] == field
  {
  }

  lemma Get16At(rx: seq<Byte>, at: nat, v: U16)
    requires at + 2 <= |rx| && rx[at..at + 2] == Be16(v)
    ensures Get16(rx, at) == v
  {
    assert rx[at] == rx[at..at + 2][0] && rx[at + 1] == rx[at..at + 2][1];
  }

  lemma Get32At(rx: seq<Byte>, at: nat, v: U32)
    requires at + 4 <= |rx| && rx[at..at + 4] == Be32(v)
    ensures Get32(rx, at) == v
  {
    assert rx[at..at + 2] == rx[at..at + 4][..2] && rx[at + 2..at + 4] == rx[at..at + 4][2..];
    Get16At(rx, at, v / 0x1_0000);
    Get16At(rx, at + 2, v % 0x1_0000);
  }

  lemma EtherType(rx: seq<Byte>)
    requires |rx| >= 24 && rx[22] == 0x08 && rx[23] == 0x00
    ensures Get16(rx, 22) == 0x0800
  {
  }

  /** The Ethernet and IP fields the parser looks at. */
  lemma IpFields(h: Header, len: U16, csum: U16, rx: seq<Byte>)
    requires h.Valid() && Zeros(10) + EthHeader(h) + IpHeader(h, len, csum) <= rx
    ensures Get16(rx, 22) == 0x0800 && rx[24] == 0x45 && Get16(rx, 26) == len && rx[33] == 6
    ensures rx[36..40] == h.srcIp
  {
    hide Word, Be16, Get16;
    var eth := Zeros(10) + EthHeader(h);
    assert eth[22] == 0x08 && eth[23] == 0x00;
    assert rx[22] == eth[22] && rx[23] == eth[23];
    EtherType(rx);
    var tail := Be16(csum) + (h.srcIp + h.dstIp);
    var rest := [0, 0, 0, 0, 64, 6] + tail;
    assert eth + IpHeader(h, len, csum) == (eth + [0x45, 0x00]) + Be16(len) + rest;
    FieldAt(rx, eth + [0x45, 0x00], Be16(len), rest);
    Get16At(rx, 26, len);
    FieldAt(rx, eth + [0x45, 0x00] + Be16(len), rest, []);
    assert rx[33] == rx[28..28 + |rest|][5];
    assert rx[36..40] == rx[28..28 + |rest|][8..12];
    assert rx[24] == (eth + [0x45, 0x00])[24];
  }

  lemma TcpFields(h: Header, csum: U16, rx: seq<Byte>)
    requires h.Valid() && |rx| >= HEADERS && rx[44..64] == TcpHeader(h, csum)
    ensures Get16(rx, 44) == h.srcPort && Get16(rx, 46) == h.dstPort
    ensures Get32(rx, 48) == h.seqNo && Get32(rx, 52) == h.ackNo && rx[56] == 0x50 && rx[57] == h.flags
  {
    hide Word, Be16, Be32, Get16, Get32;
    var t := TcpHeader(h, csum);
    assert forall i :: 0 <= i < 20 ==> rx[44 + i] == t[i];
    assert rx[44..46] == t[0..2] == Be16(h.srcPort);
    Get16At(rx, 44, h.srcPort);
    assert rx[46..48] == t[2..4] == Be16(h.dstPort);
    Get16At(rx, 46, h.dstPort);
    assert rx[48..52] == t[4..8] == Be32(h.seqNo);
    Get32At(rx, 48, h.seqNo);
    assert rx[52..56] == t[8..12] == Be32(h.ackNo);
    Get32At(rx, 52, h.ackNo);
    assert rx[56] == t[12] && rx[57] == t[13];
  }

  /** What one host sends the other's parser reads back: every field and the whole payload, even when the
      link pads the frame or the buffer holds older bytes behind it. */
  lemma ParseSent(h: Header, payload: seq<Byte>, rx: seq<Byte>, rxLen: nat)
    requires h.Valid() && HEADERS + |payload| <= rxLen <= BUF_LEN == |rx|
    requires rx[..HEADERS + |payload|] == Frame(h, payload)
    ensures ParseTcp(rx, rxLen) ==
            Some(Parsed(h.srcIp, h.srcPort, h.dstPort, h.seqNo, h.ackNo, h.flags, HEADERS, |payload|))
    ensures rx[HEADERS..HEADERS + |payload|] == payload
  {
    hide IpHeader, TcpHeader, EthHeader, TcpSum, IpSum, Get16, Get32;
    var f, len := Frame(h, payload), 40 + |payload|;
    assert f == Zeros(10) + EthHeader(h) + IpHeader(h, len, IpSum(h, len)) + Segment(h, payload);
    assert Zeros(10) + EthHeader(h) + IpHeader(h, len, IpSum(h, len)) <= rx by {
      assert rx[..|f|][..44] == Zeros(10) + EthHeader(h) + IpHeader(h, len, IpSum(h, len));
    }
    IpFields(h, len, IpSum(h, len), rx);
    assert f[44..64] == TcpHeader(h, TcpSum(h, payload)) && f[64..] == payload;
    assert rx[44..64] == f[44..64] && rx[64..|f|] == f[64..];
    TcpFields(h, TcpSum(h, payload), rx);
  }
}
