/** The JSON text layer as it runs: index loops that fill caller buffers. */
module JsonCodec {
  import opened Words
  import opened Utf8
  import opened Json
  import opened Options

  /** Copy bytes into a buffer at `idx`. */
  method Store(out: array<Byte>, idx: nat, bytes: seq<Byte>)
    requires idx + |bytes| <= out.Length
    modifies out
    ensures out[..] == old(out[..idx]) + bytes + old(out[idx + |bytes|..])
  {
    var j := 0;
    while j < |bytes|
      invariant 0 <= j <= |bytes|
      invariant out[..idx + j] == old(out[..idx]) + bytes[..j]
      invariant out[idx + j..] == old(out[idx + j..])
    {
      ghost var before := out[..idx + j];
      out[idx + j] := bytes[j];
      assert out[..idx + j + 1] == before + [bytes[j]] && bytes[..j + 1] == bytes[..j] + [bytes[j]];
      j := j + 1;
    }
    assert bytes[..j] == bytes;
    assert out[..] == out[..idx + j] + out[idx + j..];
  }

  /** `copy_bytes` into the rest of the buffer: as much as fits. */
  method Copy(out: array<Byte>, idx: nat, bytes: seq<Byte>) returns (end: nat)
    requires idx <= out.Length
    modifies out
    ensures end == if idx + |bytes| <= out.Length then idx + |bytes| else out.Length
    ensures out[..end] == old(out[..idx]) + bytes[..end - idx]
    ensures idx + |bytes| <= out.Length ==> out[..end] == old(out[..idx]) + bytes
    ensures out[end..] == old(out[end..])
  {
    var n := if |bytes| <= out.Length - idx then |bytes| else out.Length - idx;
    Store(out, idx, bytes[..n]);
    end := idx + n;
    assert |bytes| <= out.Length - idx ==> bytes[..n] == bytes;
  }

  /** `json_escape_append`: escape as much of `src` as fits behind `start`. */
  method EscapeAppend(out: array<Byte>, start: nat, src: seq<Byte>) returns (idx: nat)
    requires start <= out.Length
    modifies out
    ensures start <= idx <= out.Length
    ensures out[..idx] == old(out[..start]) + EscapeInto(out.Length - start, src)
    ensures out[idx..] == old(out[idx..])
  {
    hide SeqLen, Unit;
    var i := 0;
    idx := start;
    assert src[0..] == src;
    while i < |src| && idx < out.Length
      invariant start <= idx <= out.Length && 0 <= i <= |src|
      invariant out[..idx] + EscapeInto(out.Length - idx, src[i..]) ==
                old(out[..start]) + EscapeInto(out.Length - start, src)
      invariant out[idx..] == old(out[idx..])
    {
      UnitShape(src[i..]);
      var (bytes, n) := Unit(src[i..]);
      assert src[i..][n..] == src[i + n..];
      if idx + |bytes| <= out.Length {
        ghost var before := out[..idx];
        Store(out, idx, bytes);
        idx := idx + |bytes|;
        assert out[..idx] == before + bytes;
        assert (before + bytes) + EscapeInto(out.Length - idx, src[i + n..]) ==
               before + (bytes + EscapeInto(out.Length - idx, src[i + n..]));
      } else if SeqLen(src[i..]) != 0 {
        break;
      }
      i := i + n;
    }
    NothingMore(out.Length - idx, src[i..]);
  }

  lemma NothingMore(room: nat, src: seq<Byte>)
    ensures src == [] || room == 0 || (SeqLen(src) != 0 && |Unit(src).0| > room) ==> EscapeInto(room, src) == []
  {
  }

  /** `json_find_key`: where the text after the key's colon starts. */
  method FindKeyOffset(buf: seq<Byte>, key: seq<Byte>) returns (r: Option<nat>)
    ensures match AfterKey(buf, key)
            case None => r == None
            case Some(rest) => r.Some? && r.value <= |buf| && buf[r.value..] == rest
  {
    hide KeyHere, SkipSpace;
    var i := 0;
    assert buf[0..] == buf;
    while i + |key| + 2 < |buf|
      invariant 0 <= i <= |buf|
      invariant AfterKey(buf, key) == AfterKey(buf[i..], key)
    {
      var off := KeyAt(buf, key, i);
      if off != 0 {
        return Some(off);
      }
      assert buf[i..][1..] == buf[i + 1..];
      i := i + 1;
    }
    return None;
  }

  predicate Spelled(s: seq<Byte>, key: seq<Byte>)
    requires |key| + 2 < |s|
  {
    s[0] == QUOTE && s[1..1 + |key|] == key && s[1 + |key|] == QUOTE
  }

  /** Whether the quoted key is spelled out at `i`. */
  method KeySpelled(buf: seq<Byte>, key: seq<Byte>, i: nat) returns (ok: bool)
    requires i + |key| + 2 < |buf|
    ensures ok == Spelled(buf[i..], key)
  {
    ghost var s := buf[i..];
    if buf[i] != QUOTE {
      return false;
    }
    var j := 0;
    while j < |key|
      invariant 0 <= j <= |key| && s[1..1 + j] == key[..j]
    {
      if buf[i + 1 + j] != key[j] {
        assert s[1..1 + |key|][j] != key[j];
        return false;
      }
      j := j + 1;
    }
    assert key[..j] == key;
    return buf[i + 1 + |key|] == QUOTE;
  }

  /** The offset after the colon when the key is spelled out at `i`, otherwise 0. */
  method KeyAt(buf: seq<Byte>, key: seq<Byte>, i: nat) returns (off: nat)
    requires i + |key| + 2 < |buf|
    ensures off == 0 <==> !KeyHere(buf[i..], key)
    ensures off != 0 ==> off <= |buf| && buf[off..] == SkipSpace(buf[i..][|key| + 2..])[1..]
  {
    hide SkipSpace;
    var ok := KeySpelled(buf, key, i);
    if !ok {
      return 0;
    }
    assert buf[i + |key| + 2..] == buf[i..][|key| + 2..];
    off := SkipSpaces(buf, i + |key| + 2);
    if off >= |buf| || buf[off] != COLON {
      return 0;
    }
    assert buf[off..][1..] == buf[off + 1..];
    return off + 1;
  }

  method SkipSpaces(buf: seq<Byte>, start: nat) returns (off: nat)
    requires start <= |buf|
    ensures start <= off <= |buf| && buf[off..] == SkipSpace(buf[start..])
  {
    off := start;
    while off < |buf| && IsSpace(buf[off])
      invariant start <= off <= |buf| && SkipSpace(buf[off..]) == SkipSpace(buf[start..])
    {
      assert buf[off..][1..] == buf[off + 1..];
      off := off + 1;
    }
  }

  /** Put bytes at the end of the output when they fit. */
  method PutBytes(out: array<Byte>, n: nat, bytes: seq<Byte>) returns (m: nat)
    requires n <= out.Length
    modifies out
    ensures m <= out.Length && out[..m] == Put(old(out[..n]), bytes, out.Length)
  {
    m := n;
    if n + |bytes| <= out.Length {
      Store(out, n, bytes);
      m := n + |bytes|;
      assert out[..m] == old(out[..n]) + bytes;
    }
  }

  /** The string body from `start` up to its closing quote, unescaped into `out`. */
  method ReadBody(buf: seq<Byte>, start: nat, out: array<Byte>) returns (r: Option<nat>)
    requires start <= |buf|
    modifies out
    ensures match ReadString(buf[start..], [], out.Length)
            case None => r == None
            case Some(v) => r == Some(|v|) && |v| <= out.Length && out[..|v|] == v
  {
    hide EncodePoint, HexNibble, Put;
    var off: nat, n: nat := start, 0;
    assert out[..0] == [];
    while off < |buf|
      invariant start <= off <= |buf| && n <= out.Length
      invariant ReadString(buf[start..], [], out.Length) == ReadString(buf[off..], out[..n], out.Length)
    {
      ghost var s := buf[off..];
      if buf[off] == QUOTE {
        return Some(n);
      }
      if buf[off] != BACKSLASH {
        assert s[1..] == buf[off + 1..];
        n := PutBytes(out, n, [buf[off]]);
        off := off + 1;
        continue;
      }
      if off + 1 >= |buf| {
        return None;
      }
      if buf[off + 1] == LETTER_U {
        if off + 5 >= |buf| {
          return None;
        }
        var a, b := HexNibble(buf[off + 2]), HexNibble(buf[off + 3]);
        var c, d := HexNibble(buf[off + 4]), HexNibble(buf[off + 5]);
        if a == None || b == None || c == None || d == None {
          return None;
        }
        assert s[6..] == buf[off + 6..];
        n := PutBytes(out, n, EncodePoint(a.value * 4096 + b.value * 256 + c.value * 16 + d.value));
        off := off + 6;
        continue;
      }
      assert s[2..] == buf[off + 2..];
      n := PutBytes(out, n, [Unescaped(buf[off + 1])]);
      off := off + 2;
    }
    return None;
  }

  /** `json_extract_string`: find the key and unescape its string value into `out`. */
  method ExtractString(buf: seq<Byte>, key: seq<Byte>, out: array<Byte>) returns (r: Option<nat>)
    modifies out
    ensures match Extract(buf, key, out.Length)
            case None => r == None
            case Some(v) => r == Some(|v|) && |v| <= out.Length && out[..|v|] == v
  {
    hide AfterKey, ReadString;
    var found := FindKeyOffset(buf, key);
    if found == None {
      return None;
    }
    var off := SkipSpaces(buf, found.value);
    if off >= |buf| || buf[off] != QUOTE {
      return None;
    }
    assert buf[off..][1..] == buf[off + 1..];
    r := ReadBody(buf, off + 1, out);
  }

  lemma UnitWellFormed(s: seq<Byte>)
    requires s != []
    ensures WellFormed(Unit(s).0)
  {
    var e := Unit(s).0;
    if s[0] == QUOTE || s[0] == BACKSLASH || IsControl(s[0]) {
      AsciiWellFormed(e);
    } else if SeqLen(s) != 0 {
      SeqLenLocal(s, e);
      assert e[|e|..] == [];
    } else {
      assert SeqLen(REPLACEMENT) == 3 && REPLACEMENT[3..] == [];
    }
  }

  lemma {:induction false} AsciiWellFormed(s: seq<Byte>)
    requires forall i :: 0 <= i < |s| ==> s[i] <= 0x7f
    ensures WellFormed(s)
    decreases |s|
  {
    if s != [] {
      AsciiWellFormed(s[1..]);
    }
  }

  /** Escaped text is well-formed UTF-8 for every input, even when it was cut short to fit. */
  lemma {:induction false} EscapeIntoWellFormed(room: nat, src: seq<Byte>)
    ensures WellFormed(EscapeInto(room, src))
    decreases |src|
  {
    hide Unit, SeqLen, WellFormed;
    if src == [] || room == 0 {
      AsciiWellFormed([]);
    } else {
      UnitShape(src);
      UnitWellFormed(src);
      var (bytes, n) := Unit(src);
      if |bytes| <= room {
        EscapeIntoWellFormed(room - |bytes|, src[n..]);
        WellFormedAppend(bytes, EscapeInto(room - |bytes|, src[n..]));
      } else if SeqLen(src) == 0 {
        EscapeIntoWellFormed(room, src[n..]);
      } else {
        AsciiWellFormed([]);
      }
    }
  }
}
