/** UTF-8 validation (section 4 of RFC 3629) as the agent does it, and the buffers it keeps well-formed. */
module Utf8 {
  import opened Words

  /** `(b & 0b1100_0000) == 0b1000_0000`. */
  predicate IsCont(b: Byte) {
    0x80 <= b <= 0xbf
  }

  /** The length of the well-formed character at the start of `s`, or 0. */
  function SeqLen(s: seq<Byte>): (n: nat)
    ensures n <= 4 && n <= |s|
  {
    if s == [] then 0
    else
      var b0 := s[0];
      if b0 <= 0x7f then 1
      else if 0xc2 <= b0 <= 0xdf then (if 1 < |s| && IsCont(s[1]) then 2 else 0)
      else if b0 == 0xe0 then (if 2 < |s| && 0xa0 <= s[1] <= 0xbf && IsCont(s[2]) then 3 else 0)
      else if 0xe1 <= b0 <= 0xec || 0xee <= b0 <= 0xef then (if 2 < |s| && IsCont(s[1]) && IsCont(s[2]) then 3 else 0)
      else if b0 == 0xed then (if 2 < |s| && 0x80 <= s[1] <= 0x9f && IsCont(s[2]) then 3 else 0)
      else if b0 == 0xf0 then
        (if 3 < |s| && 0x90 <= s[1] <= 0xbf && IsCont(s[2]) && IsCont(s[3]) then 4 else 0)
      else if 0xf1 <= b0 <= 0xf3 then
        (if 3 < |s| && IsCont(s[1]) && IsCont(s[2]) && IsCont(s[3]) then 4 else 0)
      else if b0 == 0xf4 then
        (if 3 < |s| && 0x80 <= s[1] <= 0x8f && IsCont(s[2]) && IsCont(s[3]) then 4 else 0)
      else 0
  }

  predicate WellFormed(s: seq<Byte>)
    decreases |s|
  {
    s == [] || (SeqLen(s) > 0 && WellFormed(s[SeqLen(s)..]))
  }

  /** Only the bytes of a character decide its length; its first byte is no continuation, the others are. */
  lemma SeqLenLocal(s: seq<Byte>, t: seq<Byte>)
    requires SeqLen(s) > 0 && SeqLen(s) <= |t| && t[..SeqLen(s)] == s[..SeqLen(s)]
    ensures SeqLen(t) == SeqLen(s)
  {
    assert forall i :: 0 <= i < SeqLen(s) ==> t[i] == t[..SeqLen(s)][i] == s[..SeqLen(s)][i] == s[i];
  }

  lemma SeqLenShape(s: seq<Byte>)
    requires SeqLen(s) > 0
    ensures !IsCont(s[0]) && forall i :: 1 <= i < SeqLen(s) ==> IsCont(s[i])
  {
  }

  lemma {:induction false} WellFormedAppend(a: seq<Byte>, b: seq<Byte>)
    requires WellFormed(a) && WellFormed(b)
    ensures WellFormed(a + b)
    decreases |a|
  {
    hide SeqLen;
    if a == [] {
      assert a + b == b;
    } else {
      var k := SeqLen(a);
      SeqLenLocal(a, a + b);
      WellFormedAppend(a[k..], b);
      assert (a + b)[k..] == a[k..] + b;
    }
  }

  /** The number of bytes in the leading well-formed characters of `s` that fit in `limit`. */
  function SafeLen(s: seq<Byte>, limit: nat): (n: nat)
    ensures n <= limit && n <= |s|
    decreases |s|
  {
    var k := SeqLen(s);
    if k == 0 || k > limit then 0 else k + SafeLen(s[k..], limit - k)
  }

  lemma {:induction false} SafeLenWellFormed(s: seq<Byte>, limit: nat)
    ensures WellFormed(s[..SafeLen(s, limit)])
    decreases |s|
  {
    hide SeqLen;
    var k := SeqLen(s);
    if k != 0 && k <= limit {
      var n := SafeLen(s, limit);
      SafeLenWellFormed(s[k..], limit - k);
      SeqLenLocal(s, s[..n]);
      assert s[..n][k..] == s[k..][..n - k];
    }
  }

  /** It is the longest well-formed prefix that fits. */
  lemma {:induction false} SafeLenLongest(s: seq<Byte>, limit: nat, m: nat)
    requires m <= limit && m <= |s| && WellFormed(s[..m])
    ensures m <= SafeLen(s, limit)
    decreases |s|
  {
    hide SeqLen;
    if m > 0 {
      var k := SeqLen(s[..m]);
      SeqLenLocal(s[..m], s);
      assert s[..m][k..] == s[k..][..m - k];
      SafeLenLongest(s[k..], limit - k, m - k);
    }
  }

  lemma SafeLenOfWellFormed(s: seq<Byte>, limit: nat)
    requires WellFormed(s) && |s| <= limit
    ensures SafeLen(s, limit) == |s|
  {
    assert s[..|s|] == s;
    SafeLenLongest(s, limit, |s|);
  }

  lemma SafeLenExact(s: seq<Byte>, limit: nat)
    ensures var n := SafeLen(s, limit);
            && WellFormed(s[..n])
            && forall m :: n < m <= limit && m <= |s| ==> !WellFormed(s[..m])
  {
    SafeLenWellFormed(s, limit);
    forall m | SafeLen(s, limit) < m <= limit && m <= |s| ensures !WellFormed(s[..m]) {
      if WellFormed(s[..m]) {
        SafeLenLongest(s, limit, m);
      }
    }
  }

  /** `utf8_safe_prefix_len`: the loop that finds the longest well-formed prefix within `maxLen` bytes. */
  method SafePrefixLen(src: seq<Byte>, maxLen: nat) returns (n: nat)
    ensures n == SafeLen(src, maxLen)
    ensures n <= maxLen && n <= |src| && WellFormed(src[..n])
    ensures forall m :: n < m <= maxLen && m <= |src| ==> !WellFormed(src[..m])
  {
    hide SeqLen, WellFormed;
    var limit := if maxLen > |src| then |src| else maxLen;
    var idx := 0;
    n := 0;
    assert src[0..] == src;
    while idx < limit
      invariant idx == n <= limit
      invariant SafeLen(src, maxLen) == n + SafeLen(src[n..], maxLen - n)
    {
      var k := SeqLen(src[idx..]);
      SeqLenBound(src[idx..]);
      if k == 0 || idx + k > limit {
        break;
      }
      assert src[idx..][k..] == src[idx + k..];
      idx := idx + k;
      n := idx;
    }
    SafeLenExact(src, maxLen);
  }

  /** `utf8_safe_suffix_start_local`: skip continuation bytes after cutting to the last `keep` bytes. */
  method SafeSuffixStart(buf: seq<Byte>, keep: nat) returns (start: nat)
    ensures start == SuffixStart(buf, keep)
  {
    if |buf| <= keep {
      return 0;
    }
    start := |buf| - keep;
    while start < |buf| && IsCont(buf[start])
      invariant start <= |buf| && SkipConts(buf, |buf| - keep) == SkipConts(buf, start)
    {
      start := start + 1;
    }
  }

  function SkipConts(buf: seq<Byte>, i: nat): (j: nat)
    requires i <= |buf|
    ensures i <= j <= |buf|
    ensures j < |buf| ==> !IsCont(buf[j])
    decreases |buf| - i
  {
    if i < |buf| && IsCont(buf[i]) then SkipConts(buf, i + 1) else i
  }

  function SuffixStart(buf: seq<Byte>, keep: nat): (start: nat)
    ensures start <= |buf|
  {
    if |buf| <= keep then 0 else SkipConts(buf, |buf| - keep)
  }

  /** In well-formed text, cutting at a byte that starts a character leaves well-formed text. */
  lemma {:induction false} CutAtStart(s: seq<Byte>, i: nat)
    requires WellFormed(s) && i <= |s| && (i < |s| ==> !IsCont(s[i]))
    ensures WellFormed(s[i..])
    decreases |s|
  {
    hide SeqLen;
    if 0 < i {
      var k := SeqLen(s);
      SeqLenShape(s);
      assert i >= k;
      CutAtStart(s[k..], i - k);
      assert s[k..][i - k..] == s[i..];
    } else {
      assert s[0..] == s;
    }
  }

  /** In well-formed text, the part before a byte that starts a character is well-formed. */
  lemma {:induction false} PrefixAtStart(s: seq<Byte>, i: nat)
    requires WellFormed(s) && i < |s| && !IsCont(s[i])
    ensures WellFormed(s[..i])
    decreases |s|
  {
    hide SeqLen;
    if i == 0 {
      assert s[..0] == [];
    } else {
      var k := SeqLen(s);
      SeqLenShape(s);
      PrefixAtStart(s[k..], i - k);
      assert s[k..][..i - k] == s[k..i];
      assert s[..i][k..] == s[k..i];
      SeqLenLocal(s, s[..i]);
    }
  }

  /** From any place, a character starts within three bytes, or the text ends. */
  lemma {:induction false} StartNearby(s: seq<Byte>, i: nat)
    requires WellFormed(s) && i <= |s|
    ensures SkipConts(s, i) <= i + 3
    decreases |s|
  {
    hide SeqLen;
    if s != [] {
      var k := SeqLen(s);
      SeqLenBound(s);
      if i >= k {
        StartNearby(s[k..], i - k);
        SkipShift(s, k, i);
      } else {
        SeqLenShape(s);
        if k < |s| {
          SeqLenShape(s[k..]);
        }
        SkipTo(s, i, k);
      }
    }
  }

  lemma SeqLenBound(s: seq<Byte>)
    ensures SeqLen(s) <= 4 && SeqLen(s) <= |s|
  {
  }

  lemma {:induction false} SkipShift(s: seq<Byte>, k: nat, i: nat)
    requires k <= i <= |s|
    ensures SkipConts(s, i) == k + SkipConts(s[k..], i - k)
    decreases |s| - i
  {
    if i < |s| && IsCont(s[i]) {
      SkipShift(s, k, i + 1);
    }
  }

  lemma {:induction false} SkipTo(s: seq<Byte>, i: nat, k: nat)
    requires i <= k <= |s| && (k < |s| ==> !IsCont(s[k]))
    ensures SkipConts(s, i) <= k
    decreases k - i
  {
    if i < k && IsCont(s[i]) {
      SkipTo(s, i + 1, k);
    }
  }

  /** The kept suffix of well-formed text is well-formed, within budget, and at most three bytes short of it. */
  lemma SuffixExact(buf: seq<Byte>, keep: nat)
    requires WellFormed(buf)
    ensures var start := SuffixStart(buf, keep);
            && WellFormed(buf[start..])
            && |buf| - start <= keep
            && (|buf| > keep ==> |buf| - start >= keep - 3)
  {
    hide SeqLen;
    if |buf| <= keep {
      assert buf[0..] == buf;
    } else {
      StartNearby(buf, |buf| - keep);
      CutAtStart(buf, SuffixStart(buf, keep));
    }
  }
}
