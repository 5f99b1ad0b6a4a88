/** The Internet checksum (RFC 1071, section 1): a 32-bit accumulator over big-endian 16-bit words,
    folded to 16 bits and complemented. */
module Checksum {
  import opened Words

  /** A big-endian 16-bit word. */
  function Word(hi: int, lo: int): int {
    256 * hi + lo
  }

  /** The sum of the 16-bit words of `b`, an odd last byte counting as a high byte. */
  function WordSum(b: seq<Byte>): nat
    decreases |b|
  {
    if b == [] then 0
    else if |b| == 1 then Word(b[0], 0)
    else Word(b[0], b[1]) + WordSum(b[2..])
  }

  lemma {:induction false} WordSumConcat(a: seq<Byte>, b: seq<Byte>)
    requires |a| % 2 == 0
    ensures WordSum(a + b) == WordSum(a) + WordSum(b)
    decreases |a|
  {
    if a == [] {
      assert a + b == b;
    } else {
      WordSumConcat(a[2..], b);
      assert (a + b)[2..] == a[2..] + b;
    }
  }

  /** Replacing the word at an even place moves the sum by the difference of the words. */
  lemma {:induction false} WordSumReplace(b: seq<Byte>, at: nat, hi: Byte, lo: Byte)
    requires at % 2 == 0 && at + 1 < |b|
    ensures WordSum(b[at := hi][at + 1 := lo]) == WordSum(b) - Word(b[at], b[at + 1]) + Word(hi, lo)
  {
    var head, tail := b[..at], b[at + 2..];
    assert b == head + ([b[at], b[at + 1]] + tail);
    assert b[at := hi][at + 1 := lo] == head + ([hi, lo] + tail);
    WordSumConcat(head, [b[at], b[at + 1]] + tail);
    WordSumConcat(head, [hi, lo] + tail);
    PairSum(b[at], b[at + 1], tail);
    PairSum(hi, lo, tail);
  }

  lemma PairSum(hi: Byte, lo: Byte, tail: seq<Byte>)
    ensures WordSum([hi, lo] + tail) == Word(hi, lo) + WordSum(tail)
  {
    assert ([hi, lo] + tail)[2..] == tail;
  }

  lemma {:induction false} WordSumBound(b: seq<Byte>)
    ensures 2 * WordSum(b) <= 65535 * (|b| + 1)
    ensures |b| % 2 == 0 ==> 2 * WordSum(b) <= 65535 * |b|
    decreases |b|
  {
    if |b| >= 2 {
      WordSumBound(b[2..]);
    }
  }

  /** 65537 words fill the accumulator exactly: 131074 bytes never wrap it. */
  lemma NoWrap(b: seq<Byte>)
    requires |b| <= 131074
    ensures WordSum(b) < 0x1_0000_0000
  {
    WordSumBound(b);
  }

  /** ... and one byte more can. */
  lemma {:induction false} NoWrapIsTight(b: seq<Byte>)
    requires forall i :: 0 <= i < |b| ==> b[i] == 0xFF
    ensures |b| == 131075 ==> WordSum(b) >= 0x1_0000_0000
    ensures 2 * WordSum(b) >= 65535 * |b|
    decreases |b|
  {
    if |b| >= 2 {
      NoWrapIsTight(b[2..]);
    }
  }

  /** What folding keeps: the value modulo 65535, with 65535 rather than 0 for positive multiples. */
  function Residue(s: nat): U16 {
    if s == 0 then 0 else (s - 1) % 65535 + 1
  }

  lemma FoldKeepsResidue(s: nat)
    ensures Residue(s % 0x1_0000 + s / 0x1_0000) == Residue(s)
  {
    var hi, lo := s / 0x1_0000, s % 0x1_0000;
    assert s == 65535 * hi + (hi + lo);
    if hi + lo > 0 {
      ModPlus(hi + lo - 1, hi);
    }
  }

  lemma ModPlus(x: nat, k: nat)
    ensures (x + 65535 * k) % 65535 == x % 65535
  {
  }

  /** The fold loop. */
  method Fold(sum: U32) returns (r: U16)
    ensures r == Residue(sum)
  {
    var s := sum;
    while s / 0x1_0000 != 0
      invariant Residue(s) == Residue(sum)
      decreases s
    {
      FoldKeepsResidue(s);
      s := s % 0x1_0000 + s / 0x1_0000;
    }
    r := s;
  }

  lemma AddWord(a: nat, k: int)
    ensures WrapAdd(a % 0x1_0000_0000, k) == (a + k) % 0x1_0000_0000
  {
  }

  lemma OneWord(hi: Byte, lo: Byte)
    ensures WordSum([hi, lo]) == Word(hi, lo) && WordSum([hi]) == Word(hi, 0)
  {
    PairSum(hi, lo, []);
    assert [hi, lo] + [] == [hi, lo];
  }

  lemma NoWords()
    ensures WordSum([]) == 0
  {
  }

  /** `sum_be16_words` over `len` bytes of a buffer, with the accumulator's wrap-around. */
  method SumWords(buf: array<Byte>, base: nat, len: nat) returns (sum: U32)
    requires base + len <= buf.Length
    ensures sum == WordSum(buf[base..base + len]) % 0x1_0000_0000
  {
    hide WordSum, WrapAdd, Word;
    sum := 0;
    var i := 0;
    NoWords();
    assert buf[base..base + 0] == [];
    while i + 1 < len
      invariant 0 <= i <= len && i % 2 == 0
      invariant sum == WordSum(buf[base..base + i]) % 0x1_0000_0000
    {
      ghost var before := buf[base..base + i];
      AddWord(WordSum(before), Word(buf[base + i], buf[base + i + 1]));
      OneWord(buf[base + i], buf[base + i + 1]);
      sum := WrapAdd(sum, Word(buf[base + i], buf[base + i + 1]));
      WordSumConcat(before, [buf[base + i], buf[base + i + 1]]);
      i := i + 2;
      assert buf[base..base + i] == before + [buf[base + i - 2], buf[base + i - 1]];
    }
    if i < len {
      ghost var before := buf[base..base + i];
      AddWord(WordSum(before), Word(buf[base + i], 0));
      OneWord(buf[base + i], 0);
      sum := WrapAdd(sum, Word(buf[base + i], 0));
      WordSumConcat(before, [buf[base + i]]);
      assert buf[base..base + len] == before + [buf[base + i]];
    }
  }

  /** The checksum of a byte string: the complement of its folded sum. */
  function Check(b: seq<Byte>): U16 {
    0xFFFF - Residue(WordSum(b) % 0x1_0000_0000)
  }

  /** `checksum16_be`. */
  method Checksum16(buf: array<Byte>, base: nat, len: nat) returns (c: U16)
    requires base + len <= buf.Length
    ensures c == Check(buf[base..base + len])
  {
    var sum := SumWords(buf, base, len);
    var r := Fold(sum);
    c := 0xFFFF - r;
  }

  function Be16(v: U16): (b: seq<Byte>)
    ensures |b| == 2 && Word(b[0], b[1]) == v
  {
    [v / 256, v % 256]
  }

  /** The TCP pseudo-header (section 3.1 of RFC 9293). */
  function Pseudo(src: seq<Byte>, dst: seq<Byte>, len: U16): (b: seq<Byte>)
    ensures |b| == |src| + |dst| + 4
  {
    src + dst + [0, 6] + Be16(len)
  }

  lemma QuadSum(q: seq<Byte>, tail: seq<Byte>)
    requires |q| == 4
    ensures WordSum(q + tail) == Word(q[0], q[1]) + Word(q[2], q[3]) + WordSum(tail)
  {
    WordSumConcat(q, tail);
    assert q == [q[0], q[1]] + ([q[2], q[3]] + []);
    PairSum(q[2], q[3], []);
    PairSum(q[0], q[1], [q[2], q[3]] + []);
  }

  lemma PseudoSum(src: seq<Byte>, dst: seq<Byte>, seg: seq<Byte>)
    requires |src| == 4 && |dst| == 4 && |seg| < 0x1_0000
    ensures WordSum(Pseudo(src, dst, |seg|) + seg) ==
            Word(src[0], src[1]) + Word(src[2], src[3]) + Word(dst[0], dst[1]) + Word(dst[2], dst[3]) +
            6 + |seg| + WordSum(seg)
  {
    hide WordSum;
    var rest := [0, 6] + Be16(|seg|);
    assert Pseudo(src, dst, |seg|) + seg == src + (dst + (rest + seg));
    QuadSum(src, dst + (rest + seg));
    QuadSum(dst, rest + seg);
    QuadSum(rest, seg);
  }

  lemma AddSmall(a: U32, k: nat)
    requires a + k < 0x1_0000_0000
    ensures WrapAdd(a, k) == a + k
  {
  }

  lemma AddMod(a: U32, k: nat)
    ensures WrapAdd(a, k % 0x1_0000_0000) == (a + k) % 0x1_0000_0000
  {
  }

  /** `checksum16_tcp`: the words of the pseudo-header are added one by one. */
  method Checksum16Tcp(src: seq<Byte>, dst: seq<Byte>, buf: array<Byte>, base: nat, len: U16) returns (c: U16)
    requires |src| == 4 && |dst| == 4 && base + len <= buf.Length
    ensures c == Check(Pseudo(src, dst, len) + buf[base..base + len])
  {
    hide WordSum, WrapAdd, Pseudo;
    var sum: U32 := Word(src[0], src[1]);
    AddSmall(sum, Word(src[2], src[3]));
    sum := WrapAdd(sum, Word(src[2], src[3]));
    AddSmall(sum, Word(dst[0], dst[1]));
    sum := WrapAdd(sum, Word(dst[0], dst[1]));
    AddSmall(sum, Word(dst[2], dst[3]));
    sum := WrapAdd(sum, Word(dst[2], dst[3]));
    AddSmall(sum, 6);
    sum := WrapAdd(sum, 6);
    AddSmall(sum, len);
    sum := WrapAdd(sum, len);
    var words := SumWords(buf, base, len);
    AddMod(sum, WordSum(buf[base..base + len]));
    sum := WrapAdd(sum, words);
    PseudoSum(src, dst, buf[base..base + len]);
    var r := Fold(sum);
    c := 0xFFFF - r;
  }

  /** What a receiver tests: the words, checksum included, fold to all ones. */
  predicate Verifies(b: seq<Byte>) {
    Residue(WordSum(b)) == 0xFFFF
  }

  /** Writing the checksum into a zero field at an even place makes the bytes verify. */
  lemma FilledVerifies(b: seq<Byte>, at: nat)
    requires at % 2 == 0 && at + 1 < |b| <= 131074 && b[at] == 0 && b[at + 1] == 0
    ensures Verifies(b[at := Be16(Check(b))[0]][at + 1 := Be16(Check(b))[1]])
  {
    hide WordSum, Residue, Be16;
    NoWrap(b);
    var c := Be16(Check(b));
    WordSumReplace(b, at, c[0], c[1]);
    ResidueFilled(WordSum(b));
  }

  lemma ResidueFilled(s: nat)
    ensures Residue(s + (0xFFFF - Residue(s))) == 0xFFFF
  {
    if s > 0 {
      var q := (s - 1) / 65535;
      assert s + (0xFFFF - Residue(s)) == 65534 + 1 + 65535 * q;
      ModPlus(65534, q);
    }
  }

  /** In verifying bytes, a replaced word goes unnoticed exactly when it is the same word, or the other
      of the two zeros of one's-complement arithmetic in a sum that stays positive. */
  lemma ReplacedWord(b: seq<Byte>, at: nat, hi: Byte, lo: Byte)
    requires at % 2 == 0 && at + 1 < |b| && Verifies(b)
    ensures var was, now := Word(b[at], b[at + 1]), Word(hi, lo);
            Verifies(b[at := hi][at + 1 := lo]) <==>
            now == was || (was == 0 && now == 0xFFFF) || (was == 0xFFFF && now == 0 && WordSum(b) > 0xFFFF)
  {
    hide WordSum;
    var was, now := Word(b[at], b[at + 1]), Word(hi, lo);
    WordSumReplace(b, at, hi, lo);
    ResidueMoved(WordSum(b), was, now);
  }

  lemma ResidueMoved(s: nat, was: U16, now: U16)
    requires Residue(s) == 0xFFFF && was <= s
    ensures Residue(s - was + now) == 0xFFFF <==>
            now == was || (was == 0 && now == 0xFFFF) || (was == 0xFFFF && now == 0 && s > 0xFFFF)
  {
    var q := (s - 1) / 65535;
    assert s == 65535 * (q + 1);
    var t := s - was + now;
    if t > 0 && Residue(t) == 0xFFFF {
      var p := (t - 1) / 65535;
      assert t == 65535 * (p + 1);
      assert now - was == 65535 * (p - q);
    }
  }
}
