/** Machine words: bytes, and 32-bit TCP sequence numbers with wrap-around arithmetic. */
module Words {
  type Byte = b: int | 0 <= b < 0x100

  const TWO32: int := 0x1_0000_0000
  const HALF32: int := 0x8000_0000

  type U16 = w: int | 0 <= w < 0x1_0000

  type U32 = w: int | 0 <= w < 0x1_0000_0000

  /** `a.wrapping_add(k)` for a 32-bit `a`. */
  function WrapAdd(a: U32, k: int): U32 {
    (a + k) % 0x1_0000_0000
  }

  /** `a.wrapping_sub(b)`. */
  function WrapSub(a: U32, b: U32): U32 {
    (a - b) % 0x1_0000_0000
  }

  /** `a.wrapping_sub(b) as i32`: the signed distance from `b` to `a` around the circle. */
  function SeqCmp(a: U32, b: U32): int {
    var d := WrapSub(a, b);
    if d < 0x8000_0000 then d else d - 0x1_0000_0000
  }

  lemma ModIs(x: int, r: int, k: int)
    requires 0 <= r < TWO32
    requires x == r + TWO32 * k
    ensures x % 0x1_0000_0000 == r
  {
  }

  /** Within half a circle, moving the reference forward by `k` lowers the signed distance by `k`. */
  lemma SeqCmpShift(s: U32, a: U32, k: int)
    requires -HALF32 <= SeqCmp(s, a) - k < HALF32
    ensures SeqCmp(s, WrapAdd(a, k)) == SeqCmp(s, a) - k
  {
  }

  /** Distances to a common reference compare like the sequence numbers themselves. */
  lemma SeqCmpBetween(s: U32, t: U32, a: U32)
    requires -HALF32 <= SeqCmp(s, a) - SeqCmp(t, a) < HALF32
    ensures SeqCmp(s, t) == SeqCmp(s, a) - SeqCmp(t, a)
  {
  }

  lemma WrapAddAdd(a: U32, j: int, k: int)
    ensures WrapAdd(WrapAdd(a, j), k) == WrapAdd(a, j + k)
  {
  }

  /** On the wire, byte `p` of the stream seen from byte `n` is at signed distance `p - n`. */
  lemma SeqCmpWire(isn: U32, p: int, n: int)
    requires -HALF32 <= p - n < HALF32
    ensures SeqCmp(WrapAdd(isn, p), WrapAdd(isn, n)) == p - n
  {
  }

  /** A 16-bit ring index moves on, wrapping around. */
  function Inc(i: U16): U16 {
    (i + 1) % 0x1_0000
  }

  lemma IncCount(n: nat)
    ensures Inc(n % 0x1_0000) == (n + 1) % 0x1_0000
    ensures n % 0x1_0000 != (n + 1) % 0x1_0000
  {
  }

  function Zeros(n: nat): (b: seq<Byte>)
    ensures |b| == n
  {
    seq(n, _ => 0)
  }

  /** A lower-case hexadecimal digit. */
  function HexDigit(v: nat): Byte
    requires v < 16
  {
    if v < 10 then 48 + v else 87 + v
  }
}
