/** Bytes, little-endian integers, and blocks that sit inside a buffer. */
module Bytes {

  type byte = b: int | 0 <= b < 256

  /** The `width` low bytes of `n`, least significant first (Rust's `to_le_bytes`). */
  function Le(n: nat, width: nat): (bs: seq<byte>)
    ensures |bs| == width
  {
    if width == 0 then [] else [n % 256] + Le(n / 256, width - 1)
  }

  /** The number `bs` spells, least significant byte first (Rust's `from_le_bytes`). */
  function UnLe(bs: seq<byte>): nat {
    if bs == [] then 0 else bs[0] + 256 * UnLe(bs[1..])
  }

  function Pow256(width: nat): (p: nat)
    ensures p >= 1
  {
    if width == 0 then 1 else 256 * Pow256(width - 1)
  }

  lemma {:induction false} UnLeOfLe(n: nat, width: nat)
    requires n < Pow256(width)
    ensures UnLe(Le(n, width)) == n
  {
    if width != 0 {
      UnLeOfLe(n / 256, width - 1);
      assert Le(n, width)[1..] == Le(n / 256, width - 1);
    }
  }

  lemma {:induction false} LeOfUnLe(bs: seq<byte>)
    ensures UnLe(bs) < Pow256(|bs|)
    ensures Le(UnLe(bs), |bs|) == bs
  {
    if bs != [] {
      LeOfUnLe(bs[1..]);
      assert UnLe(bs) % 256 == bs[0] && UnLe(bs) / 256 == UnLe(bs[1..]);
      assert bs == [bs[0]] + bs[1..];
    }
  }

  lemma Powers()
    ensures Pow256(1) == 0x100
    ensures Pow256(2) == 0x1_0000
    ensures Pow256(4) == 0x1_0000_0000
    ensures Pow256(8) == 0x1_0000_0000_0000_0000
  {
    assert Pow256(3) == 256 * Pow256(2);
    assert Pow256(5) == 256 * Pow256(4);
    assert Pow256(6) == 256 * Pow256(5);
    assert Pow256(7) == 256 * Pow256(6);
  }

  function Zeros(n: nat): (bs: seq<byte>)
    ensures |bs| == n
    ensures forall i :: 0 <= i < n ==> bs[i] == 0
  {
    seq(n, _ => 0)
  }

  predicate AllZero(bs: seq<byte>) {
    forall i :: 0 <= i < |bs| ==> bs[i] == 0
  }

  lemma AllZeroIsZeros(bs: seq<byte>)
    requires AllZero(bs)
    ensures bs == Zeros(|bs|)
  {
  }

  /** `block` occupies `buf` from offset `at` on. */
  predicate Holds(buf: seq<byte>, at: nat, block: seq<byte>) {
    at + |block| <= |buf| && buf[at..at + |block|] == block
  }

  lemma HoldsConcat(buf: seq<byte>, at: nat, x: seq<byte>, y: seq<byte>)
    ensures Holds(buf, at, x + y) <==> Holds(buf, at, x) && Holds(buf, at + |x|, y)
  {
    if at + |x| + |y| <= |buf| {
      var both := buf[at..at + |x| + |y|];
      assert buf[at..at + |x|] == both[..|x|];
      assert buf[at + |x|..at + |x| + |y|] == both[|x|..];
      assert both == both[..|x|] + both[|x|..];
      if Holds(buf, at, x + y) {
        assert both == x + y;
      }
    }
  }

  /** Nul bytes that bring `pos` up to a multiple of `align`. */
  function PadLen(pos: nat, align: nat): (n: nat)
    requires align != 0
    ensures n < align
  {
    var over := pos % align;
    if over == 0 then 0 else align - over
  }
}
