/** UTF-8, from the code points: a text is well formed just when it encodes some. */
module Scalars {
  import opened Bytes
  import opened Utf8Text

  /** A code point that is not a surrogate. */
  predicate IsScalar(p: int) {
    0 <= p <= 0x10FFFF && !(0xD800 <= p <= 0xDFFF)
  }

  function EncodeScalar(p: nat): (bs: seq<byte>)
    requires IsScalar(p)
    ensures 1 <= |bs| <= 4
  {
    if p < 0x80 then [p]
    else if p < 0x800 then [0xC0 + p / 64, 0x80 + p % 64]
    else if p < 0x10000 then [0xE0 + p / 4096, 0x80 + p / 64 % 64, 0x80 + p % 64]
    else [0xF0 + p / 262144, 0x80 + p / 4096 % 64, 0x80 + p / 64 % 64, 0x80 + p % 64]
  }

  predicate AreScalars(ps: seq<nat>) {
    forall i :: 0 <= i < |ps| ==> IsScalar(ps[i])
  }

  function EncodeScalars(ps: seq<nat>): seq<byte>
    requires AreScalars(ps)
  {
    if ps == [] then []
    else
      assert AreScalars(ps[1..]);
      EncodeScalar(ps[0]) + EncodeScalars(ps[1..])
  }

  lemma ScalarIsRead(p: nat, rest: seq<byte>)
    requires IsScalar(p)
    ensures ScalarLen(EncodeScalar(p) + rest) == |EncodeScalar(p)|
  {
    if p >= 0x10000 {
      FourPieces(p);
    }
    var bs := EncodeScalar(p);
    var all := bs + rest;
    assert forall i :: 0 <= i < |bs| ==> all[i] == bs[i];
  }

  /** A code point in four pieces of six bits; the third is over 15 where the fourth is nothing. */
  lemma FourPieces(p: nat)
    requires 0x10000 <= p <= 0x10FFFF
    ensures p / 262144 <= 4
    ensures p / 262144 == 0 ==> p / 4096 % 64 >= 16
    ensures p / 262144 == 4 ==> p / 4096 % 64 < 16
  {
    var q := p / 4096;
    assert 16 <= q <= 271 && p / 262144 == q / 64;
  }

  lemma {:induction false} EncodedIsUtf8(ps: seq<nat>)
    requires AreScalars(ps)
    ensures Utf8(EncodeScalars(ps))
    decreases |ps|
  {
    hide EncodeScalar, ScalarLen, IsScalar;
    if ps != [] {
      var first, rest := EncodeScalar(ps[0]), EncodeScalars(ps[1..]);
      ScalarIsRead(ps[0], rest);
      EncodedIsUtf8(ps[1..]);
      assert (first + rest)[|first|..] == rest;
    }
  }

  /** The code point the text begins with. */
  function FirstScalar(bs: seq<byte>): (p: int)
    requires ScalarLen(bs) > 0
  {
    var n := ScalarLen(bs);
    if n == 1 then bs[0]
    else if n == 2 then Two(bs[0], bs[1])
    else if n == 3 then Three(bs[0], bs[1], bs[2])
    else Four(bs[0], bs[1], bs[2], bs[3])
  }

  function Two(a: int, b: int): int {
    (a - 0xC0) * 64 + (b - 0x80)
  }

  function Three(a: int, b: int, c: int): int {
    (a - 0xE0) * 4096 + (b - 0x80) * 64 + (c - 0x80)
  }

  function Four(a: int, b: int, c: int, d: int): int {
    (a - 0xF0) * 262144 + (b - 0x80) * 4096 + (c - 0x80) * 64 + (d - 0x80)
  }

  lemma TwoBytes(a: byte, b: byte)
    requires 0xC2 <= a <= 0xDF && Tail(b)
    ensures IsScalar(Two(a, b)) && EncodeScalar(Two(a, b)) == [a, b]
  {
  }

  lemma ThreeBytes(a: byte, b: byte, c: byte)
    requires 0xE0 <= a <= 0xEF && Tail(b) && Tail(c) && (a == 0xE0 ==> b >= 0xA0) && (a == 0xED ==> b <= 0x9F)
    ensures IsScalar(Three(a, b, c)) && EncodeScalar(Three(a, b, c)) == [a, b, c]
  {
    var p := Three(a, b, c);
    var q := (a - 0xE0) * 64 + (b - 0x80);
    Sixes(q, c - 0x80);
    Sixes(a - 0xE0, b - 0x80);
    assert p == 64 * q + (c - 0x80);
    assert p / 4096 == p / 64 / 64;
  }

  lemma FourBytes(a: byte, b: byte, c: byte, d: byte)
    requires 0xF0 <= a <= 0xF4 && Tail(b) && Tail(c) && Tail(d) && (a == 0xF0 ==> b >= 0x90)
        && (a == 0xF4 ==> b <= 0x8F)
    ensures IsScalar(Four(a, b, c, d)) && EncodeScalar(Four(a, b, c, d)) == [a, b, c, d]
  {
    var p := Four(a, b, c, d);
    var q := (a - 0xF0) * 64 + (b - 0x80);
    Sixes(q * 64 + (c - 0x80), d - 0x80);
    Sixes(q, c - 0x80);
    Sixes(a - 0xF0, b - 0x80);
    assert p == 64 * (64 * q + (c - 0x80)) + (d - 0x80);
    assert p / 4096 == p / 64 / 64 && p / 262144 == p / 64 / 64 / 64;
  }

  lemma Sixes(high: int, low: int)
    requires 0 <= low < 64 && high >= 0
    ensures (64 * high + low) / 64 == high && (64 * high + low) % 64 == low
  {
  }

  lemma FirstIsScalar(bs: seq<byte>)
    requires ScalarLen(bs) > 0
    ensures IsScalar(FirstScalar(bs))
    ensures EncodeScalar(FirstScalar(bs)) == bs[..ScalarLen(bs)]
  {
    hide EncodeScalar, Two, Three, Four, IsScalar;
    var n := ScalarLen(bs);
    if n == 1 {
      OneByte(bs[0]);
      assert bs[..n] == [bs[0]];
    } else if n == 2 {
      TwoBytes(bs[0], bs[1]);
      assert bs[..n] == [bs[0], bs[1]];
    } else if n == 3 {
      ThreeBytes(bs[0], bs[1], bs[2]);
      assert bs[..n] == [bs[0], bs[1], bs[2]];
    } else {
      FourBytes(bs[0], bs[1], bs[2], bs[3]);
      assert bs[..n] == [bs[0], bs[1], bs[2], bs[3]];
    }
  }

  lemma OneByte(a: byte)
    requires a < 0x80
    ensures IsScalar(a) && EncodeScalar(a) == [a]
  {
  }

  lemma {:induction false} Utf8IsEncoded(bs: seq<byte>) returns (ps: seq<nat>)
    requires Utf8(bs)
    ensures AreScalars(ps) && EncodeScalars(ps) == bs
    decreases |bs|
  {
    hide EncodeScalar, ScalarLen, IsScalar, FirstScalar;
    if bs == [] {
      ps := [];
    } else {
      var n := ScalarLen(bs);
      FirstIsScalar(bs);
      ScalarIsNat(FirstScalar(bs));
      var more := Utf8IsEncoded(bs[n..]);
      ps := [FirstScalar(bs)] + more;
      assert ps[1..] == more;
      assert bs == bs[..n] + bs[n..];
    }
  }

  lemma ScalarIsNat(p: int)
    requires IsScalar(p)
    ensures p >= 0
  {
  }

  /** What a text may be is what code points encode to, no surrogate and nothing longer than it must be. */
  lemma Utf8IsExact(bs: seq<byte>)
    ensures Utf8(bs) <==> exists ps: seq<nat> :: AreScalars(ps) && EncodeScalars(ps) == bs
  {
    hide EncodeScalars, AreScalars;
    if Utf8(bs) {
      var ps := Utf8IsEncoded(bs);
    }
    if ps: seq<nat> :| AreScalars(ps) && EncodeScalars(ps) == bs {
      EncodedIsUtf8(ps);
    }
  }
}
