/** Octets, exclusive-or and little-endian words, shared by every module that moves bytes. */
module Bytes {

  type byte = b: int | 0 <= b < 256

  const U32 := 0x1_0000_0000

  /** Exclusive-or of the low `bits` bits of two numbers, one bit at a time. */
  function XorBits(a: nat, b: nat, bits: nat): nat
  {
    if bits == 0 then 0
    else (if a % 2 == b % 2 then 0 else 1) + 2 * XorBits(a / 2, b / 2, bits - 1)
  }

  function Pow2(n: nat): nat
  {
    if n == 0 then 1 else 2 * Pow2(n - 1)
  }

  lemma {:induction false} XorBitsInvolutive(a: nat, b: nat, bits: nat)
    requires a < Pow2(bits)
    ensures XorBits(a, b, bits) < Pow2(bits)
    ensures XorBits(XorBits(a, b, bits), b, bits) == a
  {
    if bits > 0 {
      XorBitsInvolutive(a / 2, b / 2, bits - 1);
      var x := XorBits(a, b, bits);
      var y := XorBits(a / 2, b / 2, bits - 1);
      assert x / 2 == y;
      assert x % 2 == if a % 2 == b % 2 then 0 else 1;
    }
  }

  /** Bit `i` of a number. */
  predicate Bit(a: nat, i: nat) {
    Pow2Positive(i);
    a / Pow2(i) % 2 == 1
  }

  lemma {:induction false} Pow2Positive(n: nat)
    ensures Pow2(n) > 0
  {
    if n > 0 {
      Pow2Positive(n - 1);
    }
  }

  /** Every bit of the result is set exactly where the operands differ. */
  lemma {:induction false} XorBitsAt(a: nat, b: nat, bits: nat, i: nat)
    requires i < bits
    ensures Bit(XorBits(a, b, bits), i) <==> Bit(a, i) != Bit(b, i)
  {
    var x := XorBits(a, b, bits);
    if i > 0 {
      XorBitsAt(a / 2, b / 2, bits - 1, i - 1);
      BitShifts(a, i);
      BitShifts(b, i);
      assert x / 2 == XorBits(a / 2, b / 2, bits - 1);
      BitShifts(x, i);
    }
  }

  lemma BitShifts(a: nat, i: nat)
    requires i > 0
    ensures Bit(a, i) <==> Bit(a / 2, i - 1)
  {
    Pow2Positive(i - 1);
    HalveFirst(a, Pow2(i - 1));
  }

  lemma HalveFirst(a: nat, p: nat)
    requires p > 0
    ensures a / (2 * p) == a / 2 / p
  {
    var h, r := a / 2, a % 2;
    var q, s := h / p, h % p;
    assert a == 2 * (p * q + s) + r;
    assert a == (2 * p) * q + (2 * s + r) && 0 <= 2 * s + r < 2 * p;
    MulMod(2 * p, q, 2 * s + r);
  }

  lemma {:induction false} MulMod(d: nat, q: nat, r: nat)
    requires r < d
    ensures (d * q + r) % d == r && (d * q + r) / d == q
  {
    if q > 0 {
      MulMod(d, q - 1, r);
      var x := d * (q - 1) + r;
      assert d * q + r == x + d;
      DivStep(x, d);
    }
  }

  lemma DivStep(x: nat, d: nat)
    requires d > 0
    ensures (x + d) % d == x % d && (x + d) / d == x / d + 1
  {
    var q, r := x / d, x % d;
    var q', r' := (x + d) / d, (x + d) % d;
    assert x == d * q + r && x + d == d * q' + r';
    var k := q' - q - 1;
    assert d * k == r - r' && d * (-k) == -(d * k);
    if k >= 1 {
      MulAtLeast(d, k);
    } else if k <= -1 {
      MulAtLeast(d, -k);
    }
  }

  lemma {:induction false} MulAtLeast(d: nat, k: int)
    requires k >= 1
    ensures d * k >= d
  {
    if k > 1 {
      MulAtLeast(d, k - 1);
      assert d * k == d * (k - 1) + d;
    }
  }

  function Xor(a: byte, b: byte): byte
  {
    assert Pow2(8) == 256;
    XorBitsInvolutive(a, b, 8);
    XorBits(a, b, 8)
  }

  lemma XorInvolutive(a: byte, b: byte)
    ensures Xor(Xor(a, b), b) == a
  {
    assert Pow2(8) == 256;
    XorBitsInvolutive(a, b, 8);
  }

  /** The exclusive-or of two octets, bit by bit. */
  lemma XorAt(a: byte, b: byte, i: nat)
    requires i < 8
    ensures Bit(Xor(a, b), i) <==> Bit(a, i) != Bit(b, i)
  {
    XorBitsAt(a, b, 8, i);
  }

  /** Bytewise exclusive-or; a longer second operand is cut to the first one's length. */
  function XorSeq(a: seq<byte>, b: seq<byte>): (r: seq<byte>)
    requires |a| <= |b|
    ensures |r| == |a|
  {
    seq(|a|, i requires 0 <= i < |a| => Xor(a[i], b[i]))
  }

  lemma XorSeqInvolutive(a: seq<byte>, b: seq<byte>)
    requires |a| <= |b|
    ensures XorSeq(XorSeq(a, b), b) == a
  {
    forall i | 0 <= i < |a|
      ensures XorSeq(XorSeq(a, b), b)[i] == a[i]
    {
      XorInvolutive(a[i], b[i]);
    }
  }

  /** `n` as four bytes, least significant first. */
  function LE4(n: nat): (r: seq<byte>)
    requires n < U32
    ensures |r| == 4
  {
    [n % 256, n / 256 % 256, n / 65536 % 256, n / 16777216]
  }

  function FromLE4(b: seq<byte>): (n: nat)
    requires |b| == 4
    ensures n < U32
  {
    var b0: int, b1: int, b2: int, b3: int := b[0], b[1], b[2], b[3];
    b0 + 256 * b1 + 65536 * b2 + 16777216 * b3
  }

  lemma LE4RoundTrip(n: nat)
    requires n < U32
    ensures FromLE4(LE4(n)) == n
  {
    var a := n / 256;
    var b := a / 256;
    assert n / 65536 == b && n / 16777216 == b / 256;
  }

  lemma FromLE4RoundTrip(b: seq<byte>)
    requires |b| == 4
    ensures LE4(FromLE4(b)) == b
  {
    var n := FromLE4(b);
    var b0: int, b1: int, b2: int, b3: int := b[0], b[1], b[2], b[3];
    assert n / 256 == b1 + 256 * b2 + 65536 * b3;
    assert n / 65536 == b2 + 256 * b3;
  }
}
