/** The length that ends a padded message, byte by byte. */
module Md5Length {
  import opened Md5Spec

  function Bit(n: nat): (b: bv32)
    ensures b <= 1
  {
    if n % 2 == 1 then 1 else 0
  }

  function Chain8(w: bv32, b7: bv32, b6: bv32, b5: bv32, b4: bv32, b3: bv32, b2: bv32, b1: bv32, b0: bv32): bv32 {
    (((((((((((((((w << 1) | b7) << 1) | b6) << 1) | b5) << 1) | b4) << 1) | b3) << 1) | b2) << 1) | b1) << 1) | b0
  }

  lemma {:induction false} EightBits(w: bv32, b7: bv32, b6: bv32, b5: bv32, b4: bv32, b3: bv32, b2: bv32, b1: bv32, b0: bv32)
    requires b7 <= 1 && b6 <= 1 && b5 <= 1 && b4 <= 1 && b3 <= 1 && b2 <= 1 && b1 <= 1 && b0 <= 1
    ensures var v := Chain8(0, b7, b6, b5, b4, b3, b2, b1, b0);
            v <= 0xff && Chain8(w, b7, b6, b5, b4, b3, b2, b1, b0) == (w << 8) | v
  {
  }

  lemma {:induction false} OneBit(h: nat, r: nat)
    requires 2 * h + r < W
    ensures ToWord(2 * h + r) == (ToWord(h + r / 2) << 1) | Bit(r)
  {
    assert (2 * h + r) / 2 == h + r / 2 && (2 * h + r) % 2 == r % 2;
  }

  function Chain4(w: bv32, b3: bv32, b2: bv32, b1: bv32, b0: bv32): bv32 {
    (((((((w << 1) | b3) << 1) | b2) << 1) | b1) << 1) | b0
  }

  lemma {:induction false} FourTimes(q: nat, r: nat)
    requires 16 * q + r < W
    ensures var r1, r2, r3 := r / 2, r / 2 / 2, r / 2 / 2 / 2;
            ToWord(16 * q + r) == Chain4(ToWord(q + r3 / 2), Bit(r3), Bit(r2), Bit(r1), Bit(r))
  {
    OneBit(8 * q, r);
    OneBit(4 * q, r / 2);
    OneBit(2 * q, r / 2 / 2);
    OneBit(q, r / 2 / 2 / 2);
  }

  lemma {:induction false} EightTimes(q: nat, r: nat)
    requires 256 * q + r < W && r < 256
    ensures var r1, r2, r3, r4 := r / 2, r / 2 / 2, r / 2 / 2 / 2, r / 2 / 2 / 2 / 2;
            var r5, r6, r7 := r4 / 2, r4 / 2 / 2, r4 / 2 / 2 / 2;
            ToWord(256 * q + r) == Chain8(ToWord(q), Bit(r7), Bit(r6), Bit(r5), Bit(r4), Bit(r3), Bit(r2), Bit(r1), Bit(r))
  {
    var r4 := r / 2 / 2 / 2 / 2;
    assert r4 < 16 && r4 / 2 / 2 / 2 / 2 == 0;
    FourTimes(16 * q, r);
    FourTimes(q, r4);
  }

  lemma {:induction false} LowByte(q: nat, r: nat)
    requires 256 * q + r < W && r < 256
    ensures ToWord(r) <= 0xff && ToWord(256 * q + r) == (ToWord(q) << 8) | ToWord(r)
  {
    EightTimes(q, r);
    EightTimes(0, r);
    var r1, r2, r3, r4 := r / 2, r / 2 / 2, r / 2 / 2 / 2, r / 2 / 2 / 2 / 2;
    EightBits(ToWord(q), Bit(r4 / 2 / 2 / 2), Bit(r4 / 2 / 2), Bit(r4 / 2), Bit(r4), Bit(r3), Bit(r2), Bit(r1), Bit(r));
  }

  // A digit to the base 256, as a byte.
  function DigitByte(v: nat): Byte
    requires v < 256
  {
    LowByte(0, v);
    ToWord(v)
  }

  // It has the value of the digit.
  lemma {:induction false} DigitByteHasItsValue(v: nat)
    requires v < 256
    ensures DigitByte(v) as int == v
  {
    WordValue(v);
  }

  lemma {:induction false} WordValue(v: nat)
    requires v < 256
    ensures ToWord(v) as int == v
  {
    if v > 0 {
      WordValue(v / 2);
      var w := ToWord(v / 2);
      assert w < 128;
      assert (w << 1) as int == 2 * (w as int);
    }
  }

  // The k lowest digits, the lowest first.
  function DigitBytes(n: nat, k: nat): (r: seq<Byte>)
    ensures |r| == k
  {
    if k == 0 then [] else [DigitByte(n % 256)] + DigitBytes(n / 256, k - 1)
  }

  lemma {:induction false} FirstByte(w: bv32, x: bv32, v: Byte)
    requires w == (x << 8) | v
    ensures w & 0xff == v && (w >> 8) & 0xff == x & 0xff
    ensures (w >> 16) & 0xff == (x >> 8) & 0xff && (w >> 24) & 0xff == (x >> 16) & 0xff
  {
  }

  lemma {:induction false} BytesOfShifted(w: bv32, x: bv32, v: Byte, k: nat)
    requires w == (x << 8) | v && k < 4
    ensures Bytes(w)[..k + 1] == [v] + Bytes(x)[..k]
  {
    FirstByte(w, x, v);
  }

  lemma {:induction false} WordDigits(n: nat, k: nat)
    requires n < W && k <= 4
    ensures Bytes(ToWord(n))[..k] == DigitBytes(n, k)
    decreases k
  {
    if k > 0 {
      var q, r := n / 256, n % 256;
      LowByte(q, r);
      assert n == 256 * q + r;
      BytesOfShifted(ToWord(n), ToWord(q), DigitByte(r), k - 1);
      WordDigits(q, k - 1);
    }
  }

  // ------------------------------------------------------------ both words

  lemma {:induction false} DivideStep(q: nat, m: nat, r: nat)
    requires m > 0
    ensures (256 * (m * q) + r) / 256 == m * q + r / 256 && (256 * (m * q) + r) % 256 == r % 256
  {
    var h := m * q;
    assert (256 * h + r) / 256 == h + r / 256;
  }

  // Digits below a power of the base do not depend on what lies above it.
  lemma {:induction false} LowDigits(q: nat, m: nat, r: nat, k: nat)
    requires m == Power(k)
    ensures DigitBytes(m * q + r, k) == DigitBytes(r, k)
    decreases k
  {
    if k > 0 {
      var p := Power(k - 1);
      assert m * q == 256 * (p * q);
      DivideStep(q, p, r);
      LowDigits(q, p, r / 256, k - 1);
    }
  }

  function Power(k: nat): (p: nat)
    ensures p > 0
  {
    if k == 0 then 1 else 256 * Power(k - 1)
  }

  function Shifted(n: nat, k: nat): nat { if k == 0 then n else Shifted(n / 256, k - 1) }

  lemma {:induction false} DigitsAppend(n: nat, j: nat, k: nat)
    ensures DigitBytes(n, j + k) == DigitBytes(n, j) + DigitBytes(Shifted(n, j), k)
    decreases j
  {
    if j > 0 {
      DigitsAppend(n / 256, j - 1, k);
    }
  }

  lemma {:induction false} FourthQuotient(n: nat)
    ensures Shifted(n, 4) == n / W
  {
    assert n / 256 / 256 == n / 0x1_0000;
    assert n / 256 / 256 / 256 == n / 0x100_0000;
    assert Shifted(n, 4) == Shifted(n / 256, 3) == Shifted(n / 256 / 256, 2) == Shifted(n / 256 / 256 / 256, 1);
  }

  lemma {:induction false} FourthPower()
    ensures Power(4) == W
  {
    assert Power(1) == 256;
    assert Power(2) == 0x1_0000;
    assert Power(3) == 0x100_0000;
  }

  lemma {:induction false} LowWord(n: nat)
    ensures DigitBytes(n % W, 4) == DigitBytes(n, 4)
  {
    FourthPower();
    LowDigits(n / W, W, n % W, 4);
    assert W * (n / W) + n % W == n;
  }

  // The length at the end of the padded message is the number of its bits
  // modulo 2^64, to the base 256, low-order byte first.
  lemma {:induction false} LengthBytesAreItsDigits(n: nat)
    ensures LengthBytes(n) == DigitBytes(8 * n, 8)
  {
    var bits := 8 * n;
    WordDigits(bits % W, 4);
    WordDigits(bits / W % W, 4);
    LowWord(bits);
    LowWord(bits / W);
    DigitsAppend(bits, 4, 4);
    FourthQuotient(bits);
    var a, b := Bytes(ToWord(bits % W)), Bytes(ToWord(bits / W % W));
    assert a[..4] == a && b[..4] == b;
  }
}
