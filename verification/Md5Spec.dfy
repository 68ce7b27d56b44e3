/** RFC 1321: the digest of a whole message. */
module Md5Spec {
  import opened Md5Table

  // ------------------------------------------------------ bytes and words

  type Byte = b: bv32 | b <= 0xff

  const W := 0x1_0000_0000

  // Low-order byte first.
  function Word(b0: Byte, b1: Byte, b2: Byte, b3: Byte): bv32 {
    (((b3 << 8) | b2) << 16) | ((b1 << 8) | b0)
  }

  function Bytes(w: bv32): (r: seq<Byte>)
    ensures |r| == 4
  {
    [w & 0xff, (w >> 8) & 0xff, (w >> 16) & 0xff, (w >> 24) & 0xff]
  }

  lemma {:induction false} WordOfBytes(w: bv32)
    ensures Word(Bytes(w)[0], Bytes(w)[1], Bytes(w)[2], Bytes(w)[3]) == w
  {
  }

  lemma {:induction false} BitsOfWord(b0: Byte, b1: Byte, b2: Byte, b3: Byte)
    ensures var w := Word(b0, b1, b2, b3);
            w & 0xff == b0 && (w >> 8) & 0xff == b1 && (w >> 16) & 0xff == b2 && (w >> 24) & 0xff == b3
  {
  }

  lemma {:induction false} BytesOfWord(b0: Byte, b1: Byte, b2: Byte, b3: Byte)
    ensures Bytes(Word(b0, b1, b2, b3)) == [b0, b1, b2, b3]
  {
    BitsOfWord(b0, b1, b2, b3);
  }

  // 64 bytes of memory read as 16 words.
  function Words(bytes: seq<Byte>): Block
    requires |bytes| == 64
  {
    seq(16, i requires 0 <= i < 16 => Word(bytes[4 * i], bytes[4 * i + 1], bytes[4 * i + 2], bytes[4 * i + 3]))
  }

  // ------------------------------------------------- the digest of a message

  // Section 3.4: the blocks of 64 bytes, one after the other.
  function Absorb(q: Quad, bytes: seq<Byte>): Quad
    decreases |bytes|, 1
  {
    if |bytes| < 64 then q else AbsorbFirst(q, bytes)
  }

  function AbsorbFirst(q: Quad, bytes: seq<Byte>): Quad
    requires |bytes| >= 64
    decreases |bytes|, 0
  {
    Absorb(Transform(q, Words(bytes[..64])), bytes[64..])
  }

  // The word with this value.
  function ToWord(n: nat): bv32
    requires n < W
  {
    if n == 0 then 0 else (ToWord(n / 2) << 1) | (if n % 2 == 1 then 1 else 0)
  }

  // The length in bits modulo 2^64, low-order word first.
  function LengthBytes(n: nat): (r: seq<Byte>)
    ensures |r| == 8
  {
    Bytes(ToWord(8 * n % W)) + Bytes(ToWord(8 * n / W % W))
  }

  function Zeros(n: nat): seq<Byte> { seq(n, i => 0) }

  function Room(n: nat): (z: nat)
    ensures (n + 1 + z) % 64 == 56
  {
    (119 - n % 64) % 64
  }

  // Sections 3.1 and 3.2: a one bit, zeros up to 56 modulo 64, the length.
  function Pad(m: seq<Byte>): seq<Byte> {
    m + [0x80] + Zeros(Room(|m|)) + LengthBytes(|m|)
  }

  // The padded message starts with the message and fills whole blocks.
  lemma {:induction false} PadFillsBlocks(m: seq<Byte>)
    ensures |Pad(m)| % 64 == 0 && Pad(m)[..|m|] == m
  {
    EightMore(|m| + 1 + Room(|m|));
  }

  lemma {:induction false} EightMore(n: nat)
    requires n % 64 == 56
    ensures (n + 8) % 64 == 0
  {
    assert n + 8 == 64 * (n / 64 + 1);
  }

  // Section 3.5.
  function Output(q: Quad): seq<Byte> { Bytes(q.a) + Bytes(q.b) + Bytes(q.c) + Bytes(q.d) }

  function Digest(m: seq<Byte>): seq<Byte> { Output(Absorb(INIT, Pad(m))) }

  lemma {:induction false} AbsorbAppend(q: Quad, a: seq<Byte>, b: seq<Byte>)
    requires |a| % 64 == 0
    ensures Absorb(q, a + b) == Absorb(Absorb(q, a), b)
    decreases |a|
  {
    if a == [] {
      assert a + b == b;
    } else {
      assert (a + b)[..64] == a[..64] && (a + b)[64..] == a[64..] + b;
      AbsorbAppend(Transform(q, Words(a[..64])), a[64..], b);
      assert Absorb(q, a) == AbsorbFirst(q, a) && Absorb(q, a + b) == AbsorbFirst(q, a + b);
    }
  }

  lemma {:induction false} AbsorbBlock(q: Quad, bytes: seq<Byte>)
    requires |bytes| == 64
    ensures Absorb(q, bytes) == Transform(q, Words(bytes))
  {
    assert bytes[..64] == bytes;
    assert Absorb(q, bytes) == AbsorbFirst(q, bytes);
  }

  // The whole blocks of a message, and what is left over.
  function Whole(m: seq<Byte>): seq<Byte> { m[..|m| - |m| % 64] }

  function Rest(m: seq<Byte>): (r: seq<Byte>)
    ensures |r| == |m| % 64
  {
    m[|m| - |m| % 64..]
  }

  lemma {:induction false} NoBlockMore(m: seq<Byte>, part: seq<Byte>)
    requires |m| % 64 + |part| < 64
    ensures Whole(m + part) == Whole(m) && Rest(m + part) == Rest(m) + part
  {
    assert |m + part| % 64 == |m| % 64 + |part|;
  }

  lemma {:induction false} OneBlockMore(m: seq<Byte>, part: seq<Byte>)
    requires |m| % 64 + |part| == 64
    ensures Rest(m + part) == []
    ensures Absorb(INIT, Whole(m + part)) == Transform(Absorb(INIT, Whole(m)), Words(Rest(m) + part))
  {
    assert Whole(m + part) == Whole(m) + (Rest(m) + part);
    AbsorbMore(INIT, Whole(m), Rest(m) + part);
  }

  lemma {:induction false} AbsorbMore(q: Quad, a: seq<Byte>, b: seq<Byte>)
    requires |a| % 64 == 0 && |b| == 64
    ensures Absorb(q, a + b) == Transform(Absorb(q, a), Words(b))
  {
    AbsorbAppend(q, a, b);
    AbsorbBlock(Absorb(q, a), b);
  }

  lemma {:induction false} Assoc(a: seq<Byte>, b: seq<Byte>, c: seq<Byte>)
    ensures a + (b + c) == (a + b) + c
  {
  }

  // The padded message: its whole blocks, and one or two more.
  lemma {:induction false} PadIsOne(m: seq<Byte>)
    requires |m| % 64 < 56
    ensures Pad(m) == Whole(m) + (Rest(m) + [0x80] + Zeros(55 - |m| % 64) + LengthBytes(|m|))
  {
    var zs, end := Zeros(55 - |m| % 64), LengthBytes(|m|);
    assert m == Whole(m) + Rest(m);
    Assoc(Whole(m), Rest(m), [0x80]);
    Assoc(Whole(m), Rest(m) + [0x80], zs);
    Assoc(Whole(m), Rest(m) + [0x80] + zs, end);
  }

  lemma {:induction false} WholeBlocks(m: seq<Byte>)
    ensures |Whole(m)| % 64 == 0
  {
    assert |Whole(m)| == 64 * (|m| / 64);
  }

  lemma {:induction false} PadEndsHere(m: seq<Byte>, part: seq<Byte>)
    requires |m| % 64 < 56 && part == Rest(m) + [0x80] + Zeros(55 - |m| % 64)
    ensures Pad(m) == Whole(m) + (part + LengthBytes(|m|)) && |Whole(m)| % 64 == 0
  {
    WholeBlocks(m);
    PadIsOne(m);
  }

  lemma {:induction false} PadIsTwo(m: seq<Byte>)
    requires |m| % 64 >= 56
    ensures Pad(m) == Whole(m) + (Rest(m) + [0x80] + Zeros(63 - |m| % 64)) + (Zeros(56) + LengthBytes(|m|))
  {
    var zs, end := Zeros(63 - |m| % 64), LengthBytes(|m|);
    var one := Rest(m) + [0x80] + zs;
    assert m == Whole(m) + Rest(m);
    assert Zeros(Room(|m|)) == zs + Zeros(56);
    Assoc(Whole(m), Rest(m), [0x80]);
    Assoc(m + [0x80], zs, Zeros(56));
    Assoc(Whole(m), Rest(m) + [0x80], zs);
    Assoc(Whole(m) + one, Zeros(56), end);
  }

  // The end of a message whose padding takes two blocks; full is the first.
  lemma {:induction false} TwoBlocks(m: seq<Byte>, full: seq<Byte>)
    requires |m| % 64 >= 56 && full == Rest(m) + [0x80] + Zeros(63 - |m| % 64)
    ensures |full| == 64 && |Whole(m) + full| % 64 == 0
    ensures Absorb(INIT, Whole(m) + full) == Transform(Absorb(INIT, Whole(m)), Words(full))
  {
    AbsorbMore(INIT, Whole(m), full);
  }

  ghost const NOTHING: seq<Byte> := []

  lemma {:induction false} NothingYet(m: seq<Byte>)
    requires |m| == 0
    ensures |Rest(m)| == 0 && Absorb(INIT, Whole(m)) == INIT && Counted(0, 0, |m|)
  {
    AbsorbNone(INIT, Whole(m));
  }

  lemma {:induction false} AbsorbNone(q: Quad, bytes: seq<Byte>)
    requires |bytes| < 64
    ensures Absorb(q, bytes) == q
  {
  }

  // ------------------------------------------------------------ bit counters

  // bits[0] and bits[1] after len more bytes, in 32-bit arithmetic.
  function Low(bits0: nat, len: nat): nat { (bits0 + len * 8 % W) % W }

  function High(bits0: nat, bits1: nat, len: nat): nat {
    var carried := if Low(bits0, len) < bits0 then (bits1 + 1) % W else bits1;
    (carried + len / 0x2000_0000) % W
  }

  ghost predicate Counted(bits0: nat, bits1: nat, n: nat) { bits0 == 8 * n % W && bits1 == 8 * n / W % W }

  // The counters hold 8 times the length modulo 2^64, carry included, and
  // their low bits give the fill of the buffer.
  lemma {:induction false} CountersAreExact(bits0: nat, bits1: nat, n: nat, len: nat)
    requires Counted(bits0, bits1, n) && len < W
    ensures Counted(Low(bits0, len), High(bits0, bits1, len), n + len)
    ensures bits0 / 8 % 64 == n % 64
  {
    var h, k := 8 * n / W, len / 0x2000_0000;
    var l := len * 8 % W;
    SplitLength(n, len);
    CountUp(h, bits0, k, l);
    FillIs(n, h, bits0);
  }

  lemma {:induction false} SplitLength(n: nat, len: nat)
    requires len < W
    ensures 8 * n == W * (8 * n / W) + 8 * n % W
    ensures 8 * (n + len) == W * (8 * n / W + len / 0x2000_0000) + 8 * n % W + len * 8 % W
  {
    assert len * 8 == W * (len / 0x2000_0000) + len * 8 % W;
  }

  lemma {:induction false} CountUp(h: nat, x: nat, k: nat, y: nat)
    requires x < W && y < W
    ensures var sum := W * (h + k) + x + y;
            var carry := if (x + y) % W < x then 1 else 0;
            && sum % W == (x + y) % W && sum / W == h + k + carry
            && ((h % W + carry) % W + k) % W == sum / W % W
  {
    var carry := if x + y >= W then 1 else 0;
    assert (x + y) % W == x + y - W * carry;
    assert W * (h + k) + x + y == W * (h + k + carry) + (x + y - W * carry);
  }

  lemma {:induction false} FillIs(n: nat, h: nat, x: nat)
    requires 8 * n == W * h + x
    ensures x / 8 % 64 == n % 64
  {
    assert x / 8 == n - 0x2000_0000 * h;
    assert n == 64 * (0x80_0000 * h) + x / 8;
  }

  // Any cutting of a message into pieces.
  function Flatten(pieces: seq<seq<Byte>>): seq<Byte> {
    if pieces == [] then [] else Flatten(pieces[..|pieces| - 1]) + pieces[|pieces| - 1]
  }

  lemma {:induction false} FlattenNone(m: seq<Byte>, pieces: seq<seq<Byte>>)
    ensures m + Flatten(pieces[..0]) == m
  {
  }

  lemma {:induction false} FlattenMore(m: seq<Byte>, pieces: seq<seq<Byte>>, i: nat)
    requires i < |pieces|
    ensures m + Flatten(pieces[..i + 1]) == m + Flatten(pieces[..i]) + pieces[i]
  {
    assert pieces[..i + 1][..i] == pieces[..i];
    Assoc(m, Flatten(pieces[..i]), pieces[i]);
  }
}
