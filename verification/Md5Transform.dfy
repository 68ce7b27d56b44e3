/** MD5Transform in the source's own form: 64 steps written out. */
module Md5Transform {
  import opened Md5Table

  // The rewritten auxiliary functions.
  function F1(x: bv32, y: bv32, z: bv32): (r: bv32)
    ensures r == (x & y) | (!x & z)
  {
    z ^ (x & (y ^ z))
  }

  function F2(x: bv32, y: bv32, z: bv32): (r: bv32)
    ensures r == (x & z) | (y & !z)
  {
    F1(z, x, y)
  }

  function F3(x: bv32, y: bv32, z: bv32): bv32 { x ^ y ^ z }

  function F4(x: bv32, y: bv32, z: bv32): bv32 { y ^ (x | !z) }

  lemma {:induction false} StepIs1(q: Quad, k: nat, c: bv32, s: bv32, blk: Block)
    requires k < 16 && 0 < s < 32
    ensures Quad(q.d, Operation(F1(q.b, q.c, q.d), q.a, q.b, blk[k], c, s), q.b, q.c) == Step(Row(1, k, c, s), q, blk)
  {
    assert F1(q.b, q.c, q.d) == Auxiliary(1, q.b, q.c, q.d);
  }

  // The step macro with F1; j is the number of the step in its round.
  method Md5Step1(w: bv32, x: bv32, y: bv32, z: bv32, word: bv32, ghost k: nat, c: bv32, s: bv32,
                  ghost j: nat, ghost ss: seq<Quad>, ghost rs: seq<Row>, ghost blk: Block) returns (r: bv32)
    requires j < |rs| && Chain(ss, rs, blk) && rs[j] == Row(1, k, c, s) && 0 < s < 32
    requires Quad(w, x, y, z) == ss[j] && k < 16 && word == blk[k]
    ensures Quad(z, r, x, y) == ss[j + 1]
  {
    StepIs1(Quad(w, x, y, z), k, c, s, blk);
    r := Operation(F1(x, y, z), w, x, word, c, s);
    assert ss[j + 1] == Step(rs[j], ss[j], blk);
  }

  lemma {:induction false} StepIs2(q: Quad, k: nat, c: bv32, s: bv32, blk: Block)
    requires k < 16 && 0 < s < 32
    ensures Quad(q.d, Operation(F2(q.b, q.c, q.d), q.a, q.b, blk[k], c, s), q.b, q.c) == Step(Row(2, k, c, s), q, blk)
  {
    assert F2(q.b, q.c, q.d) == Auxiliary(2, q.b, q.c, q.d);
  }

  // The step macro with F2; j is the number of the step in its round.
  method Md5Step2(w: bv32, x: bv32, y: bv32, z: bv32, word: bv32, ghost k: nat, c: bv32, s: bv32,
                  ghost j: nat, ghost ss: seq<Quad>, ghost rs: seq<Row>, ghost blk: Block) returns (r: bv32)
    requires j < |rs| && Chain(ss, rs, blk) && rs[j] == Row(2, k, c, s) && 0 < s < 32
    requires Quad(w, x, y, z) == ss[j] && k < 16 && word == blk[k]
    ensures Quad(z, r, x, y) == ss[j + 1]
  {
    StepIs2(Quad(w, x, y, z), k, c, s, blk);
    r := Operation(F2(x, y, z), w, x, word, c, s);
    assert ss[j + 1] == Step(rs[j], ss[j], blk);
  }

  lemma {:induction false} StepIs3(q: Quad, k: nat, c: bv32, s: bv32, blk: Block)
    requires k < 16 && 0 < s < 32
    ensures Quad(q.d, Operation(F3(q.b, q.c, q.d), q.a, q.b, blk[k], c, s), q.b, q.c) == Step(Row(3, k, c, s), q, blk)
  {
    assert F3(q.b, q.c, q.d) == Auxiliary(3, q.b, q.c, q.d);
  }

  // The step macro with F3; j is the number of the step in its round.
  method Md5Step3(w: bv32, x: bv32, y: bv32, z: bv32, word: bv32, ghost k: nat, c: bv32, s: bv32,
                  ghost j: nat, ghost ss: seq<Quad>, ghost rs: seq<Row>, ghost blk: Block) returns (r: bv32)
    requires j < |rs| && Chain(ss, rs, blk) && rs[j] == Row(3, k, c, s) && 0 < s < 32
    requires Quad(w, x, y, z) == ss[j] && k < 16 && word == blk[k]
    ensures Quad(z, r, x, y) == ss[j + 1]
  {
    StepIs3(Quad(w, x, y, z), k, c, s, blk);
    r := Operation(F3(x, y, z), w, x, word, c, s);
    assert ss[j + 1] == Step(rs[j], ss[j], blk);
  }

  lemma {:induction false} StepIs4(q: Quad, k: nat, c: bv32, s: bv32, blk: Block)
    requires k < 16 && 0 < s < 32
    ensures Quad(q.d, Operation(F4(q.b, q.c, q.d), q.a, q.b, blk[k], c, s), q.b, q.c) == Step(Row(4, k, c, s), q, blk)
  {
    assert F4(q.b, q.c, q.d) == Auxiliary(4, q.b, q.c, q.d);
  }

  // The step macro with F4; j is the number of the step in its round.
  method Md5Step4(w: bv32, x: bv32, y: bv32, z: bv32, word: bv32, ghost k: nat, c: bv32, s: bv32,
                  ghost j: nat, ghost ss: seq<Quad>, ghost rs: seq<Row>, ghost blk: Block) returns (r: bv32)
    requires j < |rs| && Chain(ss, rs, blk) && rs[j] == Row(4, k, c, s) && 0 < s < 32
    requires Quad(w, x, y, z) == ss[j] && k < 16 && word == blk[k]
    ensures Quad(z, r, x, y) == ss[j + 1]
  {
    StepIs4(Quad(w, x, y, z), k, c, s, blk);
    r := Operation(F4(x, y, z), w, x, word, c, s);
    assert ss[j + 1] == Step(rs[j], ss[j], blk);
  }

  method FirstRoundA(q: Quad, x: Block, ghost ss: seq<Quad>, ghost rs: seq<Row>) returns (r: Quad)
    requires Rows(1, rs) && Chain(ss, rs, x) && q == ss[0]
    ensures r == ss[4]
  {
    var a, b, c, d := q.a, q.b, q.c, q.d;
    a := Md5Step1(a, b, c, d, x[0], 0, 0xd76aa478, 7, 0, ss, rs, x);
    d := Md5Step1(d, a, b, c, x[1], 1, 0xe8c7b756, 12, 1, ss, rs, x);
    c := Md5Step1(c, d, a, b, x[2], 2, 0x242070db, 17, 2, ss, rs, x);
    b := Md5Step1(b, c, d, a, x[3], 3, 0xc1bdceee, 22, 3, ss, rs, x);
    return Quad(a, b, c, d);
  }

  method FirstRoundB(q: Quad, x: Block, ghost ss: seq<Quad>, ghost rs: seq<Row>) returns (r: Quad)
    requires Rows(1, rs) && Chain(ss, rs, x) && q == ss[4]
    ensures r == ss[8]
  {
    var a, b, c, d := q.a, q.b, q.c, q.d;
    a := Md5Step1(a, b, c, d, x[4], 4, 0xf57c0faf, 7, 4, ss, rs, x);
    d := Md5Step1(d, a, b, c, x[5], 5, 0x4787c62a, 12, 5, ss, rs, x);
    c := Md5Step1(c, d, a, b, x[6], 6, 0xa8304613, 17, 6, ss, rs, x);
    b := Md5Step1(b, c, d, a, x[7], 7, 0xfd469501, 22, 7, ss, rs, x);
    return Quad(a, b, c, d);
  }

  method FirstRoundC(q: Quad, x: Block, ghost ss: seq<Quad>, ghost rs: seq<Row>) returns (r: Quad)
    requires Rows(1, rs) && Chain(ss, rs, x) && q == ss[8]
    ensures r == ss[12]
  {
    var a, b, c, d := q.a, q.b, q.c, q.d;
    a := Md5Step1(a, b, c, d, x[8], 8, 0x698098d8, 7, 8, ss, rs, x);
    d := Md5Step1(d, a, b, c, x[9], 9, 0x8b44f7af, 12, 9, ss, rs, x);
    c := Md5Step1(c, d, a, b, x[10], 10, 0xffff5bb1, 17, 10, ss, rs, x);
    b := Md5Step1(b, c, d, a, x[11], 11, 0x895cd7be, 22, 11, ss, rs, x);
    return Quad(a, b, c, d);
  }

  method FirstRoundD(q: Quad, x: Block, ghost ss: seq<Quad>, ghost rs: seq<Row>) returns (r: Quad)
    requires Rows(1, rs) && Chain(ss, rs, x) && q == ss[12]
    ensures r == ss[16]
  {
    var a, b, c, d := q.a, q.b, q.c, q.d;
    a := Md5Step1(a, b, c, d, x[12], 12, 0x6b901122, 7, 12, ss, rs, x);
    d := Md5Step1(d, a, b, c, x[13], 13, 0xfd987193, 12, 13, ss, rs, x);
    c := Md5Step1(c, d, a, b, x[14], 14, 0xa679438e, 17, 14, ss, rs, x);
    b := Md5Step1(b, c, d, a, x[15], 15, 0x49b40821, 22, 15, ss, rs, x);
    return Quad(a, b, c, d);
  }

  method FirstRound(q: Quad, x: Block) returns (r: Quad)
    ensures r == Round(1, q, x)
  {
    ghost var ss, rs := States(1, q, x, |x|), TableRows(1, |x|);
    r := FirstRoundA(q, x, ss, rs);
    r := FirstRoundB(r, x, ss, rs);
    r := FirstRoundC(r, x, ss, rs);
    r := FirstRoundD(r, x, ss, rs);
  }

  method SecondRoundA(q: Quad, x: Block, ghost ss: seq<Quad>, ghost rs: seq<Row>) returns (r: Quad)
    requires Rows(2, rs) && Chain(ss, rs, x) && q == ss[0]
    ensures r == ss[4]
  {
    var a, b, c, d := q.a, q.b, q.c, q.d;
    a := Md5Step2(a, b, c, d, x[1], 1, 0xf61e2562, 5, 0, ss, rs, x);
    d := Md5Step2(d, a, b, c, x[6], 6, 0xc040b340, 9, 1, ss, rs, x);
    c := Md5Step2(c, d, a, b, x[11], 11, 0x265e5a51, 14, 2, ss, rs, x);
    b := Md5Step2(b, c, d, a, x[0], 0, 0xe9b6c7aa, 20, 3, ss, rs, x);
    return Quad(a, b, c, d);
  }

  method SecondRoundB(q: Quad, x: Block, ghost ss: seq<Quad>, ghost rs: seq<Row>) returns (r: Quad)
    requires Rows(2, rs) && Chain(ss, rs, x) && q == ss[4]
    ensures r == ss[8]
  {
    var a, b, c, d := q.a, q.b, q.c, q.d;
    a := Md5Step2(a, b, c, d, x[5], 5, 0xd62f105d, 5, 4, ss, rs, x);
    d := Md5Step2(d, a, b, c, x[10], 10, 0x02441453, 9, 5, ss, rs, x);
    c := Md5Step2(c, d, a, b, x[15], 15, 0xd8a1e681, 14, 6, ss, rs, x);
    b := Md5Step2(b, c, d, a, x[4], 4, 0xe7d3fbc8, 20, 7, ss, rs, x);
    return Quad(a, b, c, d);
  }

  method SecondRoundC(q: Quad, x: Block, ghost ss: seq<Quad>, ghost rs: seq<Row>) returns (r: Quad)
    requires Rows(2, rs) && Chain(ss, rs, x) && q == ss[8]
    ensures r == ss[12]
  {
    var a, b, c, d := q.a, q.b, q.c, q.d;
    a := Md5Step2(a, b, c, d, x[9], 9, 0x21e1cde6, 5, 8, ss, rs, x);
    d := Md5Step2(d, a, b, c, x[14], 14, 0xc33707d6, 9, 9, ss, rs, x);
    c := Md5Step2(c, d, a, b, x[3], 3, 0xf4d50d87, 14, 10, ss, rs, x);
    b := Md5Step2(b, c, d, a, x[8], 8, 0x455a14ed, 20, 11, ss, rs, x);
    return Quad(a, b, c, d);
  }

  method SecondRoundD(q: Quad, x: Block, ghost ss: seq<Quad>, ghost rs: seq<Row>) returns (r: Quad)
    requires Rows(2, rs) && Chain(ss, rs, x) && q == ss[12]
    ensures r == ss[16]
  {
    var a, b, c, d := q.a, q.b, q.c, q.d;
    a := Md5Step2(a, b, c, d, x[13], 13, 0xa9e3e905, 5, 12, ss, rs, x);
    d := Md5Step2(d, a, b, c, x[2], 2, 0xfcefa3f8, 9, 13, ss, rs, x);
    c := Md5Step2(c, d, a, b, x[7], 7, 0x676f02d9, 14, 14, ss, rs, x);
    b := Md5Step2(b, c, d, a, x[12], 12, 0x8d2a4c8a, 20, 15, ss, rs, x);
    return Quad(a, b, c, d);
  }

  method SecondRound(q: Quad, x: Block) returns (r: Quad)
    ensures r == Round(2, q, x)
  {
    ghost var ss, rs := States(2, q, x, |x|), TableRows(2, |x|);
    r := SecondRoundA(q, x, ss, rs);
    r := SecondRoundB(r, x, ss, rs);
    r := SecondRoundC(r, x, ss, rs);
    r := SecondRoundD(r, x, ss, rs);
  }

  method ThirdRoundA(q: Quad, x: Block, ghost ss: seq<Quad>, ghost rs: seq<Row>) returns (r: Quad)
    requires Rows(3, rs) && Chain(ss, rs, x) && q == ss[0]
    ensures r == ss[4]
  {
    var a, b, c, d := q.a, q.b, q.c, q.d;
    a := Md5Step3(a, b, c, d, x[5], 5, 0xfffa3942, 4, 0, ss, rs, x);
    d := Md5Step3(d, a, b, c, x[8], 8, 0x8771f681, 11, 1, ss, rs, x);
    c := Md5Step3(c, d, a, b, x[11], 11, 0x6d9d6122, 16, 2, ss, rs, x);
    b := Md5Step3(b, c, d, a, x[14], 14, 0xfde5380c, 23, 3, ss, rs, x);
    return Quad(a, b, c, d);
  }

  method ThirdRoundB(q: Quad, x: Block, ghost ss: seq<Quad>, ghost rs: seq<Row>) returns (r: Quad)
    requires Rows(3, rs) && Chain(ss, rs, x) && q == ss[4]
    ensures r == ss[8]
  {
    var a, b, c, d := q.a, q.b, q.c, q.d;
    a := Md5Step3(a, b, c, d, x[1], 1, 0xa4beea44, 4, 4, ss, rs, x);
    d := Md5Step3(d, a, b, c, x[4], 4, 0x4bdecfa9, 11, 5, ss, rs, x);
    c := Md5Step3(c, d, a, b, x[7], 7, 0xf6bb4b60, 16, 6, ss, rs, x);
    b := Md5Step3(b, c, d, a, x[10], 10, 0xbebfbc70, 23, 7, ss, rs, x);
    return Quad(a, b, c, d);
  }

  method ThirdRoundC(q: Quad, x: Block, ghost ss: seq<Quad>, ghost rs: seq<Row>) returns (r: Quad)
    requires Rows(3, rs) && Chain(ss, rs, x) && q == ss[8]
    ensures r == ss[12]
  {
    var a, b, c, d := q.a, q.b, q.c, q.d;
    a := Md5Step3(a, b, c, d, x[13], 13, 0x289b7ec6, 4, 8, ss, rs, x);
    d := Md5Step3(d, a, b, c, x[0], 0, 0xeaa127fa, 11, 9, ss, rs, x);
    c := Md5Step3(c, d, a, b, x[3], 3, 0xd4ef3085, 16, 10, ss, rs, x);
    b := Md5Step3(b, c, d, a, x[6], 6, 0x04881d05, 23, 11, ss, rs, x);
    return Quad(a, b, c, d);
  }

  method ThirdRoundD(q: Quad, x: Block, ghost ss: seq<Quad>, ghost rs: seq<Row>) returns (r: Quad)
    requires Rows(3, rs) && Chain(ss, rs, x) && q == ss[12]
    ensures r == ss[16]
  {
    var a, b, c, d := q.a, q.b, q.c, q.d;
    a := Md5Step3(a, b, c, d, x[9], 9, 0xd9d4d039, 4, 12, ss, rs, x);
    d := Md5Step3(d, a, b, c, x[12], 12, 0xe6db99e5, 11, 13, ss, rs, x);
    c := Md5Step3(c, d, a, b, x[15], 15, 0x1fa27cf8, 16, 14, ss, rs, x);
    b := Md5Step3(b, c, d, a, x[2], 2, 0xc4ac5665, 23, 15, ss, rs, x);
    return Quad(a, b, c, d);
  }

  method ThirdRound(q: Quad, x: Block) returns (r: Quad)
    ensures r == Round(3, q, x)
  {
    ghost var ss, rs := States(3, q, x, |x|), TableRows(3, |x|);
    r := ThirdRoundA(q, x, ss, rs);
    r := ThirdRoundB(r, x, ss, rs);
    r := ThirdRoundC(r, x, ss, rs);
    r := ThirdRoundD(r, x, ss, rs);
  }

  method FourthRoundA(q: Quad, x: Block, ghost ss: seq<Quad>, ghost rs: seq<Row>) returns (r: Quad)
    requires Rows(4, rs) && Chain(ss, rs, x) && q == ss[0]
    ensures r == ss[4]
  {
    var a, b, c, d := q.a, q.b, q.c, q.d;
    a := Md5Step4(a, b, c, d, x[0], 0, 0xf4292244, 6, 0, ss, rs, x);
    d := Md5Step4(d, a, b, c, x[7], 7, 0x432aff97, 10, 1, ss, rs, x);
    c := Md5Step4(c, d, a, b, x[14], 14, 0xab9423a7, 15, 2, ss, rs, x);
    b := Md5Step4(b, c, d, a, x[5], 5, 0xfc93a039, 21, 3, ss, rs, x);
    return Quad(a, b, c, d);
  }

  method FourthRoundB(q: Quad, x: Block, ghost ss: seq<Quad>, ghost rs: seq<Row>) returns (r: Quad)
    requires Rows(4, rs) && Chain(ss, rs, x) && q == ss[4]
    ensures r == ss[8]
  {
    var a, b, c, d := q.a, q.b, q.c, q.d;
    a := Md5Step4(a, b, c, d, x[12], 12, 0x655b59c3, 6, 4, ss, rs, x);
    d := Md5Step4(d, a, b, c, x[3], 3, 0x8f0ccc92, 10, 5, ss, rs, x);
    c := Md5Step4(c, d, a, b, x[10], 10, 0xffeff47d, 15, 6, ss, rs, x);
    b := Md5Step4(b, c, d, a, x[1], 1, 0x85845dd1, 21, 7, ss, rs, x);
    return Quad(a, b, c, d);
  }

  method FourthRoundC(q: Quad, x: Block, ghost ss: seq<Quad>, ghost rs: seq<Row>) returns (r: Quad)
    requires Rows(4, rs) && Chain(ss, rs, x) && q == ss[8]
    ensures r == ss[12]
  {
    var a, b, c, d := q.a, q.b, q.c, q.d;
    a := Md5Step4(a, b, c, d, x[8], 8, 0x6fa87e4f, 6, 8, ss, rs, x);
    d := Md5Step4(d, a, b, c, x[15], 15, 0xfe2ce6e0, 10, 9, ss, rs, x);
    c := Md5Step4(c, d, a, b, x[6], 6, 0xa3014314, 15, 10, ss, rs, x);
    b := Md5Step4(b, c, d, a, x[13], 13, 0x4e0811a1, 21, 11, ss, rs, x);
    return Quad(a, b, c, d);
  }

  method FourthRoundD(q: Quad, x: Block, ghost ss: seq<Quad>, ghost rs: seq<Row>) returns (r: Quad)
    requires Rows(4, rs) && Chain(ss, rs, x) && q == ss[12]
    ensures r == ss[16]
  {
    var a, b, c, d := q.a, q.b, q.c, q.d;
    a := Md5Step4(a, b, c, d, x[4], 4, 0xf7537e82, 6, 12, ss, rs, x);
    d := Md5Step4(d, a, b, c, x[11], 11, 0xbd3af235, 10, 13, ss, rs, x);
    c := Md5Step4(c, d, a, b, x[2], 2, 0x2ad7d2bb, 15, 14, ss, rs, x);
    b := Md5Step4(b, c, d, a, x[9], 9, 0xeb86d391, 21, 15, ss, rs, x);
    return Quad(a, b, c, d);
  }

  method FourthRound(q: Quad, x: Block) returns (r: Quad)
    ensures r == Round(4, q, x)
  {
    ghost var ss, rs := States(4, q, x, |x|), TableRows(4, |x|);
    r := FourthRoundA(q, x, ss, rs);
    r := FourthRoundB(r, x, ss, rs);
    r := FourthRoundC(r, x, ss, rs);
    r := FourthRoundD(r, x, ss, rs);
  }

  function State(buf: seq<bv32>): Quad
    requires |buf| == 4
  {
    Quad(buf[0], buf[1], buf[2], buf[3])
  }

  method AllRounds(q: Quad, x: Block) returns (r: Quad)
    ensures r == Rounds(q, x, ROUNDS)
  {
    r := FirstRound(q, x);
    assert Rounds(q, x, 0) == q;
    assert r == Rounds(q, x, 1);
    r := SecondRound(r, x);
    assert r == Rounds(q, x, 2);
    r := ThirdRound(r, x);
    assert r == Rounds(q, x, 3);
    r := FourthRound(r, x);
  }

  method MD5Transform(buf: array<bv32>, x: Block)
    requires buf.Length == 4
    modifies buf
    ensures State(buf[..]) == Transform(old(State(buf[..])), x)
  {
    var q := Quad(buf[0], buf[1], buf[2], buf[3]);
    var r := AllRounds(q, x);
    var sum := Plus(q, r);
    buf[0], buf[1], buf[2], buf[3] := sum.a, sum.b, sum.c, sum.d;
  }
}
