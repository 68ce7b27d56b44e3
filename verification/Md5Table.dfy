/** Section 3.4 of RFC 1321: one block of the digest, in four rounds of 16
    steps that are given by tables.  Words have exactly 32 bits. */
module Md5Table {

  datatype Quad = Quad(a: bv32, b: bv32, c: bv32, d: bv32)

  const INIT := Quad(0x67452301, 0xefcdab89, 0x98badcfe, 0x10325476)

  type Block = x: seq<bv32> | |x| == 16 witness seq(16, i => 0)

  // What one step takes: the round, the word of the block, the constant and
  // the rotation.
  datatype Row = Row(round: nat, k: nat, t: bv32, s: bv32)

  predicate Sane(r: Row) { r.k < 16 && 0 < r.s < 32 }

  // The auxiliary functions F, G, H and I.
  function Auxiliary(round: nat, x: bv32, y: bv32, z: bv32): bv32 {
    match round
    case 1 => (x & y) | (!x & z)
    case 2 => (x & z) | (y & !z)
    case 3 => x ^ y ^ z
    case _ => y ^ (x | !z)
  }

  // The circular shift.
  function Rotl(w: bv32, s: bv32): bv32
    requires 0 < s < 32
  {
    (w << s) | (w >> (32 - s))
  }

  // The constants T[1] to T[64], 16 for each round.
  function T1(j: nat): bv32
    requires j < 16
  {
    match j
    case 0 => 0xd76aa478
    case 1 => 0xe8c7b756
    case 2 => 0x242070db
    case 3 => 0xc1bdceee
    case 4 => 0xf57c0faf
    case 5 => 0x4787c62a
    case 6 => 0xa8304613
    case 7 => 0xfd469501
    case 8 => 0x698098d8
    case 9 => 0x8b44f7af
    case 10 => 0xffff5bb1
    case 11 => 0x895cd7be
    case 12 => 0x6b901122
    case 13 => 0xfd987193
    case 14 => 0xa679438e
    case _ => 0x49b40821
  }

  function T2(j: nat): bv32
    requires j < 16
  {
    match j
    case 0 => 0xf61e2562
    case 1 => 0xc040b340
    case 2 => 0x265e5a51
    case 3 => 0xe9b6c7aa
    case 4 => 0xd62f105d
    case 5 => 0x02441453
    case 6 => 0xd8a1e681
    case 7 => 0xe7d3fbc8
    case 8 => 0x21e1cde6
    case 9 => 0xc33707d6
    case 10 => 0xf4d50d87
    case 11 => 0x455a14ed
    case 12 => 0xa9e3e905
    case 13 => 0xfcefa3f8
    case 14 => 0x676f02d9
    case _ => 0x8d2a4c8a
  }

  function T3(j: nat): bv32
    requires j < 16
  {
    match j
    case 0 => 0xfffa3942
    case 1 => 0x8771f681
    case 2 => 0x6d9d6122
    case 3 => 0xfde5380c
    case 4 => 0xa4beea44
    case 5 => 0x4bdecfa9
    case 6 => 0xf6bb4b60
    case 7 => 0xbebfbc70
    case 8 => 0x289b7ec6
    case 9 => 0xeaa127fa
    case 10 => 0xd4ef3085
    case 11 => 0x04881d05
    case 12 => 0xd9d4d039
    case 13 => 0xe6db99e5
    case 14 => 0x1fa27cf8
    case _ => 0xc4ac5665
  }

  function T4(j: nat): bv32
    requires j < 16
  {
    match j
    case 0 => 0xf4292244
    case 1 => 0x432aff97
    case 2 => 0xab9423a7
    case 3 => 0xfc93a039
    case 4 => 0x655b59c3
    case 5 => 0x8f0ccc92
    case 6 => 0xffeff47d
    case 7 => 0x85845dd1
    case 8 => 0x6fa87e4f
    case 9 => 0xfe2ce6e0
    case 10 => 0xa3014314
    case 11 => 0x4e0811a1
    case 12 => 0xf7537e82
    case 13 => 0xbd3af235
    case 14 => 0x2ad7d2bb
    case _ => 0xeb86d391
  }

  // Step j of a round.
  function Table(round: nat, j: nat): (r: Row)
    requires 1 <= round <= 4 && j < 16
    ensures Sane(r)
  {
    var i := j % 4;
    match round
    case 1 => Row(1, j, T1(j), if i == 0 then 7 else if i == 1 then 12 else if i == 2 then 17 else 22)
    case 2 => Row(2, (5 * j + 1) % 16, T2(j), if i == 0 then 5 else if i == 1 then 9 else if i == 2 then 14 else 20)
    case 3 => Row(3, (3 * j + 5) % 16, T3(j), if i == 0 then 4 else if i == 1 then 11 else if i == 2 then 16 else 23)
    case _ => Row(4, 7 * j % 16, T4(j), if i == 0 then 6 else if i == 1 then 10 else if i == 2 then 15 else 21)
  }

  // The operation of a step: add up, rotate, add.
  function Operation(f: bv32, w: bv32, x: bv32, word: bv32, t: bv32, s: bv32): bv32
    requires 0 < s < 32
  {
    Rotl(w + (f + (word + t)), s) + x
  }

  // One step computes one word, and passes the roles on.
  function Step(r: Row, q: Quad, x: Block): Quad
    requires Sane(r)
  {
    var w := Operation(Auxiliary(r.round, q.b, q.c, q.d), q.a, q.b, x[r.k], r.t, r.s);
    Quad(q.d, w, q.b, q.c)
  }

  function Steps(round: nat, q: Quad, x: Block, n: nat): Quad
    requires 1 <= round <= 4 && n <= 16
  {
    if n == 0 then q else Step(Table(round, n - 1), Steps(round, q, x, n - 1), x)
  }

  // A round has a step for every word of the block.
  function Round(round: nat, q: Quad, x: Block): Quad
    requires 1 <= round <= 4
  {
    Steps(round, q, x, |x|)
  }

  const ROUNDS: nat := 4

  function Rounds(q: Quad, x: Block, n: nat): Quad
    requires n <= ROUNDS
  {
    if n == 0 then q else Round(n, Rounds(q, x, n - 1), x)
  }

  function Plus(q: Quad, r: Quad): Quad { Quad(q.a + r.a, q.b + r.b, q.c + r.c, q.d + r.d) }

  function Transform(q: Quad, x: Block): Quad { Plus(q, Rounds(q, x, ROUNDS)) }

  // The two shifts are the circular shift, for the amounts in use.
  lemma {:induction false} RotlIsCircular(w: bv32)
    ensures Rotl(w, 4) == w.RotateLeft(4) && Rotl(w, 5) == w.RotateLeft(5) && Rotl(w, 6) == w.RotateLeft(6)
    ensures Rotl(w, 7) == w.RotateLeft(7) && Rotl(w, 9) == w.RotateLeft(9) && Rotl(w, 10) == w.RotateLeft(10)
    ensures Rotl(w, 11) == w.RotateLeft(11) && Rotl(w, 12) == w.RotateLeft(12) && Rotl(w, 14) == w.RotateLeft(14)
    ensures Rotl(w, 15) == w.RotateLeft(15) && Rotl(w, 16) == w.RotateLeft(16) && Rotl(w, 17) == w.RotateLeft(17)
    ensures Rotl(w, 20) == w.RotateLeft(20) && Rotl(w, 21) == w.RotateLeft(21) && Rotl(w, 22) == w.RotateLeft(22)
    ensures Rotl(w, 23) == w.RotateLeft(23)
  {
  }

  // ------------------------------------- the states between the steps of a round

  ghost predicate Rows(round: nat, rs: seq<Row>)
    requires 1 <= round <= 4
  {
    |rs| == 16 && forall j :: 0 <= j < 16 ==> rs[j] == Table(round, j)
  }

  ghost predicate Chain(ss: seq<Quad>, rs: seq<Row>, x: Block) {
    && |ss| == |rs| + 1
    && forall j :: 0 <= j < |rs| ==> Sane(rs[j]) && ss[j + 1] == Step(rs[j], ss[j], x)
  }

  ghost function TableRows(round: nat, n: nat): (rs: seq<Row>)
    requires 1 <= round <= 4 && n <= 16
    ensures |rs| == n && forall j :: 0 <= j < n ==> rs[j] == Table(round, j)
  {
    if n == 0 then [] else TableRows(round, n - 1) + [Table(round, n - 1)]
  }

  ghost function States(round: nat, q: Quad, x: Block, n: nat): (ss: seq<Quad>)
    requires 1 <= round <= 4 && n <= 16
    ensures |ss| == n + 1 && ss[0] == q && ss[n] == Steps(round, q, x, n)
    ensures Chain(ss, TableRows(round, n), x)
  {
    if n == 0 then [q]
    else
      var less := States(round, q, x, n - 1);
      ChainMore(less, TableRows(round, n - 1), x, Table(round, n - 1));
      less + [Step(Table(round, n - 1), less[n - 1], x)]
  }

  lemma {:induction false} ChainMore(ss: seq<Quad>, rs: seq<Row>, x: Block, r: Row)
    requires Chain(ss, rs, x) && Sane(r)
    ensures Chain(ss + [Step(r, ss[|rs|], x)], rs + [r], x)
  {
  }
}
