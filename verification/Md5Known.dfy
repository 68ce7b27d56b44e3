/** The digest of the empty message, from the test suite in appendix A.5 of
    RFC 1321: it fixes the constants, the order of the steps and of the output. */
module Md5Known {
  import opened Md5Table
  import opened Md5Spec

  // The one block of the padded empty message.
  ghost predicate OneBit(x: Block) { x[0] == 0x80 && forall k :: 1 <= k < 16 ==> x[k] == 0 }

  // A step on this block.
  predicate StepsTo(round: nat, j: nat, q: Quad, q1: Quad)
    requires 1 <= round <= 4 && j < 16
  {
    var r := Table(round, j);
    q1 == Quad(q.d, Operation(Auxiliary(r.round, q.b, q.c, q.d), q.a, q.b, if r.k == 0 then 0x80 else 0, r.t, r.s), q.b, q.c)
  }

  lemma {:induction false} OneStep(round: nat, j: nat, q: Quad, q1: Quad, q2: Quad, x: Block)
    requires 1 <= round <= 4 && j < 16 && OneBit(x) && Steps(round, q, x, j) == q1 && StepsTo(round, j, q1, q2)
    ensures Steps(round, q, x, j + 1) == q2
  {
    var k := Table(round, j).k;
    assert x[k] == if k == 0 then 0x80 else 0;
  }

  // The states of a round from step j on.
  ghost predicate States(round: nat, j: nat, ss: seq<Quad>)
    requires 1 <= round <= 4
    decreases |ss|
  {
    ss != [] && (|ss| == 1 || (j < 16 && StepsTo(round, j, ss[0], ss[1]) && States(round, j + 1, ss[1..])))
  }

  lemma {:induction false} StatesAreSteps(round: nat, j: nat, q: Quad, x: Block, ss: seq<Quad>)
    requires 1 <= round <= 4 && OneBit(x) && States(round, j, ss) && j + |ss| == 17 && Steps(round, q, x, j) == ss[0]
    ensures Round(round, q, x) == ss[|ss| - 1]
    decreases |ss|
  {
    if |ss| > 1 {
      OneStep(round, j, q, ss[0], ss[1], x);
      StatesAreSteps(round, j + 1, q, x, ss[1..]);
    }
  }

  lemma {:induction false} Before(round: nat, j: nat, a: Quad, b: Quad, more: seq<Quad>)
    requires 1 <= round <= 4 && j < 16 && StepsTo(round, j, a, b) && States(round, j + 1, [b] + more)
    ensures States(round, j, [a] + ([b] + more))
  {
    assert ([a] + ([b] + more))[1..] == [b] + more;
  }

  // From state a the states go on, up to the last, which is z.
  ghost predicate Leads(round: nat, j: nat, a: Quad, z: Quad)
    requires 1 <= round <= 4
  {
    exists ss :: States(round, j, ss) && ss[0] == a && ss[|ss| - 1] == z && j + |ss| == 17
  }

  lemma {:induction false} OneLeads(round: nat, j: nat, a: Quad, b: Quad, z: Quad)
    requires 1 <= round <= 4 && j < 16 && Leads(round, j + 1, b, z) && StepsTo(round, j, a, b)
    ensures Leads(round, j, a, z)
  {
    var ss :| States(round, j + 1, ss) && ss[0] == b && ss[|ss| - 1] == z && j + 1 + |ss| == 17;
    assert ss == [b] + ss[1..];
    Before(round, j, a, b, ss[1..]);
    var all := [a] + ss;
    assert all[0] == a && all[|all| - 1] == z && States(round, j, all);
  }

  lemma {:induction false} TwoLead(round: nat, j: nat, a: Quad, b: Quad, c: Quad, z: Quad)
    requires 1 <= round <= 4 && j + 1 < 16 && Leads(round, j + 2, c, z) && StepsTo(round, j, a, b) && StepsTo(round, j + 1, b, c)
    ensures Leads(round, j, a, z)
  {
    OneLeads(round, j + 1, b, c, z);
    OneLeads(round, j, a, b, z);
  }

  lemma {:induction false} LastLeads(round: nat, z: Quad)
    requires 1 <= round <= 4
    ensures Leads(round, 16, z, z)
  {
    assert States(round, 16, [z]);
  }

  lemma {:induction false} LeadsToRound(round: nat, q: Quad, x: Block, z: Quad)
    requires 1 <= round <= 4 && OneBit(x) && Leads(round, 0, q, z)
    ensures Round(round, q, x) == z
  {
    var ss :| States(round, 0, ss) && ss[0] == q && ss[|ss| - 1] == z && 0 + |ss| == 17;
    StatesAreSteps(round, 0, q, x, ss);
  }

  lemma {:induction false} Values1A(z: Quad)
    requires Leads(1, 2, Quad(0x98badcfe, 0xf59592dd, 0xa5202774, 0xefcdab89), z)
    ensures Leads(1, 0, Quad(0x67452301, 0xefcdab89, 0x98badcfe, 0x10325476), z)
  {
    TwoLead(1, 0, Quad(0x67452301, 0xefcdab89, 0x98badcfe, 0x10325476),
            Quad(0x10325476, 0xa5202774, 0xefcdab89, 0x98badcfe), Quad(0x98badcfe, 0xf59592dd, 0xa5202774, 0xefcdab89), z);
  }

  lemma {:induction false} Values1B(z: Quad)
    requires Leads(1, 4, Quad(0xa5202774, 0x1b163203, 0xe7f06b23, 0xf59592dd), z)
    ensures Leads(1, 2, Quad(0x98badcfe, 0xf59592dd, 0xa5202774, 0xefcdab89), z)
  {
    TwoLead(1, 2, Quad(0x98badcfe, 0xf59592dd, 0xa5202774, 0xefcdab89),
            Quad(0xefcdab89, 0xe7f06b23, 0xf59592dd, 0xa5202774), Quad(0xa5202774, 0x1b163203, 0xe7f06b23, 0xf59592dd), z);
  }

  lemma {:induction false} Values1C(z: Quad)
    requires Leads(1, 6, Quad(0xe7f06b23, 0x2f35d494, 0x32033344, 0x1b163203), z)
    ensures Leads(1, 4, Quad(0xa5202774, 0x1b163203, 0xe7f06b23, 0xf59592dd), z)
  {
    TwoLead(1, 4, Quad(0xa5202774, 0x1b163203, 0xe7f06b23, 0xf59592dd),
            Quad(0xf59592dd, 0x32033344, 0x1b163203, 0xe7f06b23), Quad(0xe7f06b23, 0x2f35d494, 0x32033344, 0x1b163203), z);
  }

  lemma {:induction false} Values1D(z: Quad)
    requires Leads(1, 8, Quad(0x32033344, 0x9bc13ce9, 0xf5b158db, 0x2f35d494), z)
    ensures Leads(1, 6, Quad(0xe7f06b23, 0x2f35d494, 0x32033344, 0x1b163203), z)
  {
    TwoLead(1, 6, Quad(0xe7f06b23, 0x2f35d494, 0x32033344, 0x1b163203),
            Quad(0x1b163203, 0xf5b158db, 0x2f35d494, 0x32033344), Quad(0x32033344, 0x9bc13ce9, 0xf5b158db, 0x2f35d494), z);
  }

  lemma {:induction false} Values1E(z: Quad)
    requires Leads(1, 10, Quad(0xf5b158db, 0xfce4a312, 0x3893b991, 0x9bc13ce9), z)
    ensures Leads(1, 8, Quad(0x32033344, 0x9bc13ce9, 0xf5b158db, 0x2f35d494), z)
  {
    TwoLead(1, 8, Quad(0x32033344, 0x9bc13ce9, 0xf5b158db, 0x2f35d494),
            Quad(0x2f35d494, 0x3893b991, 0x9bc13ce9, 0xf5b158db), Quad(0xf5b158db, 0xfce4a312, 0x3893b991, 0x9bc13ce9), z);
  }

  lemma {:induction false} Values1F(z: Quad)
    requires Leads(1, 12, Quad(0x3893b991, 0x70768a29, 0xe1ef0576, 0xfce4a312), z)
    ensures Leads(1, 10, Quad(0xf5b158db, 0xfce4a312, 0x3893b991, 0x9bc13ce9), z)
  {
    TwoLead(1, 10, Quad(0xf5b158db, 0xfce4a312, 0x3893b991, 0x9bc13ce9),
            Quad(0x9bc13ce9, 0xe1ef0576, 0xfce4a312, 0x3893b991), Quad(0x3893b991, 0x70768a29, 0xe1ef0576, 0xfce4a312), z);
  }

  lemma {:induction false} Values1G(z: Quad)
    requires Leads(1, 14, Quad(0xe1ef0576, 0x374943a7, 0xf56c7cf1, 0x70768a29), z)
    ensures Leads(1, 12, Quad(0x3893b991, 0x70768a29, 0xe1ef0576, 0xfce4a312), z)
  {
    TwoLead(1, 12, Quad(0x3893b991, 0x70768a29, 0xe1ef0576, 0xfce4a312),
            Quad(0xfce4a312, 0xf56c7cf1, 0x70768a29, 0xe1ef0576), Quad(0xe1ef0576, 0x374943a7, 0xf56c7cf1, 0x70768a29), z);
  }

  lemma {:induction false} Values1H(z: Quad)
    requires Leads(1, 16, Quad(0xf56c7cf1, 0xd6819c6a, 0x5aa53f75, 0x374943a7), z)
    ensures Leads(1, 14, Quad(0xe1ef0576, 0x374943a7, 0xf56c7cf1, 0x70768a29), z)
  {
    TwoLead(1, 14, Quad(0xe1ef0576, 0x374943a7, 0xf56c7cf1, 0x70768a29),
            Quad(0x70768a29, 0x5aa53f75, 0x374943a7, 0xf56c7cf1), Quad(0xf56c7cf1, 0xd6819c6a, 0x5aa53f75, 0x374943a7), z);
  }

  lemma {:induction false} Values2A(z: Quad)
    requires Leads(2, 2, Quad(0x5aa53f75, 0x7bd57a3a, 0x1c7d7513, 0xd6819c6a), z)
    ensures Leads(2, 0, Quad(0xf56c7cf1, 0xd6819c6a, 0x5aa53f75, 0x374943a7), z)
  {
    TwoLead(2, 0, Quad(0xf56c7cf1, 0xd6819c6a, 0x5aa53f75, 0x374943a7),
            Quad(0x374943a7, 0x1c7d7513, 0xd6819c6a, 0x5aa53f75), Quad(0x5aa53f75, 0x7bd57a3a, 0x1c7d7513, 0xd6819c6a), z);
  }

  lemma {:induction false} Values2B(z: Quad)
    requires Leads(2, 4, Quad(0x1c7d7513, 0xbd782e17, 0xc095f13a, 0x7bd57a3a), z)
    ensures Leads(2, 2, Quad(0x5aa53f75, 0x7bd57a3a, 0x1c7d7513, 0xd6819c6a), z)
  {
    TwoLead(2, 2, Quad(0x5aa53f75, 0x7bd57a3a, 0x1c7d7513, 0xd6819c6a),
            Quad(0xd6819c6a, 0xc095f13a, 0x7bd57a3a, 0x1c7d7513), Quad(0x1c7d7513, 0xbd782e17, 0xc095f13a, 0x7bd57a3a), z);
  }

  lemma {:induction false} Values2C(z: Quad)
    requires Leads(2, 6, Quad(0xc095f13a, 0x68b7b3e3, 0x3d1e3e6c, 0xbd782e17), z)
    ensures Leads(2, 4, Quad(0x1c7d7513, 0xbd782e17, 0xc095f13a, 0x7bd57a3a), z)
  {
    TwoLead(2, 4, Quad(0x1c7d7513, 0xbd782e17, 0xc095f13a, 0x7bd57a3a),
            Quad(0x7bd57a3a, 0x3d1e3e6c, 0xbd782e17, 0xc095f13a), Quad(0xc095f13a, 0x68b7b3e3, 0x3d1e3e6c, 0xbd782e17), z);
  }

  lemma {:induction false} Values2D(z: Quad)
    requires Leads(2, 8, Quad(0x3d1e3e6c, 0xe422531a, 0xeb41643e, 0x68b7b3e3), z)
    ensures Leads(2, 6, Quad(0xc095f13a, 0x68b7b3e3, 0x3d1e3e6c, 0xbd782e17), z)
  {
    TwoLead(2, 6, Quad(0xc095f13a, 0x68b7b3e3, 0x3d1e3e6c, 0xbd782e17),
            Quad(0xbd782e17, 0xeb41643e, 0x68b7b3e3, 0x3d1e3e6c), Quad(0x3d1e3e6c, 0xe422531a, 0xeb41643e, 0x68b7b3e3), z);
  }

  lemma {:induction false} Values2E(z: Quad)
    requires Leads(2, 10, Quad(0xeb41643e, 0xd28c77c2, 0x306ec122, 0xe422531a), z)
    ensures Leads(2, 8, Quad(0x3d1e3e6c, 0xe422531a, 0xeb41643e, 0x68b7b3e3), z)
  {
    TwoLead(2, 8, Quad(0x3d1e3e6c, 0xe422531a, 0xeb41643e, 0x68b7b3e3),
            Quad(0x68b7b3e3, 0x306ec122, 0xe422531a, 0xeb41643e), Quad(0xeb41643e, 0xd28c77c2, 0x306ec122, 0xe422531a), z);
  }

  lemma {:induction false} Values2F(z: Quad)
    requires Leads(2, 12, Quad(0x306ec122, 0xa0572807, 0xa3c663da, 0xd28c77c2), z)
    ensures Leads(2, 10, Quad(0xeb41643e, 0xd28c77c2, 0x306ec122, 0xe422531a), z)
  {
    TwoLead(2, 10, Quad(0xeb41643e, 0xd28c77c2, 0x306ec122, 0xe422531a),
            Quad(0xe422531a, 0xa3c663da, 0xd28c77c2, 0x306ec122), Quad(0x306ec122, 0xa0572807, 0xa3c663da, 0xd28c77c2), z);
  }

  lemma {:induction false} Values2G(z: Quad)
    requires Leads(2, 14, Quad(0xa3c663da, 0xae7813db, 0x13707036, 0xa0572807), z)
    ensures Leads(2, 12, Quad(0x306ec122, 0xa0572807, 0xa3c663da, 0xd28c77c2), z)
  {
    TwoLead(2, 12, Quad(0x306ec122, 0xa0572807, 0xa3c663da, 0xd28c77c2),
            Quad(0xd28c77c2, 0x13707036, 0xa0572807, 0xa3c663da), Quad(0xa3c663da, 0xae7813db, 0x13707036, 0xa0572807), z);
  }

  lemma {:induction false} Values2H(z: Quad)
    requires Leads(2, 16, Quad(0x13707036, 0xa2205f1f, 0x1c31c384, 0xae7813db), z)
    ensures Leads(2, 14, Quad(0xa3c663da, 0xae7813db, 0x13707036, 0xa0572807), z)
  {
    TwoLead(2, 14, Quad(0xa3c663da, 0xae7813db, 0x13707036, 0xa0572807),
            Quad(0xa0572807, 0x1c31c384, 0xae7813db, 0x13707036), Quad(0x13707036, 0xa2205f1f, 0x1c31c384, 0xae7813db), z);
  }

  lemma {:induction false} Values3A(z: Quad)
    requires Leads(3, 2, Quad(0x1c31c384, 0xc3689f5b, 0xdf63eaa1, 0xa2205f1f), z)
    ensures Leads(3, 0, Quad(0x13707036, 0xa2205f1f, 0x1c31c384, 0xae7813db), z)
  {
    TwoLead(3, 0, Quad(0x13707036, 0xa2205f1f, 0x1c31c384, 0xae7813db),
            Quad(0xae7813db, 0xdf63eaa1, 0xa2205f1f, 0x1c31c384), Quad(0x1c31c384, 0xc3689f5b, 0xdf63eaa1, 0xa2205f1f), z);
  }

  lemma {:induction false} Values3B(z: Quad)
    requires Leads(3, 4, Quad(0xdf63eaa1, 0x004b6669, 0x12f3e755, 0xc3689f5b), z)
    ensures Leads(3, 2, Quad(0x1c31c384, 0xc3689f5b, 0xdf63eaa1, 0xa2205f1f), z)
  {
    TwoLead(3, 2, Quad(0x1c31c384, 0xc3689f5b, 0xdf63eaa1, 0xa2205f1f),
            Quad(0xa2205f1f, 0x12f3e755, 0xc3689f5b, 0xdf63eaa1), Quad(0xdf63eaa1, 0x004b6669, 0x12f3e755, 0xc3689f5b), z);
  }

  lemma {:induction false} Values3C(z: Quad)
    requires Leads(3, 6, Quad(0x12f3e755, 0xabc34e16, 0x5f7a9b2e, 0x004b6669), z)
    ensures Leads(3, 4, Quad(0xdf63eaa1, 0x004b6669, 0x12f3e755, 0xc3689f5b), z)
  {
    TwoLead(3, 4, Quad(0xdf63eaa1, 0x004b6669, 0x12f3e755, 0xc3689f5b),
            Quad(0xc3689f5b, 0x5f7a9b2e, 0x004b6669, 0x12f3e755), Quad(0x12f3e755, 0xabc34e16, 0x5f7a9b2e, 0x004b6669), z);
  }

  lemma {:induction false} Values3D(z: Quad)
    requires Leads(3, 8, Quad(0x5f7a9b2e, 0xc5dc8c15, 0x91ca4cb7, 0xabc34e16), z)
    ensures Leads(3, 6, Quad(0x12f3e755, 0xabc34e16, 0x5f7a9b2e, 0x004b6669), z)
  {
    TwoLead(3, 6, Quad(0x12f3e755, 0xabc34e16, 0x5f7a9b2e, 0x004b6669),
            Quad(0x004b6669, 0x91ca4cb7, 0xabc34e16, 0x5f7a9b2e), Quad(0x5f7a9b2e, 0xc5dc8c15, 0x91ca4cb7, 0xabc34e16), z);
  }

  lemma {:induction false} Values3E(z: Quad)
    requires Leads(3, 10, Quad(0x91ca4cb7, 0x76fd93d4, 0x4497169d, 0xc5dc8c15), z)
    ensures Leads(3, 8, Quad(0x5f7a9b2e, 0xc5dc8c15, 0x91ca4cb7, 0xabc34e16), z)
  {
    TwoLead(3, 8, Quad(0x5f7a9b2e, 0xc5dc8c15, 0x91ca4cb7, 0xabc34e16),
            Quad(0xabc34e16, 0x4497169d, 0xc5dc8c15, 0x91ca4cb7), Quad(0x91ca4cb7, 0x76fd93d4, 0x4497169d, 0xc5dc8c15), z);
  }

  lemma {:induction false} Values3F(z: Quad)
    requires Leads(3, 12, Quad(0x4497169d, 0x0fe32453, 0xfd95f243, 0x76fd93d4), z)
    ensures Leads(3, 10, Quad(0x91ca4cb7, 0x76fd93d4, 0x4497169d, 0xc5dc8c15), z)
  {
    TwoLead(3, 10, Quad(0x91ca4cb7, 0x76fd93d4, 0x4497169d, 0xc5dc8c15),
            Quad(0xc5dc8c15, 0xfd95f243, 0x76fd93d4, 0x4497169d), Quad(0x4497169d, 0x0fe32453, 0xfd95f243, 0x76fd93d4), z);
  }

  lemma {:induction false} Values3G(z: Quad)
    requires Leads(3, 14, Quad(0xfd95f243, 0x22a31f54, 0x3f55edfd, 0x0fe32453), z)
    ensures Leads(3, 12, Quad(0x4497169d, 0x0fe32453, 0xfd95f243, 0x76fd93d4), z)
  {
    TwoLead(3, 12, Quad(0x4497169d, 0x0fe32453, 0xfd95f243, 0x76fd93d4),
            Quad(0x76fd93d4, 0x3f55edfd, 0x0fe32453, 0xfd95f243), Quad(0xfd95f243, 0x22a31f54, 0x3f55edfd, 0x0fe32453), z);
  }

  lemma {:induction false} Values3H(z: Quad)
    requires Leads(3, 16, Quad(0x3f55edfd, 0xca7d2dbd, 0x68d84ea2, 0x22a31f54), z)
    ensures Leads(3, 14, Quad(0xfd95f243, 0x22a31f54, 0x3f55edfd, 0x0fe32453), z)
  {
    TwoLead(3, 14, Quad(0xfd95f243, 0x22a31f54, 0x3f55edfd, 0x0fe32453),
            Quad(0x0fe32453, 0x68d84ea2, 0x22a31f54, 0x3f55edfd), Quad(0x3f55edfd, 0xca7d2dbd, 0x68d84ea2, 0x22a31f54), z);
  }

  lemma {:induction false} Values4A(z: Quad)
    requires Leads(4, 2, Quad(0x68d84ea2, 0x1688dc85, 0x93aa2577, 0xca7d2dbd), z)
    ensures Leads(4, 0, Quad(0x3f55edfd, 0xca7d2dbd, 0x68d84ea2, 0x22a31f54), z)
  {
    TwoLead(4, 0, Quad(0x3f55edfd, 0xca7d2dbd, 0x68d84ea2, 0x22a31f54),
            Quad(0x22a31f54, 0x93aa2577, 0xca7d2dbd, 0x68d84ea2), Quad(0x68d84ea2, 0x1688dc85, 0x93aa2577, 0xca7d2dbd), z);
  }

  lemma {:induction false} Values4B(z: Quad)
    requires Leads(4, 4, Quad(0x93aa2577, 0x561e0689, 0xcd85b8cb, 0x1688dc85), z)
    ensures Leads(4, 2, Quad(0x68d84ea2, 0x1688dc85, 0x93aa2577, 0xca7d2dbd), z)
  {
    TwoLead(4, 2, Quad(0x68d84ea2, 0x1688dc85, 0x93aa2577, 0xca7d2dbd),
            Quad(0xca7d2dbd, 0xcd85b8cb, 0x1688dc85, 0x93aa2577), Quad(0x93aa2577, 0x561e0689, 0xcd85b8cb, 0x1688dc85), z);
  }

  lemma {:induction false} Values4C(z: Quad)
    requires Leads(4, 6, Quad(0xcd85b8cb, 0x3450f42b, 0x5625a114, 0x561e0689), z)
    ensures Leads(4, 4, Quad(0x93aa2577, 0x561e0689, 0xcd85b8cb, 0x1688dc85), z)
  {
    TwoLead(4, 4, Quad(0x93aa2577, 0x561e0689, 0xcd85b8cb, 0x1688dc85),
            Quad(0x1688dc85, 0x5625a114, 0x561e0689, 0xcd85b8cb), Quad(0xcd85b8cb, 0x3450f42b, 0x5625a114, 0x561e0689), z);
  }

  lemma {:induction false} Values4D(z: Quad)
    requires Leads(4, 8, Quad(0x5625a114, 0x1e77fa61, 0x392ad0d0, 0x3450f42b), z)
    ensures Leads(4, 6, Quad(0xcd85b8cb, 0x3450f42b, 0x5625a114, 0x561e0689), z)
  {
    TwoLead(4, 6, Quad(0xcd85b8cb, 0x3450f42b, 0x5625a114, 0x561e0689),
            Quad(0x561e0689, 0x392ad0d0, 0x3450f42b, 0x5625a114), Quad(0x5625a114, 0x1e77fa61, 0x392ad0d0, 0x3450f42b), z);
  }

  lemma {:induction false} Values4E(z: Quad)
    requires Leads(4, 10, Quad(0x392ad0d0, 0xdfce00bc, 0x474a9c8c, 0x1e77fa61), z)
    ensures Leads(4, 8, Quad(0x5625a114, 0x1e77fa61, 0x392ad0d0, 0x3450f42b), z)
  {
    TwoLead(4, 8, Quad(0x5625a114, 0x1e77fa61, 0x392ad0d0, 0x3450f42b),
            Quad(0x3450f42b, 0x474a9c8c, 0x1e77fa61, 0x392ad0d0), Quad(0x392ad0d0, 0xdfce00bc, 0x474a9c8c, 0x1e77fa61), z);
  }

  lemma {:induction false} Values4F(z: Quad)
    requires Leads(4, 12, Quad(0x474a9c8c, 0x30130182, 0x36594b14, 0xdfce00bc), z)
    ensures Leads(4, 10, Quad(0x392ad0d0, 0xdfce00bc, 0x474a9c8c, 0x1e77fa61), z)
  {
    TwoLead(4, 10, Quad(0x392ad0d0, 0xdfce00bc, 0x474a9c8c, 0x1e77fa61),
            Quad(0x1e77fa61, 0x36594b14, 0xdfce00bc, 0x474a9c8c), Quad(0x474a9c8c, 0x30130182, 0x36594b14, 0xdfce00bc), z);
  }

  lemma {:induction false} Values4G(z: Quad)
    requires Leads(4, 14, Quad(0x36594b14, 0x6e10a476, 0x7246fad3, 0x30130182), z)
    ensures Leads(4, 12, Quad(0x474a9c8c, 0x30130182, 0x36594b14, 0xdfce00bc), z)
  {
    TwoLead(4, 12, Quad(0x474a9c8c, 0x30130182, 0x36594b14, 0xdfce00bc),
            Quad(0xdfce00bc, 0x7246fad3, 0x30130182, 0x36594b14), Quad(0x36594b14, 0x6e10a476, 0x7246fad3, 0x30130182), z);
  }

  lemma {:induction false} Values4H(z: Quad)
    requires Leads(4, 16, Quad(0x7246fad3, 0x14e45506, 0xff4ea3eb, 0x6e10a476), z)
    ensures Leads(4, 14, Quad(0x36594b14, 0x6e10a476, 0x7246fad3, 0x30130182), z)
  {
    TwoLead(4, 14, Quad(0x36594b14, 0x6e10a476, 0x7246fad3, 0x30130182),
            Quad(0x30130182, 0xff4ea3eb, 0x6e10a476, 0x7246fad3), Quad(0x7246fad3, 0x14e45506, 0xff4ea3eb, 0x6e10a476), z);
  }

  lemma {:induction false} Round1(q: Quad, x: Block)
    requires OneBit(x) && q == Quad(0x67452301, 0xefcdab89, 0x98badcfe, 0x10325476)
    ensures Round(1, q, x) == Quad(0xf56c7cf1, 0xd6819c6a, 0x5aa53f75, 0x374943a7)
  {
    var z := Quad(0xf56c7cf1, 0xd6819c6a, 0x5aa53f75, 0x374943a7);
    LastLeads(1, z);
    Values1H(z);
    Values1G(z);
    Values1F(z);
    Values1E(z);
    Values1D(z);
    Values1C(z);
    Values1B(z);
    Values1A(z);
    LeadsToRound(1, q, x, z);
  }

  lemma {:induction false} Round2(q: Quad, x: Block)
    requires OneBit(x) && q == Quad(0xf56c7cf1, 0xd6819c6a, 0x5aa53f75, 0x374943a7)
    ensures Round(2, q, x) == Quad(0x13707036, 0xa2205f1f, 0x1c31c384, 0xae7813db)
  {
    var z := Quad(0x13707036, 0xa2205f1f, 0x1c31c384, 0xae7813db);
    LastLeads(2, z);
    Values2H(z);
    Values2G(z);
    Values2F(z);
    Values2E(z);
    Values2D(z);
    Values2C(z);
    Values2B(z);
    Values2A(z);
    LeadsToRound(2, q, x, z);
  }

  lemma {:induction false} Round3(q: Quad, x: Block)
    requires OneBit(x) && q == Quad(0x13707036, 0xa2205f1f, 0x1c31c384, 0xae7813db)
    ensures Round(3, q, x) == Quad(0x3f55edfd, 0xca7d2dbd, 0x68d84ea2, 0x22a31f54)
  {
    var z := Quad(0x3f55edfd, 0xca7d2dbd, 0x68d84ea2, 0x22a31f54);
    LastLeads(3, z);
    Values3H(z);
    Values3G(z);
    Values3F(z);
    Values3E(z);
    Values3D(z);
    Values3C(z);
    Values3B(z);
    Values3A(z);
    LeadsToRound(3, q, x, z);
  }

  lemma {:induction false} Round4(q: Quad, x: Block)
    requires OneBit(x) && q == Quad(0x3f55edfd, 0xca7d2dbd, 0x68d84ea2, 0x22a31f54)
    ensures Round(4, q, x) == Quad(0x7246fad3, 0x14e45506, 0xff4ea3eb, 0x6e10a476)
  {
    var z := Quad(0x7246fad3, 0x14e45506, 0xff4ea3eb, 0x6e10a476);
    LastLeads(4, z);
    Values4H(z);
    Values4G(z);
    Values4F(z);
    Values4E(z);
    Values4D(z);
    Values4C(z);
    Values4B(z);
    Values4A(z);
    LeadsToRound(4, q, x, z);
  }

  lemma {:induction false} AllRounds(q: Quad, x: Block)
    requires OneBit(x) && q == Quad(0x67452301, 0xefcdab89, 0x98badcfe, 0x10325476)
    ensures Rounds(q, x, ROUNDS) == Quad(0x7246fad3, 0x14e45506, 0xff4ea3eb, 0x6e10a476)
  {
    assert Rounds(q, x, 0) == q;
    Round1(q, x);
    assert Rounds(q, x, 1) == Round(1, q, x);
    Round2(Rounds(q, x, 1), x);
    assert Rounds(q, x, 2) == Round(2, Rounds(q, x, 1), x);
    Round3(Rounds(q, x, 2), x);
    assert Rounds(q, x, 3) == Round(3, Rounds(q, x, 2), x);
    Round4(Rounds(q, x, 3), x);
    assert Rounds(q, x, ROUNDS) == Round(4, Rounds(q, x, 3), x);
  }

  lemma {:induction false} NoLength(n: nat)
    requires n == 0
    ensures forall k :: 0 <= k < 8 ==> LengthBytes(n)[k] == 0
  {
    assert ToWord(n) == 0;
    assert 8 * n % W == n && 8 * n / W % W == n;
  }

  lemma {:induction false} EmptyPad(m: seq<Byte>)
    requires m == []
    ensures |Pad(m)| == 64 && Pad(m)[0] == 0x80 && forall k :: 1 <= k < 64 ==> Pad(m)[k] == 0
  {
    NoLength(|m|);
    var z := Zeros(Room(|m|));
    assert |z| == 55 && forall k :: 0 <= k < 55 ==> z[k] == 0;
    assert Pad(m) == [0x80] + (z + LengthBytes(|m|));
  }

  lemma {:induction false} FirstBitOnly(bytes: seq<Byte>)
    requires |bytes| == 64 && bytes[0] == 0x80 && forall k :: 1 <= k < 64 ==> bytes[k] == 0
    ensures OneBit(Words(bytes))
  {
    assert Word(0x80, 0, 0, 0) == 0x80 && Word(0, 0, 0, 0) == 0;
    forall k | 1 <= k < 16
      ensures Words(bytes)[k] == 0
    {
      assert bytes[4 * k] == 0 && bytes[4 * k + 1] == 0 && bytes[4 * k + 2] == 0 && bytes[4 * k + 3] == 0;
    }
  }

  lemma {:induction false} EmptyOutput(q: Quad)
    requires q == Plus(Quad(0x67452301, 0xefcdab89, 0x98badcfe, 0x10325476), Quad(0x7246fad3, 0x14e45506, 0xff4ea3eb, 0x6e10a476))
    ensures Output(q) == [0xd4, 0x1d, 0x8c, 0xd9, 0x8f, 0x00, 0xb2, 0x04, 0xe9, 0x80, 0x09, 0x98, 0xec, 0xf8, 0x42, 0x7e]
  {
  }

  // MD5 ("") = d41d8cd98f00b204e9800998ecf8427e
  lemma {:induction false} EmptyMessage(m: seq<Byte>)
    requires m == []
    ensures Digest(m) == [0xd4, 0x1d, 0x8c, 0xd9, 0x8f, 0x00, 0xb2, 0x04, 0xe9, 0x80, 0x09, 0x98, 0xec, 0xf8, 0x42, 0x7e]
  {
    EmptyPad(m);
    FirstBitOnly(Pad(m));
    AllRounds(INIT, Words(Pad(m)));
    AbsorbBlock(INIT, Pad(m));
    EmptyOutput(Transform(INIT, Words(Pad(m))));
  }
}
