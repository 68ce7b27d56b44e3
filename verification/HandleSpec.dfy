/** The counted handles of pool.hh: who hands the thing back. */
module HandleSpec {

  // d_count of every live handle of one thing; given counts the hand-backs.
  datatype Handles = Handles(counts: seq<int>, given: nat)

  datatype HandleOp = Copy(i: nat) | Destroy(i: nat)

  const FIRST := Handles([1], 0)

  function HandleStep(h: Handles, op: HandleOp): Handles {
    if op.i >= |h.counts| then h
    else
      var c := h.counts[op.i];
      match op
      case Copy(i) => h.(counts := h.counts[i := c + 1] + [c])
      case Destroy(i) => Handles(h.counts[..i] + h.counts[i + 1..], h.given + if c - 1 == 0 then 1 else 0)
  }

  function HandleRun(h: Handles, ops: seq<HandleOp>): Handles
    decreases |ops|
  {
    if ops == [] then h else HandleRun(HandleStep(h, ops[0]), ops[1..])
  }

  // The handle at t has count 1, and every other one a higher count.
  ghost predicate TokenAt(h: Handles, t: int) {
    t < |h.counts| && forall i :: 0 <= i < |h.counts| ==> (if i == t then h.counts[i] == 1 else h.counts[i] > 1)
  }

  // Exactly one live handle has count 1, until it is destroyed.
  ghost predicate OneToken(h: Handles) {
    || (h.given == 0 && exists t: nat :: TokenAt(h, t))
    || (h.given == 1 && TokenAt(h, -1))
  }

  lemma {:induction false} TokenMoves(h: Handles, op: HandleOp, t: int)
    requires TokenAt(h, t) && t >= -1 && op.i < |h.counts|
    ensures var h1 := HandleStep(h, op);
            match op
            case Copy(i) => TokenAt(h1, if i == t then |h.counts| else t) && h1.given == h.given
            case Destroy(i) =>
              && TokenAt(h1, if i == t then -1 else if i < t then t - 1 else t)
              && h1.given == h.given + if i == t then 1 else 0
  {
  }

  lemma {:induction false} HandleStepKeeps(h: Handles, op: HandleOp)
    requires OneToken(h)
    ensures OneToken(HandleStep(h, op))
  {
    if op.i < |h.counts| {
      if h.given == 0 {
        var t: nat :| TokenAt(h, t);
        TokenMoves(h, op, t);
      } else {
        TokenMoves(h, op, -1);
      }
    }
  }

  lemma {:induction false} HandleRunKeeps(h: Handles, ops: seq<HandleOp>)
    requires OneToken(h)
    ensures OneToken(HandleRun(h, ops))
    decreases |ops|
  {
    if ops != [] {
      HandleStepKeeps(h, ops[0]);
      HandleRunKeeps(HandleStep(h, ops[0]), ops[1..]);
    }
  }

  // However handles are copied and destroyed, the thing is handed back at
  // most once, and exactly once when no handle is left.
  lemma {:induction false} GivenBackOnce(ops: seq<HandleOp>)
    ensures var h := HandleRun(FIRST, ops);
            OneToken(h) && h.given <= 1 && (h.counts == [] ==> h.given == 1)
  {
    assert TokenAt(FIRST, 0);
    HandleRunKeeps(FIRST, ops);
  }

  // ------------------------------------------------- the promised last copy

  // The live handles by position alone: how many there are, and where the
  // newest copy stands in the chain of copies that starts at the first handle
  // (a copy of the newest is the new newest); -1 once it is destroyed.
  datatype Chain = Chain(live: nat, newest: int)

  const ONE := Chain(1, 0)

  function ChainStep(c: Chain, op: HandleOp): Chain {
    if op.i >= c.live then c
    else
      match op
      case Copy(i) => Chain(c.live + 1, if i == c.newest then c.live else c.newest)
      case Destroy(i) => Chain(c.live - 1, if i == c.newest then -1 else if i < c.newest then c.newest - 1 else c.newest)
  }

  function ChainRun(c: Chain, ops: seq<HandleOp>): Chain
    decreases |ops|
  {
    if ops == [] then c else ChainRun(ChainStep(c, ops[0]), ops[1..])
  }

  // The count 1 is where the newest copy is.
  ghost predicate Follows(h: Handles, c: Chain) {
    |h.counts| == c.live && -1 <= c.newest && TokenAt(h, c.newest) && h.given == if c.newest < 0 then 1 else 0
  }

  lemma {:induction false} StepFollows(h: Handles, c: Chain, op: HandleOp)
    requires Follows(h, c)
    ensures Follows(HandleStep(h, op), ChainStep(c, op))
  {
    if op.i < c.live {
      TokenMoves(h, op, c.newest);
    }
  }

  lemma {:induction false} RunFollows(h: Handles, c: Chain, ops: seq<HandleOp>)
    requires Follows(h, c)
    ensures Follows(HandleRun(h, ops), ChainRun(c, ops))
    decreases |ops|
  {
    if ops != [] {
      StepFollows(h, c, ops[0]);
      RunFollows(HandleStep(h, ops[0]), ChainStep(c, ops[0]), ops[1..]);
    }
  }

  // After any copying and destroying, the destruction of a handle hands the
  // thing back if and only if it is the newest copy of the chain, whether
  // others live or not.
  lemma {:induction false} GivesBackIffNewestCopy(ops: seq<HandleOp>, i: nat)
    requires i < ChainRun(ONE, ops).live
    ensures var h := HandleRun(FIRST, ops);
            i < |h.counts| && (HandleStep(h, Destroy(i)).given > h.given <==> i == ChainRun(ONE, ops).newest)
  {
    assert Follows(FIRST, ONE);
    RunFollows(FIRST, ONE, ops);
    TokenMoves(HandleRun(FIRST, ops), Destroy(i), ChainRun(ONE, ops).newest);
  }

  // What the documentation promises: the thing is handed back only when no
  // handle is left, at every moment of the run.
  ghost predicate LastCopyReturns(h: Handles, ops: seq<HandleOp>) {
    forall n :: 0 <= n <= |ops| ==> Returned(h, ops, n)
  }

  ghost predicate Returned(h: Handles, ops: seq<HandleOp>, n: nat)
    requires n <= |ops|
  {
    HandleRun(h, ops[..n]).given > 0 ==> HandleRun(h, ops[..n]).counts == []
  }

  // The newest copy is destroyed while another handle lives.
  predicate NewestGoesEarly(c: Chain, ops: seq<HandleOp>)
    decreases |ops|
  {
    ops != [] &&
    (|| (ops[0].Destroy? && ops[0].i < c.live && ops[0].i == c.newest && c.live > 1)
     || NewestGoesEarly(ChainStep(c, ops[0]), ops[1..]))
  }

  lemma {:induction false} LastCopyReturnsStep(h: Handles, ops: seq<HandleOp>)
    requires ops != []
    ensures LastCopyReturns(h, ops) <==>
            (h.given > 0 ==> h.counts == []) && LastCopyReturns(HandleStep(h, ops[0]), ops[1..])
  {
    assert HandleRun(h, ops[..0]) == h;
    forall n | 0 <= n <= |ops| - 1
      ensures Returned(h, ops, n + 1) <==> Returned(HandleStep(h, ops[0]), ops[1..], n)
    {
      assert ops[..n + 1][1..] == ops[1..][..n];
    }
    if LastCopyReturns(h, ops) {
      assert Returned(h, ops, 0);
      forall n | 0 <= n <= |ops[1..]|
        ensures Returned(HandleStep(h, ops[0]), ops[1..], n)
      {
        assert Returned(h, ops, n + 1);
      }
    }
    if (h.given > 0 ==> h.counts == []) && LastCopyReturns(HandleStep(h, ops[0]), ops[1..]) {
      forall n | 0 <= n <= |ops|
        ensures Returned(h, ops, n)
      {
        if n > 0 {
          assert Returned(HandleStep(h, ops[0]), ops[1..], n - 1);
        }
      }
    }
  }

  lemma {:induction false} LastCopyReturnsFrom(h: Handles, c: Chain, ops: seq<HandleOp>)
    requires Follows(h, c)
    ensures LastCopyReturns(h, ops) <==> (c.newest < 0 ==> c.live == 0) && !NewestGoesEarly(c, ops)
    decreases |ops|
  {
    if ops == [] {
      assert ops[..0] == [] && (LastCopyReturns(h, ops) <==> Returned(h, ops, 0));
    } else {
      LastCopyReturnsStep(h, ops);
      StepFollows(h, c, ops[0]);
      LastCopyReturnsFrom(HandleStep(h, ops[0]), ChainStep(c, ops[0]), ops[1..]);
    }
  }

  // Exactly when is the promise kept?  When the newest copy of the chain is
  // never destroyed while another handle lives.
  lemma {:induction false} LastCopyReturnsIff(ops: seq<HandleOp>)
    ensures LastCopyReturns(FIRST, ops) <==> !NewestGoesEarly(ONE, ops)
  {
    assert Follows(FIRST, ONE);
    LastCopyReturnsFrom(FIRST, ONE, ops);
  }

  // A copy that is destroyed first hands the thing back while the original
  // handle still uses it.
  lemma {:induction false} FirstCopyGivesBack()
    ensures HandleRun(FIRST, [Copy(0), Destroy(1)]) == Handles([2], 1)
  {
    var h := HandleStep(FIRST, Copy(0));
    assert h == Handles([2, 1], 0);
    assert [Copy(0), Destroy(1)][1..] == [Destroy(1)];
    assert HandleStep(h, Destroy(1)) == Handles([2], 1);
    assert [Destroy(1)][1..] == [];
  }
}
