/** What the calls of the pool promise: when get creates, takes or waits, and
    what giveBack keeps, for one thread and in every interleaving. */
module PoolCalls {
  import opened PoolSpec

  // No thread is between two steps: the semaphore counts the queue.
  predicate Quiet(p: Pool) { p.sem == |p.avail| }

  predicate AtMaximum(p: Pool) { p.max > 0 && p.created >= p.max }

  ghost predicate SameLimits(p: Pool, q: Pool) { q.max == p.max && q.maxspare == p.maxspare }

  // get waits exactly when the queue is empty and the maximum is reached.  It
  // hands out the front of the queue, or a new thing if there is none.
  lemma {:induction false} GetWaitsIff(p: Pool)
    requires Quiet(p)
    ensures var (q, r) := GetAlone(p);
            && (r.Waits? <==> p.avail == [] && AtMaximum(p))
            && Quiet(q) && SameLimits(p, q)
            && (r.Waits? ==> q == p)
            && (p.avail != [] ==>
                  r == Handed(p.avail[0]) && q.avail == p.avail[1..] && q.created == p.created && q.next == p.next)
            && (p.avail == [] && !AtMaximum(p) ==>
                  r == Handed(p.next) && q.avail == [] && q.created == p.created + 1 && q.next == p.next + 1)
  {
    if p.avail == [] && !AtMaximum(p) {
      assert ([p.next] + p.avail)[1..] == [];
    }
  }

  // giveBack keeps the thing, at the end of the queue, exactly when there is
  // room for a spare, and otherwise gives up the place it had.
  lemma {:induction false} GiveKeepsIff(p: Pool, thing: Thing)
    requires Quiet(p)
    ensures var q := GiveAlone(p, thing);
            && (q.avail == p.avail + [thing] <==> |p.avail| < p.maxspare)
            && (|p.avail| < p.maxspare ==> q.created == p.created)
            && (|p.avail| >= p.maxspare ==> q.avail == p.avail && q.created == p.created - 1)
            && Quiet(q) && SameLimits(p, q) && q.next == p.next
  {
    if |p.avail| >= p.maxspare {
      assert |p.avail + [thing]| != |p.avail|;
    }
  }

  // Stocking puts so many new things before those in the queue.
  lemma {:induction false} StockAdds(p: Pool, n: nat)
    ensures var q := StockAlone(p, n);
            && |q.avail| == n + |p.avail| && q.avail[n..] == p.avail
            && (forall k :: 0 <= k < n ==> q.avail[k] == p.next + n - 1 - k)
            && q.created == p.created + n && q.sem == p.sem + n && q.next == p.next + n && SameLimits(p, q)
  {
    if n > 0 {
      StockAdds(p, n - 1);
      var less := StockAlone(p, n - 1);
      assert ([less.next] + less.avail)[n..] == less.avail[n - 1..];
    }
  }

  // A pool grows on demand up to its maximum: so many gets in a row are all
  // served as the maximum allows, or for ever without one.
  function Gets(p: Pool, k: nat): Pool {
    if k == 0 then p else GetAlone(Gets(p, k - 1)).0
  }

  lemma {:induction false} GrowsToTheMaximum(p: Pool, k: nat)
    requires Quiet(p) && p.avail == [] && 0 <= p.created
    requires p.max > 0 ==> p.created + k <= p.max
    ensures var q := Gets(p, k);
            && q.avail == [] && Quiet(q) && SameLimits(p, q) && q.created == p.created + k
            && (GetAlone(q).1.Waits? <==> p.max > 0 && p.created + k == p.max)
  {
    if k > 0 {
      GrowsToTheMaximum(p, k - 1);
      GetWaitsIff(Gets(p, k - 1));
    }
    GetWaitsIff(Gets(p, k));
  }

  // ------------------------------------------------------ in every interleaving

  lemma {:induction false} LimitsStay(s: State, ms: seq<Move>)
    ensures SameLimits(s.sh.pool, Run(s, ms).sh.pool)
    decreases |ms|
  {
    if ms != [] {
      LimitsStay(Step(s, ms[0]), ms[1..]);
    }
  }

  // A thread on its way to the semaphore that pushes nothing found the queue
  // not empty, or the maximum reached; otherwise it creates the one thing.
  lemma {:induction false} WaitsOnlyWithReason(threads: nat, max: nat, maxspare: nat, ms: seq<Move>, i: nat)
    requires i < |Run(Init(threads, max, maxspare), ms).pcs| && Run(Init(threads, max, maxspare), ms).pcs[i].GetTest?
    ensures var s := Run(Init(threads, max, maxspare), ms);
            var p, s1 := s.sh.pool, Step(s, Go(i));
            var q := s1.sh.pool;
            && (s1.pcs[i] == GetUnlock <==> p.avail != [] || (max > 0 && p.created >= max))
            && (s1.pcs[i] == GetUnlock ==> s1.sh == s.sh)
            && (s1.pcs[i] != GetUnlock ==>
                  && s1.pcs[i] == GetPushed && q.avail == [p.next] && q.created == p.created + 1 && q.sem == p.sem
                  && (forall t :: t in s.sh.held ==> t != p.next))
  {
    LimitsStay(Init(threads, max, maxspare), ms);
    EveryInterleavingIsSafe(threads, max, maxspare, ms);
  }

  // A thing given back is queued last exactly when there is room for a spare;
  // otherwise it is gone.
  lemma {:induction false} KeptOnlyAsSpare(threads: nat, max: nat, maxspare: nat, ms: seq<Move>, i: nat)
    requires i < |Run(Init(threads, max, maxspare), ms).pcs| && Run(Init(threads, max, maxspare), ms).pcs[i].GiveTest?
    ensures var s := Run(Init(threads, max, maxspare), ms);
            var p, s1, thing := s.sh.pool, Step(s, Go(i)), s.pcs[i].thing;
            var q := s1.sh.pool;
            && thing in s.sh.held && s1.sh.held == s.sh.held - {thing}
            && (if |p.avail| < maxspare
                then s1.pcs[i] == GivePushed && q == p.(avail := p.avail + [thing])
                else s1.pcs[i] == GiveUnlock && q == p.(created := p.created - 1) && thing !in q.avail)
  {
    LimitsStay(Init(threads, max, maxspare), ms);
    EveryInterleavingIsSafe(threads, max, maxspare, ms);
  }

  // What a thread past the semaphore takes is the front of the queue, which is
  // then in its hands and in nobody else's.
  lemma {:induction false} TakesTheFront(threads: nat, max: nat, maxspare: nat, ms: seq<Move>, i: nat)
    requires i < |Run(Init(threads, max, maxspare), ms).pcs| && Run(Init(threads, max, maxspare), ms).pcs[i].GetPop?
    ensures var s := Run(Init(threads, max, maxspare), ms);
            var p, s1 := s.sh.pool, Step(s, Go(i));
            && p.avail != [] && s1.pcs[i] == GetPopped && s1.sh.pool == p.(avail := p.avail[1..])
            && p.avail[0] !in s.sh.held && s1.sh.held == s.sh.held + {p.avail[0]}
  {
    EveryInterleavingIsSafe(threads, max, maxspare, ms);
    var s := Run(Init(threads, max, maxspare), ms);
    FrontExists(s, i);
    assert s.sh.pool.avail[0] in s.sh.pool.avail;
  }
}
