/** The pool of pool.hh under every interleaving: a deque under a mutex, a
    semaphore that counts it, and threads stopped between any two steps. */
module PoolSpec {

  type Thing = nat

  // next is the number of things generated so far; max 0 means no maximum.
  datatype Pool = Pool(avail: seq<Thing>, sem: nat, created: int, max: nat, maxspare: nat, next: Thing)

  function Empty(max: nat, maxspare: nat): Pool { Pool([], 0, 0, max, maxspare, 0) }

  // -------------------------------------------- the critical sections

  function Generate(p: Pool): Pool {
    p.(created := p.created + 1, avail := [p.next] + p.avail, next := p.next + 1)
  }

  // The first section of get; the flag says that a thing was pushed.
  function Reserve(p: Pool): (Pool, bool) {
    if p.avail == [] && (p.max == 0 || p.created < p.max) then (Generate(p), true) else (p, false)
  }

  // The second section of get.
  function Take(p: Pool): (Pool, Thing)
    requires p.avail != []
  {
    (p.(avail := p.avail[1..]), p.avail[0])
  }

  // giveBack; without the push the thing is deleted.
  function PutBack(p: Pool, thing: Thing): (Pool, bool) {
    if |p.avail| < p.maxspare then (p.(avail := p.avail + [thing]), true)
    else (p.(created := p.created - 1), false)
  }

  function Post(p: Pool): Pool { p.(sem := p.sem + 1) }

  // ------------------------------------------------------------- threads

  // Where a thread stands.  Those marked * hold the mutex.
  datatype Pc =
    | Idle
    | GetStart
    | GetTest       // *
    | GetPushed     // * pushed, not yet posted
    | GetUnlock     // *
    | GetWait       // before sem_wait
    | GetPassed     // past sem_wait
    | GetPop        // *
    | GetPopped     // *
    | GiveStart(thing: Thing)
    | GiveTest(thing: Thing) // *
    | GivePushed    // * pushed, not yet posted
    | GiveUnlock    // *
    | StockStart(n: nat)
    | StockTest(n: nat)    // *
    | StockPushed(n: nat)  // * pushed, not yet posted
    | StockPost(n: nat)    // unlocked, not yet posted

  // What the threads share.  held: the things handed out; broken: front() was
  // taken on an empty queue.
  datatype Shared = Shared(pool: Pool, lock: int, held: set<Thing>, broken: bool)

  datatype State = State(sh: Shared, pcs: seq<Pc>)

  const FREE := -1

  datatype Call = Get | Give(thing: Thing) | Stock(n: nat)

  // A thread enters the pool, or one that is inside goes on by one step.
  datatype Move = Enter(i: nat, call: Call) | Go(i: nat)

  function Init(threads: nat, max: nat, maxspare: nat): State {
    State(Shared(Empty(max, maxspare), FREE, {}, false), seq(threads, i => Idle))
  }

  function Start(call: Call): Pc {
    match call
    case Get => GetStart
    case Give(thing) => GiveStart(thing)
    case Stock(n) => StockStart(n)
  }

  // A thing is given back by its last handle, once.
  predicate MayEnter(s: State, i: nat, call: Call) {
    && i < |s.pcs| && s.pcs[i].Idle?
    && (call.Give? ==>
          && call.thing in s.sh.held
          && forall j | 0 <= j < |s.pcs| :: Giving(s.pcs[j]) ==> s.pcs[j].thing != call.thing)
  }

  predicate Giving(pc: Pc) { pc.GiveStart? || pc.GiveTest? }

  predicate HasLock(pc: Pc) {
    pc.GetTest? || pc.GetPushed? || pc.GetUnlock? || pc.GetPop? || pc.GetPopped? ||
    pc.GiveTest? || pc.GivePushed? || pc.GiveUnlock? || pc.StockTest? || pc.StockPushed?
  }

  predicate WantsLock(pc: Pc) {
    pc.GetStart? || pc.GetPassed? || pc.GiveStart? || (pc.StockStart? && pc.n > 0)
  }

  function Locked(pc: Pc): Pc
    requires WantsLock(pc)
  {
    match pc
    case GetStart => GetTest
    case GetPassed => GetPop
    case GiveStart(thing) => GiveTest(thing)
    case StockStart(n) => StockTest(n)
  }

  // One step of thread me, which stands at pc; a blocked thread stays there.
  function Advance(sh: Shared, pc: Pc, me: nat): (Shared, Pc) {
    var p := sh.pool;
    if WantsLock(pc) then
      if sh.lock == FREE then (sh.(lock := me), Locked(pc)) else (sh, pc)
    else
      match pc
      case GetTest => var (q, pushed) := Reserve(p); (sh.(pool := q), if pushed then GetPushed else GetUnlock)
      case GetPushed => (sh.(pool := Post(p)), GetUnlock)
      case GetUnlock => (sh.(lock := FREE), GetWait)
      case GetWait => if p.sem == 0 then (sh, pc) else (sh.(pool := p.(sem := p.sem - 1)), GetPassed)
      case GetPop =>
        if p.avail == [] then (sh.(broken := true), pc)
        else var (q, thing) := Take(p); (sh.(pool := q, held := sh.held + {thing}), GetPopped)
      case GetPopped => (sh.(lock := FREE), Idle)
      case GiveTest(thing) =>
        var (q, pushed) := PutBack(p, thing);
        (sh.(pool := q, held := sh.held - {thing}), if pushed then GivePushed else GiveUnlock)
      case GivePushed => (sh.(pool := Post(p)), GiveUnlock)
      case GiveUnlock => (sh.(lock := FREE), Idle)
      case StockStart(n) => (sh, Idle)
      case StockTest(n) => (sh.(pool := Generate(p)), StockPushed(n))
      case StockPushed(n) => (sh.(lock := FREE), StockPost(n))
      case StockPost(n) => (sh.(pool := Post(p)), if n > 0 then StockStart(n - 1) else Idle)
      case _ => (sh, pc)
  }

  function Step(s: State, m: Move): State {
    match m
    case Enter(i, call) => if MayEnter(s, i, call) then s.(pcs := s.pcs[i := Start(call)]) else s
    case Go(i) =>
      if i < |s.pcs| then var (sh, pc) := Advance(s.sh, s.pcs[i], i); State(sh, s.pcs[i := pc]) else s
  }

  function Run(s: State, ms: seq<Move>): State
    decreases |ms|
  {
    if ms == [] then s else Run(Step(s, ms[0]), ms[1..])
  }

  // ------------------------------------------------------------- counting

  predicate Passed(pc: Pc) { pc.GetPassed? || pc.GetPop? }

  predicate Unposted(pc: Pc) { pc.GetPushed? || pc.GivePushed? || pc.StockPushed? || pc.StockPost? }

  predicate Waiting(pc: Pc) { pc.GetPushed? || pc.GetUnlock? || pc.GetWait? }

  function One(b: bool): nat { if b then 1 else 0 }

  function Count(pcs: seq<Pc>, f: Pc -> bool): nat {
    if pcs == [] then 0 else One(f(pcs[|pcs| - 1])) + Count(pcs[..|pcs| - 1], f)
  }

  lemma {:induction false} CountUpdate(pcs: seq<Pc>, f: Pc -> bool, i: nat, pc: Pc)
    requires i < |pcs|
    ensures Count(pcs[i := pc], f) == Count(pcs, f) - One(f(pcs[i])) + One(f(pc))
    decreases |pcs|
  {
    var n := |pcs| - 1;
    if i < n {
      CountUpdate(pcs[..n], f, i, pc);
      assert pcs[i := pc][..n] == pcs[..n][i := pc];
    } else {
      assert pcs[i := pc][..n] == pcs[..n];
    }
  }

  lemma {:induction false} CountPositive(pcs: seq<Pc>, f: Pc -> bool, i: nat)
    requires i < |pcs| && f(pcs[i])
    ensures Count(pcs, f) > 0
    decreases |pcs|
  {
    if i < |pcs| - 1 {
      CountPositive(pcs[..|pcs| - 1], f, i);
    }
  }

  lemma {:induction false} CountNone(pcs: seq<Pc>, f: Pc -> bool)
    requires forall i :: 0 <= i < |pcs| ==> !f(pcs[i])
    ensures Count(pcs, f) == 0
    decreases |pcs|
  {
    if pcs != [] {
      CountNone(pcs[..|pcs| - 1], f);
    }
  }

  function PassedF(): Pc -> bool { (pc: Pc) => Passed(pc) }
  function UnpostedF(): Pc -> bool { (pc: Pc) => Unposted(pc) }

  // ------------------------------------------------------------ invariants

  // The mutex excludes.
  ghost predicate Mutex(s: State) {
    forall i :: 0 <= i < |s.pcs| ==> (HasLock(s.pcs[i]) <==> s.sh.lock == i)
  }

  // Queue length = semaphore + threads past sem_wait that have not popped +
  // pushes not yet posted.
  ghost predicate Balanced(s: State) {
    |s.sh.pool.avail| == s.sh.pool.sem + Count(s.pcs, PassedF()) + Count(s.pcs, UnpostedF())
  }

  // No thing is queued twice, or both queued and handed out; what was created
  // and not deleted is queued or handed out.
  ghost predicate Distinct(sh: Shared) {
    && (forall i, j :: 0 <= i < j < |sh.pool.avail| ==> sh.pool.avail[i] != sh.pool.avail[j])
    && (forall t :: t in sh.pool.avail ==> t !in sh.held && t < sh.pool.next)
    && (forall t :: t in sh.held ==> t < sh.pool.next)
    && sh.pool.created == |sh.pool.avail| + |sh.held|
  }

  // What is being given back is still handed out, and given back by one thread.
  ghost predicate GivenOnce(s: State) {
    && (forall i :: 0 <= i < |s.pcs| && Giving(s.pcs[i]) ==> s.pcs[i].thing in s.sh.held)
    && (forall i, j :: 0 <= i < j < |s.pcs| && Giving(s.pcs[i]) && Giving(s.pcs[j]) ==> s.pcs[i].thing != s.pcs[j].thing)
  }

  ghost predicate Inv(s: State) {
    !s.sh.broken && Mutex(s) && Balanced(s) && Distinct(s.sh) && GivenOnce(s)
  }

  // The queue is never found empty by a thread that passed the semaphore.
  lemma {:induction false} FrontExists(s: State, i: nat)
    requires Balanced(s) && i < |s.pcs| && Passed(s.pcs[i])
    ensures s.sh.pool.avail != []
  {
    CountPositive(s.pcs, PassedF(), i);
  }

  // One step keeps the balance, whoever takes it.
  lemma {:induction false} AdvanceBalanced(sh: Shared, pc: Pc, me: nat)
    requires Passed(pc) ==> sh.pool.avail != []
    ensures var (sh1, pc1) := Advance(sh, pc, me);
            && |sh1.pool.avail| - sh1.pool.sem - One(Passed(pc1)) - One(Unposted(pc1))
               == |sh.pool.avail| - sh.pool.sem - One(Passed(pc)) - One(Unposted(pc))
            && sh1.broken == sh.broken
  {
  }

  lemma {:induction false} TakeDistinct(sh: Shared)
    requires Distinct(sh) && sh.pool.avail != []
    ensures var (q, thing) := Take(sh.pool); Distinct(sh.(pool := q, held := sh.held + {thing}))
  {
    var avail := sh.pool.avail;
    assert avail[0] in avail;
    forall t | t in avail[1..]
      ensures t in avail && t != avail[0]
    {
      var k :| 0 <= k < |avail[1..]| && avail[1..][k] == t;
    }
  }

  lemma {:induction false} PutBackDistinct(sh: Shared, thing: Thing)
    requires Distinct(sh) && thing in sh.held
    ensures Distinct(sh.(pool := PutBack(sh.pool, thing).0, held := sh.held - {thing}))
  {
    var avail := sh.pool.avail;
    assert forall k :: 0 <= k < |avail| ==> avail[k] in avail;
  }

  lemma {:induction false} GenerateDistinct(sh: Shared)
    requires Distinct(sh)
    ensures Distinct(sh.(pool := Generate(sh.pool)))
  {
    var avail := sh.pool.avail;
    assert forall k :: 0 <= k < |avail| ==> avail[k] in avail;
  }

  lemma {:induction false} AdvanceDistinct(sh: Shared, pc: Pc, me: nat)
    requires Distinct(sh) && (Passed(pc) ==> sh.pool.avail != []) && (Giving(pc) ==> pc.thing in sh.held)
    ensures Distinct(Advance(sh, pc, me).0)
  {
    match pc {
      case GetPop => TakeDistinct(sh);
      case GiveTest(thing) => PutBackDistinct(sh, thing);
      case GetTest => GenerateDistinct(sh);
      case StockTest(n) => GenerateDistinct(sh);
      case _ =>
    }
  }

  // A thing leaves the hands of its holder only by being given back.
  lemma {:induction false} AdvanceKeepsHeld(sh: Shared, pc: Pc, me: nat)
    ensures var (sh1, pc1) := Advance(sh, pc, me);
            && (forall t :: t in sh.held && pc != GiveTest(t) ==> t in sh1.held)
            && (Giving(pc1) ==> Giving(pc) && pc1.thing == pc.thing && sh1.held == sh.held)
  {
  }

  lemma {:induction false} AdvanceLock(sh: Shared, pc: Pc, me: nat)
    requires HasLock(pc) <==> sh.lock == me
    ensures var (sh1, pc1) := Advance(sh, pc, me);
            && (HasLock(pc1) <==> sh1.lock == me)
            && (sh1.lock != sh.lock ==> (sh.lock == FREE && sh1.lock == me) || (sh.lock == me && sh1.lock == FREE))
  {
  }

  lemma {:induction false} GoInv(s: State, i: nat)
    requires Inv(s) && i < |s.pcs|
    ensures Inv(Step(s, Go(i)))
  {
    var (sh, pc) := Advance(s.sh, s.pcs[i], i);
    if Passed(s.pcs[i]) {
      FrontExists(s, i);
    }
    AdvanceBalanced(s.sh, s.pcs[i], i);
    AdvanceDistinct(s.sh, s.pcs[i], i);
    AdvanceKeepsHeld(s.sh, s.pcs[i], i);
    AdvanceLock(s.sh, s.pcs[i], i);
    CountUpdate(s.pcs, PassedF(), i, pc);
    CountUpdate(s.pcs, UnpostedF(), i, pc);
    StepIs(s, i, sh, pc);
  }

  lemma {:induction false} StepIs(s: State, i: nat, sh: Shared, pc: Pc)
    requires i < |s.pcs| && Advance(s.sh, s.pcs[i], i) == (sh, pc)
    ensures Step(s, Go(i)) == State(sh, s.pcs[i := pc])
  {
  }

  lemma {:induction false} EnterInv(s: State, i: nat, call: Call)
    requires Inv(s) && MayEnter(s, i, call)
    ensures Inv(s.(pcs := s.pcs[i := Start(call)]))
  {
    CountUpdate(s.pcs, PassedF(), i, Start(call));
    CountUpdate(s.pcs, UnpostedF(), i, Start(call));
  }

  lemma {:induction false} StepInv(s: State, m: Move)
    requires Inv(s)
    ensures Inv(Step(s, m))
  {
    match m {
      case Enter(i, call) =>
        if MayEnter(s, i, call) {
          EnterInv(s, i, call);
        }
      case Go(i) =>
        if i < |s.pcs| {
          GoInv(s, i);
        }
    }
  }

  lemma {:induction false} InitInv(threads: nat, max: nat, maxspare: nat)
    ensures Inv(Init(threads, max, maxspare))
  {
    var s := Init(threads, max, maxspare);
    CountNone(s.pcs, PassedF());
    CountNone(s.pcs, UnpostedF());
  }

  lemma {:induction false} RunInv(s: State, ms: seq<Move>)
    requires Inv(s)
    ensures Inv(Run(s, ms))
    decreases |ms|
  {
    if ms != [] {
      StepInv(s, ms[0]);
      RunInv(Step(s, ms[0]), ms[1..]);
    }
  }

  // Under every interleaving of get, giveBack and stock: the queue length is
  // accounted for, front() is never taken on an empty queue, everything
  // created is queued or held, and no thing is handed out twice.
  lemma {:induction false} EveryInterleavingIsSafe(threads: nat, max: nat, maxspare: nat, ms: seq<Move>)
    ensures Inv(Run(Init(threads, max, maxspare), ms))
  {
    InitInv(threads, max, maxspare);
    RunInv(Init(threads, max, maxspare), ms);
  }

  // ----------------------------------------------------------- the maximum

  ghost predicate WithinMax(p: Pool) { p.max == 0 || p.created <= p.max }

  // Stocking respects the maximum: no thing is stocked beyond it.
  ghost predicate StocksWithin(s: State, ms: seq<Move>)
    decreases |ms|
  {
    ms == [] ||
    (&& (ms[0].Go? && ms[0].i < |s.pcs| && s.pcs[ms[0].i].StockTest? && s.sh.pool.max > 0 ==> s.sh.pool.created < s.sh.pool.max)
     && StocksWithin(Step(s, ms[0]), ms[1..]))
  }

  lemma {:induction false} NeverMoreThanMax(s: State, ms: seq<Move>)
    requires WithinMax(s.sh.pool) && StocksWithin(s, ms)
    ensures WithinMax(Run(s, ms).sh.pool)
    decreases |ms|
  {
    if ms != [] {
      NeverMoreThanMax(Step(s, ms[0]), ms[1..]);
    }
  }

  // ---------------------------------------------------------- no lost waiter

  // As long as one thread is on its way to the semaphore, a thing exists.
  ghost predicate SomethingToWaitFor(s: State) {
    forall i :: 0 <= i < |s.pcs| && Waiting(s.pcs[i]) ==> s.sh.pool.created >= 1
  }

  // A spare is kept, or no other thread can be waiting.
  predicate Spares(threads: nat, maxspare: nat) { maxspare >= 1 || threads <= 1 }

  // A thread that decides to wait leaves a thing behind, and the last thing
  // is not deleted when a spare is kept.
  lemma {:induction false} AdvanceKeepsSomething(sh: Shared, pc: Pc, me: nat)
    requires Distinct(sh) && (Giving(pc) ==> pc.thing in sh.held)
    requires Passed(pc) ==> sh.pool.avail != []
    requires Waiting(pc) ==> sh.pool.created >= 1
    ensures var (sh1, pc1) := Advance(sh, pc, me);
            && (sh.pool.created >= 1 && sh.pool.maxspare >= 1 ==> sh1.pool.created >= 1)
            && (Waiting(pc1) ==> sh1.pool.created >= 1)
            && sh1.pool.maxspare == sh.pool.maxspare
  {
  }

  lemma {:induction false} StepKeepsSomething(s: State, m: Move)
    requires Inv(s) && SomethingToWaitFor(s) && Spares(|s.pcs|, s.sh.pool.maxspare)
    ensures var s1 := Step(s, m);
            SomethingToWaitFor(s1) && s1.sh.pool.maxspare == s.sh.pool.maxspare && |s1.pcs| == |s.pcs|
  {
    if m.Go? && m.i < |s.pcs| {
      var i := m.i;
      if Passed(s.pcs[i]) {
        FrontExists(s, i);
      }
      AdvanceKeepsSomething(s.sh, s.pcs[i], i);
      var (sh, pc) := Advance(s.sh, s.pcs[i], i);
      StepIs(s, i, sh, pc);
    }
  }

  lemma {:induction false} RunKeepsSomething(s: State, ms: seq<Move>)
    requires Inv(s) && SomethingToWaitFor(s) && Spares(|s.pcs|, s.sh.pool.maxspare)
    ensures SomethingToWaitFor(Run(s, ms))
    decreases |ms|
  {
    if ms != [] {
      StepInv(s, ms[0]);
      StepKeepsSomething(s, ms[0]);
      RunKeepsSomething(Step(s, ms[0]), ms[1..]);
    }
  }

  // A thread waits for the semaphore, which is zero, and no post is pending.
  ghost predicate Blocked(s: State, i: nat) {
    && i < |s.pcs| && s.pcs[i].GetWait? && s.sh.pool.sem == 0
    && forall j :: 0 <= j < |s.pcs| ==> !Unposted(s.pcs[j])
  }

  // Some thing is held, or claimed by a thread past the semaphore.
  ghost predicate InHands(s: State) {
    s.sh.held != {} || exists j :: 0 <= j < |s.pcs| && Passed(s.pcs[j])
  }

  ghost predicate NeverStuck(threads: nat, max: nat, maxspare: nat) {
    forall ms, i :: !StuckIn(Init(threads, max, maxspare), ms, i)
  }

  lemma {:induction false} BlockedMeansInHands(threads: nat, max: nat, maxspare: nat, ms: seq<Move>, i: nat)
    requires Spares(threads, maxspare) && Blocked(Run(Init(threads, max, maxspare), ms), i)
    ensures InHands(Run(Init(threads, max, maxspare), ms))
  {
    var s := Run(Init(threads, max, maxspare), ms);
    EveryInterleavingIsSafe(threads, max, maxspare, ms);
    InitInv(threads, max, maxspare);
    RunKeepsSomething(Init(threads, max, maxspare), ms);
    assert Waiting(s.pcs[i]);
    CountNone(s.pcs, UnpostedF());
    if forall j :: 0 <= j < |s.pcs| ==> !Passed(s.pcs[j]) {
      CountNone(s.pcs, PassedF());
      assert |s.sh.held| >= 1;
    }
  }

  // Returning all things never leaves a waiter stuck: once nothing is held
  // and no thread is between two steps, the semaphore lets it through.
  lemma {:induction false} AllReturnedMeansReady(threads: nat, max: nat, maxspare: nat, ms: seq<Move>, i: nat)
    requires Spares(threads, maxspare)
    requires var s := Run(Init(threads, max, maxspare), ms);
             && i < |s.pcs| && s.pcs[i].GetWait? && s.sh.held == {}
             && forall j :: 0 <= j < |s.pcs| ==> s.pcs[j].Idle? || s.pcs[j].GetWait?
    ensures Run(Init(threads, max, maxspare), ms).sh.pool.sem > 0
  {
    var s := Run(Init(threads, max, maxspare), ms);
    if s.sh.pool.sem == 0 {
      BlockedMeansInHands(threads, max, maxspare, ms, i);
    }
  }

  // Two threads and no spares: the first gets the one thing there is while
  // the second has decided to wait for it, and on its return it is deleted.
  const LOSE: seq<Move> :=
    [Enter(0, Get), Go(0), Go(0), Go(0), Go(0), Enter(1, Get), Go(1), Go(1), Go(1),
     Go(0), Go(0), Go(0), Go(0), Enter(0, Give(0)), Go(0), Go(0), Go(0)]

  function Nth(s: State, ms: seq<Move>, n: nat): State
    requires n <= |ms|
  {
    if n == 0 then s else Step(Nth(s, ms, n - 1), ms[n - 1])
  }

  lemma {:induction false} RunIsNth(s: State, ms: seq<Move>, n: nat)
    requires n <= |ms|
    ensures Run(s, ms) == Run(Nth(s, ms, n), ms[n..])
  {
    if n > 0 {
      RunIsNth(s, ms, n - 1);
      assert ms[n - 1..][1..] == ms[n..];
    }
  }

  lemma {:induction false} RunIsAll(s: State, ms: seq<Move>)
    ensures Run(s, ms) == Nth(s, ms, |ms|)
  {
    RunIsNth(s, ms, |ms|);
    assert ms[|ms|..] == [];
  }

  lemma {:induction false} FirstStarts(max: nat)
    ensures Nth(Init(2, max, 0), LOSE, 2) == State(Shared(Empty(max, 0), 0, {}, false), [GetTest, Idle])
  {
    var s := Init(2, max, 0);
    assert s.pcs == [Idle, Idle];
    assert Nth(s, LOSE, 1) == State(s.sh, [GetStart, Idle]);
  }

  lemma {:induction false} FirstGets(max: nat)
    ensures Nth(Init(2, max, 0), LOSE, 5) == State(Shared(Pool([0], 1, 1, max, 0, 1), FREE, {}, false), [GetWait, Idle])
  {
    var s := Init(2, max, 0);
    var sh := s.sh;
    FirstStarts(max);
    var p := Pool([0], 0, 1, max, 0, 1);
    assert [0] + [] == [0];
    assert Reserve(sh.pool) == (p, true);
    assert Nth(s, LOSE, 3) == State(Shared(p, 0, {}, false), [GetPushed, Idle]);
    assert Nth(s, LOSE, 4) == State(Shared(Post(p), 0, {}, false), [GetUnlock, Idle]);
  }

  lemma {:induction false} SecondWaits(max: nat)
    ensures Nth(Init(2, max, 0), LOSE, 9) == State(Shared(Pool([0], 1, 1, max, 0, 1), FREE, {}, false), [GetWait, GetWait])
  {
    FirstGets(max);
    var s := Init(2, max, 0);
    var p := Pool([0], 1, 1, max, 0, 1);
    assert Nth(s, LOSE, 6) == State(Shared(p, FREE, {}, false), [GetWait, GetStart]);
    assert Nth(s, LOSE, 7) == State(Shared(p, 1, {}, false), [GetWait, GetTest]);
    assert Nth(s, LOSE, 8) == State(Shared(p, 1, {}, false), [GetWait, GetUnlock]);
  }

  lemma {:induction false} FirstTakes(max: nat)
    ensures Nth(Init(2, max, 0), LOSE, 13) == State(Shared(Pool([], 0, 1, max, 0, 1), FREE, {0}, false), [Idle, GetWait])
  {
    SecondWaits(max);
    var s := Init(2, max, 0);
    var p := Pool([0], 0, 1, max, 0, 1);
    assert Nth(s, LOSE, 10) == State(Shared(p, FREE, {}, false), [GetPassed, GetWait]);
    assert Nth(s, LOSE, 11) == State(Shared(p, 0, {}, false), [GetPop, GetWait]);
    assert Nth(s, LOSE, 12) == State(Shared(p.(avail := []), 0, {0}, false), [GetPopped, GetWait]);
  }

  lemma {:induction false} FirstReturns(max: nat)
    ensures Nth(Init(2, max, 0), LOSE, 17) == State(Shared(Pool([], 0, 0, max, 0, 1), FREE, {}, false), [Idle, GetWait])
  {
    FirstTakes(max);
    var s := Init(2, max, 0);
    var p := Pool([], 0, 1, max, 0, 1);
    assert Nth(s, LOSE, 14) == State(Shared(p, FREE, {0}, false), [GiveStart(0), GetWait]);
    assert Nth(s, LOSE, 15) == State(Shared(p, 0, {0}, false), [GiveTest(0), GetWait]);
    assert Nth(s, LOSE, 16) == State(Shared(p.(created := 0), 0, {}, false), [GiveUnlock, GetWait]);
  }

  ghost predicate StuckIn(s: State, ms: seq<Move>, i: nat) { Blocked(Run(s, ms), i) && !InHands(Run(s, ms)) }

  // More threads, which stay out of the pool.
  ghost predicate Pads(s: State, t: State) {
    && s.sh == t.sh && |s.pcs| <= |t.pcs| && t.pcs[..|s.pcs|] == s.pcs
    && forall j :: |s.pcs| <= j < |t.pcs| ==> t.pcs[j] == Idle
  }

  lemma {:induction false} StepPads(s: State, t: State, m: Move)
    requires Pads(s, t) && m.i < |s.pcs|
    ensures Pads(Step(s, m), Step(t, m)) && |Step(s, m).pcs| == |s.pcs|
  {
    assert forall j :: 0 <= j < |s.pcs| ==> t.pcs[..|s.pcs|][j] == s.pcs[j];
    match m
    case Enter(i, call) => assert MayEnter(s, i, call) <==> MayEnter(t, i, call);
    case Go(i) =>
  }

  lemma {:induction false} RunPads(s: State, t: State, ms: seq<Move>)
    requires Pads(s, t) && forall k :: 0 <= k < |ms| ==> ms[k].i < |s.pcs|
    ensures Pads(Run(s, ms), Run(t, ms))
    decreases |ms|
  {
    if ms != [] {
      StepPads(s, t, ms[0]);
      RunPads(Step(s, ms[0]), Step(t, ms[0]), ms[1..]);
    }
  }

  // A run that ends with nothing left and one waiter does so among more threads.
  lemma {:induction false} NothingLeft(s: State, t: State, ms: seq<Move>, max: nat)
    requires Pads(s, t) && |s.pcs| == 2 && forall k :: 0 <= k < |ms| ==> ms[k].i < 2
    requires Run(s, ms) == State(Shared(Pool([], 0, 0, max, 0, 1), FREE, {}, false), [Idle, GetWait])
    ensures StuckIn(t, ms, 1)
  {
    RunPads(s, t, ms);
    var pcs := Run(t, ms).pcs;
    assert pcs[..2][0] == Idle && pcs[..2][1] == GetWait;
    assert forall j :: 0 <= j < |pcs| ==> pcs[j] == if j == 1 then GetWait else Idle;
  }

  // The state in which a run ends, by its length.
  ghost predicate EndsIn(s: State, ms: seq<Move>, end: State) { Nth(s, ms, |ms|) == end }

  lemma {:induction false} EndOfRun(s: State, ms: seq<Move>, end: State)
    requires EndsIn(s, ms, end)
    ensures Run(s, ms) == end
  {
    RunIsAll(s, ms);
  }

  lemma {:induction false} LosesTheThing(max: nat) returns (ms: seq<Move>)
    ensures forall k :: 0 <= k < |ms| ==> ms[k].i < 2
    ensures EndsIn(Init(2, max, 0), ms, State(Shared(Pool([], 0, 0, max, 0, 1), FREE, {}, false), [Idle, GetWait]))
  {
    ms := LOSE;
    FirstReturns(max);
    assert |LOSE| == 17;
  }

  lemma {:induction false} StuckWithoutSpares(threads: nat, max: nat) returns (ms: seq<Move>)
    requires threads >= 2
    ensures StuckIn(Init(threads, max, 0), ms, 1)
  {
    ms := LosesTheThing(max);
    EndOfRun(Init(2, max, 0), ms, State(Shared(Pool([], 0, 0, max, 0, 1), FREE, {}, false), [Idle, GetWait]));
    NothingLeft(Init(2, max, 0), Init(threads, max, 0), ms, max);
  }

  lemma {:induction false} SparesSuffice(threads: nat, max: nat, maxspare: nat)
    requires Spares(threads, maxspare)
    ensures NeverStuck(threads, max, maxspare)
  {
    forall ms, i
      ensures !StuckIn(Init(threads, max, maxspare), ms, i)
    {
      if Blocked(Run(Init(threads, max, maxspare), ms), i) {
        BlockedMeansInHands(threads, max, maxspare, ms, i);
      }
    }
  }

  // For any number of threads, a waiter can always count on a thing that will
  // be returned if and only if the pool keeps a spare or no second thread
  // uses it.
  lemma {:induction false} NeverStuckIffSpares(threads: nat, max: nat, maxspare: nat)
    ensures NeverStuck(threads, max, maxspare) <==> maxspare >= 1 || threads <= 1
  {
    if Spares(threads, maxspare) {
      SparesSuffice(threads, max, maxspare);
    } else {
      var ms := StuckWithoutSpares(threads, max);
    }
  }

  // --------------------------------------------- calls that run undisturbed

  datatype Outcome = Waits | Handed(thing: Thing)

  // get, as far as it goes when no other thread acts.
  function GetAlone(p: Pool): (Pool, Outcome) {
    var (q, pushed) := Reserve(p);
    var r := if pushed then Post(q) else q;
    if r.sem == 0 || r.avail == [] then (r, Waits)
    else var (t, thing) := Take(r.(sem := r.sem - 1)); (t, Handed(thing))
  }

  function GiveAlone(p: Pool, thing: Thing): Pool {
    var (q, pushed) := PutBack(p, thing);
    if pushed then Post(q) else q
  }

  function StockAlone(p: Pool, n: nat): Pool {
    if n == 0 then p else Post(Generate(StockAlone(p, n - 1)))
  }

  function Steps(s: State, i: nat, n: nat): State {
    if n == 0 then s else Step(Steps(s, i, n - 1), Go(i))
  }

  lemma {:induction false} FirstHalf(s: State, i: nat)
    requires i < |s.pcs| && s.sh.lock == FREE && s.pcs[i] == GetStart
    ensures var (q, pushed) := Reserve(s.sh.pool);
            var r := if pushed then Post(q) else q;
            Steps(s, i, if pushed then 4 else 3) == State(s.sh.(pool := r), s.pcs[i := GetWait])
  {
    var (q, pushed) := Reserve(s.sh.pool);
    assert Steps(s, i, 1) == State(s.sh.(lock := i), s.pcs[i := GetTest]);
    assert Steps(s, i, 2) == State(s.sh.(lock := i, pool := q), s.pcs[i := if pushed then GetPushed else GetUnlock]);
    if pushed {
      assert Steps(s, i, 3) == State(s.sh.(lock := i, pool := Post(q)), s.pcs[i := GetUnlock]);
    }
  }

  lemma {:induction false} SecondHalf(s: State, i: nat)
    requires i < |s.pcs| && s.sh.lock == FREE && s.pcs[i] == GetWait && s.sh.pool.sem > 0 && s.sh.pool.avail != []
    ensures var (t, thing) := Take(s.sh.pool.(sem := s.sh.pool.sem - 1));
            Steps(s, i, 4) == State(s.sh.(pool := t, held := s.sh.held + {thing}), s.pcs[i := Idle])
  {
    var p := s.sh.pool.(sem := s.sh.pool.sem - 1);
    var (t, thing) := Take(p);
    assert Steps(s, i, 1) == State(s.sh.(pool := p), s.pcs[i := GetPassed]);
    assert Steps(s, i, 2) == State(s.sh.(pool := p, lock := i), s.pcs[i := GetPop]);
    assert Steps(s, i, 3) == State(s.sh.(pool := t, lock := i, held := s.sh.held + {thing}), s.pcs[i := GetPopped]);
  }

  lemma {:induction false} StepsAppend(s: State, i: nat, m: nat, n: nat)
    ensures Steps(s, i, m + n) == Steps(Steps(s, i, m), i, n)
  {
    if n > 0 {
      StepsAppend(s, i, m, n - 1);
    }
  }

  ghost predicate Reaches(s: State, i: nat, n: nat, s1: State) { Steps(s, i, n) == s1 }

  lemma {:induction false} Then(s: State, i: nat, m: nat, s1: State, n: nat, s2: State) returns (k: nat)
    requires Reaches(s, i, m, s1) && Reaches(s1, i, n, s2)
    ensures Reaches(s, i, k, s2)
  {
    StepsAppend(s, i, m, n);
    k := m + n;
  }

  // The steps of one thread, undisturbed, do what the sequential get does:
  // they hand out the thing at the front, or leave the thread waiting.
  lemma {:induction false} StepsOfGet(s: State, i: nat) returns (n: nat)
    requires Inv(s) && i < |s.pcs| && s.sh.lock == FREE && s.pcs[i] == GetStart
    ensures var (q, r) := GetAlone(s.sh.pool);
            Reaches(s, i, n, match r
                             case Handed(thing) => State(s.sh.(pool := q, held := s.sh.held + {thing}), s.pcs[i := Idle])
                             case Waits => State(s.sh.(pool := q), s.pcs[i := GetWait]))
  {
    FirstHalf(s, i);
    var (q, r) := GetAlone(s.sh.pool);
    n := if Reserve(s.sh.pool).1 then 4 else 3;
    if r.Handed? {
      var m := Steps(s, i, n);
      SecondHalf(m, i);
      n := Then(s, i, n, m, 4, Steps(m, i, 4));
    }
  }

  lemma {:induction false} StepsOfGive(s: State, i: nat, thing: Thing) returns (n: nat)
    requires i < |s.pcs| && s.sh.lock == FREE && s.pcs[i] == GiveStart(thing)
    ensures Steps(s, i, n) ==
            State(s.sh.(pool := GiveAlone(s.sh.pool, thing), held := s.sh.held - {thing}), s.pcs[i := Idle])
  {
    var (q, pushed) := PutBack(s.sh.pool, thing);
    var sh := s.sh.(pool := q, held := s.sh.held - {thing}, lock := i);
    assert Steps(s, i, 1) == State(s.sh.(lock := i), s.pcs[i := GiveTest(thing)]);
    assert Steps(s, i, 2) == State(sh, s.pcs[i := if pushed then GivePushed else GiveUnlock]);
    n := 3;
    if pushed {
      assert Steps(s, i, 3) == State(sh.(pool := Post(q)), s.pcs[i := GiveUnlock]);
      n := 4;
    }
  }
}
