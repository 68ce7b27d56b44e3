/** The shift/reduce machine of the generated parser, and its simulation by the
    predictive recogniser of the grammar. */
module TextParserSpec {
  import opened TextGrammar
  import opened TextTables

  // YYSTYPE; Unset stands for whatever an uninitialised or stale value holds.
  datatype Value = Unset | Number(n: int) | Text(s: string)

  function NumberOf(v: Value): int { if v.Number? then v.n else 0 }

  function TextOf(v: Value): string { if v.Text? then v.s else "" }

  // YYTRANSLATE of a token; 0 at the end of the input.
  function CodeOf(ts: seq<Token>): Code {
    if ts == [] then 0
    else
      match ts[0]
      case Amount(_) => 3
      case Quoted(_) => 4
      case ADDRESS => 5
      case FORWARD => 6
      case PASSWORD => 7
      case QUOTA => 8
      case OBRACE => 9
      case EBRACE => 10
      case SEMICOLON => 11
  }

  // yylval once the next token was read.
  function Lval(lval: Value, ts: seq<Token>): Value {
    if ts == [] then lval
    else
      match ts[0]
      case Amount(n) => Number(n)
      case Quoted(w) => Text(w)
      case _ => lval
  }

  lemma {:induction false} SameHead(t: seq<Token>, more: seq<Token>, lval: Value)
    ensures |t| == 1 ==> CodeOf(t) == CodeOf(t + more) > 0 && Lval(lval, t) == Lval(lval, t + more)
  {
  }

  // ss and vs are the stacks of states and values, top last; ts the tokens
  // not shifted yet; lval is yylval after the tokens that were shifted.
  datatype Machine = Machine(ss: seq<int>, vs: seq<Value>, ts: seq<Token>, lval: Value,
                             addr: TextBaseEntry, called: seq<TextBaseEntry>)

  function Top(m: Machine): int
    requires m.ss != []
  {
    m.ss[|m.ss| - 1]
  }

  // The semantic actions; top is the index of the top of the value stack.
  function Action(m: Machine, rule: int): (a: Machine)
    requires |m.vs| >= 4 || rule != 4
    requires |m.vs| >= 1
    ensures a.ss == m.ss && a.vs == m.vs && a.ts == m.ts && a.lval == m.lval
  {
    var top := |m.vs| - 1;
    match rule
    case 4 => m.(addr := BLANK, called := m.called + [m.addr.(address := TextOf(m.vs[top - 3]))])
    case 10 => m.(addr := m.addr.(password := TextOf(m.vs[top])))
    case 11 => m.(addr := m.addr.(forward := TextOf(m.vs[top])))
    case 12 => m.(addr := m.addr.(quotaKB := Thousandth(NumberOf(m.vs[top]))))
    case _ => m
  }

  // The stack holds the right-hand side of the rule and a state below it.
  predicate Reducible(m: Machine, rule: int) {
    1 <= rule <= 12 && |m.ss| == |m.vs| > YYR2[rule]
  }

  // The right-hand side is popped, and what it was reduced to pushed; the
  // value is yyvsp[1-yylen], the first of the right-hand side.
  function Replaced(m: Machine, rule: int, len: nat): Machine
    requires 1 <= rule <= 12 && |m.ss| == |m.vs| > len
  {
    var n := |m.ss| - len;
    m.(ss := m.ss[..n] + [Goto(rule, m.ss[n - 1])], vs := m.vs[..n] + [if len == 0 then Unset else m.vs[n]])
  }

  function Reduced(m: Machine, rule: int): Machine
    requires Reducible(m, rule)
  {
    Replaced(Action(m, rule), rule, YYR2[rule])
  }

  function Shifted(m: Machine, state: int): Machine {
    m.(ss := m.ss + [state], vs := m.vs + [Lval(m.lval, m.ts)], lval := Lval(m.lval, m.ts),
       ts := if m.ts == [] then [] else m.ts[1..])
  }

  // -------------------------------------------------- reachable machines

  // The state on top determines the whole stack.
  function StackOf(top: int): seq<int> {
    match top
    case 0 => [0]
    case 1 => [0, 1]
    case 21 => [0, 1, 21]
    case 2 => [0, 1, 2]
    case 5 => [0, 1, 2, 5]
    case 7 => [0, 1, 2, 5, 7]
    case 8 => [0, 1, 2, 5, 7, 8]
    case 17 => [0, 1, 2, 5, 7, 8, 9, 17]
    case 18 => [0, 1, 2, 5, 7, 8, 10, 18]
    case 19 => [0, 1, 2, 5, 7, 8, 11, 19]
    case 20 => [0, 1, 2, 5, 7, 8, 13, 20]
    case 3 => [0, 1, 3]
    case 6 => [0, 1, 3, 6]
    case 4 => [0, 1, 4]
    case _ => [0, 1, 2, 5, 7, 8, top]
  }

  // The longest stack of a parse.
  const DEPTH := 8

  lemma {:induction false} StacksAreShort(top: int)
    ensures 1 <= |StackOf(top)| <= DEPTH && StackOf(top)[|StackOf(top)| - 1] == top
  {
  }

  ghost predicate Reachable(m: Machine) {
    && m.ss != [] && 0 <= Top(m) <= 21 && m.ss == StackOf(Top(m)) && |m.vs| == |m.ss|
    && (|m.ss| >= 4 && m.ss[3] == 5 ==> m.vs[3].Text?)
    && (Top(m) == 17 || Top(m) == 18 ==> m.vs[7].Text?)
    && (Top(m) == 19 ==> m.vs[7].Number?)
    && (Top(m) == 21 ==> m.ts == [])
  }

  // What the rest of the parse comes to, by the grammar.
  function Continue(m: Machine): Parsed
    requires m.ss != [] && |m.vs| == |m.ss|
  {
    var name := if |m.vs| >= 4 then TextOf(m.vs[3]) else "";
    var v := m.vs[|m.vs| - 1];
    match Top(m)
    case 0 => Roots(m.ts, m.addr, m.called)
    case 1 => Roots(m.ts, m.addr, m.called)
    case 2 => AfterAddress(m.ts, m.addr, m.called)
    case 3 => AfterDecl(m.ts, m.addr, m.called)
    case 4 => AfterDecl(m.ts, m.addr, m.called)
    case 5 => AfterName(m.ts, m.addr, m.called, name)
    case 6 => Roots(m.ts, m.addr, m.called)
    case 7 => Body(m.ts, m.addr, m.called, name)
    case 8 => Body(m.ts, m.addr, m.called, name)
    case 9 => AfterForward(m.ts, m.addr, m.called, name)
    case 10 => AfterPassword(m.ts, m.addr, m.called, name)
    case 11 => AfterQuota(m.ts, m.addr, m.called, name)
    case 12 => AfterDecl(m.ts, BLANK, m.called + [m.addr.(address := name)])
    case 17 => AfterStatement(m.ts, m.addr.(forward := TextOf(v)), m.called, name)
    case 18 => AfterStatement(m.ts, m.addr.(password := TextOf(v)), m.called, name)
    case 19 => AfterStatement(m.ts, m.addr.(quotaKB := Thousandth(NumberOf(v))), m.called, name)
    case 20 => Body(m.ts, m.addr, m.called, name)
    case 21 => Parsed(true, m.addr, m.called)
    case _ => AfterStatement(m.ts, m.addr, m.called, name)
  }

  // Reductions left before the next token is looked at.
  function Rank(top: int): nat {
    match top
    case 0 => 2
    case 1 => 1
    case 4 => 1
    case 6 => 2
    case 7 => 1
    case 12 => 2
    case 14 => 1
    case 15 => 1
    case 16 => 1
    case 17 => 2
    case 18 => 2
    case 19 => 2
    case 20 => 1
    case _ => 0
  }

  ghost predicate Progress(m: Machine, m1: Machine)
    requires m.ss != [] && m1.ss != []
  {
    |m1.ts| < |m.ts| || (m1.ts == m.ts && Rank(Top(m1)) < Rank(Top(m)))
  }

  lemma {:induction false} ShiftInFile(m: Machine, state: int)
    requires Reachable(m) && Automaton(Top(m), CodeOf(m.ts)) == Shift(state) && (state <= 5 || state == 21)
    ensures Reachable(Shifted(m, state)) && Continue(Shifted(m, state)) == Continue(m)
    ensures Progress(m, Shifted(m, state))
  {
  }

  lemma {:induction false} ShiftInDecl(m: Machine, state: int)
    requires Reachable(m) && Automaton(Top(m), CodeOf(m.ts)) == Shift(state) && (6 <= state <= 8 || state == 20)
    ensures Reachable(Shifted(m, state)) && Continue(Shifted(m, state)) == Continue(m)
    ensures Progress(m, Shifted(m, state))
  {
  }

  lemma {:induction false} ShiftInStatement(m: Machine, state: int)
    requires Reachable(m) && Automaton(Top(m), CodeOf(m.ts)) == Shift(state) && 9 <= state <= 19
    ensures Reachable(Shifted(m, state)) && Continue(Shifted(m, state)) == Continue(m)
    ensures Progress(m, Shifted(m, state))
  {
  }

  // A shift keeps what the parse comes to.
  lemma {:induction false} ShiftSimulates(m: Machine, state: int)
    requires Reachable(m) && Decide(Top(m), CodeOf(m.ts)) == Shift(state)
    ensures Reachable(Shifted(m, state)) && Continue(Shifted(m, state)) == Continue(m)
    ensures Progress(m, Shifted(m, state))
  {
    DecideIsAutomaton(Top(m), CodeOf(m.ts));
    if state <= 5 || state == 21 {
      ShiftInFile(m, state);
    } else if state <= 8 || state == 20 {
      ShiftInDecl(m, state);
    } else {
      ShiftInStatement(m, state);
    }
  }

  lemma {:induction false} ReduceInFile(m: Machine, rule: int)
    requires Reachable(m) && Automaton(Top(m), CodeOf(m.ts)) == Reduce(rule) && rule <= 3
    ensures Reducible(m, rule)
    ensures Reachable(Reduced(m, rule)) && Continue(Reduced(m, rule)) == Continue(m) && Progress(m, Reduced(m, rule))
  {
    GotoIsByRule(rule, m.ss[|m.ss| - YYR2[rule] - 1]);
  }

  lemma {:induction false} ReduceAddress(m: Machine, rule: int)
    requires Reachable(m) && Automaton(Top(m), CodeOf(m.ts)) == Reduce(rule) && rule == 4
    ensures Reducible(m, rule)
    ensures Reachable(Reduced(m, rule)) && Continue(Reduced(m, rule)) == Continue(m) && Progress(m, Reduced(m, rule))
  {
    GotoIsByRule(rule, m.ss[|m.ss| - YYR2[rule] - 1]);
  }

  lemma {:induction false} ReduceInDecl(m: Machine, rule: int)
    requires Reachable(m) && Automaton(Top(m), CodeOf(m.ts)) == Reduce(rule) && 5 <= rule <= 6
    ensures Reducible(m, rule)
    ensures Reachable(Reduced(m, rule)) && Continue(Reduced(m, rule)) == Continue(m) && Progress(m, Reduced(m, rule))
  {
    assert Top(m) == if rule == 5 then 7 else 20;
    GotoIsByRule(rule, m.ss[|m.ss| - YYR2[rule] - 1]);
  }

  lemma {:induction false} ReduceInStatement(m: Machine, rule: int)
    requires Reachable(m) && Automaton(Top(m), CodeOf(m.ts)) == Reduce(rule) && 7 <= rule <= 9
    ensures Reducible(m, rule)
    ensures Reachable(Reduced(m, rule)) && Continue(Reduced(m, rule)) == Continue(m) && Progress(m, Reduced(m, rule))
  {
    assert Top(m) == if rule == 7 then 14 else if rule == 8 then 16 else 15;
    GotoIsByRule(rule, m.ss[|m.ss| - YYR2[rule] - 1]);
  }

  lemma {:induction false} ReducePassword(m: Machine, rule: int)
    requires Reachable(m) && Automaton(Top(m), CodeOf(m.ts)) == Reduce(rule) && rule == 10
    ensures Reducible(m, rule)
    ensures Reachable(Reduced(m, rule)) && Continue(Reduced(m, rule)) == Continue(m) && Progress(m, Reduced(m, rule))
  {
    GotoIsByRule(rule, m.ss[|m.ss| - YYR2[rule] - 1]);
  }

  lemma {:induction false} ReduceForward(m: Machine, rule: int)
    requires Reachable(m) && Automaton(Top(m), CodeOf(m.ts)) == Reduce(rule) && rule == 11
    ensures Reducible(m, rule)
    ensures Reachable(Reduced(m, rule)) && Continue(Reduced(m, rule)) == Continue(m) && Progress(m, Reduced(m, rule))
  {
    GotoIsByRule(rule, m.ss[|m.ss| - YYR2[rule] - 1]);
  }

  lemma {:induction false} ReduceQuota(m: Machine, rule: int)
    requires Reachable(m) && Automaton(Top(m), CodeOf(m.ts)) == Reduce(rule) && rule == 12
    ensures Reducible(m, rule)
    ensures Reachable(Reduced(m, rule)) && Continue(Reduced(m, rule)) == Continue(m) && Progress(m, Reduced(m, rule))
  {
    GotoIsByRule(rule, m.ss[|m.ss| - YYR2[rule] - 1]);
  }

  // So does a reduction.
  lemma {:induction false} ReduceSimulates(m: Machine, rule: int)
    requires Reachable(m) && Decide(Top(m), CodeOf(m.ts)) == Reduce(rule)
    ensures Reducible(m, rule)
    ensures Reachable(Reduced(m, rule)) && Continue(Reduced(m, rule)) == Continue(m) && Progress(m, Reduced(m, rule))
  {
    DecideIsAutomaton(Top(m), CodeOf(m.ts));
    if rule <= 3 {
      ReduceInFile(m, rule);
    } else if rule == 4 {
      ReduceAddress(m, rule);
    } else if rule <= 6 {
      ReduceInDecl(m, rule);
    } else if rule <= 9 {
      ReduceInStatement(m, rule);
    } else if rule == 10 {
      ReducePassword(m, rule);
    } else if rule == 11 {
      ReduceForward(m, rule);
    } else {
      ReduceQuota(m, rule);
    }
  }

  // Acceptance and error agree with the grammar.
  lemma {:induction false} EndSimulates(m: Machine)
    requires Reachable(m)
    ensures var a := Decide(Top(m), CodeOf(m.ts));
            a.Accept? || a.Fail? ==> Continue(m) == Parsed(a.Accept?, m.addr, m.called)
  {
    DecideIsAutomaton(Top(m), CodeOf(m.ts));
    EndOfAutomaton(m);
  }

  lemma {:induction false} EndOfAutomaton(m: Machine)
    requires Reachable(m)
    ensures var a := Automaton(Top(m), CodeOf(m.ts));
            a.Accept? || a.Fail? ==> Continue(m) == Parsed(a.Accept?, m.addr, m.called)
  {
  }

  // ------------------------------------------------------------ whole parses

  // The machine when a parse begins.
  function Start(ts: seq<Token>, lval: Value, addr: TextBaseEntry): Machine {
    Machine([0], [Unset], ts, lval, addr, [])
  }

  // One round of the loop: what the tables decide is done to the stacks. An
  // end leaves them as they are.
  function Step(m: Machine): Machine {
    if m.ss == [] || !(0 <= Top(m) <= 22) then m
    else
      match Decide(Top(m), CodeOf(m.ts))
      case Shift(state) => Shifted(m, state)
      case Reduce(rule) => if Reducible(m, rule) then Reduced(m, rule) else m
      case _ => m
  }

  function Steps(m: Machine, k: nat): Machine
    decreases k
  {
    if k == 0 then m else Steps(Step(m), k - 1)
  }

  ghost predicate Ended(m: Machine)
    requires Reachable(m)
  {
    var a := Decide(Top(m), CodeOf(m.ts));
    a.Accept? || a.Fail?
  }

  function Weight(m: Machine): nat
    requires m.ss != []
  {
    3 * |m.ts| + Rank(Top(m))
  }

  lemma {:induction false} StepSimulates(m: Machine)
    requires Reachable(m)
    ensures Reachable(Step(m)) && Continue(Step(m)) == Continue(m)
    ensures if Ended(m) then Step(m) == m else Weight(Step(m)) < Weight(m)
  {
    match Decide(Top(m), CodeOf(m.ts))
    case Shift(state) => ShiftSimulates(m, state);
    case Reduce(rule) => ReduceSimulates(m, rule);
    case _ =>
  }

  lemma {:induction false} StepsSimulate(m: Machine, k: nat)
    requires Reachable(m)
    ensures Reachable(Steps(m, k)) && Continue(Steps(m, k)) == Continue(m)
    ensures if Ended(m) then Steps(m, k) == m else Ended(Steps(m, k)) || Weight(Steps(m, k)) + k <= Weight(m)
    decreases k
  {
    if k > 0 {
      StepSimulates(m);
      StepsSimulate(Step(m), k - 1);
    }
  }

  // In every parse, of any tokens and after any number of rounds, the stacks
  // hold at most 8 entries, and no reduction takes more than they hold.
  lemma {:induction false} StacksStayShort(ts: seq<Token>, lval: Value, addr: TextBaseEntry, k: nat)
    ensures var m := Steps(Start(ts, lval, addr), k);
            && 1 <= |m.ss| == |m.vs| <= DEPTH && 0 <= Top(m) <= 21
            && (Decide(Top(m), CodeOf(m.ts)).Reduce? ==> Reducible(m, Decide(Top(m), CodeOf(m.ts)).rule))
  {
    StepsSimulate(Start(ts, lval, addr), k);
    var m := Steps(Start(ts, lval, addr), k);
    StacksAreShort(Top(m));
    var a := Decide(Top(m), CodeOf(m.ts));
    if a.Reduce? {
      ReduceSimulates(m, a.rule);
    }
  }

  // After three rounds a token and three more every parse has ended, with the
  // verdict, the calls and the global entry of the grammar.
  lemma {:induction false} EveryParseEnds(ts: seq<Token>, lval: Value, addr: TextBaseEntry, k: nat)
    requires k >= 3 * |ts| + 3
    ensures var m := Steps(Start(ts, lval, addr), k);
            && m.ss != [] && 0 <= Top(m) <= 21
            && var a := Decide(Top(m), CodeOf(m.ts));
            && (a.Accept? || a.Fail?)
            && Parsed(a.Accept?, m.addr, m.called) == Roots(ts, addr, [])
  {
    StepsSimulate(Start(ts, lval, addr), k);
    EndSimulates(Steps(Start(ts, lval, addr), k));
  }
}
