/** yyparse in the source's own form: one loop that pushes and pops the stacks
    of states and values, driven by the tables. */
module TextParser {
  import opened TextGrammar
  import opened TextTables
  import opened TextParserSpec
  import opened TextLexerSpec
  import TextLexer

  const YYINITDEPTH := 200
  const YYEMPTY := -2

  // Overflow is the answer to a full stack.
  datatype Verdict = Going | Accepted | ParseError | Overflow

  class Parser {
    // the global entry, and the calls of textCallback
    var addr: TextBaseEntry
    var called: seq<TextBaseEntry>
    // the stacks, and the index of their top
    const yyss: array<int>
    const yyvs: array<Value>
    var yyssp: nat
    // the scanner, and the lookahead
    const lexer: TextLexer.Lexer
    var yychar: int
    var yylval: Value
    ghost var ahead: seq<Token>

    constructor (lexer: TextLexer.Lexer, addr: TextBaseEntry)
      ensures this.lexer == lexer && this.addr == addr && called == []
      ensures fresh(yyss) && fresh(yyvs) && Shaped()
    {
      this.lexer, this.addr, called := lexer, addr, [];
      yyss, yyvs := new int[YYINITDEPTH], new Value[YYINITDEPTH](i => Unset);
      yyssp, yychar, yylval, ahead := 0, YYEMPTY, Unset, [];
    }

    ghost predicate Shaped() { yyss.Length == YYINITDEPTH && yyvs.Length == YYINITDEPTH && yyss != yyvs as object }

    // What was not shifted yet: the lookahead, and what the scanner would
    // return after it; nothing once it has returned the end of the input.
    ghost function Unshifted(): seq<Token>
      reads this, lexer
    {
      if yychar == 0 then [] else ahead + Lex(lexer.rest, lexer.mode)
    }

    ghost predicate Holds(m: Machine)
      reads this, lexer, yyss, yyvs
    {
      && Shaped() && yyssp < YYINITDEPTH
      && (yychar == YYEMPTY || yychar >= 0) && (if yychar > 0 then |ahead| == 1 else ahead == [])
      && yyss[..yyssp + 1] == m.ss && yyvs[..yyssp + 1] == m.vs
      && m.ts == Unshifted() && m.addr == addr && m.called == called
      && (yychar >= 0 ==> yychar == CodeOf(m.ts))
      && yylval == if yychar >= 0 then Lval(m.lval, m.ts) else m.lval
    }

    // YYLEX, unless there is a lookahead already.
    method Look(ghost m: Machine)
      requires Holds(m)
      modifies this`ahead, this`yychar, this`yylval, lexer
      ensures Holds(m) && yychar >= 0
    {
      if yychar == YYEMPTY {
        assert [] + Lex(lexer.rest, lexer.mode) == m.ts;
        var t := lexer.Yylex();
        SameHead(t, Lex(lexer.rest, lexer.mode), yylval);
        yylval := Lval(yylval, t);
        yychar := CodeOf(t);
        ahead := t;
      }
    }

    method Push(state: int, v: Value)
      requires Shaped() && yyssp + 1 < YYINITDEPTH
      modifies this`yyssp, yyss, yyvs
      ensures yyssp == old(yyssp) + 1
      ensures yyss[..yyssp + 1] == old(yyss[..yyssp + 1]) + [state]
      ensures yyvs[..yyssp + 1] == old(yyvs[..yyssp + 1]) + [v]
    {
      yyssp := yyssp + 1;
      yyss[yyssp] := state;
      yyvs[yyssp] := v;
    }

    method ShiftTo(state: int, ghost m: Machine)
      requires Holds(m) && yychar >= 0 && yyssp + 1 < YYINITDEPTH
      modifies this`ahead, this`yychar, this`yyssp, yyss, yyvs
      ensures Holds(Shifted(m, state))
    {
      if yychar != 0 {
        yychar := YYEMPTY;
        assert m.ts[1..] == [] + Lex(lexer.rest, lexer.mode);
        ahead := [];
      }
      Push(state, yylval);
    }

    // The semantic action of a rule.
    method Act(rule: int, ghost m: Machine)
      requires Holds(m) && Reducible(m, rule)
      modifies this`addr, this`called
      ensures Holds(Action(m, rule))
    {
      assert yyvs[yyssp] == m.vs[|m.vs| - 1];
      if rule == 4 {
        assert yyvs[yyssp - 3] == m.vs[|m.vs| - 4];
        addr := addr.(address := TextOf(yyvs[yyssp - 3]));
        called := called + [addr];
        addr := addr.(address := "", password := "", forward := "");
        addr := addr.(quotaKB := 0);
      } else if rule == 10 {
        addr := addr.(password := TextOf(yyvs[yyssp]));
      } else if rule == 11 {
        addr := addr.(forward := TextOf(yyvs[yyssp]));
      } else if rule == 12 {
        addr := addr.(quotaKB := Thousandth(NumberOf(yyvs[yyssp])));
      }
    }

    method ReduceBy(rule: int, ghost m: Machine)
      requires Holds(m) && Reducible(m, rule) && yyssp + 1 < YYINITDEPTH
      modifies this`addr, this`called, this`yyssp, yyss, yyvs
      ensures Holds(Reduced(m, rule))
    {
      Act(rule, m);
      Replace(rule, YYR2[rule], Action(m, rule));
    }

    method Replace(rule: int, len: nat, ghost m: Machine)
      requires Holds(m) && 1 <= rule <= 12 && len < |m.ss| == |m.vs| && yyssp + 1 < YYINITDEPTH
      modifies this`yyssp, yyss, yyvs
      ensures Holds(Replaced(m, rule, len))
    {
      var val := FirstValue(len, m);
      Pop(len, m.ss, m.vs);
      assert yyss[yyssp] == m.ss[|m.ss| - len - 1];
      Push(Goto(rule, yyss[yyssp]), val);
    }

    // yyvsp[1-yylen]
    method FirstValue(len: nat, ghost m: Machine) returns (val: Value)
      requires Holds(m) && len <= |m.vs|
      ensures val == if len == 0 then Unset else m.vs[|m.vs| - len]
    {
      val := if len == 0 then Unset else yyvs[yyssp + 1 - len];
      assert len > 0 ==> val == yyvs[..yyssp + 1][yyssp + 1 - len];
    }

    method Pop(len: nat, ghost ss: seq<int>, ghost vs: seq<Value>)
      requires Shaped() && len <= yyssp < YYINITDEPTH && yyss[..yyssp + 1] == ss && yyvs[..yyssp + 1] == vs
      modifies this`yyssp
      ensures yyssp == old(yyssp) - len
      ensures yyss[..yyssp + 1] == ss[..|ss| - len] && yyvs[..yyssp + 1] == vs[..|vs| - len]
    {
      yyssp := yyssp - len;
    }

    // From entering a state to the next push.
    method Turn(ghost m: Machine) returns (verdict: Verdict, ghost m1: Machine)
      requires Holds(m) && Reachable(m)
      modifies this, lexer, yyss, yyvs
      ensures verdict == Going ==> Holds(m1) && Reachable(m1) && Continue(m1) == Continue(m) && Progress(m, m1)
      ensures verdict != Overflow
      ensures verdict != Going ==> Continue(m) == Parsed(verdict == Accepted, addr, called)
    {
      verdict, m1 := Going, m;
      StacksAreShort(Top(m));
      var yystate := yyss[yyssp];
      assert yystate == Top(m);
      if yyssp >= YYINITDEPTH - 1 {
        return Overflow, m;
      }
      if YYPACT[yystate] != YYFLAG {
        Look(m);
      }
      EndSimulates(m);
      match Decide(yystate, if yychar >= 0 then yychar else 0) {
        case Accept => verdict := Accepted;
        case Fail => verdict := ParseError;
        case Shift(state) =>
          ShiftSimulates(m, state);
          ShiftTo(state, m);
          m1 := Shifted(m, state);
        case Reduce(rule) =>
          ReduceSimulates(m, rule);
          ReduceBy(rule, m);
          m1 := Reduced(m, rule);
      }
    }

    method Begin() returns (ghost m: Machine)
      requires Shaped()
      modifies this, yyss, yyvs
      ensures Holds(m) && m.ss == [0] && |m.vs| == 1 && m.ts == Lex(lexer.rest, lexer.mode) && m.called == []
      ensures addr == old(addr)
    {
      called := [];
      yychar, yyssp, ahead := YYEMPTY, 0, [];
      yyss[0], yyvs[0] := 0, Unset;
      ghost var tokens := Lex(lexer.rest, lexer.mode);
      assert [] + tokens == tokens;
      m := Machine([0], [Unset], tokens, yylval, addr, called);
    }

    // The parse accepts exactly the files of the grammar, calls back their
    // entries in order, and never fills the stack.
    method Yyparse() returns (verdict: Verdict)
      requires Shaped()
      modifies this, lexer, yyss, yyvs
      ensures verdict == Accepted || verdict == ParseError
      ensures Parsed(verdict == Accepted, addr, called) == Roots(old(Lex(lexer.rest, lexer.mode)), old(addr), [])
    {
      ghost var m := Begin();
      verdict := Going;
      while verdict == Going
        invariant verdict == Going ==> Holds(m) && Reachable(m) && Continue(m) == Roots(old(Lex(lexer.rest, lexer.mode)), old(addr), [])
        invariant verdict != Overflow
        invariant verdict != Going ==>
                    Parsed(verdict == Accepted, addr, called) == Roots(old(Lex(lexer.rest, lexer.mode)), old(addr), [])
        decreases verdict == Going, |m.ts|, if m.ss != [] then Rank(Top(m)) else 0
      {
        verdict, m := Turn(m);
      }
    }
  }
}
