/** The tables of the generated parser, and what they say for every state that
    a parse can reach. */
module TextTables {

  const YYFINAL := 22
  const YYFLAG := -32768
  const YYNTBASE := 12
  const YYLAST := 13

  // The symbol a rule derives, and the length of its right-hand side.
  const YYR1 := [0, 12, 12, 13, 14, 15, 15, 16, 16, 16, 17, 18, 19]
  const YYR2 := [0, 0, 3, 1, 5, 0, 3, 1, 1, 1, 2, 2, 2]

  const YYDEFACT := [1, 0, 0, 0, 3, 0, 2, 5, 0, 0, 0, 0, 4, 0, 7, 9, 8, 11, 10, 12, 6, 0, 0]
  const YYDEFGOTO := [1, 3, 4, 8, 13, 14, 15, 16]
  const YYPACT := [-32768, 0, -3, -2, -32768, -1, -32768, -32768, -4, 3, 6, 8, -32768, 1,
                   -32768, -32768, -32768, -32768, -32768, -32768, -32768, 13, -32768]
  const YYPGOTO := [-32768, -32768, -32768, -32768, -32768, -32768, -32768, -32768]
  const YYTABLE := [21, 5, 9, 10, 11, 2, 12, 17, 7, 6, 18, 19, 20, 22]
  const YYCHECK := [0, 4, 6, 7, 8, 5, 10, 4, 9, 11, 4, 3, 11, 0]

  datatype Act = Shift(state: int) | Reduce(rule: int) | Accept | Fail

  type StateNo = s: int | 0 <= s <= 22

  // The code of a token inside the parser; 0 is the end of the input.
  type Code = c: int | c == 0 || 3 <= c <= 11

  function Default(s: StateNo): Act {
    if YYDEFACT[s] == 0 then Fail else Reduce(YYDEFACT[s])
  }

  // What the parser does in a state, the next token being known.
  function Decide(s: StateNo, c: Code): Act {
    if YYPACT[s] == YYFLAG then Default(s)
    else
      var n := YYPACT[s] + c;
      if n < 0 || n > YYLAST || YYCHECK[n] != c then Default(s)
      else
        var a := YYTABLE[n];
        if a < 0 then if a == YYFLAG then Fail else Reduce(-a)
        else if a == 0 then Fail
        else if a == YYFINAL then Accept
        else Shift(a)
  }

  // The state after a reduction, from the state below the right-hand side.
  function Goto(rule: int, below: int): int
    requires 1 <= rule <= 12
  {
    var n := YYPGOTO[YYR1[rule] - YYNTBASE] + below;
    if 0 <= n <= YYLAST && YYCHECK[n] == below then YYTABLE[n] else YYDEFGOTO[YYR1[rule] - YYNTBASE]
  }

  // The same as one table of the automaton: 0 to 6 and 21 read a file, 7 to 20
  // a declaration.
  function Automaton(s: StateNo, c: Code): Act {
    match s
    case 0 => Reduce(1)
    case 1 => if c == 0 then Shift(21) else if c == 5 then Shift(2) else Fail
    case 2 => if c == 4 then Shift(5) else Fail
    case 3 => if c == 11 then Shift(6) else Fail
    case 4 => Reduce(3)
    case 5 => if c == 9 then Shift(7) else Fail
    case 6 => Reduce(2)
    case 7 => Reduce(5)
    case 8 => if c == 6 then Shift(9) else if c == 7 then Shift(10) else if c == 8 then Shift(11) else if c == 10 then Shift(12) else Fail
    case 9 => if c == 4 then Shift(17) else Fail
    case 10 => if c == 4 then Shift(18) else Fail
    case 11 => if c == 3 then Shift(19) else Fail
    case 12 => Reduce(4)
    case 13 => if c == 11 then Shift(20) else Fail
    case 14 => Reduce(7)
    case 15 => Reduce(9)
    case 16 => Reduce(8)
    case 17 => Reduce(11)
    case 18 => Reduce(10)
    case 19 => Reduce(12)
    case 20 => Reduce(6)
    case 21 => if c == 0 then Accept else Fail
    case _ => Fail
  }

  lemma {:induction false} DecideForFile(s: StateNo, c: Code)
    requires s <= 7 || s >= 20
    ensures Decide(s, c) == Automaton(s, c)
  {
  }

  lemma {:induction false} DecideForStatements(s: StateNo, c: Code)
    requires 8 <= s <= 12
    ensures Decide(s, c) == Automaton(s, c)
  {
  }

  lemma {:induction false} DecideForEnds(s: StateNo, c: Code)
    requires 13 <= s <= 19
    ensures Decide(s, c) == Automaton(s, c)
  {
  }

  // The compressed tables mean the automaton.
  lemma {:induction false} DecideIsAutomaton(s: StateNo, c: Code)
    ensures Decide(s, c) == Automaton(s, c)
  {
    if s <= 7 || s >= 20 {
      DecideForFile(s, c);
    } else if s <= 12 {
      DecideForStatements(s, c);
    } else {
      DecideForEnds(s, c);
    }
  }

  lemma {:induction false} GotoIsByRule(rule: int, below: StateNo)
    requires 1 <= rule <= 12
    ensures Goto(rule, below) ==
            match rule
            case 1 => 1
            case 2 => 1
            case 3 => 3
            case 4 => 4
            case 5 => 8
            case 6 => 8
            case 7 => 13
            case 8 => 13
            case 9 => 13
            case 10 => 14
            case 11 => 15
            case _ => 16
  {
  }
}
