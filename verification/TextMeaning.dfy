/** What stands in a userbase file means what it says: entries, amounts and
    comments. */
module TextMeaning {
  import opened Text
  import opened TextGrammar
  import opened TextLexerSpec

  // ---------------------------------------------------------------- entries

  // The word of the last statement of a kind, or nothing.
  function PasswordOf(ss: seq<Statement>): string {
    if ss == [] then ""
    else if ss[|ss| - 1].PasswordIs? then ss[|ss| - 1].word
    else PasswordOf(ss[..|ss| - 1])
  }

  function ForwardOf(ss: seq<Statement>): string {
    if ss == [] then ""
    else if ss[|ss| - 1].ForwardIs? then ss[|ss| - 1].word
    else ForwardOf(ss[..|ss| - 1])
  }

  function QuotaOf(ss: seq<Statement>): int {
    if ss == [] then 0
    else if ss[|ss| - 1].QuotaIs? then ss[|ss| - 1].number
    else QuotaOf(ss[..|ss| - 1])
  }

  // Whole thousands, towards zero.
  ghost predicate Thousands(n: int, k: int) {
    if n >= 0 then 1000 * k <= n < 1000 * (k + 1) else 1000 * (k - 1) < n <= 1000 * k
  }

  lemma {:induction false} AssignLast(e: TextBaseEntry, ss: seq<Statement>)
    requires ss != []
    ensures AssignAll(e, ss) == Assign(AssignAll(e, ss[..|ss| - 1]), ss[|ss| - 1])
    decreases |ss|
  {
    if |ss| > 1 {
      AssignLast(Assign(e, ss[0]), ss[1..]);
      assert ss[1..][..|ss| - 2] == ss[..|ss| - 1][1..];
    }
  }

  // The entry of a declaration: its name, and of each kind of statement what
  // the last one says; the quota in whole thousands.
  lemma {:induction false} EntrySays(d: Decl)
    ensures var e := EntryFrom(BLANK, d);
            && e.address == d.name && e.password == PasswordOf(d.statements) && e.forward == ForwardOf(d.statements)
            && Thousands(QuotaOf(d.statements), e.quotaKB)
  {
    AssignedSay(d.statements);
  }

  lemma {:induction false} AssignedSay(ss: seq<Statement>)
    ensures var e := AssignAll(BLANK, ss);
            e.password == PasswordOf(ss) && e.forward == ForwardOf(ss) && Thousands(QuotaOf(ss), e.quotaKB)
  {
    if ss != [] {
      AssignLast(BLANK, ss);
      AssignedSay(ss[..|ss| - 1]);
    }
  }

  // Every accepted file calls back one entry for each declaration, in order.
  lemma {:induction false} FileSays(ds: seq<Decl>, i: nat)
    requires i < |ds|
    ensures var p := Roots(FileTokens(ds), BLANK, []);
            && p.ok && |p.called| == |ds| && p.called[i].address == ds[i].name
            && p.called[i].password == PasswordOf(ds[i].statements) && p.called[i].forward == ForwardOf(ds[i].statements)
            && Thousands(QuotaOf(ds[i].statements), p.called[i].quotaKB)
  {
    FileMeansItsEntries(ds);
    EntryAt(ds, i);
    EntrySays(ds[i]);
  }

  lemma {:induction false} EntryAt(ds: seq<Decl>, i: nat)
    requires i < |ds|
    ensures |Entries(ds)| == |ds| && Entries(ds)[i] == EntryFrom(BLANK, ds[i])
  {
    EntryCount(ds);
    if i > 0 {
      EntryAt(ds[1..], i - 1);
    }
  }

  lemma {:induction false} EntryCount(ds: seq<Decl>)
    ensures |Entries(ds)| == |ds|
  {
    if ds != [] {
      EntryCount(ds[1..]);
    }
  }

  // ---------------------------------------------------------------- amounts

  predicate AllDigits(s: string) { forall i | 0 <= i < |s| :: IsDigit()(s[i]) }

  // Kilo, mega and giga are powers of ten.
  function Factor(unit: char): nat
    requires unit == 'k' || unit == 'm' || unit == 'g'
  {
    if unit == 'k' then 1000 else if unit == 'm' then 1000000 else 1000000000
  }

  function RuleOf(unit: char): nat
    requires unit == 'k' || unit == 'm' || unit == 'g'
  {
    if unit == 'k' then 5 else if unit == 'm' then 6 else 7
  }

  lemma {:induction false} PickUnit(s: string, n: nat, unit: char)
    requires n < |s| && Run(s, IsDigit()) == n && s[n] == unit && (unit == 'k' || unit == 'm' || unit == 'g')
    ensures Pick(Lengths(s)) == RuleOf(unit) && Lengths(s)[RuleOf(unit)] == n + 1
  {
    ByFirstCharacter(s);
    PickIs(Lengths(s), RuleOf(unit));
  }

  // Digits, which may be missing, and a unit.
  lemma {:induction false} AmountInUnits(digits: string, unit: char, rest: string)
    requires AllDigits(digits) && (unit == 'k' || unit == 'm' || unit == 'g')
    ensures Lex(digits + ([unit] + rest), Initial) == [Amount(Factor(unit) * Value(digits))] + Lex(rest, Initial)
  {
    var s, text := digits + ([unit] + rest), digits + [unit];
    assert forall i :: 0 <= i < |digits| ==> s[i] == digits[i];
    assert s[|digits|] == unit && text <= s && s[|text|..] == rest && s[..|text|] == text;
    RunIs(s, IsDigit(), |digits|);
    PickUnit(s, |digits|, unit);
    RunIs(text, IsDigit(), |digits|);
    assert text[..|digits|] == digits;
    assert Lex(s, Initial) == LexOn(s, Initial);
  }

  lemma {:induction false} PickPlain(s: string, n: nat)
    requires 0 < n <= |s| && Run(s, IsDigit()) == n && (n < |s| ==> s[n] != 'k' && s[n] != 'm' && s[n] != 'g')
    ensures Pick(Lengths(s)) == 8 && Lengths(s)[8] == n
  {
    ByFirstCharacter(s);
    PickIs(Lengths(s), 8);
  }

  // Digits alone, when neither a digit nor a unit follows.
  lemma {:induction false} PlainAmount(digits: string, rest: string)
    requires AllDigits(digits) && digits != ""
    requires rest != "" ==> !IsDigit()(rest[0]) && rest[0] != 'k' && rest[0] != 'm' && rest[0] != 'g'
    ensures Lex(digits + rest, Initial) == [Amount(Value(digits))] + Lex(rest, Initial)
  {
    var s := digits + rest;
    assert forall i :: 0 <= i < |digits| ==> s[i] == digits[i];
    assert rest != "" ==> s[|digits|] == rest[0];
    assert s[|digits|..] == rest && s[..|digits|] == digits;
    RunIs(s, IsDigit(), |digits|);
    PickPlain(s, |digits|);
    RunIs(digits, IsDigit(), |digits|);
    assert digits[..|digits|] == digits;
    assert Lex(s, Initial) == LexOn(s, Initial);
  }

  // What the digits are worth is what Itoa writes.
  lemma {:induction false} WrittenAmount(n: nat, unit: char, rest: string)
    requires unit == 'k' || unit == 'm' || unit == 'g'
    ensures Lex(Itoa(n) + ([unit] + rest), Initial) == [Amount(Factor(unit) * n)] + Lex(rest, Initial)
  {
    ItoaDigits(n);
    AmountInUnits(Itoa(n), unit, rest);
  }

  // --------------------------------------------------- comments and blanks

  lemma {:induction false} BlanksAreSkipped(blanks: string, rest: string)
    requires blanks != "" && forall i :: 0 <= i < |blanks| ==> blanks[i] == ' ' || blanks[i] == '\t'
    requires rest != "" ==> rest[0] != ' ' && rest[0] != '\t'
    ensures Lex(blanks + rest, Initial) == Lex(rest, Initial)
  {
    var s := blanks + rest;
    assert forall i :: 0 <= i < |blanks| ==> s[i] == blanks[i];
    assert rest != "" ==> s[|blanks|] == rest[0];
    assert s[|blanks|..] == rest && blanks <= s;
    RunIs(s, IsSpace(), |blanks|);
    ByFirstCharacter(s);
    OnlyRule(s, 14, blanks);
    assert Lex(s, Initial) == LexOn(s, Initial);
  }

  // The first "*/" of u and "*/" is the one at the end.
  predicate NoEndIn(u: string) {
    forall i | 0 <= i < |u| :: !((u + "*/")[i] == '*' && (u + "*/")[i + 1] == '/')
  }

  lemma {:induction false} NoEndLater(u: string, k: nat)
    requires NoEndIn(u) && k <= |u|
    ensures NoEndIn(u[k..])
  {
    var v := u[k..];
    assert v + "*/" == (u + "*/")[k..];
    forall i | 0 <= i < |v|
      ensures !((v + "*/")[i] == '*' && (v + "*/")[i + 1] == '/')
    {
      assert (v + "*/")[i] == (u + "*/")[k + i] && (v + "*/")[i + 1] == (u + "*/")[k + i + 1];
    }
  }

  // One match inside a comment: it goes on behind it, or the comment ends.
  lemma {:induction false} CommentStep(u: string, rest: string) returns (k: nat)
    requires NoEndIn(u)
    ensures var s := u + ("*/" + rest);
            if k == 0 then CommentMatch(s) == Match(rest, Initial, [], false)
            else k <= |u| && CommentMatch(s) == Match(s[k..], Comment, [], false)
  {
    var s := u + ("*/" + rest);
    assert s[|u|] == '*' && s[|u| + 1] == '/' && s[|u| + 2..] == rest;
    assert forall i :: 0 <= i < |u| + 2 ==> s[i] == (u + "*/")[i];
    var plain, stars := Run(s, NotStarOrNewline()), Run(s, IsStar());
    assert !NotStarOrNewline()(s[|u|]);
    if plain > 0 {
      k := plain;
    } else if stars == 0 {
      k := 1;
    } else if stars < |s| && s[stars] == '/' {
      assert s[stars - 1] == '*';
      assert stars - 1 == |u|;
      k := 0;
    } else {
      assert stars <= |u|;
      var t := s[stars..];
      assert t[|u| - stars] == '*';
      k := stars + Run(t, NotStarSlashNewline());
    }
  }

  lemma {:induction false} LexOneMatch(s: string, to: Match)
    requires s != "" && CommentMatch(s) == to && to.token == [] && !to.end
    ensures Lex(s, Comment) == Lex(to.rest, to.mode)
  {
    assert Lex(s, Comment) == LexOn(s, Comment);
  }

  lemma {:induction false} InsideComment(u: string, rest: string)
    requires NoEndIn(u)
    ensures Lex(u + ("*/" + rest), Comment) == Lex(rest, Initial)
    decreases |u|
  {
    var s := u + ("*/" + rest);
    var k := CommentStep(u, rest);
    if k > 0 {
      LexOneMatch(s, Match(s[k..], Comment, [], false));
      Later(u, "*/" + rest, k);
      NoEndLater(u, k);
      InsideComment(u[k..], rest);
    } else {
      LexOneMatch(s, Match(rest, Initial, [], false));
    }
  }

  lemma {:induction false} Later(u: string, tail: string, k: nat)
    requires k <= |u|
    ensures (u + tail)[k..] == u[k..] + tail
  {
  }

  // A comment is skipped, up to the first "*/".
  lemma {:induction false} CommentIsSkipped(u: string, rest: string)
    requires NoEndIn(u)
    ensures Lex("/*" + (u + ("*/" + rest)), Initial) == Lex(rest, Initial)
  {
    var inside := u + ("*/" + rest);
    var s := "/*" + inside;
    assert s[0] == '/' && s[1] == '*' && "/*" <= s && s[2..] == inside;
    ByFirstCharacter(s);
    assert !("//" <= s);
    OnlyRule(s, 0, "/*");
    assert Lex(s, Initial) == LexOn(s, Initial);
    InsideComment(u, rest);
  }

  lemma {:induction false} PickLineComment(s: string, start: string, text: string)
    requires (start == "//" || start == "#") && start <= text <= s && |text| < |s|
    requires Run(s, NotNewline()) == |text|
    ensures var rule := if start == "//" then 15 else 16;
            Pick(Lengths(s)) == rule && Lengths(s)[rule] == |text|
  {
    assert s[0] == start[0] && start <= s && (start == "//" ==> s[1] == '/');
    ByFirstCharacter(s);
    PickIs(Lengths(s), if start == "//" then 15 else 16);
  }

  lemma {:induction false} NoNewlineIn(start: string, u: string, tail: string)
    requires (start == "//" || start == "#") && '\n' !in u && tail != "" && tail[0] == '\n'
    ensures Run(start + u + tail, NotNewline()) == |start + u|
  {
    var s, n := start + u + tail, |start + u|;
    forall i | 0 <= i < n
      ensures s[i] != '\n'
    {
      assert i >= |start| ==> s[i] == u[i - |start|];
    }
    assert s[n] == tail[0];
    RunIs(s, NotNewline(), n);
  }

  lemma {:induction false} CommentMatches(s: string, start: string, text: string, tail: string)
    requires (start == "//" || start == "#") && start <= text && s == text + tail && tail != ""
    requires Run(s, NotNewline()) == |text|
    ensures InitialMatch(s) == Match(tail, Initial, [], false)
  {
    PickLineComment(s, start, text);
    assert s[|text|..] == tail;
  }

  lemma {:induction false} LexSkips(s: string, tail: string)
    requires s != "" && InitialMatch(s) == Match(tail, Initial, [], false)
    ensures Lex(s, Initial) == Lex(tail, Initial)
  {
    assert Lex(s, Initial) == LexOn(s, Initial);
  }

  // So is a comment to the end of its line.
  lemma {:induction false} LineCommentIsSkipped(start: string, u: string, rest: string)
    requires (start == "//" || start == "#") && '\n' !in u
    ensures Lex(start + u + ("\n" + rest), Initial) == Lex(rest, Initial)
  {
    var tail := "\n" + rest;
    NoNewlineIn(start, u, tail);
    CommentMatches(start + u + tail, start, start + u, tail);
    LexSkips(start + u + tail, tail);
    LexSign('\n', 13, [], rest);
    assert [] + Lex(rest, Initial) == Lex(rest, Initial);
  }
}
