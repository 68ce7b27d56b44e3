/** The language of the text userbase: its grammar, what a file means, and a
    predictive recogniser that follows the grammar rule by rule. */
module TextGrammar {

  datatype Token =
    | Amount(number: int) | Quoted(word: string)
    | ADDRESS | FORWARD | PASSWORD | QUOTA | OBRACE | EBRACE | SEMICOLON

  datatype TextBaseEntry = TextBaseEntry(address: string, password: string, quotaKB: int, forward: string)

  const BLANK := TextBaseEntry("", "", 0, "")

  // ---------------------------------------------------------------- grammar

  datatype Statement = PasswordIs(word: string) | ForwardIs(word: string) | QuotaIs(number: int)

  datatype Decl = Decl(name: string, statements: seq<Statement>)

  function StatementTokens(s: Statement): seq<Token> {
    match s
    case PasswordIs(word) => [PASSWORD, Quoted(word), SEMICOLON]
    case ForwardIs(word) => [FORWARD, Quoted(word), SEMICOLON]
    case QuotaIs(number) => [QUOTA, Amount(number), SEMICOLON]
  }

  function BodyTokens(ss: seq<Statement>): seq<Token> {
    if ss == [] then [] else StatementTokens(ss[0]) + BodyTokens(ss[1..])
  }

  function DeclTokens(d: Decl): seq<Token> {
    [ADDRESS, Quoted(d.name), OBRACE] + BodyTokens(d.statements) + [EBRACE, SEMICOLON]
  }

  // The token sequences of the grammar are those of the lists of declarations.
  function FileTokens(ds: seq<Decl>): seq<Token> {
    if ds == [] then [] else DeclTokens(ds[0]) + FileTokens(ds[1..])
  }

  // --------------------------------------------------------------- meaning

  // Division of C: towards zero.
  function Thousandth(n: int): int { if n >= 0 then n / 1000 else -((-n) / 1000) }

  function Assign(e: TextBaseEntry, s: Statement): TextBaseEntry {
    match s
    case PasswordIs(word) => e.(password := word)
    case ForwardIs(word) => e.(forward := word)
    case QuotaIs(number) => e.(quotaKB := Thousandth(number))
  }

  function AssignAll(e: TextBaseEntry, ss: seq<Statement>): TextBaseEntry
    decreases |ss|
  {
    if ss == [] then e else AssignAll(Assign(e, ss[0]), ss[1..])
  }

  // The entry of a declaration whose statements start from e; the last
  // statement of a kind counts.
  function EntryFrom(e: TextBaseEntry, d: Decl): TextBaseEntry {
    AssignAll(e, d.statements).(address := d.name)
  }

  // The entries of a file: each declaration starts from a blank entry.
  function Entries(ds: seq<Decl>): seq<TextBaseEntry> {
    if ds == [] then [] else [EntryFrom(BLANK, ds[0])] + Entries(ds[1..])
  }

  // ------------------------------------------------- predictive recogniser

  // addr is what the global entry holds at the end, called are the arguments
  // of the calls of textCallback, in order.
  datatype Parsed = Parsed(ok: bool, addr: TextBaseEntry, called: seq<TextBaseEntry>)

  function Roots(ts: seq<Token>, addr: TextBaseEntry, called: seq<TextBaseEntry>): Parsed
    decreases |ts|
  {
    if ts == [] then Parsed(true, addr, called)
    else if ts[0].ADDRESS? then AfterAddress(ts[1..], addr, called)
    else Parsed(false, addr, called)
  }

  function AfterAddress(ts: seq<Token>, addr: TextBaseEntry, called: seq<TextBaseEntry>): Parsed
    decreases |ts|
  {
    if ts != [] && ts[0].Quoted? then AfterName(ts[1..], addr, called, ts[0].word) else Parsed(false, addr, called)
  }

  function AfterName(ts: seq<Token>, addr: TextBaseEntry, called: seq<TextBaseEntry>, name: string): Parsed
    decreases |ts|
  {
    if ts != [] && ts[0].OBRACE? then Body(ts[1..], addr, called, name) else Parsed(false, addr, called)
  }

  function Body(ts: seq<Token>, addr: TextBaseEntry, called: seq<TextBaseEntry>, name: string): Parsed
    decreases |ts|
  {
    if ts == [] then Parsed(false, addr, called)
    else
      match ts[0]
      case EBRACE => AfterDecl(ts[1..], BLANK, called + [addr.(address := name)])
      case PASSWORD => AfterPassword(ts[1..], addr, called, name)
      case FORWARD => AfterForward(ts[1..], addr, called, name)
      case QUOTA => AfterQuota(ts[1..], addr, called, name)
      case _ => Parsed(false, addr, called)
  }

  function AfterPassword(ts: seq<Token>, addr: TextBaseEntry, called: seq<TextBaseEntry>, name: string): Parsed
    decreases |ts|
  {
    if ts != [] && ts[0].Quoted? then AfterStatement(ts[1..], addr.(password := ts[0].word), called, name)
    else Parsed(false, addr, called)
  }

  function AfterForward(ts: seq<Token>, addr: TextBaseEntry, called: seq<TextBaseEntry>, name: string): Parsed
    decreases |ts|
  {
    if ts != [] && ts[0].Quoted? then AfterStatement(ts[1..], addr.(forward := ts[0].word), called, name)
    else Parsed(false, addr, called)
  }

  function AfterQuota(ts: seq<Token>, addr: TextBaseEntry, called: seq<TextBaseEntry>, name: string): Parsed
    decreases |ts|
  {
    if ts != [] && ts[0].Amount? then AfterStatement(ts[1..], addr.(quotaKB := Thousandth(ts[0].number)), called, name)
    else Parsed(false, addr, called)
  }

  function AfterStatement(ts: seq<Token>, addr: TextBaseEntry, called: seq<TextBaseEntry>, name: string): Parsed
    decreases |ts|
  {
    if ts != [] && ts[0].SEMICOLON? then Body(ts[1..], addr, called, name) else Parsed(false, addr, called)
  }

  function AfterDecl(ts: seq<Token>, addr: TextBaseEntry, called: seq<TextBaseEntry>): Parsed
    decreases |ts|
  {
    if ts != [] && ts[0].SEMICOLON? then Roots(ts[1..], addr, called) else Parsed(false, addr, called)
  }

  // ------------------------------ the recogniser accepts exactly the grammar

  lemma {:induction false} StatementReads(s: Statement, rest: seq<Token>, addr: TextBaseEntry, called: seq<TextBaseEntry>, name: string)
    ensures Body(StatementTokens(s) + rest, addr, called, name) == Body(rest, Assign(addr, s), called, name)
  {
    var ts := StatementTokens(s) + rest;
    assert ts[1..][1..] == [SEMICOLON] + rest && ts[1..][1..][1..] == rest;
    var end := AfterStatement(ts[1..][1..], Assign(addr, s), called, name);
    match s {
      case PasswordIs(word) => assert AfterPassword(ts[1..], addr, called, name) == end;
      case ForwardIs(word) => assert AfterForward(ts[1..], addr, called, name) == end;
      case QuotaIs(number) => assert AfterQuota(ts[1..], addr, called, name) == end;
    }
  }

  lemma {:induction false} BodyReads(ss: seq<Statement>, rest: seq<Token>, addr: TextBaseEntry, called: seq<TextBaseEntry>, name: string)
    ensures Body(BodyTokens(ss) + [EBRACE, SEMICOLON] + rest, addr, called, name) ==
            Roots(rest, BLANK, called + [AssignAll(addr, ss).(address := name)])
    decreases |ss|
  {
    var ts := BodyTokens(ss) + [EBRACE, SEMICOLON] + rest;
    if ss == [] {
      assert ts[1..] == [SEMICOLON] + rest && ts[1..][1..] == rest;
      assert AfterDecl(ts[1..], BLANK, called + [addr.(address := name)]) == Roots(rest, BLANK, called + [addr.(address := name)]);
    } else {
      var more := BodyTokens(ss[1..]) + [EBRACE, SEMICOLON] + rest;
      assert ts == StatementTokens(ss[0]) + more;
      StatementReads(ss[0], more, addr, called, name);
      BodyReads(ss[1..], rest, Assign(addr, ss[0]), called, name);
    }
  }

  lemma {:induction false} DeclReads(d: Decl, rest: seq<Token>, addr: TextBaseEntry, called: seq<TextBaseEntry>)
    ensures Roots(DeclTokens(d) + rest, addr, called) == Roots(rest, BLANK, called + [EntryFrom(addr, d)])
  {
    var ts := DeclTokens(d) + rest;
    var more := BodyTokens(d.statements) + [EBRACE, SEMICOLON] + rest;
    assert ts == [ADDRESS, Quoted(d.name), OBRACE] + more;
    assert ts[1..] == [Quoted(d.name), OBRACE] + more && ts[1..][1..] == [OBRACE] + more && ts[1..][1..][1..] == more;
    assert AfterAddress(ts[1..], addr, called) == AfterName(ts[1..][1..], addr, called, d.name) == Body(more, addr, called, d.name);
    BodyReads(d.statements, rest, addr, called, d.name);
  }

  // What a file of the grammar calls back: its entries in order, except that
  // the first starts from what the global entry held before.
  lemma {:induction false} FileReads(ds: seq<Decl>, addr: TextBaseEntry, called: seq<TextBaseEntry>)
    ensures Roots(FileTokens(ds), addr, called) ==
            if ds == [] then Parsed(true, addr, called)
            else Parsed(true, BLANK, called + [EntryFrom(addr, ds[0])] + Entries(ds[1..]))
    decreases |ds|
  {
    if ds != [] {
      DeclReads(ds[0], FileTokens(ds[1..]), addr, called);
      var called1 := called + [EntryFrom(addr, ds[0])];
      FileReads(ds[1..], BLANK, called1);
      if ds[1..] != [] {
        assert Entries(ds[1..]) == [EntryFrom(BLANK, ds[1])] + Entries(ds[2..]);
        assert ds[1..][1..] == ds[2..];
        assert called1 + [EntryFrom(BLANK, ds[1])] + Entries(ds[2..]) == called1 + Entries(ds[1..]);
      } else {
        assert called1 + [] == called1;
      }
    }
  }

  // With a blank global entry the calls are exactly the entries of the file.
  lemma {:induction false} FileMeansItsEntries(ds: seq<Decl>)
    ensures Roots(FileTokens(ds), BLANK, []) == Parsed(true, BLANK, Entries(ds))
  {
    FileReads(ds, BLANK, []);
    if ds != [] {
      assert [] + [EntryFrom(BLANK, ds[0])] + Entries(ds[1..]) == Entries(ds);
    }
  }

  // Exactly when does every file call back its entries?  When nothing but
  // perhaps the address is left over in the global entry, from an earlier
  // parse that failed.
  lemma {:induction false} EntriesAreExactIffBlank(addr: TextBaseEntry)
    ensures (forall ds: seq<Decl> :: Roots(FileTokens(ds), addr, []).called == Entries(ds)) <==> addr.(address := "") == BLANK
  {
    if addr.(address := "") == BLANK {
      forall ds: seq<Decl>
        ensures Roots(FileTokens(ds), addr, []).called == Entries(ds)
      {
        FileReads(ds, addr, []);
        if ds != [] {
          LeftoverAddress(addr, BLANK, ds[0].statements);
          assert [] + [EntryFrom(addr, ds[0])] + Entries(ds[1..]) == Entries(ds);
        }
      }
    } else {
      var d := Decl("a", []);
      FileReads([d], addr, []);
      assert Entries([d]) == [EntryFrom(BLANK, d)] + Entries([]);
      assert ([] + [EntryFrom(addr, d)] + Entries([d][1..]))[0] == addr.(address := "a");
      assert Roots(FileTokens([d]), addr, []).called != Entries([d]);
    }
  }

  lemma {:induction false} LeftoverAddress(a: TextBaseEntry, b: TextBaseEntry, ss: seq<Statement>)
    requires a.(address := "") == b.(address := "")
    ensures AssignAll(a, ss).(address := "") == AssignAll(b, ss).(address := "")
    decreases |ss|
  {
    if ss != [] {
      LeftoverAddress(Assign(a, ss[0]), Assign(b, ss[0]), ss[1..]);
    }
  }

  // Whatever is accepted is a file of the grammar.
  lemma {:induction false} AcceptedIsFile(ts: seq<Token>, addr: TextBaseEntry, called: seq<TextBaseEntry>) returns (ds: seq<Decl>)
    requires Roots(ts, addr, called).ok
    ensures ts == FileTokens(ds)
    decreases |ts|
  {
    if ts == [] {
      ds := [];
    } else {
      assert AfterAddress(ts[1..], addr, called).ok;
      var name := ts[1].word;
      assert AfterName(ts[1..][1..], addr, called, name).ok;
      assert ts[1..][1..][1..] == ts[3..];
      var ss, rest, addr1, called1 := AcceptedBody(ts[3..], addr, called, name);
      var more := AcceptedIsFile(rest, addr1, called1);
      var d := Decl(name, ss);
      ds := [d] + more;
      assert ds[1..] == more;
      assert ts == [ADDRESS, Quoted(name), OBRACE] + ts[3..];
      assert ts == DeclTokens(d) + rest;
    }
  }

  lemma {:induction false} AcceptedBody(ts: seq<Token>, addr: TextBaseEntry, called: seq<TextBaseEntry>, name: string)
    returns (ss: seq<Statement>, rest: seq<Token>, addr1: TextBaseEntry, called1: seq<TextBaseEntry>)
    requires Body(ts, addr, called, name).ok
    ensures ts == BodyTokens(ss) + [EBRACE, SEMICOLON] + rest
    ensures |rest| < |ts| && Roots(rest, addr1, called1).ok
    decreases |ts|
  {
    if ts[0].EBRACE? {
      assert AfterDecl(ts[1..], BLANK, called + [addr.(address := name)]).ok;
      ss, rest, addr1, called1 := [], ts[2..], BLANK, called + [addr.(address := name)];
      assert ts[1..][1..] == rest;
      assert ts == [EBRACE, SEMICOLON] + rest;
    } else {
      var s := AcceptedStatement(ts, addr, called, name);
      var more, rest1, a, c := AcceptedBody(ts[3..], Assign(addr, s), called, name);
      ss, rest, addr1, called1 := [s] + more, rest1, a, c;
      assert ss[1..] == more;
      assert ts == StatementTokens(s) + (BodyTokens(more) + [EBRACE, SEMICOLON] + rest);
    }
  }

  lemma {:induction false} AcceptedStatement(ts: seq<Token>, addr: TextBaseEntry, called: seq<TextBaseEntry>, name: string)
    returns (s: Statement)
    requires Body(ts, addr, called, name).ok && !ts[0].EBRACE?
    ensures |ts| >= 3 && ts == StatementTokens(s) + ts[3..] && Body(ts[3..], Assign(addr, s), called, name).ok
  {
    match ts[0] {
      case PASSWORD =>
        assert AfterPassword(ts[1..], addr, called, name).ok;
        s := PasswordIs(ts[1].word);
      case FORWARD =>
        assert AfterForward(ts[1..], addr, called, name).ok;
        s := ForwardIs(ts[1].word);
      case QUOTA =>
        assert AfterQuota(ts[1..], addr, called, name).ok;
        s := QuotaIs(ts[1].number);
    }
    assert AfterStatement(ts[1..][1..], Assign(addr, s), called, name).ok;
    assert ts[1..][1..][1..] == ts[3..];
  }

  ghost predicate IsFile(ts: seq<Token>) { exists ds :: ts == FileTokens(ds) }

  lemma {:induction false} AcceptsExactlyTheGrammar(ts: seq<Token>, addr: TextBaseEntry)
    ensures Roots(ts, addr, []).ok <==> IsFile(ts)
  {
    if Roots(ts, addr, []).ok {
      var ds := AcceptedIsFile(ts, addr, []);
    }
    if IsFile(ts) {
      var ds :| ts == FileTokens(ds);
      FileReads(ds, addr, []);
    }
  }
}
