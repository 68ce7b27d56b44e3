/** The token rules of the text userbase: longest match, the first rule winning
    a tie, in the start condition that the last BEGIN chose. */
module TextLexerSpec {
  import opened Text
  import opened TextGrammar

  datatype Mode = Initial | Comment | InQuotes

  // -------------------------------------------------------- match lengths

  // How much of s a rule matches; 0 when it does not.

  function Lit(s: string, w: string): (n: nat)
    ensures n <= |s|
  {
    if w <= s then |w| else 0
  }

  function Run(s: string, f: char -> bool): (n: nat)
    ensures n <= |s| && (forall i :: 0 <= i < n ==> f(s[i])) && (n < |s| ==> !f(s[n]))
  {
    if s == "" || !f(s[0]) then 0 else 1 + Run(s[1..], f)
  }

  function IsDigit(): char -> bool { (c: char) => '0' <= c <= '9' }
  function IsSpace(): char -> bool { (c: char) => c == ' ' || c == '\t' }
  function NotQuote(): char -> bool { (c: char) => c != '"' }
  function NotNewline(): char -> bool { (c: char) => c != '\n' }
  function NotStarOrNewline(): char -> bool { (c: char) => c != '*' && c != '\n' }
  function IsStar(): char -> bool { (c: char) => c == '*' }
  function NotStarSlashNewline(): char -> bool { (c: char) => c != '*' && c != '/' && c != '\n' }

  // Digits and a suffix; the digits may be missing.
  function Suffixed(s: string, suffix: char): (n: nat)
    ensures n <= |s|
  {
    var n := Run(s, IsDigit());
    if n < |s| && s[n] == suffix then n + 1 else 0
  }

  // From the given start to the end of a line, which must be there.
  function ToLineEnd(s: string, start: string): (n: nat)
    ensures n <= |s|
  {
    var n := Run(s, NotNewline());
    if start <= s && n < |s| then n else 0
  }

  function AnyButNewline(s: string): nat { if s != "" && s[0] != '\n' then 1 else 0 }

  // The rules of the start condition INITIAL, in their order.
  function Lengths(s: string): (r: seq<nat>)
    ensures |r| == 18
    ensures forall i :: 0 <= i < 18 ==> r[i] <= |s|
    ensures s != "" ==> r[13] > 0 || r[17] > 0
  {
    [Lit(s, "/*"), Lit(s, "forward"), Lit(s, "address"), Lit(s, "password"), Lit(s, "quota"),
     Suffixed(s, 'k'), Suffixed(s, 'm'), Suffixed(s, 'g'), Run(s, IsDigit()),
     Lit(s, "\""), Lit(s, "{"), Lit(s, "}"), Lit(s, ";"), Lit(s, "\n"), Run(s, IsSpace()),
     ToLineEnd(s, "//"), ToLineEnd(s, "#"), AnyButNewline(s)]
  }

  // The first of the longest.
  function Pick(lens: seq<nat>): (i: nat)
    requires lens != []
    ensures i < |lens| && (forall j :: 0 <= j < |lens| ==> lens[j] <= lens[i]) && (forall j :: 0 <= j < i ==> lens[j] < lens[i])
  {
    if |lens| == 1 then 0
    else
      var i := Pick(lens[..|lens| - 1]);
      if lens[i] < lens[|lens| - 1] then |lens| - 1 else i
  }

  lemma {:induction false} PickIs(lens: seq<nat>, i: nat)
    requires i < |lens| && (forall j :: 0 <= j < |lens| ==> lens[j] <= lens[i]) && (forall j :: 0 <= j < i ==> lens[j] < lens[i])
    ensures Pick(lens) == i
  {
    var p := Pick(lens);
    assert lens[p] <= lens[i] && lens[i] <= lens[p];
  }

  // ---------------------------------------------------------------- actions

  function DigitValue(c: char): int { c as int - '0' as int }

  // atoi of a text that starts with digits.
  function Atoi(s: string): int { Value(s[..Run(s, IsDigit())]) }

  function Value(digits: string): int {
    if digits == "" then 0 else 10 * Value(digits[..|digits| - 1]) + DigitValue(digits[|digits| - 1])
  }

  // One match: the rest of the input, the new start condition, the token that
  // is returned, if any, and whether the input ends here.
  datatype Match = Match(rest: string, mode: Mode, token: seq<Token>, end: bool)

  function InitialMatch(s: string): (m: Match)
    requires s != ""
    ensures |m.rest| < |s| && |m.token| <= 1 && (m.end ==> m.token == [])
  {
    var rule := Pick(Lengths(s));
    var len := Lengths(s)[rule];
    var rest, text := s[len..], s[..len];
    match rule
    case 0 => Match(rest, Comment, [], false)
    case 1 => Match(rest, Initial, [FORWARD], false)
    case 2 => Match(rest, Initial, [ADDRESS], false)
    case 3 => Match(rest, Initial, [PASSWORD], false)
    case 4 => Match(rest, Initial, [QUOTA], false)
    case 5 => Match(rest, Initial, [Amount(1000 * Atoi(text))], false)
    case 6 => Match(rest, Initial, [Amount(1000000 * Atoi(text))], false)
    case 7 => Match(rest, Initial, [Amount(1000000000 * Atoi(text))], false)
    case 8 => Match(rest, Initial, [Amount(Atoi(text))], false)
    case 9 => Match(rest, InQuotes, [], false)
    case 10 => Match(rest, Initial, [OBRACE], false)
    case 11 => Match(rest, Initial, [EBRACE], false)
    case 12 => Match(rest, Initial, [SEMICOLON], false)
    case 17 => Match(rest, Initial, [], true)
    case _ => Match(rest, Initial, [], false)
  }

  function QuotedMatch(s: string): (m: Match)
    requires s != ""
    ensures |m.rest| < |s| && |m.token| <= 1 && (m.end ==> m.token == [])
  {
    var n := Run(s, NotQuote());
    if n > 0 then Match(s[n..], InQuotes, [Quoted(s[..n])], false) else Match(s[1..], Initial, [], false)
  }

  function CommentMatch(s: string): (m: Match)
    requires s != ""
    ensures |m.rest| < |s| && |m.token| <= 1 && (m.end ==> m.token == [])
  {
    var plain, stars := Run(s, NotStarOrNewline()), Run(s, IsStar());
    if plain > 0 then Match(s[plain..], Comment, [], false)
    else if stars == 0 then Match(s[1..], Comment, [], false) // a newline
    else if stars < |s| && s[stars] == '/' then Match(s[stars + 1..], Initial, [], false)
    else Match(s[stars + Run(s[stars..], NotStarSlashNewline())..], Comment, [], false)
  }

  function OneMatch(s: string, mode: Mode): (m: Match)
    requires s != ""
    ensures |m.rest| < |s| && |m.token| <= 1 && (m.end ==> m.token == [])
  {
    match mode
    case Initial => InitialMatch(s)
    case InQuotes => QuotedMatch(s)
    case Comment => CommentMatch(s)
  }

  // All tokens up to the end of the input.
  function Lex(s: string, mode: Mode): seq<Token>
    decreases |s|, 1
  {
    if s == "" then [] else LexOn(s, mode)
  }

  function LexOn(s: string, mode: Mode): seq<Token>
    requires s != ""
    decreases |s|, 0
  {
    var m := OneMatch(s, mode);
    m.token + if m.end then [] else Lex(m.rest, m.mode)
  }

  // --------------------------------------------------- printing a mailboxes file

  // Each function prints something in front of the text that follows it.

  function Quote(w: string, rest: string): string { "\"" + (w + ("\"" + rest)) }

  function End(rest: string): string { ";" + ("\n" + rest) }

  function PrintStatement(s: Statement, rest: string): string {
    var end := End(rest);
    match s
    case PasswordIs(word) => "password" + (" " + Quote(word, end))
    case ForwardIs(word) => "forward" + (" " + Quote(word, end))
    case QuotaIs(number) => "quota" + (" " + (Itoa(if number >= 0 then number / 1000 else 0) + ("k" + end)))
  }

  function PrintBody(ss: seq<Statement>, rest: string): string {
    if ss == [] then rest else PrintStatement(ss[0], PrintBody(ss[1..], rest))
  }

  function PrintDecl(d: Decl, rest: string): string {
    var body := PrintBody(d.statements, "}" + End(rest));
    "address" + (" " + Quote(d.name, " " + ("{" + ("\n" + body))))
  }

  function PrintFile(ds: seq<Decl>, rest: string): string {
    if ds == [] then rest else PrintDecl(ds[0], PrintFile(ds[1..], rest))
  }

  predicate PrintableWord(w: string) { w != "" && forall i | 0 <= i < |w| :: w[i] != '"' }

  predicate Printable(s: Statement) {
    match s
    case PasswordIs(word) => PrintableWord(word)
    case ForwardIs(word) => PrintableWord(word)
    case QuotaIs(number) => 0 <= number < 0x8000_0000 && number % 1000 == 0 // an int, in whole kilobytes
  }

  predicate PrintableDecl(d: Decl) {
    PrintableWord(d.name) && forall i | 0 <= i < |d.statements| :: Printable(d.statements[i])
  }

  // ------------------------------------------------------------- lexing it back

  lemma {:induction false} RunIs(s: string, f: char -> bool, n: nat)
    requires n <= |s| && (forall i :: 0 <= i < n ==> f(s[i])) && (n < |s| ==> !f(s[n]))
    ensures Run(s, f) == n
  {
  }

  // Which rules can match at all, from the first character.
  ghost predicate ByFirst(r: seq<nat>, c: char)
    requires |r| == 18
  {
    && (r[0] > 0 ==> c == '/') && (r[1] > 0 ==> c == 'f') && (r[2] > 0 ==> c == 'a')
    && (r[3] > 0 ==> c == 'p') && (r[4] > 0 ==> c == 'q')
    && (r[5] > 0 ==> IsDigit()(c) || c == 'k') && (r[6] > 0 ==> IsDigit()(c) || c == 'm')
    && (r[7] > 0 ==> IsDigit()(c) || c == 'g') && (r[8] > 0 ==> IsDigit()(c))
    && (r[9] > 0 ==> c == '"') && (r[10] > 0 ==> c == '{') && (r[11] > 0 ==> c == '}')
    && (r[12] > 0 ==> c == ';') && (r[13] > 0 ==> c == '\n') && (r[14] > 0 ==> IsSpace()(c))
    && (r[15] > 0 ==> c == '/') && (r[16] > 0 ==> c == '#') && r[17] <= 1
  }

  lemma {:induction false} LitFirst(s: string, w: string)
    requires s != "" && w != ""
    ensures Lit(s, w) > 0 ==> s[0] == w[0]
  {
  }

  lemma {:induction false} RunsFirst(s: string)
    requires s != ""
    ensures forall c :: Suffixed(s, c) > 0 ==> IsDigit()(s[0]) || s[0] == c
    ensures Run(s, IsDigit()) > 0 ==> IsDigit()(s[0])
    ensures Run(s, IsSpace()) > 0 ==> IsSpace()(s[0])
    ensures ToLineEnd(s, "//") > 0 ==> s[0] == '/'
    ensures ToLineEnd(s, "#") > 0 ==> s[0] == '#'
  {
  }

  lemma {:induction false} ByFirstCharacter(s: string)
    requires s != ""
    ensures ByFirst(Lengths(s), s[0])
  {
    RunsFirst(s);
    LitFirst(s, "/*");
    LitFirst(s, "forward");
    LitFirst(s, "address");
    LitFirst(s, "password");
    LitFirst(s, "quota");
    LitFirst(s, "\"");
    LitFirst(s, "{");
    LitFirst(s, "}");
    LitFirst(s, ";");
    LitFirst(s, "\n");
  }

  // The rule that wins, when the first character leaves no other but the last.
  lemma {:induction false} OnlyRule(s: string, i: nat, w: string)
    requires s != "" && i < 17 && w != "" && w <= s && Lengths(s)[i] == |w|
    requires forall j :: 0 <= j < 17 && j != i ==> Lengths(s)[j] == 0
    requires Lengths(s)[17] <= 1
    ensures Pick(Lengths(s)) == i && s[..|w|] == w
  {
    PickIs(Lengths(s), i);
  }

  predicate IsKeyword(w: string, i: nat, t: Token) {
    match i
    case 1 => w == "forward" && t == FORWARD
    case 2 => w == "address" && t == ADDRESS
    case 3 => w == "password" && t == PASSWORD
    case 4 => w == "quota" && t == QUOTA
    case _ => false
  }

  lemma {:induction false} LexKeyword(w: string, i: nat, t: Token, rest: string)
    requires IsKeyword(w, i, t)
    ensures Lex(w + rest, Initial) == [t] + Lex(rest, Initial)
  {
    var s := w + rest;
    assert s[0] == w[0] && w <= s && s[|w|..] == rest;
    ByFirstCharacter(s);
    OnlyRule(s, i, w);
    assert Lex(s, Initial) == LexOn(s, Initial);
  }

  lemma {:induction false} LexSign(c: char, i: nat, ts: seq<Token>, rest: string)
    requires match i
             case 10 => c == '{' && ts == [OBRACE]
             case 11 => c == '}' && ts == [EBRACE]
             case 12 => c == ';' && ts == [SEMICOLON]
             case 13 => c == '\n' && ts == []
             case _ => false
    ensures Lex([c] + rest, Initial) == ts + Lex(rest, Initial)
  {
    var s := [c] + rest;
    assert s[0] == c && s[1..] == rest;
    ByFirstCharacter(s);
    OnlyRule(s, i, [c]);
    assert Lex(s, Initial) == LexOn(s, Initial);
  }

  lemma {:induction false} LexSpace(rest: string)
    requires rest != "" && !IsSpace()(rest[0])
    ensures Lex(" " + rest, Initial) == Lex(rest, Initial)
  {
    var s := " " + rest;
    assert s[0] == ' ' && s[1..] == rest;
    ByFirstCharacter(s);
    RunIs(s, IsSpace(), 1);
    OnlyRule(s, 14, " ");
    assert Lex(s, Initial) == LexOn(s, Initial);
  }

  lemma {:induction false} LexOpenQuote(rest: string)
    ensures Lex("\"" + rest, Initial) == Lex(rest, InQuotes)
  {
    var s := "\"" + rest;
    assert s[0] == '"' && s[1..] == rest;
    ByFirstCharacter(s);
    OnlyRule(s, 9, "\"");
    assert Lex(s, Initial) == LexOn(s, Initial);
  }

  lemma {:induction false} LexCloseQuote(rest: string)
    ensures Lex("\"" + rest, InQuotes) == Lex(rest, Initial)
  {
    var s := "\"" + rest;
    RunIs(s, NotQuote(), 0);
    assert s[1..] == rest;
    assert Lex(s, InQuotes) == LexOn(s, InQuotes);
  }

  lemma {:induction false} LexInQuotes(w: string, rest: string)
    requires PrintableWord(w)
    ensures Lex(w + ("\"" + rest), InQuotes) == [Quoted(w)] + Lex("\"" + rest, InQuotes)
  {
    var s := w + ("\"" + rest);
    RunIs(s, NotQuote(), |w|);
    assert s[..|w|] == w && s[|w|..] == "\"" + rest;
    assert Lex(s, InQuotes) == LexOn(s, InQuotes);
  }

  lemma {:induction false} LexQuoted(w: string, rest: string)
    requires PrintableWord(w)
    ensures Lex(Quote(w, rest), Initial) == [Quoted(w)] + Lex(rest, Initial)
  {
    LexOpenQuote(w + ("\"" + rest));
    LexInQuotes(w, rest);
    LexCloseQuote(rest);
  }

  lemma {:induction false} ItoaDigits(n: nat)
    ensures Value(Itoa(n)) == n && forall i :: 0 <= i < |Itoa(n)| ==> IsDigit()(Itoa(n)[i])
  {
    if n >= 10 {
      ItoaDigits(n / 10);
      assert Itoa(n)[..|Itoa(n)| - 1] == Itoa(n / 10);
    } else {
      assert Itoa(n)[..0] == "";
    }
  }

  lemma {:induction false} PickAmount(s: string, n: nat)
    requires 0 < n < |s| && Run(s, IsDigit()) == n && s[n] == 'k'
    ensures Pick(Lengths(s)) == 5 && Lengths(s)[5] == n + 1
  {
    ByFirstCharacter(s);
    PickIs(Lengths(s), 5);
  }

  lemma {:induction false} LexAmount(n: nat, rest: string)
    ensures Lex(Itoa(n) + ("k" + rest), Initial) == [Amount(1000 * n)] + Lex(rest, Initial)
  {
    var d := Itoa(n);
    var s, text := d + ("k" + rest), d + "k";
    ItoaDigits(n);
    assert forall i :: 0 <= i < |d| ==> s[i] == d[i];
    assert s[|d|] == 'k' && text <= s && s[|text|..] == rest;
    RunIs(s, IsDigit(), |d|);
    PickAmount(s, |d|);
    assert s[..|text|] == text;
    RunIs(text, IsDigit(), |d|);
    assert text[..|d|] == d;
    assert Lex(s, Initial) == LexOn(s, Initial);
  }

  lemma {:induction false} LexEnd(rest: string)
    ensures Lex(End(rest), Initial) == [SEMICOLON] + Lex(rest, Initial)
  {
    LexSign('\n', 13, [], rest);
    LexSign(';', 12, [SEMICOLON], "\n" + rest);
    assert [] + Lex(rest, Initial) == Lex(rest, Initial);
  }

  lemma {:induction false} TwoTokens(a: Token, b: Token, rest: seq<Token>)
    ensures [a] + ([b] + rest) == [a, b] + rest
  {
  }

  lemma {:induction false} ThreeTokens(a: Token, b: Token, c: Token, rest: seq<Token>)
    ensures [a] + ([b] + ([c] + rest)) == [a, b, c] + rest
  {
  }

  lemma {:induction false} LexWordStatement(w: string, i: nat, t: Token, word: string, rest: string)
    requires IsKeyword(w, i, t) && PrintableWord(word)
    ensures Lex(w + (" " + Quote(word, End(rest))), Initial) == [t, Quoted(word), SEMICOLON] + Lex(rest, Initial)
  {
    var arg := Quote(word, End(rest));
    LexKeyword(w, i, t, " " + arg);
    LexSpace(arg);
    LexQuoted(word, End(rest));
    LexEnd(rest);
    ThreeTokens(t, Quoted(word), SEMICOLON, Lex(rest, Initial));
  }

  lemma {:induction false} LexQuotaStatement(w: string, n: nat, rest: string)
    requires IsKeyword(w, 4, QUOTA)
    ensures Lex(w + (" " + (Itoa(n) + ("k" + End(rest)))), Initial) ==
            [QUOTA, Amount(1000 * n), SEMICOLON] + Lex(rest, Initial)
  {
    var arg := Itoa(n) + ("k" + End(rest));
    LexKeyword(w, 4, QUOTA, " " + arg);
    ItoaDigits(n);
    assert arg[0] == Itoa(n)[0];
    LexSpace(arg);
    LexAmount(n, End(rest));
    LexEnd(rest);
    ThreeTokens(QUOTA, Amount(1000 * n), SEMICOLON, Lex(rest, Initial));
  }

  lemma {:induction false} LexStatement(s: Statement, rest: string)
    requires Printable(s)
    ensures Lex(PrintStatement(s, rest), Initial) == StatementTokens(s) + Lex(rest, Initial)
  {
    match s {
      case PasswordIs(word) => LexWordStatement("password", 3, PASSWORD, word, rest);
      case ForwardIs(word) => LexWordStatement("forward", 1, FORWARD, word, rest);
      case QuotaIs(number) => LexQuotaIs(number, rest);
    }
  }

  lemma {:induction false} LexQuotaIs(number: int, rest: string)
    requires Printable(QuotaIs(number))
    ensures Lex(PrintStatement(QuotaIs(number), rest), Initial) == [QUOTA, Amount(number), SEMICOLON] + Lex(rest, Initial)
  {
    assert 1000 * (number / 1000) == number;
    LexQuotaStatement("quota", number / 1000, rest);
  }

  lemma {:induction false} Join(a: seq<Token>, b: seq<Token>, c: seq<Token>)
    ensures a + (b + c) == a + b + c
  {
  }

  lemma {:induction false} LexBody(ss: seq<Statement>, rest: string)
    requires forall i :: 0 <= i < |ss| ==> Printable(ss[i])
    ensures Lex(PrintBody(ss, rest), Initial) == BodyTokens(ss) + Lex(rest, Initial)
    decreases |ss|
  {
    if ss != [] {
      LexStatement(ss[0], PrintBody(ss[1..], rest));
      LexBody(ss[1..], rest);
      Join(StatementTokens(ss[0]), BodyTokens(ss[1..]), Lex(rest, Initial));
    }
  }

  lemma {:induction false} LexOpenBrace(body: string)
    ensures Lex(" " + ("{" + ("\n" + body)), Initial) == [OBRACE] + Lex(body, Initial)
  {
    LexSpace("{" + ("\n" + body));
    LexSign('{', 10, [OBRACE], "\n" + body);
    LexSign('\n', 13, [], body);
    assert [] + Lex(body, Initial) == Lex(body, Initial);
  }

  lemma {:induction false} LexHead(w: string, name: string, body: string)
    requires IsKeyword(w, 2, ADDRESS) && PrintableWord(name)
    ensures Lex(w + (" " + Quote(name, " " + ("{" + ("\n" + body)))), Initial) ==
            [ADDRESS, Quoted(name), OBRACE] + Lex(body, Initial)
  {
    var open := "{" + ("\n" + body);
    LexKeyword(w, 2, ADDRESS, " " + Quote(name, " " + open));
    LexSpace(Quote(name, " " + open));
    LexQuoted(name, " " + open);
    LexOpenBrace(body);
    ThreeTokens(ADDRESS, Quoted(name), OBRACE, Lex(body, Initial));
  }

  lemma {:induction false} LexTail(rest: string)
    ensures Lex("}" + End(rest), Initial) == [EBRACE, SEMICOLON] + Lex(rest, Initial)
  {
    LexSign('}', 11, [EBRACE], End(rest));
    LexEnd(rest);
    TwoTokens(EBRACE, SEMICOLON, Lex(rest, Initial));
  }

  lemma {:induction false} Pieces(a: seq<Token>, b: seq<Token>, c: seq<Token>, rest: seq<Token>)
    ensures a + (b + (c + rest)) == a + b + c + rest
  {
  }

  lemma {:induction false} LexDecl(d: Decl, rest: string)
    requires PrintableDecl(d)
    ensures Lex(PrintDecl(d, rest), Initial) == DeclTokens(d) + Lex(rest, Initial)
  {
    var end := "}" + End(rest);
    LexHead("address", d.name, PrintBody(d.statements, end));
    LexBody(d.statements, end);
    LexTail(rest);
    Pieces([ADDRESS, Quoted(d.name), OBRACE], BodyTokens(d.statements), [EBRACE, SEMICOLON], Lex(rest, Initial));
  }

  lemma {:induction false} LexFile(ds: seq<Decl>, rest: string)
    requires forall i :: 0 <= i < |ds| ==> PrintableDecl(ds[i])
    ensures Lex(PrintFile(ds, rest), Initial) == FileTokens(ds) + Lex(rest, Initial)
    decreases |ds|
  {
    if ds != [] {
      LexDecl(ds[0], PrintFile(ds[1..], rest));
      LexFile(ds[1..], rest);
      Join(DeclTokens(ds[0]), FileTokens(ds[1..]), Lex(rest, Initial));
    }
  }

  // Printing a list of declarations, lexing the text and parsing the tokens
  // gives back the entries of the list.
  lemma {:induction false} PrintLexParse(ds: seq<Decl>)
    requires forall i :: 0 <= i < |ds| ==> PrintableDecl(ds[i])
    ensures Roots(Lex(PrintFile(ds, ""), Initial), BLANK, []) == Parsed(true, BLANK, Entries(ds))
  {
    LexFile(ds, "");
    assert FileTokens(ds) + [] == FileTokens(ds);
    FileMeansItsEntries(ds);
  }

  // ------------------------------------------------- where the scanner stops

  // What a match in INITIAL can start with.
  predicate Starts(s: string)
    requires s != ""
  {
    var c := s[0];
    || IsDigit()(c) || IsSpace()(c) || c == 'k' || c == 'm' || c == 'g'
    || c == '"' || c == '{' || c == '}' || c == ';' || c == '\n'
    || "/*" <= s || "forward" <= s || "address" <= s || "password" <= s || "quota" <= s
    || (("//" <= s || "#" <= s) && '\n' in s)
  }

  lemma {:induction false} LineEndIff(s: string, start: string)
    requires start != "" && start[0] != '\n'
    ensures ToLineEnd(s, start) > 0 <==> start <= s && '\n' in s
  {
    var n := Run(s, NotNewline());
    if start <= s && '\n' in s {
      var k :| 0 <= k < |s| && s[k] == '\n';
      assert s[0] == start[0];
    }
  }

  lemma {:induction false} SomeRuleIff(s: string)
    requires s != ""
    ensures (exists j :: 0 <= j < 17 && Lengths(s)[j] > 0) <==> Starts(s)
  {
    var r := Lengths(s);
    LineEndIff(s, "//");
    LineEndIff(s, "#");
    RunsFirst(s);
    ByFirstCharacter(s);
    if Starts(s) {
      var c := s[0];
      var j := if IsDigit()(c) then 8 else if IsSpace()(c) then 14 else if c == 'k' then 5 else if c == 'm' then 6
               else if c == 'g' then 7 else if c == '"' then 9 else if c == '{' then 10 else if c == '}' then 11
               else if c == ';' then 12 else if c == '\n' then 13 else if "/*" <= s then 0 else if "forward" <= s then 1
               else if "address" <= s then 2 else if "password" <= s then 3 else if "quota" <= s then 4
               else if "//" <= s then 15 else 16;
      assert r[j] > 0;
    }
  }

  // The scanner ends the input at a match in INITIAL exactly when none of
  // these begins there.
  lemma {:induction false} StopsIff(s: string)
    requires s != ""
    ensures InitialMatch(s).end <==> !Starts(s)
  {
    SomeRuleIff(s);
    var r := Lengths(s);
    ByFirstCharacter(s);
    if Starts(s) {
      var j :| 0 <= j < 17 && r[j] > 0;
      assert r[17] <= 1 <= r[j];
    } else {
      assert forall j :: 0 <= j < 17 ==> r[j] == 0;
      PickIs(r, 17);
    }
  }

  // A place where a match starts, and the start condition there.
  datatype Place = Place(rest: string, mode: Mode)

  function Places(s: string, mode: Mode): seq<Place>
    decreases |s|
  {
    if s == "" then []
    else var m := OneMatch(s, mode); [Place(s, mode)] + if m.end then [] else Places(m.rest, m.mode)
  }

  // What the scanner never reads: from the match that ends the input on.
  function Dropped(s: string, mode: Mode): string
    decreases |s|, 1
  {
    if s == "" then "" else DroppedOn(s, mode)
  }

  function DroppedOn(s: string, mode: Mode): string
    requires s != ""
    decreases |s|, 0
  {
    var m := OneMatch(s, mode);
    if m.end then s else Dropped(m.rest, m.mode)
  }

  ghost predicate Legal(p: Place) { p.mode.Initial? && p.rest != "" ==> Starts(p.rest) }

  // For every text: it is read to its end if and only if at every place where
  // a match starts in INITIAL one of the beginnings stands.
  lemma {:induction false} ReadToTheEndIff(s: string, mode: Mode)
    ensures Dropped(s, mode) == "" <==> forall k :: 0 <= k < |Places(s, mode)| ==> Legal(Places(s, mode)[k])
    decreases |s|
  {
    if s != "" {
      assert Dropped(s, mode) == DroppedOn(s, mode);
      var m, ps := OneMatch(s, mode), Places(s, mode);
      assert ps[0] == Place(s, mode);
      if mode.Initial? {
        StopsIff(s);
      } else {
        assert !m.end;
      }
      if !m.end {
        ReadToTheEndIff(m.rest, m.mode);
        var more := Places(m.rest, m.mode);
        assert forall k :: 0 <= k < |more| ==> ps[k + 1] == more[k];
        assert forall k :: 0 < k < |ps| ==> ps[k] == more[k - 1];
      }
    }
  }

  lemma {:induction false} NothingFromHere(s: string)
    requires s != "" && !Starts(s)
    ensures Lex(s, Initial) == [] && Dropped(s, Initial) == s
  {
    StopsIff(s);
    assert Lex(s, Initial) == LexOn(s, Initial) && Dropped(s, Initial) == DroppedOn(s, Initial);
  }

  // The end is silent: after any declarations, any text in which none of the
  // beginnings stands first is dropped, and the file is accepted.
  lemma {:induction false} StrayTextIsDropped(ds: seq<Decl>, rest: string)
    requires forall i :: 0 <= i < |ds| ==> PrintableDecl(ds[i])
    requires rest != "" && !Starts(rest)
    ensures Roots(Lex(PrintFile(ds, rest), Initial), BLANK, []) == Parsed(true, BLANK, Entries(ds))
  {
    LexFile(ds, rest);
    NothingFromHere(rest);
    assert FileTokens(ds) + [] == FileTokens(ds);
    FileMeansItsEntries(ds);
  }

  // Such texts: a stray character or a lone slash, ...
  lemma {:induction false} StraySigns(x: string)
    ensures !Starts("@" + x)
    ensures (x == "" || (x[0] != '*' && x[0] != '/')) ==> !Starts("/" + x)
  {
    var s := "/" + x;
    assert s[0] == '/' && ("@" + x)[0] == '@';
    if x != "" {
      assert s[1] == x[0];
    }
  }

  // ... a mistyped keyword, ...
  lemma {:induction false} StrayWord(x: string)
    ensures Starts("a" + x) <==> "ddress" <= x
  {
    var s := "a" + x;
    assert s[0] == 'a' && s[1..] == x;
    assert "address" == "a" + "ddress";
    if "ddress" <= x {
      assert s[..7] == "a" + x[..6];
    }
    if "address" <= s {
      assert s[..7][1..] == x[..6];
    }
  }

  // ... and a last line that is a comment without a newline.
  lemma {:induction false} StrayComment(x: string)
    requires '\n' !in x
    ensures !Starts("#" + x) && !Starts("//" + x)
  {
    assert ("#" + x)[0] == '#' && ("//" + x)[0] == '/' && ("//" + x)[1] == '/';
  }

  // ------------------------------------------------------- one call of yylex

  // Matches up to the first that returns a token, or to the end of the input;
  // the start condition stays what it is then.
  function ReadOne(s: string, mode: Mode): (r: (seq<Token>, string, Mode))
    ensures r.0 != [] ==> |r.1| < |s|
    decreases |s|, 1
  {
    if s == "" then ([], "", mode) else ReadOn(s, mode)
  }

  function ReadOn(s: string, mode: Mode): (r: (seq<Token>, string, Mode))
    requires s != ""
    ensures r.0 != [] ==> |r.1| < |s|
    decreases |s|, 0
  {
    var m := OneMatch(s, mode);
    if m.end then ([], m.rest, m.mode)
    else if m.token != [] then (m.token, m.rest, m.mode)
    else ReadOne(m.rest, m.mode)
  }

  lemma {:induction false} ReadOneIsLex(s: string, mode: Mode)
    ensures var (t, rest, mode1) := ReadOne(s, mode);
            |t| <= 1 && Lex(s, mode) == if t == [] then [] else t + Lex(rest, mode1)
    decreases |s|
  {
    if s != "" {
      var m := OneMatch(s, mode);
      assert Lex(s, mode) == LexOn(s, mode);
      assert ReadOne(s, mode) == ReadOn(s, mode);
      if !m.end && m.token == [] {
        ReadOneIsLex(m.rest, m.mode);
        assert [] + Lex(m.rest, m.mode) == Lex(m.rest, m.mode);
      }
    }
  }

  // The start condition outlives a parse that fails.  Left over inside a
  // quoted word, it makes a file be read as one more quoted word first; the
  // parse fails, and the start condition is the same again.
  lemma {:induction false} StuckInQuotes(s: string, addr: TextBaseEntry)
    requires s != "" && s[0] != '"'
    ensures !Roots(Lex(s, InQuotes), addr, []).ok && ReadOne(s, InQuotes).2 == InQuotes
    ensures ReadOne(s, InQuotes).0 != []
  {
    assert Lex(s, InQuotes) == LexOn(s, InQuotes);
    assert ReadOne(s, InQuotes) == ReadOn(s, InQuotes);
  }

  lemma {:induction false} CommentSwallows(s: string)
    requires '*' !in s
    ensures Lex(s, Comment) == []
    decreases |s|
  {
    if s != "" {
      assert Lex(s, Comment) == LexOn(s, Comment);
      var m := OneMatch(s, Comment);
      assert s[0] != '*' && m.mode == Comment && m.token == [] && !m.end;
      assert m.rest == s[|s| - |m.rest|..];
      CommentSwallows(m.rest);
    }
  }

  ghost predicate ReadsFiles(mode: Mode, addr: TextBaseEntry) {
    forall ds: seq<Decl> | (forall i :: 0 <= i < |ds| ==> PrintableDecl(ds[i])) ::
      var r := Roots(Lex(PrintFile(ds, ""), mode), addr, []); r.ok && r.called == Entries(ds)
  }

  const PROBE := Decl("a", [])

  lemma {:induction false} ProbeText()
    ensures PrintableDecl(PROBE)
    ensures var s := PrintFile([PROBE], ""); s != "" && s[0] == 'a' && '*' !in s
    ensures Entries([PROBE]) == [TextBaseEntry("a", "", 0, "")]
  {
    assert PrintFile([PROBE][1..], "") == "";
    var end := "}" + End("");
    assert PrintBody([], end) == end;
    assert '*' !in end;
    var open := " " + ("{" + ("\n" + end));
    assert '*' !in open;
    var arg := Quote("a", open);
    assert '*' !in arg;
    assert PrintFile([PROBE], "") == "address" + (" " + arg);
    assert [PROBE][1..] == [];
    assert Entries([PROBE]) == [EntryFrom(BLANK, PROBE)] + Entries([]);
  }

  // Exactly when does the userbase read every printed file right?  When the
  // scanner is not left over in a quoted word or a comment, and nothing but
  // perhaps the address is left over in the global entry.
  lemma {:induction false} ReadsFilesIffNothingIsLeftOver(mode: Mode, addr: TextBaseEntry)
    ensures ReadsFiles(mode, addr) <==> mode == Initial && addr.(address := "") == BLANK
  {
    if mode == Initial && addr.(address := "") == BLANK {
      forall ds: seq<Decl> | forall i :: 0 <= i < |ds| ==> PrintableDecl(ds[i])
        ensures var r := Roots(Lex(PrintFile(ds, ""), mode), addr, []); r.ok && r.called == Entries(ds)
      {
        LexFile(ds, "");
        assert FileTokens(ds) + [] == FileTokens(ds);
        FileReads(ds, addr, []);
        EntriesAreExactIffBlank(addr);
      }
    } else if ReadsFiles(mode, addr) {
      ProbeText();
      var ds := [PROBE];
      var s := PrintFile(ds, "");
      assert Roots(Lex(s, mode), addr, []).ok && Roots(Lex(s, mode), addr, []).called == Entries(ds);
      match mode {
        case InQuotes => StuckInQuotes(s, addr);
        case Comment => CommentSwallows(s);
        case Initial => ProbeShowsLeftovers(addr);
      }
    }
  }

  lemma {:induction false} ProbeShowsLeftovers(addr: TextBaseEntry)
    requires addr.(address := "") != BLANK
    ensures Roots(Lex(PrintFile([PROBE], ""), Initial), addr, []).called != Entries([PROBE])
  {
    ProbeText();
    LexFile([PROBE], "");
    assert FileTokens([PROBE]) + [] == FileTokens([PROBE]);
    FileReads([PROBE], addr, []);
    assert [PROBE][1..] == [];
    assert ([] + [EntryFrom(addr, PROBE)] + Entries([]))[0] == addr.(address := "a");
  }
}
