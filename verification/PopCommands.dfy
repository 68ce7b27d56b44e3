/** What a line of a POP3 reader that names a message is answered. */
module PopCommands {
  import opened Text
  import opened Disk
  import opened ListingSpec
  import opened PopSpec

  function Uppercase(w: string): string { if w == "" then "" else [Upper(w[0])] + Uppercase(w[1..]) }

  lemma {:induction false} UppercaseIs(w: string)
    ensures |Uppercase(w)| == |w| && forall i :: 0 <= i < |w| ==> Uppercase(w)[i] == Upper(w[i])
  {
    if w != "" {
      UppercaseIs(w[1..]);
    }
  }

  // The commands that name a message.
  predicate Naming(w: string) { w == "RETR" || w == "LIST" || w == "UIDL" || w == "DELE" || w == "TOP" }

  lemma {:induction false} FirstWordIs(w: string, rest: string)
    requires ' ' !in w && (rest == "" || rest[0] == ' ')
    ensures FirstWordUC(w + rest) == Uppercase(w) + rest
  {
    if w == "" {
      assert w + rest == rest && Uppercase(w) + rest == rest;
    } else {
      assert (w + rest)[1..] == w[1..] + rest;
      FirstWordIs(w[1..], rest);
      assert [Upper(w[0])] + (Uppercase(w[1..]) + rest) == Uppercase(w) + rest;
    }
  }

  predicate OneLine(s: string) { forall i | 0 <= i < |s| :: s[i] != '\r' && s[i] != '\n' }

  predicate IsEnd(end: string) { end == "\r\n" || end == "\n" }

  lemma {:induction false} StripsEnd(s: string, end: string)
    requires OneLine(s) && IsEnd(end)
    ensures Strip(s + end) == s
  {
    if s == "" {
      assert s + end == end && (end[0] == '\r' || end[0] == '\n');
    } else {
      assert (s + end)[1..] == s[1..] + end;
      StripsEnd(s[1..], end);
    }
  }

  // The first word in upper case, and the rest of the line.
  lemma {:induction false} UpperLine(w: string, rest: string, end: string)
    requires IsWord(w) && IsEnd(end) && rest != "" && rest[0] == ' ' && OneLine(rest)
    ensures FirstWordUC(Strip(w + rest + end)) == Uppercase(w) + rest
    ensures IsWord(Uppercase(w)) && Tokens(Uppercase(w) + rest) == [Uppercase(w)] + Tokens(rest)
  {
    assert OneLine(w + rest);
    StripsEnd(w + rest, end);
    FirstWordIs(w, rest);
    UppercaseIs(w);
    TokensWordFirst(Uppercase(w), rest);
  }

  // A line that begins with one of these commands is taken as its words.
  lemma {:induction false} ParsesWords(w: string, rest: string, end: string)
    requires IsWord(w) && Naming(Uppercase(w)) && IsEnd(end)
    requires rest != "" && rest[0] == ' ' && OneLine(rest)
    ensures Parse(w + rest + end) == Rest([Uppercase(w)] + Tokens(rest))
  {
    UpperLine(w, rest, end);
    Keyword(Uppercase(w) + rest, Uppercase(w), rest);
  }

  lemma {:induction false} TokensBlank(rest: string)
    ensures Tokens(" " + rest) == Tokens(rest)
  {
    assert (" " + rest)[1..] == rest;
  }

  // The words of a line are found again, in any mixture of cases for the
  // first, and with either line end.
  lemma {:induction false} ParsesTwo(w: string, a: string, end: string)
    requires IsWord(w) && Naming(Uppercase(w)) && IsWord(a) && IsEnd(end)
    ensures Parse(w + " " + a + end) == Rest([Uppercase(w), a])
  {
    ParsesWords(w, " " + a, end);
    assert w + " " + a == w + (" " + a);
    TokensBlank(a);
    TokensSingle(a);
  }

  lemma {:induction false} ParsesThree(w: string, a: string, b: string, end: string)
    requires IsWord(w) && Naming(Uppercase(w)) && IsWord(a) && IsWord(b) && IsEnd(end)
    ensures Parse(w + " " + a + " " + b + end) == Rest([Uppercase(w), a, b])
  {
    var rest := a + (" " + b);
    assert OneLine(" " + rest);
    ParsesWords(w, " " + rest, end);
    assert w + " " + a + " " + b == w + (" " + rest);
    TokensBlank(rest);
    TokensWordFirst(a, " " + b);
    TokensBlank(b);
    TokensSingle(b);
  }

  lemma {:induction false} BareLine(w: string, end: string)
    requires IsWord(w) && IsEnd(end) && |w| == 4
    ensures FirstWordUC(Strip(w + end)) == Uppercase(w) && Tokens(Uppercase(w)) == [Uppercase(w)] && |Uppercase(w)| == 4
  {
    assert OneLine(w);
    StripsEnd(w, end);
    FirstWordIs(w, "");
    assert w + "" == w && Uppercase(w) + "" == Uppercase(w);
    UppercaseIs(w);
    TokensSingle(Uppercase(w));
  }

  lemma {:induction false} ParsesOne(w: string, end: string)
    requires IsWord(w) && (Uppercase(w) == "LIST" || Uppercase(w) == "UIDL" || Uppercase(w) == "STAT") && IsEnd(end)
    ensures Parse(w + end) == Rest([Uppercase(w)])
  {
    UppercaseIs(w);
    BareLine(w, end);
  }

  // No other command is read into such a line.
  lemma {:induction false} Keyword(line: string, w: string, rest: string)
    requires Naming(w) && line == w + rest && rest != "" && rest[0] == ' '
    ensures line != "NOOP" && line != "QUIT" && line != "RSET"
    ensures !("APOP " <= line) && !("USER " <= line) && !("PASS " <= line) && w != "CONTROL"
  {
    assert line[0] == w[0] && line[1] == w[1];
  }

  predicate IsLogin(w: string) { w == "USER" || w == "PASS" || w == "APOP" }

  // What follows the command and its blank.
  lemma {:induction false} AfterCommand(w: string, rest: string)
    requires IsLogin(w)
    ensures var line := w + (" " + rest);
            line[5..] == rest && w + " " <= line && line[0] == w[0] && line[2] == w[2]
  {
    assert w + (" " + rest) == (w + " ") + rest;
  }

  lemma {:induction false} LoginLine(w: string, rest: string, end: string)
    requires IsWord(w) && IsLogin(Uppercase(w)) && IsEnd(end) && OneLine(rest)
    ensures var line := Uppercase(w) + (" " + rest);
            && FirstWordUC(Strip(w + " " + rest + end)) == line && line[5..] == rest
            && Tokens(line) != [] && Tokens(line)[0] == Uppercase(w)
            && line[0] == Uppercase(w)[0] && line[2] == Uppercase(w)[2] && Uppercase(w) + " " <= line
  {
    UpperLine(w, " " + rest, end);
    assert w + " " + rest == w + (" " + rest);
    AfterCommand(Uppercase(w), rest);
  }

  // USER and PASS take the rest of the line, blanks and all; APOP a user and
  // the rest.
  lemma {:induction false} ParsesLogin(w: string, rest: string, end: string)
    requires IsWord(w) && IsEnd(end) && OneLine(rest)
    ensures Uppercase(w) == "USER" ==> Parse(w + " " + rest + end) == User(rest)
    ensures Uppercase(w) == "PASS" ==> Parse(w + " " + rest + end) == Pass(rest)
  {
    if Uppercase(w) == "USER" || Uppercase(w) == "PASS" {
      LoginLine(w, rest, end);
    }
  }

  lemma {:induction false} ParsesApop(w: string, user: string, digest: string, end: string)
    requires IsWord(w) && Uppercase(w) == "APOP" && IsEnd(end) && ' ' !in user && OneLine(user) && OneLine(digest)
    ensures Parse(w + " " + (user + " " + digest) + end) == Apop(user, digest)
  {
    var rest := user + " " + digest;
    LoginLine(w, rest, end);
    ApopParts(Uppercase(w) + (" " + rest), user, digest);
  }

  lemma {:induction false} ApopParts(line: string, user: string, digest: string)
    requires ' ' !in user && |line| >= 5 && line[5..] == user + " " + digest
    ensures UntilBlank(line[5..]) == user && |user| + 5 < |line| && line[|user| + 6..] == digest
  {
    assert line[5..] == user + (" " + digest);
    UntilBlankIs(user, " " + digest);
    assert line[|user| + 6..] == line[5..][|user| + 1..];
  }

  lemma {:induction false} UntilBlankIs(a: string, rest: string)
    requires ' ' !in a && rest != "" && rest[0] == ' '
    ensures UntilBlank(a + rest) == a
  {
    if a == "" {
      assert a + rest == rest;
    } else {
      assert (a + rest)[1..] == a[1..] + rest;
      UntilBlankIs(a[1..], rest);
    }
  }

  lemma {:induction false} ParsesWord(w: string, end: string)
    requires IsWord(w) && (Uppercase(w) == "QUIT" || Uppercase(w) == "RSET" || Uppercase(w) == "NOOP") && IsEnd(end)
    ensures Parse(w + end) == if Uppercase(w) == "QUIT" then Quit else if Uppercase(w) == "RSET" then Rset else Noop
  {
    UppercaseIs(w);
    BareLine(w, end);
  }

  // ------------------------------------------------------------- the answers

  // A session with its list.
  predicate Listed(s: Pop) { s.login && s.scanned }

  predicate Shown(s: Pop, n: nat) { 1 <= n <= |s.msgs| && !s.msgs[n - 1].deleted }

  function Line2(w: string, n: nat, end: string): string { w + " " + Itoa(n) + end }

  // RETR, LIST, UIDL and DELE with the number that LIST shows: the message
  // with this number, unless there is none, or it is marked; and nothing but
  // the mark of DELE changes.
  lemma {:induction false} NumberedAnswers(s: Pop, w: string, n: nat, end: string, e: PopEnv)
    requires Listed(s) && 1 <= n < 0x1_0000_0000 && IsWord(w) && IsEnd(end)
    ensures var (s1, reply) := Step(s, Line2(w, n, end), e);
            && (Uppercase(w) == "RETR" ==>
                  s1 == s && reply == if Shown(s, n) then Blast(s.msgs[n - 1].fname, s.msgs[n - 1].size, -1) else Err)
            && (Uppercase(w) == "LIST" ==>
                  s1 == s && reply == if Shown(s, n) then One(n, s.msgs[n - 1].size) else Err)
            && (Uppercase(w) == "UIDL" ==>
                  s1 == s && reply == if n <= |s.msgs| then OneName(n, s.msgs[n - 1].fname) else Err)
            && (Uppercase(w) == "TOP" ==>
                  s1 == s && reply == if Shown(s, n) then Blast(s.msgs[n - 1].fname, 0, -1) else Err)
            && (Uppercase(w) == "DELE" ==>
                  if Shown(s, n) then reply == Ok && s1 == s.(msgs := s.msgs[n - 1 := s.msgs[n - 1].(deleted := true)])
                  else reply == Err && s1 == s)
  {
    PrintedNumberMeansItsMessage(n);
    if Naming(Uppercase(w)) {
      ParsesTwo(w, Itoa(n), end);
    }
  }

  // TOP with a number of body lines.
  lemma {:induction false} TopAnswers(s: Pop, w: string, n: nat, k: nat, end: string, e: PopEnv)
    requires Listed(s) && 1 <= n < 0x1_0000_0000 && IsWord(w) && Uppercase(w) == "TOP" && IsEnd(end)
    ensures var (s1, reply) := Step(s, w + " " + Itoa(n) + " " + Itoa(k) + end, e);
            s1 == s && reply == if Shown(s, n) then Blast(s.msgs[n - 1].fname, 0, k) else Err
  {
    PrintedNumberMeansItsMessage(n);
    ParsesThree(w, Itoa(n), Itoa(k), end);
    ItoaThenDigits(k);
    assert Itoa(k)[0] != '-' && Itoa(k)[0] != '+';
  }

  // LIST, UIDL and STAT without a number.
  lemma {:induction false} ListAnswers(s: Pop, w: string, end: string, e: PopEnv)
    requires Listed(s) && IsWord(w) && IsEnd(end)
    requires Uppercase(w) == "LIST" || Uppercase(w) == "UIDL" || Uppercase(w) == "STAT"
    ensures var (s1, reply) := Step(s, w + end, e);
            && s1 == s
            && (Uppercase(w) == "LIST" ==> reply == Sizes(ListLines(s.msgs)))
            && (Uppercase(w) == "UIDL" ==> reply == Names(UidlLines(s.msgs)))
            && (Uppercase(w) == "STAT" ==> reply == Stat(|ListLines(s.msgs)|, Sum(ListLines(s.msgs))))
  {
    ParsesOne(w, end);
    BareAnswers(s, Uppercase(w), e.list1);
  }

  lemma {:induction false} BareAnswers(s: Pop, w: string, l: Listing)
    requires Listed(s)
    ensures w == "LIST" ==> RestCommands(s, [w], l) == (s, Sizes(ListLines(s.msgs)))
    ensures w == "UIDL" ==> RestCommands(s, [w], l) == (s, Names(UidlLines(s.msgs)))
    ensures w == "STAT" ==> RestCommands(s, [w], l) == (s, Stat(|ListLines(s.msgs)|, Sum(ListLines(s.msgs))))
  {
    StatIsListSummed(s.msgs);
  }

  // UIDL shows the names of the messages that LIST shows, under their numbers.
  lemma {:induction false} NamesOfUidl(msgs: seq<MsgDatum>)
    ensures var names, lines := UidlLines(msgs), ListLines(msgs);
            && |names| == |lines|
            && forall k :: 0 <= k < |names| ==> names[k].0 == lines[k].0 && 1 <= names[k].0 <= |msgs| && names[k].1 == msgs[names[k].0 - 1].fname
  {
    if msgs != [] {
      NamesOfUidl(msgs[..|msgs| - 1]);
    }
  }

  // From the listing in one session to the text in it: in every session with
  // its list, RETR n asks for the message that LIST shows as n, with the size
  // shown.
  lemma {:induction false} RetrievesWhatIsListed(ls: seq<Line>, k: nat, w: string, end: string, e: PopEnv)
    requires IsWord(w) && Uppercase(w) == "RETR" && IsEnd(end)
    requires Listed(Run(NOBODY, ls)) && k < |ListLines(Run(NOBODY, ls).msgs)| && |Run(NOBODY, ls).msgs| < 0x1_0000_0000
    ensures k < |UidlLines(Run(NOBODY, ls).msgs)|
    ensures var s := Run(NOBODY, ls);
            var (n, size) := ListLines(s.msgs)[k];
            var reply := Step(s, Line2(w, n, end), e).1;
            && reply == Blast(UidlLines(s.msgs)[k].1, size, -1)
            && Candidates(s.views, UidlLines(s.msgs)[k].1) != []
  {
    RunSound(NOBODY, ls);
    LineIsShown(Run(NOBODY, ls).msgs, k);
    NumberedAnswers(Run(NOBODY, ls), w, ListLines(Run(NOBODY, ls).msgs)[k].0, end, e);
  }

  lemma {:induction false} LineIsShown(msgs: seq<MsgDatum>, k: nat)
    requires k < |ListLines(msgs)|
    ensures var (n, size) := ListLines(msgs)[k];
            && 1 <= n <= |msgs| && !msgs[n - 1].deleted && msgs[n - 1].size == size
            && k < |UidlLines(msgs)| && UidlLines(msgs)[k] == (n, msgs[n - 1].fname)
  {
    LinesOfList(msgs);
    NamesOfUidl(msgs);
    assert LineOf(msgs, ListLines(msgs)[k]);
  }

  lemma {:induction false} RestNeverDies(s: Pop, args: seq<string>, l: Listing)
    ensures RestCommands(s, args, l).1 != Die
  {
  }

  // CONTROL stop ends the server, for a local reader only.
  lemma {:induction false} DiesOnlyLocally(s: Pop, line: string, e: PopEnv)
    ensures var c := Parse(line);
            Step(s, line, e).1 == Die <==> e.local && c.Control? && |c.args| >= 2 && c.args[1] == "stop"
  {
    match Parse(line) {
      case Control(args) => RestNeverDies(s, args, e.list1);
      case Rest(args) => RestNeverDies(s, args, e.list1);
      case Apop(user, digest) => RestNeverDies(Login(s, user, e).0, ["APOP"], e.list2);
      case Pass(_) => RestNeverDies(Login(s, s.user, e).0, ["PASS"], e.list2);
      case _ =>
    }
  }
}
