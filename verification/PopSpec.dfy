/** The POP3 session: commands, the message list, and its numbers. */
module PopSpec {
  import opened Text
  import opened Disk
  import opened DeliverySpec
  import opened ListingSpec

  datatype MsgDatum = MsgDatum(fname: string, size: nat, deleted: bool)

  // What the userbase says of one address: Broken is an error of the userbase.
  datatype Account = Broken | Unknown | Known(canonical: string, pwcorrect: bool)

  // One attempt to list the mailbox: the backends, and whose listing fails.
  datatype Listing = Listing(sites: seq<Site>, fails: nat -> bool)

  // What one line meets: two attempts at the listing at most; and, for QUIT,
  // the backends with what each delete meets on each of them.
  datatype PopEnv = PopEnv(local: bool, first: Account, second: Account, list1: Listing, list2: Listing,
                           sites: seq<Site>, wires: nat -> nat -> Wire, envs: nat -> nat -> Env)

  // mbox and views are those of the reading MegaTalker.
  datatype Pop = Pop(user: string, login: bool, scanned: bool, msgs: seq<MsgDatum>, mbox: string, views: seq<View>)

  const NOBODY := Pop("", false, false, [], "", [])

  // Lines is a list of message numbers, counted from 1, with a payload.
  // Blast is the text of a message, which is written as it is fetched; Bye
  // carries what the deletes leave on the backends and in the failure log.
  datatype Reply =
    | Ok | Err | NotImplemented
    | Stat(num: nat, tot: nat)
    | One(n: nat, size: nat) | OneName(n: nat, fname: string)
    | Sizes(lines: seq<(nat, nat)>) | Names(ids: seq<(nat, string)>)
    | Blast(fname: string, size: nat, limit: int)
    | Bye(sites: seq<Site>, log: seq<(string, nat)>)
    | Die

  // ------------------------------------------------------------ the command

  datatype Cmd =
    | Noop | Quit | Rset | Control(args: seq<string>)
    | Apop(user: string, digest: string) | User(name: string) | Pass(password: string)
    | Rest(args: seq<string>)

  function Upper(c: char): char { if 'a' <= c <= 'z' then c - 'a' + 'A' else c }

  // firstWordUC: up to the first blank.
  function FirstWordUC(line: string): string {
    if line == "" || line[0] == ' ' then line else [Upper(line[0])] + FirstWordUC(line[1..])
  }

  function UntilBlank(s: string): (r: string)
    ensures r <= s
  {
    if s == "" || s[0] == ' ' then "" else [s[0]] + UntilBlank(s[1..])
  }

  function Parse(raw: string): Cmd {
    var line := FirstWordUC(Strip(raw));
    var args := Tokens(line);
    if args != [] && args[0] == "CONTROL" then Control(args)
    else if line == "NOOP" then Noop
    else if line == "QUIT" then Quit
    else if line == "RSET" then Rset
    else if "APOP " <= line then
      var user := UntilBlank(line[5..]);
      Apop(user, if |user| + 5 == |line| then line else line[|user| + 6..])
    else if "USER " <= line then User(line[5..])
    else if "PASS " <= line then Pass(line[5..])
    else Rest(args)
  }

  // atoi of a word: a sign, and digits as far as they go.
  function Digits(s: string, acc: int): int
    decreases |s|
  {
    if s == "" || !('0' <= s[0] <= '9') then acc else Digits(s[1..], 10 * acc + (s[0] as int - '0' as int))
  }

  function Atoi(s: string): int {
    if s == "" then 0
    else if s[0] == '-' then -Digits(s[1..], 0)
    else if s[0] == '+' then Digits(s[1..], 0)
    else Digits(s, 0)
  }

  // unsigned int num=atoi(..)-1.
  function Number(arg: string): nat { (Atoi(arg) - 1) % 0x1_0000_0000 }

  predicate AllDigits(s: string) { forall i | 0 <= i < |s| :: '0' <= s[i] <= '9' }

  lemma {:induction false} DigitsAppend(a: string, b: string, acc: int)
    requires AllDigits(a)
    ensures Digits(a + b, acc) == Digits(b, Digits(a, acc))
    decreases |a|
  {
    if a == "" {
      assert a + b == b;
    } else {
      assert (a + b)[1..] == a[1..] + b;
      DigitsAppend(a[1..], b, 10 * acc + (a[0] as int - '0' as int));
    }
  }

  lemma {:induction false} ItoaThenDigits(n: nat)
    ensures AllDigits(Itoa(n)) && Digits(Itoa(n), 0) == n
  {
    if n >= 10 {
      ItoaThenDigits(n / 10);
      DigitsAppend(Itoa(n / 10), [Digit(n % 10)], 0);
      assert [Digit(n % 10)][1..] == "";
    } else {
      assert Itoa(n)[1..] == "";
    }
  }

  // A number as LIST prints it, given back to RETR or DELE, means the same
  // message.
  lemma {:induction false} PrintedNumberMeansItsMessage(n: nat)
    requires 1 <= n < 0x1_0000_0000
    ensures Number(Itoa(n)) == n - 1
  {
    ItoaThenDigits(n);
    assert Itoa(n)[0] != '-' && Itoa(n)[0] != '+';
  }

  // ---------------------------------------------------------------- replies

  // LIST: the messages that are not deleted, with their numbers.
  function ListLines(msgs: seq<MsgDatum>): seq<(nat, nat)> {
    if msgs == [] then []
    else
      var n := |msgs| - 1;
      ListLines(msgs[..n]) + if msgs[n].deleted then [] else [(n + 1, msgs[n].size)]
  }

  function UidlLines(msgs: seq<MsgDatum>): seq<(nat, string)> {
    if msgs == [] then []
    else
      var n := |msgs| - 1;
      UidlLines(msgs[..n]) + if msgs[n].deleted then [] else [(n + 1, msgs[n].fname)]
  }

  // STAT counts and adds up in one loop.
  function StatOf(msgs: seq<MsgDatum>): (nat, nat) {
    if msgs == [] then (0, 0)
    else
      var n := |msgs| - 1;
      var (num, tot) := StatOf(msgs[..n]);
      if msgs[n].deleted then (num, tot) else (num + 1, tot + msgs[n].size)
  }

  function ToDelete(msgs: seq<MsgDatum>): seq<string> {
    if msgs == [] then []
    else
      var n := |msgs| - 1;
      ToDelete(msgs[..n]) + if msgs[n].deleted then [msgs[n].fname] else []
  }

  function Undeleted(msgs: seq<MsgDatum>): seq<MsgDatum> {
    seq(|msgs|, i requires 0 <= i < |msgs| => msgs[i].(deleted := false))
  }

  function Logged(name: string, log: seq<nat>): seq<(string, nat)> {
    seq(|log|, i requires 0 <= i < |log| => (name, log[i]))
  }

  // delMsg for one name after the other.
  function Deletions(e: PopEnv, mbox: string, names: seq<string>): (r: Reply)
    ensures r.Bye? && |r.sites| == |e.sites|
  {
    if names == [] then Bye(e.sites, [])
    else
      var n := |names| - 1;
      var r := Deletions(e, mbox, names[..n]);
      var (after, log) := Broadcast(r.sites, mbox, names[n], e.wires(n), e.envs(n));
      Bye(after, r.log + Logged(names[n], log))
  }

  // --------------------------------------------------------------- commands

  function Data(msgs: seq<Msg>): seq<MsgDatum> {
    seq(|msgs|, i requires 0 <= i < |msgs| => MsgDatum(msgs[i].index, msgs[i].size, false))
  }

  // scanDir: the listing of the mailbox becomes the message list.
  function Scan(s: Pop, l: Listing): (Pop, bool) {
    var s1 := s.(mbox := s.user, views := Collect(l.sites, FirstFailure(l.sites, l.fails, 0)));
    match GetMsgs(l.sites, l.fails)
    case None => (s1, false)
    case Some(msgs) => (s1.(msgs := s.msgs + Data(msgs), scanned := true), true)
  }

  // The address itself is tried first, then the wildcard of its domain.
  function Lookup2(first: Account, second: Account): Account {
    if first.Unknown? then second else first
  }

  function AtSign(user: string): string
    decreases |user|
  {
    if user == "" then "" else if user[0] == '%' then "@" + user[1..] else [user[0]] + AtSign(user[1..])
  }

  // The part PASS and APOP share; None when the line goes on to the other
  // commands because the listing failed.
  function Login(s: Pop, user: string, e: PopEnv): (Pop, Option<Reply>) {
    var s0 := s.(user := AtSign(user));
    match Lookup2(e.first, e.second)
    case Broken => (s0, Some(Err))
    case Unknown => (s0, Some(Err))
    case Known(canonical, pwcorrect) =>
      var s1 := s0.(user := canonical);
      if !pwcorrect then (s1, Some(Err))
      else
        var (s2, ok) := Scan(s1.(login := true), e.list1);
        if ok then (s2, Some(Stat(StatOf(s2.msgs).0, StatOf(s2.msgs).1))) else (s2, None)
  }

  function TopCommand(s: Pop, args: seq<string>): Reply
    requires args != []
  {
    if |args| < 2 then Err
    else
      var num := Number(args[1]);
      if num >= |s.msgs| || s.msgs[num].deleted then Err
      else Blast(s.msgs[num].fname, 0, if |args| > 2 then Atoi(args[2]) else -1)
  }

  function ListCommand(s: Pop, args: seq<string>): (Pop, Reply)
    requires args != []
  {
    var num := if |args| > 1 then Number(args[1]) else 0;
    var there := num < |s.msgs|;
    if args[0] == "UIDL" then
      if |args| == 1 then (s, Names(UidlLines(s.msgs)))
      else (s, if there then OneName(num + 1, s.msgs[num].fname) else Err)
    else if args[0] == "RETR" && |args| == 2 then
      (s, if !there || s.msgs[num].deleted then Err else Blast(s.msgs[num].fname, s.msgs[num].size, -1))
    else if args[0] == "TOP" && |args| <= 3 then (s, TopCommand(s, args))
    else if args[0] == "DELE" && |args| == 2 then
      if !there || s.msgs[num].deleted then (s, Err)
      else (s.(msgs := s.msgs[num := s.msgs[num].(deleted := true)]), Ok)
    else if args[0] == "STAT" && |args| == 1 then (s, Stat(StatOf(s.msgs).0, StatOf(s.msgs).1))
    else if args[0] == "LIST" && |args| == 2 then
      (s, if !there || s.msgs[num].deleted then Err else One(num + 1, s.msgs[num].size))
    else if args[0] == "LIST" && |args| == 1 then (s, Sizes(ListLines(s.msgs)))
    else (s, NotImplemented)
  }

  function RestCommands(s: Pop, args: seq<string>, l: Listing): (Pop, Reply) {
    if !s.login then (s, NotImplemented)
    else
      var (s1, ok) := if s.scanned then (s, true) else Scan(s, l);
      if !ok then (s1, Err)
      else if args == [] then (s1, NotImplemented)
      else ListCommand(s1, args)
  }

  function LoginThenRest(s: Pop, user: string, word: string, e: PopEnv): (Pop, Reply) {
    var (s1, reply) := Login(s, user, e);
    if reply.Some? then (s1, reply.value) else RestCommands(s1, [word], e.list2)
  }

  function ControlReply(args: seq<string>): Reply {
    if |args| < 2 then Err else if args[1] == "stop" then Die else if args[1] == "status" then Ok else Err
  }

  function Execute(s: Pop, c: Cmd, e: PopEnv): (Pop, Reply) {
    match c
    case Control(args) => if e.local then (s, ControlReply(args)) else RestCommands(s, args, e.list1)
    case Noop => (s, Ok)
    case Quit => (s, Deletions(e, s.mbox, ToDelete(s.msgs)))
    case Rset => (s.(msgs := Undeleted(s.msgs)), Ok)
    case Apop(user, digest) =>
      if s.login then (s, Err)
      else if user == "" || digest == "" then (s.(user := user), Err)
      else LoginThenRest(s, user, "APOP", e)
    case User(name) => if s.login then (s, Err) else (s.(user := name), Ok)
    case Pass(_) =>
      if s.login || s.user == "" then (s, Err) else LoginThenRest(s, s.user, "PASS", e)
    case Rest(args) => RestCommands(s, args, e.list1)
  }

  function Step(s: Pop, line: string, e: PopEnv): (Pop, Reply) { Execute(s, Parse(line), e) }

  datatype Line = Line(text: string, e: PopEnv)

  function Run(s: Pop, ls: seq<Line>): Pop
    decreases |ls|
  {
    if ls == [] then s else Run(Step(s, ls[0].text, ls[0].e).0, ls[1..])
  }

  // ------------------------------------------------------------- invariant

  // Before the listing there are no messages; after it, every message of the
  // list was listed by a backend it can be fetched from, and no name occurs
  // twice.
  ghost predicate Sound(s: Pop) {
    && (s.scanned ==> s.login)
    && (!s.scanned ==> s.msgs == [])
    && (s.scanned ==>
          && (forall i :: 0 <= i < |s.msgs| ==> Candidates(s.views, s.msgs[i].fname) != [])
          && (forall i, j :: 0 <= i < j < |s.msgs| ==> s.msgs[i].fname != s.msgs[j].fname))
  }

  // The list is the same but for the marks.
  ghost predicate SameNumbers(a: seq<MsgDatum>, b: seq<MsgDatum>) {
    |a| == |b| && forall i :: 0 <= i < |a| ==> a[i].fname == b[i].fname && a[i].size == b[i].size
  }

  lemma {:induction false} ListedOnceAndFetchable(views: seq<View>)
    ensures var merged := Merge(MsgsOf(views));
            && (forall i :: 0 <= i < |merged| ==> Candidates(views, merged[i].index) != [])
            && (forall i, j :: 0 <= i < j < |merged| ==> merged[i].index != merged[j].index)
  {
    var merged := Merge(MsgsOf(views));
    MergeListsOnce(MsgsOf(views));
    forall i | 0 <= i < |merged|
      ensures Candidates(views, merged[i].index) != []
    {
      ListedMeansFetchable(views, merged[i].index);
      assert merged[i].index in Keys(merged);
    }
    forall i, j | 0 <= i < j < |merged|
      ensures merged[i].index != merged[j].index
    {
      LessIsOrder(merged[i].index, merged[j].index);
    }
  }

  lemma {:induction false} ScanSound(s: Pop, l: Listing)
    requires Sound(s) && s.login && !s.scanned
    ensures Sound(Scan(s, l).0) && (!Scan(s, l).1 ==> !Scan(s, l).0.scanned)
  {
    var (s1, ok) := Scan(s, l);
    if ok {
      ListedOnceAndFetchable(s1.views);
      assert s1.msgs == Data(Merge(MsgsOf(s1.views)));
    }
  }

  lemma {:induction false} RestSound(s: Pop, args: seq<string>, l: Listing)
    requires Sound(s)
    ensures var s1 := RestCommands(s, args, l).0;
            Sound(s1) && (s.scanned ==> s1.scanned && SameNumbers(s.msgs, s1.msgs) && s1.views == s.views)
  {
    if s.login && !s.scanned {
      ScanSound(s, l);
    }
  }

  lemma {:induction false} LoginSound(s: Pop, user: string, word: string, e: PopEnv)
    requires Sound(s) && !s.login
    ensures Sound(LoginThenRest(s, user, word, e).0)
  {
    match Lookup2(e.first, e.second) {
      case Known(canonical, pwcorrect) =>
        if pwcorrect {
          var s1 := s.(user := canonical, login := true);
          ScanSound(s1, e.list1);
          var (s2, reply) := Login(s, user, e);
          if reply.None? {
            RestSound(s2, [word], e.list2);
          }
        }
      case _ =>
    }
  }

  lemma {:induction false} StepSound(s: Pop, line: string, e: PopEnv)
    requires Sound(s)
    ensures var s1 := Step(s, line, e).0;
            Sound(s1) && (s.scanned ==> s1.scanned && SameNumbers(s.msgs, s1.msgs) && s1.views == s.views)
  {
    match Parse(line) {
      case Rest(args) => RestSound(s, args, e.list1);
      case Control(args) => RestSound(s, args, e.list1);
      case Apop(user, digest) => if !s.login && user != "" && digest != "" { LoginSound(s, user, "APOP", e); }
      case Pass(_) => if !s.login && s.user != "" { LoginSound(s, s.user, "PASS", e); }
      case _ =>
    }
  }

  lemma {:induction false} RunSound(s: Pop, ls: seq<Line>)
    requires Sound(s)
    ensures Sound(Run(s, ls))
    ensures s.scanned ==> Run(s, ls).scanned && SameNumbers(s.msgs, Run(s, ls).msgs) && Run(s, ls).views == s.views
    decreases |ls|
  {
    if ls != [] {
      StepSound(s, ls[0].text, ls[0].e);
      RunSound(Step(s, ls[0].text, ls[0].e).0, ls[1..]);
    }
  }

  // Over any session the list is filled at most once, its numbers never
  // change, and everything on it can be fetched from some backend.
  lemma {:induction false} NumbersNeverChange(ls: seq<Line>, more: seq<Line>)
    ensures var s, s1 := Run(NOBODY, ls), Run(NOBODY, ls + more);
            && Sound(s1)
            && (s.scanned ==> s1.scanned && SameNumbers(s.msgs, s1.msgs))
            && forall i :: 0 <= i < |s1.msgs| ==> Candidates(s1.views, s1.msgs[i].fname) != []
  {
    RunSound(NOBODY, ls);
    RunAppend(NOBODY, ls, more);
    RunSound(Run(NOBODY, ls), more);
  }

  lemma {:induction false} RunAppend(s: Pop, a: seq<Line>, b: seq<Line>)
    ensures Run(s, a + b) == Run(Run(s, a), b)
    decreases |a|
  {
    if a == [] {
      assert a + b == b;
    } else {
      assert (a + b)[1..] == a[1..] + b;
      RunAppend(Step(s, a[0].text, a[0].e).0, a[1..], b);
    }
  }

  // ----------------------------------------------------------- STAT and LIST

  function Sum(lines: seq<(nat, nat)>): nat {
    if lines == [] then 0 else Sum(lines[..|lines| - 1]) + lines[|lines| - 1].1
  }

  // STAT is the count and the sum of the lines of LIST.
  lemma {:induction false} StatIsListSummed(msgs: seq<MsgDatum>)
    ensures StatOf(msgs) == (|ListLines(msgs)|, Sum(ListLines(msgs)))
  {
    if msgs != [] {
      var n := |msgs| - 1;
      StatIsListSummed(msgs[..n]);
      var less, all := ListLines(msgs[..n]), ListLines(msgs);
      if msgs[n].deleted {
        assert all == less;
      } else {
        assert all[..|all| - 1] == less && all[|all| - 1] == (n + 1, msgs[n].size);
      }
    }
  }

  // These are the lines of the undeleted messages, each under its own number,
  // in ascending order.
  lemma {:induction false} LinesOfList(msgs: seq<MsgDatum>)
    ensures forall k :: 0 <= k < |ListLines(msgs)| ==> LineOf(msgs, ListLines(msgs)[k])
    ensures forall i :: 0 <= i < |msgs| && !msgs[i].deleted ==> (i + 1, msgs[i].size) in ListLines(msgs)
    ensures forall j, k :: 0 <= j < k < |ListLines(msgs)| ==> ListLines(msgs)[j].0 < ListLines(msgs)[k].0
  {
    if msgs != [] {
      var n := |msgs| - 1;
      var front := msgs[..n];
      LinesOfList(front);
      var less, all := ListLines(front), ListLines(msgs);
      forall k | 0 <= k < |less|
        ensures LineOf(msgs, less[k]) && less[k].0 <= n
      {
        assert LineOf(front, less[k]);
      }
      forall i | 0 <= i < |msgs| && !msgs[i].deleted
        ensures (i + 1, msgs[i].size) in all
      {
        if i < n {
          assert front[i] == msgs[i];
          assert (i + 1, front[i].size) in less;
        } else {
          assert all[|all| - 1] == (n + 1, msgs[n].size);
        }
      }
    }
  }

  ghost predicate LineOf(msgs: seq<MsgDatum>, line: (nat, nat)) {
    1 <= line.0 <= |msgs| && !msgs[line.0 - 1].deleted && line.1 == msgs[line.0 - 1].size
  }

  // ---------------------------------------------------------- DELE and QUIT

  // The line is a DELE that was accepted for message number i + 1.
  ghost predicate Deletes(s: Pop, l: Line, i: nat) {
    var c := Parse(l.text);
    && Step(s, l.text, l.e).1 == Ok
    && c.Rest? && |c.args| == 2 && c.args[0] == "DELE" && Number(c.args[1]) == i
  }

  ghost predicate Resets(l: Line) { Parse(l.text).Rset? }

  // Marked by a DELE of the run that no RSET of the run follows.
  ghost predicate MarkedIn(s: Pop, ls: seq<Line>, i: nat, before: bool)
    decreases |ls|
  {
    if ls == [] then before
    else MarkedIn(Step(s, ls[0].text, ls[0].e).0, ls[1..], i, !Resets(ls[0]) && (before || Deletes(s, ls[0], i)))
  }

  lemma {:induction false} StepMarks(s: Pop, l: Line, i: nat)
    requires Sound(s) && s.scanned && i < |s.msgs|
    ensures var s1 := Step(s, l.text, l.e).0;
            |s1.msgs| == |s.msgs| && (s1.msgs[i].deleted <==> !Resets(l) && (s.msgs[i].deleted || Deletes(s, l, i)))
  {
    StepSound(s, l.text, l.e);
    var s1 := Step(s, l.text, l.e).0;
    match Parse(l.text) {
      case Rest(args) => RestMarks(s, args, l.e.list1, i);
      case Control(args) => if !l.e.local { RestMarks(s, args, l.e.list1, i); ControlIsNotDele(l.text); }
      case _ =>
    }
  }

  lemma {:induction false} ControlIsNotDele(line: string)
    requires Parse(line).Control?
    ensures Parse(line).args[0] != "DELE"
  {
  }

  lemma {:induction false} RestMarks(s: Pop, args: seq<string>, l: Listing, i: nat)
    requires s.login && s.scanned && i < |s.msgs|
    ensures var (s1, reply) := RestCommands(s, args, l);
            && |s1.msgs| == |s.msgs|
            && (s1.msgs[i].deleted <==>
                  s.msgs[i].deleted || (reply == Ok && |args| == 2 && args[0] == "DELE" && Number(args[1]) == i))
  {
  }

  lemma {:induction false} RunMarks(s: Pop, ls: seq<Line>, i: nat)
    requires Sound(s) && s.scanned && i < |s.msgs|
    ensures |Run(s, ls).msgs| == |s.msgs|
    ensures Run(s, ls).msgs[i].deleted <==> MarkedIn(s, ls, i, s.msgs[i].deleted)
    decreases |ls|
  {
    if ls != [] {
      StepSound(s, ls[0].text, ls[0].e);
      StepMarks(s, ls[0], i);
      RunMarks(Step(s, ls[0].text, ls[0].e).0, ls[1..], i);
    }
  }

  lemma {:induction false} ToDeleteAre(msgs: seq<MsgDatum>)
    ensures forall f :: f in ToDelete(msgs) <==> exists i :: 0 <= i < |msgs| && msgs[i].deleted && msgs[i].fname == f
  {
    if msgs != [] {
      var n := |msgs| - 1;
      var front := msgs[..n];
      ToDeleteAre(front);
      forall f
        ensures f in ToDelete(msgs) <==> exists i :: 0 <= i < |msgs| && msgs[i].deleted && msgs[i].fname == f
      {
        if i :| 0 <= i < |front| && front[i].deleted && front[i].fname == f {
          assert msgs[i] == front[i];
        }
        if i :| 0 <= i < |msgs| && msgs[i].deleted && msgs[i].fname == f {
          if i < n {
            assert front[i] == msgs[i];
          }
        }
      }
    }
  }

  lemma {:induction false} ScanFills(s: Pop, l: Listing)
    requires Sound(s) && !s.scanned
    ensures var (s1, ok) := Scan(s, l);
            if ok then forall i :: 0 <= i < |s1.msgs| ==> !s1.msgs[i].deleted else s1.msgs == [] && !s1.scanned
  {
  }

  // A line that fills the list may mark a message of it as well.
  lemma {:induction false} RestFills(s: Pop, args: seq<string>, l: Listing, i: nat)
    requires Sound(s) && !s.scanned
    ensures var (s1, reply) := RestCommands(s, args, l);
            && (!s1.scanned ==> s1.msgs == [] && reply != Ok)
            && (s1.scanned && i < |s1.msgs| ==>
                  (s1.msgs[i].deleted <==> reply == Ok && |args| == 2 && args[0] == "DELE" && Number(args[1]) == i))
  {
    ScanFills(s, l);
  }

  lemma {:induction false} LoginFills(s: Pop, user: string, word: string, e: PopEnv, i: nat)
    requires Sound(s) && !s.login && !s.scanned
    ensures var s1 := LoginThenRest(s, user, word, e).0; i < |s1.msgs| ==> s1.scanned && !s1.msgs[i].deleted
  {
    match Lookup2(e.first, e.second) {
      case Known(canonical, pwcorrect) =>
        if pwcorrect {
          var s1 := s.(user := canonical, login := true);
          ScanFills(s1, e.list1);
          ScanSound(s1, e.list1);
          var (s2, reply) := Login(s, user, e);
          if reply.None? {
            RestFills(s2, [word], e.list2, i);
          }
        }
      case _ =>
    }
  }

  lemma {:induction false} StepFills(s: Pop, l: Line, i: nat)
    requires Sound(s) && !s.scanned
    ensures var s1 := Step(s, l.text, l.e).0;
            && (!s1.scanned ==> !Deletes(s, l, i))
            && (i < |s1.msgs| ==> s1.scanned && (s1.msgs[i].deleted <==> !Resets(l) && Deletes(s, l, i)))
  {
    StepSound(s, l.text, l.e);
    match Parse(l.text) {
      case Rest(args) => RestFills(s, args, l.e.list1, i);
      case Control(args) => if !l.e.local { RestFills(s, args, l.e.list1, i); ControlIsNotDele(l.text); }
      case Apop(user, digest) => if !s.login && user != "" && digest != "" { LoginFills(s, user, "APOP", l.e, i); }
      case Pass(_) => if !s.login && s.user != "" { LoginFills(s, s.user, "PASS", l.e, i); }
      case _ =>
    }
  }

  lemma {:induction false} MarksFromTheStart(s: Pop, ls: seq<Line>, i: nat)
    requires Sound(s) && !s.scanned && i < |Run(s, ls).msgs|
    ensures Run(s, ls).msgs[i].deleted <==> MarkedIn(s, ls, i, false)
    decreases |ls|
  {
    if ls != [] {
      var s1 := Step(s, ls[0].text, ls[0].e).0;
      StepSound(s, ls[0].text, ls[0].e);
      StepFills(s, ls[0], i);
      if s1.scanned {
        RunSound(s1, ls[1..]);
        RunMarks(s1, ls[1..], i);
      } else {
        MarksFromTheStart(s1, ls[1..], i);
      }
    }
  }

  // In every session QUIT issues deletes for exactly the messages marked by a
  // DELE that no RSET follows.
  lemma {:induction false} QuitDeletesExactlyTheMarked(ls: seq<Line>, i: nat)
    requires i < |Run(NOBODY, ls).msgs|
    ensures var msgs := Run(NOBODY, ls).msgs;
            msgs[i].fname in ToDelete(msgs) <==> MarkedIn(NOBODY, ls, i, false)
  {
    MarksFromTheStart(NOBODY, ls, i);
    RunSound(NOBODY, ls);
    var msgs := Run(NOBODY, ls).msgs;
    ToDeleteAre(msgs);
    forall j | 0 <= j < |msgs| && msgs[j].fname == msgs[i].fname
      ensures j == i
    {
    }
  }

  // What the deletes of QUIT leave: at every backend the file of each name is
  // gone, unless this delete is in the failure log, and all other files are
  // as they were.
  ghost predicate Gone(before: Site, after: Site, mbox: string, names: seq<string>, i: nat, log: seq<(string, nat)>) {
    && after.target == before.target && after.disk.data == before.disk.data
    && (forall f :: f in names ==> (f, i) in log || Path(mbox, Cur, f) !in after.disk.names)
    && (forall p: Path :: !(p.mbox == mbox && p.stage.Cur? && p.index in names) ==>
          (p in after.disk.names <==> p in before.disk.names) &&
          (p in before.disk.names ==> after.disk.names[p] == before.disk.names[p]))
    && (forall p: Path :: p in after.disk.names ==> p in before.disk.names)
  }

  lemma {:induction false} OneMoreGone(before: Site, mid: Site, after: Site, mbox: string, names: seq<string>, i: nat,
                                       log: seq<(string, nat)>, name: string, gone: bool, log1: seq<(string, nat)>)
    requires Gone(before, mid, mbox, names, i, log) && DeletedAt(mid, after, Path(mbox, Cur, name), gone)
    requires log <= log1 && (!gone ==> (name, i) in log1)
    ensures Gone(before, after, mbox, names + [name], i, log1)
  {
    var f := Path(mbox, Cur, name);
    forall p | p != f
      ensures p in after.disk.names <==> p in mid.disk.names
      ensures p in mid.disk.names ==> after.disk.names[p] == mid.disk.names[p]
    {
      assert p in after.disk.names - {f} <==> p in mid.disk.names - {f};
      assert p in mid.disk.names ==> (after.disk.names - {f})[p] == (mid.disk.names - {f})[p];
    }
    forall n | n in names + [name]
      ensures (n, i) in log1 || Path(mbox, Cur, n) !in after.disk.names
    {
      if n in names && (n, i) in log {
        var k :| 0 <= k < |log| && log[k] == (n, i);
        assert log1[k] == (n, i);
      }
    }
  }

  lemma {:induction false} LoggedHas(front: seq<(string, nat)>, name: string, log: seq<nat>)
    ensures front <= front + Logged(name, log)
    ensures forall i :: i in log ==> (name, i) in front + Logged(name, log)
  {
    forall i | i in log
      ensures (name, i) in front + Logged(name, log)
    {
      var k :| 0 <= k < |log| && log[k] == i;
      assert (front + Logged(name, log))[|front| + k] == (name, i);
    }
  }

  lemma {:induction false} DeletionsAreBroadcast(e: PopEnv, mbox: Word, names: seq<Word>, i: nat)
    requires i < |e.sites|
    ensures var r := Deletions(e, mbox, names); Gone(e.sites[i], r.sites[i], mbox, names, i, r.log)
    decreases |names|
  {
    if names != [] {
      var n := |names| - 1;
      var front := names[..n];
      DeletionsAreBroadcast(e, mbox, front, i);
      var mid, r := Deletions(e, mbox, front), Deletions(e, mbox, names);
      DeletedUnlessLogged(mid.sites, mbox, names[n], e.wires(n), e.envs(n));
      var log := Broadcast(mid.sites, mbox, names[n], e.wires(n), e.envs(n)).1;
      LoggedHas(mid.log, names[n], log);
      OneMoreGone(e.sites[i], mid.sites[i], r.sites[i], mbox, front, i, mid.log, names[n], i !in log, r.log);
      assert names == front + [names[n]];
    }
  }
}
