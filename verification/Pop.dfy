/** PopSession in the source's own form. */
module Pop {
  import opened Text
  import opened Disk
  import opened ListingSpec
  import opened PopSpec
  import Spec = PopSpec
  import Reading

  class PopSession {
    var user: string
    var login: bool
    var scanned: bool
    var msgs: seq<MsgDatum>
    const megatalker: Reading.MailReader

    function State(): Spec.Pop
      reads this, megatalker
    {
      Spec.Pop(user, login, scanned, msgs, megatalker.mbox, megatalker.views)
    }

    constructor ()
      ensures State() == NOBODY && fresh(megatalker)
    {
      user, login, scanned, msgs := "", false, false, [];
      megatalker := new Reading.MailReader();
    }

    method ScanDir(l: Listing) returns (ok: bool)
      modifies this, megatalker
      ensures (State(), ok) == Scan(old(State()), l)
    {
      var data := megatalker.GetMsgs(user, l.sites, l.fails);
      if data.None? {
        return false;
      }
      ghost var before := msgs;
      for i := 0 to |data.value|
        invariant msgs == before + Data(data.value[..i])
        invariant user == old(user) && login == old(login) && scanned == old(scanned)
        invariant megatalker.mbox == user && megatalker.views == Collect(l.sites, |l.sites|)
      {
        assert Data(data.value[..i + 1]) == Data(data.value[..i]) + [MsgDatum(data.value[i].index, data.value[i].size, false)];
        msgs := msgs + [MsgDatum(data.value[i].index, data.value[i].size, false)];
      }
      assert data.value[..|data.value|] == data.value;
      scanned := true;
      ok := true;
    }

    method MakeStatResponse() returns (num: nat, tot: nat)
      ensures (num, tot) == StatOf(msgs)
    {
      num, tot := 0, 0;
      for i := 0 to |msgs|
        invariant (num, tot) == StatOf(msgs[..i])
      {
        assert msgs[..i + 1][..i] == msgs[..i];
        if !msgs[i].deleted {
          num, tot := num + 1, tot + msgs[i].size;
        }
      }
      assert msgs[..|msgs|] == msgs;
    }

    method ListAll() returns (lines: seq<(nat, nat)>, names: seq<(nat, string)>)
      ensures lines == ListLines(msgs) && names == UidlLines(msgs)
    {
      lines, names := [], [];
      for i := 0 to |msgs|
        invariant lines == ListLines(msgs[..i]) && names == UidlLines(msgs[..i])
      {
        assert msgs[..i + 1][..i] == msgs[..i];
        if !msgs[i].deleted {
          lines, names := lines + [(i + 1, msgs[i].size)], names + [(i + 1, msgs[i].fname)];
        }
      }
      assert msgs[..|msgs|] == msgs;
    }

    // One delete per marked message, in order, broadcast to all backends.
    method DelDeleted(e: PopEnv) returns (reply: Reply)
      ensures reply == Deletions(e, megatalker.mbox, ToDelete(msgs))
    {
      var sites, log, n := e.sites, [], 0;
      ghost var names := ToDelete(msgs[..0]);
      for i := 0 to |msgs|
        invariant names == ToDelete(msgs[..i]) && n == |names|
        invariant Bye(sites, log) == Deletions(e, megatalker.mbox, names)
      {
        assert msgs[..i + 1][..i] == msgs[..i];
        if msgs[i].deleted {
          assert (names + [msgs[i].fname])[..n] == names;
          var more;
          sites, more := megatalker.DelMsg(msgs[i].fname, sites, e.wires(n), e.envs(n));
          log := log + Logged(msgs[i].fname, more);
          n := n + 1;
          names := names + [msgs[i].fname];
        }
      }
      assert msgs[..|msgs|] == msgs;
      reply := Bye(sites, log);
    }

    method ResetMarks()
      modifies this`msgs
      ensures msgs == Undeleted(old(msgs))
    {
      for i := 0 to |msgs|
        invariant |msgs| == |old(msgs)|
        invariant forall j :: 0 <= j < i ==> msgs[j] == old(msgs)[j].(deleted := false)
        invariant forall j :: i <= j < |msgs| ==> msgs[j] == old(msgs)[j]
      {
        msgs := msgs[i := msgs[i].(deleted := false)];
      }
    }

    // PASS and APOP; None when the line goes on to the other commands.
    method LoginCommand(name: string, e: PopEnv) returns (reply: Option<Reply>)
      modifies this, megatalker
      ensures (State(), reply) == Login(old(State()), name, e)
    {
      user := AtSign(name);
      var account := e.first;
      if account.Unknown? {
        account := e.second;
      }
      if account.Broken? {
        return Some(Err);
      }
      if account.Unknown? {
        return Some(Err);
      }
      user := account.canonical;
      if !account.pwcorrect {
        return Some(Err);
      }
      login := true;
      var ok := ScanDir(e.list1);
      if !ok {
        return None;
      }
      var num, tot := MakeStatResponse();
      reply := Some(Stat(num, tot));
    }

    method RestCommands(args: seq<string>, l: Listing) returns (reply: Reply)
      modifies this, megatalker
      ensures (State(), reply) == Spec.RestCommands(old(State()), args, l)
    {
      if !login {
        return NotImplemented;
      }
      if !scanned {
        var ok := ScanDir(l);
        if !ok {
          return Err;
        }
      }
      if args == [] {
        return NotImplemented;
      }
      reply := ListCommand(args);
    }

    method ListCommand(args: seq<string>) returns (reply: Reply)
      requires args != []
      modifies this`msgs
      ensures (State(), reply) == Spec.ListCommand(old(State()), args)
    {
      reply := NotImplemented;
      var num := if |args| > 1 then Number(args[1]) else 0;
      if args[0] == "UIDL" {
        if |args| == 1 {
          var lines, names := ListAll();
          return Names(names);
        }
        return if num >= |msgs| then Err else OneName(num + 1, msgs[num].fname);
      }
      if args[0] == "RETR" && |args| == 2 {
        return if num >= |msgs| || msgs[num].deleted then Err else Blast(msgs[num].fname, msgs[num].size, -1);
      }
      if args[0] == "TOP" && |args| <= 3 {
        if |args| < 2 || num >= |msgs| || msgs[num].deleted {
          return Err;
        }
        return Blast(msgs[num].fname, 0, if |args| > 2 then Atoi(args[2]) else -1);
      }
      if args[0] == "DELE" && |args| == 2 {
        if num >= |msgs| || msgs[num].deleted {
          return Err;
        }
        msgs := msgs[num := msgs[num].(deleted := true)];
        return Ok;
      }
      if args[0] == "STAT" && |args| == 1 {
        var n, tot := MakeStatResponse();
        return Stat(n, tot);
      }
      if args[0] == "LIST" && |args| == 2 {
        return if num >= |msgs| || msgs[num].deleted then Err else One(num + 1, msgs[num].size);
      }
      if args[0] == "LIST" && |args| == 1 {
        var lines, names := ListAll();
        return Sizes(lines);
      }
    }

    method LoginThenRest(name: string, word: string, e: PopEnv) returns (reply: Reply)
      modifies this, megatalker
      ensures (State(), reply) == Spec.LoginThenRest(old(State()), name, word, e)
    {
      var answer := LoginCommand(name, e);
      if answer.Some? {
        return answer.value;
      }
      reply := RestCommands([word], e.list2);
    }

    // giveLine: one line of the reader.
    method GiveLine(line: string, e: PopEnv) returns (reply: Reply)
      modifies this, megatalker
      ensures (State(), reply) == Step(old(State()), line, e)
    {
      match Parse(line) {
        case Control(args) =>
          if e.local {
            return ControlReply(args);
          }
          reply := RestCommands(args, e.list1);
        case Noop => reply := Ok;
        case Quit =>
          reply := DelDeleted(e);
        case Rset =>
          ResetMarks();
          reply := Ok;
        case Apop(name, digest) =>
          if login {
            return Err;
          }
          if name == "" || digest == "" {
            user := name;
            return Err;
          }
          reply := LoginThenRest(name, "APOP", e);
        case User(name) =>
          if login {
            return Err;
          }
          user := name;
          reply := Ok;
        case Pass(_) =>
          if login || user == "" {
            return Err;
          }
          reply := LoginThenRest(user, "PASS", e);
        case Rest(args) => reply := RestCommands(args, e.list1);
      }
    }

    // What a Blast reply makes of the connection: a message of the list is
    // always looked for on some backend that listed it.
    method SendMessage(i: nat, size: nat, limit: int, streams: Reading.Streams) returns (picked: nat, out: string, ok: bool)
      requires PopSpec.Sound(State()) && scanned && i < |msgs|
      ensures picked in Candidates(megatalker.views, msgs[i].fname)
      ensures (out, ok) == match streams(picked)
                           case None => ("", false)
                           case Some(s) => Reading.RetrieveSpec.Blast(Split(s), size, limit)
    {
      var p;
      p, out, ok := megatalker.BlastMessage(msgs[i].fname, size, limit, streams);
      picked := p.value;
    }
  }
}
