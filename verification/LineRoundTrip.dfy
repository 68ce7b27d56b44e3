/** The round trip of a message with every line, on the client's connection and
    on a backend's, taken from its buffer by getLine. */
module LineRoundTrip {
  import opened Text
  import opened Disk
  import opened LineReader
  import DeliverySpec
  import BackendSpec
  import TalkerSpec
  import MegaSpec
  import SmtpSpec
  import RetrieveSpec

  // What some call of getLine can return.
  ghost predicate Gettable(line: string) { exists unread: string :: Next(unread) == Line(line) }

  lemma {:induction false} GettableIff(line: string)
    ensures Gettable(line) <==> IsLine(line) && NulFree(line) && |line| <= BUFSIZE
  {
    if unread: string :| Next(unread) == Line(line) {
      var n := NewlineAt(unread);
      CStringHasNoNul(unread[..n]);
    }
    if IsLine(line) && NulFree(line) && |line| <= BUFSIZE {
      var n := |line| - 1;
      NewlineUnique(line, n);
      CStringIsAllIffNulFree(line[..n]);
      assert Next(line) == Line(line[..n] + "\n");
      assert line[..n] + "\n" == line;
    }
  }

  lemma {:induction false} CStringHasNoNul(s: string)
    ensures NulFree(CString(s))
  {
    if s != "" && s[0] != '\0' {
      CStringHasNoNul(s[1..]);
    }
  }

  ghost predicate AllGettable(lines: seq<string>) { forall i :: 0 <= i < |lines| ==> Gettable(lines[i]) }

  // Lines that getLine returned once can be read by it again, in a row.
  lemma {:induction false} GettableLinesFit(lines: seq<string>, rest: string)
    requires AllGettable(lines) && NulFree(rest) && Fits(rest)
    ensures NulFree(Concat(lines) + rest) && Fits(Concat(lines) + rest)
    decreases |lines|
  {
    if lines == [] {
      assert Concat(lines) + rest == rest;
    } else {
      GettableLinesFit(lines[1..], rest);
      var line, more := lines[0], Concat(lines[1..]) + rest;
      GettableIff(line);
      RetrieveSpec.Assoc(line, Concat(lines[1..]), rest);
      assert Concat(lines) + rest == line + more;
      NewlineUnique(line + more, |line| - 1);
      assert (line + more)[|line|..] == more;
    }
  }

  // ------------------------------------------- the lines of a data phase

  lemma {:induction false} DataKeepsGiven(s: SmtpSpec.Smtp, cfg: SmtpSpec.Config, d: SmtpSpec.DataEnv)
    requires !s.indata || s.mega.None?
    ensures var s1 := SmtpSpec.EatData(s, cfg, d).0; s1.given == s.given || s1.given == []
  {
    if s.fromset && !(s.recipients == [] && s.mega.None?) {
      var (s1, thrown) := SmtpSpec.OpenForData(s, cfg, d);
      if !thrown {
        SmtpSpec.AnnounceKeeps(s1.(names := []), 0, d);
      }
    }
  }

  lemma {:induction false} StepGettable(s: SmtpSpec.Smtp, cfg: SmtpSpec.Config, x: SmtpSpec.Input)
    requires AllGettable(s.given) && Gettable(x.line)
    ensures AllGettable(SmtpSpec.Step(s, cfg, x).0.given)
  {
    if !(s.indata && s.mega.Some?) && x.cmd.Data? {
      DataKeepsGiven(s, cfg, x.cmd.env);
    }
  }

  lemma {:induction false} RunGettable(s: SmtpSpec.Smtp, cfg: SmtpSpec.Config, xs: seq<SmtpSpec.Input>)
    requires AllGettable(s.given) && forall k :: 0 <= k < |xs| ==> Gettable(xs[k].line)
    ensures AllGettable(SmtpSpec.Run(s, cfg, xs).given)
    decreases |xs|
  {
    if xs != [] {
      StepGettable(s, cfg, xs[0]);
      RunGettable(SmtpSpec.Step(s, cfg, xs[0]).0, cfg, xs[1..]);
    }
  }

  // -------------------------------------------------------- the round trip

  lemma {:induction false} ReadBack(first: string, given: seq<string>)
    requires Gettable(first) && IsDataLine(first) && AllGettable(given) && forall i :: 0 <= i < |given| ==> IsDataLine(given[i])
    ensures var stream := RetrieveSpec.Sent(first + Concat(given));
            All(stream) == ([first] + given + [".\n"], Closed) && Split(stream) == [first] + given + [".\n"]
  {
    var lines := [first] + given;
    assert lines[1..] == given;
    NewlineUnique(".\n", 1);
    GettableLinesFit(lines, ".\n");
    AllIsSplit(Concat(lines) + ".\n");
    RetrieveSpec.SentLines(lines);
  }

  // When the session read its lines with getLine, repeated calls of getLine
  // on what a redundant backend sends return all of the stored message line
  // by line, none too long, and RETR passes on the Received line, exactly the
  // lines of the client, and the terminator.
  lemma {:induction false} RoundTripByGetLine(cfg: SmtpSpec.Config, xs: seq<SmtpSpec.Input>, x: SmtpSpec.Input,
                                              i: nat, a: TalkerSpec.Announced, later: Disk, e: DeliverySpec.Env, length: nat)
    requires forall k :: 0 <= k < |xs| ==> Gettable(xs[k].line)
    requires var s := SmtpSpec.Run(SmtpSpec.INITIAL, cfg, xs);
             var reply := SmtpSpec.Step(s, cfg, x).1;
             && reply.Delivered? && reply.to != [] && MegaSpec.AllStorage(reply.entries)
             && (s.given == [] || !s.quotaneeded || |Concat(s.given[..|s.given| - 1])| / 1000 < s.kbroom)
             && Gettable(s.received) && !IsTerminator(s.received) && i < cfg.redundancy && a in reply.names
             && (i < |reply.entries| ==>
                   var f := CurOf(TalkerSpec.FileOf(a, s.tag));
                   Lookup(later, f) == Lookup(BackendSpec.End(reply.entries[i].link.t.peer), f))
    requires !e.openErr
    ensures var s := SmtpSpec.Run(SmtpSpec.INITIAL, cfg, xs);
            var text := RetrieveSpec.Fetch(later, a.mbox, TalkerSpec.NameOf(s.tag, a.num), e);
            && text.Some?
            && var (lines, last) := All(RetrieveSpec.Sent(text.value));
            && last == Closed && lines == [s.received] + s.given + [".\n"]
            && RetrieveSpec.Blast(lines, length, -1) ==
               ("+OK " + Itoa(length) + "\r\n" + (s.received + Concat(s.given)) + ".\r\n", true)
  {
    var s := SmtpSpec.Run(SmtpSpec.INITIAL, cfg, xs);
    GettableIff(s.received);
    RetrieveSpec.RoundTrip(cfg, xs, x, i, a, later, e, length);
    RunGettable(SmtpSpec.INITIAL, cfg, xs);
    SmtpSpec.GivenAreData(cfg, xs);
    SmtpSpec.RunInv(SmtpSpec.INITIAL, cfg, xs);
    SmtpSpec.StepInv(s, cfg, x);
    ReadBack(s.received, s.given);
  }
}
