/** The modes of a backend session, told from its lines and its answers, and
    the commands that change files outside a delivery. */
module BackendModes {
  import opened Text
  import opened Disk
  import opened DeliverySpec
  import opened BackendSpec

  datatype Heard = Heard(line: string, reply: Reply)

  function Replies(s: Session, cmds: seq<Command>): seq<Heard>
    decreases |cmds|
  {
    if cmds == [] then []
    else var o := Step(s, cmds[0].line, cmds[0].e); [Heard(cmds[0].line, o.reply)] + Replies(o.s, cmds[1..])
  }

  function FirstWord(line: string): string {
    var args := Tokens(Strip(line));
    if args == [] then "" else args[0]
  }

  // A password opens the session, an accepted recipient a delivery, "put" its
  // text, the dot ends the text, and commit or rollback the delivery.
  function NextMode(mode: Mode, line: string, reply: Reply): Mode {
    match mode
    case UnAuth => if FirstWord(line) == "pass" && reply == Ok then Blank else UnAuth
    case Blank =>
      if FirstWord(line) == "rcpt" && reply == Ok then PreLimbo else if FirstWord(line) == "dir" then Dir else Blank
    case PreLimbo => if Strip(line) == "put" then InData else PreLimbo
    case InData => if IsTerminator(line) then InLimbo else InData
    case InLimbo => if Strip(line) == "commit" || Strip(line) == "rollback" then Blank else InLimbo
    case Dir => Blank
  }

  function ModeOf(log: seq<Heard>): Mode {
    if log == [] then UnAuth
    else var n := |log| - 1; NextMode(ModeOf(log[..n]), log[n].line, log[n].reply)
  }

  lemma {:induction false} BlankMode(s: Session, args: seq<string>, e: Env)
    requires s.mode.Blank? && args != [] && args[0] != "quit" && args[0] != "control"
    ensures var o := BlankCommand(s, args, e);
            o.s.mode == if args[0] == "rcpt" && o.reply == Ok then PreLimbo else if args[0] == "dir" then Dir else Blank
  {
  }

  lemma {:induction false} StepMode(s: Session, line: string, e: Env)
    ensures Step(s, line, e).s.mode == NextMode(s.mode, line, Step(s, line, e).reply)
  {
    var stripped, args := Strip(line), Tokens(Strip(line));
    if s.mode.Blank? && args != [] && args[0] != "quit" && args[0] != "control" {
      BlankMode(s, args, e);
    } else if stripped == "put" || stripped == "commit" || stripped == "rollback" {
      TokensSingle(stripped);
    }
  }

  lemma {:induction false} RunMode(s: Session, cmds: seq<Command>, log: seq<Heard>)
    requires s.mode == ModeOf(log)
    ensures Run(s, cmds).mode == ModeOf(log + Replies(s, cmds))
    decreases |cmds|
  {
    if cmds == [] {
      assert log + [] == log;
    } else {
      var o := Step(s, cmds[0].line, cmds[0].e);
      StepMode(s, cmds[0].line, cmds[0].e);
      assert (log + [Heard(cmds[0].line, o.reply)])[..|log|] == log;
      RunMode(o.s, cmds[1..], log + [Heard(cmds[0].line, o.reply)]);
      OneThenMore(log, Heard(cmds[0].line, o.reply), Replies(o.s, cmds[1..]));
    }
  }

  lemma {:induction false} OneThenMore(log: seq<Heard>, h: Heard, more: seq<Heard>)
    ensures log + [h] + more == log + ([h] + more)
  {
  }

  // In every session the mode is what its lines and answers say.
  lemma {:induction false} ModeIsTold(d: Disk, garbage: Option<Handle>, cmds: seq<Command>)
    ensures Run(Start(d, garbage), cmds).mode == ModeOf(Replies(Start(d, garbage), cmds))
  {
    RunMode(Start(d, garbage), cmds, []);
    assert [] + Replies(Start(d, garbage), cmds) == Replies(Start(d, garbage), cmds);
  }

  // The line is a password that is right.
  predicate RightPassword(c: Command) { FirstWord(c.line) == "pass" && c.e.passOk }

  lemma {:induction false} StaysAuthenticated(s: Session, cmds: seq<Command>)
    requires !s.mode.UnAuth?
    ensures !Run(s, cmds).mode.UnAuth?
    decreases |cmds|
  {
    if cmds != [] {
      StaysAuthenticated(Step(s, cmds[0].line, cmds[0].e).s, cmds[1..]);
    }
  }

  // In every session: it is authenticated if and only if one of its lines was
  // the right password.
  lemma {:induction false} AuthenticatedIff(d: Disk, garbage: Option<Handle>, cmds: seq<Command>)
    ensures !Run(Start(d, garbage), cmds).mode.UnAuth? <==> exists k :: 0 <= k < |cmds| && RightPassword(cmds[k])
  {
    AuthenticatedFrom(Start(d, garbage), cmds);
  }

  lemma {:induction false} AuthenticatedFrom(s: Session, cmds: seq<Command>)
    requires s.mode.UnAuth?
    ensures !Run(s, cmds).mode.UnAuth? <==> exists k :: 0 <= k < |cmds| && RightPassword(cmds[k])
    decreases |cmds|
  {
    if cmds != [] {
      var s1 := Step(s, cmds[0].line, cmds[0].e).s;
      if RightPassword(cmds[0]) {
        StaysAuthenticated(s1, cmds[1..]);
      } else {
        AuthenticatedFrom(s1, cmds[1..]);
        if k :| 0 <= k < |cmds| && RightPassword(cmds[k]) {
          assert cmds[1..][k - 1] == cmds[k];
        }
        if k :| 0 <= k < |cmds[1..]| && RightPassword(cmds[1..][k]) {
          assert cmds[k + 1] == cmds[1..][k];
        }
      }
    }
  }

  // Before that every line but quit is refused.
  lemma {:induction false} RefusedBefore(s: Session, line: string, e: Env)
    requires s.mode.UnAuth? && FirstWord(line) != "quit"
    ensures Step(s, line, e).reply == if FirstWord(line) == "pass" && e.passOk then Ok else Err
    ensures Step(s, line, e).quit == NoQuit && Step(s, line, e).s.store == s.store
  {
  }

  // ---------------------------------------------------------- other commands

  function NukeLine(mbox: string): string { "nuke" + " " + mbox + "\n" }

  // nuke removes files of its mailbox and nothing else.
  lemma {:induction false} NukeStaysInItsMailbox(s: Session, mbox: Word, e: Env)
    requires s.mode.Blank?
    ensures var o := Step(s, NukeLine(mbox), e);
            var (d, d1) := (s.store.d, o.s.store.d);
            && d1.data == d.data && d1.next == d.next && o.s == s.(store := s.store.(d := d1))
            && (forall p :: p in d1.names ==> p in d.names && d1.names[p] == d.names[p])
            && (forall p :: p in d.names && p !in d1.names ==> p.mbox == mbox)
            && (forall p :: p in d.names && p.mbox == mbox && p in e.nuked ==> p !in d1.names)
            && o.reply == if e.unlinkErr then Err else Ok
  {
    TwoWords("nuke", mbox);
  }

  // control stop ends the server, for a local peer that gave the password.
  lemma {:induction false} DiesOnlyLocally(s: Session, line: string, e: Env)
    requires !s.mode.InData? && !s.mode.Dir?
    ensures Step(s, line, e).quit == PleaseDie <==>
            var args := Tokens(Strip(line));
            !s.mode.UnAuth? && e.local && |args| >= 2 && args[0] == "control" && args[1] == "stop"
  {
  }

  lemma {:induction false} ListsUnlessUnreadable(s: Session, mbox: Word, e: Env)
    requires s.mode.Blank?
    ensures var o := Step(s, "ls" + " " + mbox + "\n", e);
            o.s == s && (o.reply.Listing? <==> !e.dirErr) && (o.reply == Err <==> e.dirErr)
  {
    TwoWords("ls", mbox);
  }
}
