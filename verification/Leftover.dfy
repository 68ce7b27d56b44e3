/** A refused message that turns up: exactly which sessions let a message whose
    commit was refused reach a mailbox after all. */
module Leftover {
  import opened Text
  import opened Disk
  import opened DeliverySpec
  import opened BackendSpec

  predicate Commits(s: Session, c: Command) { s.mode.InLimbo? && Strip(c.line) == "commit" }

  predicate RollsBack(s: Session, c: Command) { s.mode.InLimbo? && Strip(c.line) == "rollback" }

  // The line announces the file f.
  predicate Announces(s: Session, c: Command, f: Path) {
    (s.mode.Blank? || s.mode.PreLimbo?) && Tokens(Strip(c.line)) == ["rcpt", f.mbox, f.index]
  }

  predicate AnnouncedAgain(s: Session, cmds: seq<Command>, f: Path)
    decreases |cmds|
  {
    cmds != [] && (Announces(s, cmds[0], f) || AnnouncedAgain(Step(s, cmds[0].line, cmds[0].e).s, cmds[1..], f))
  }

  // A commit is acknowledged before any rollback and before any commit that
  // fails in moving the files; a commit refused for a failed write does not
  // count either way.
  predicate CommittedFirst(s: Session, cmds: seq<Command>)
    decreases |cmds|
  {
    if cmds == [] then false
    else if Commits(s, cmds[0]) && !s.failed then Step(s, cmds[0].line, cmds[0].e).reply == Ok
    else if RollsBack(s, cmds[0]) then false
    else CommittedFirst(Step(s, cmds[0].line, cmds[0].e).s, cmds[1..])
  }

  // At some moment of the session the file is there.
  predicate Reaches(s: Session, cmds: seq<Command>, p: Path)
    decreases |cmds|
  {
    p in s.store.d.names || (cmds != [] && Reaches(Step(s, cmds[0].line, cmds[0].e).s, cmds[1..], p))
  }

  predicate IsPending(s: Session, f: Path) { f in s.store.p.filenames }

  // ---------------------------------------------------- one line of a session

  lemma {:induction false} RcptPends(s: Session, mbox: string, index: string, e: Env, f: Path)
    requires f.stage.Tmp?
    ensures var s1 := Rcpt(s, mbox, index, e).s;
            && (IsPending(s, f) ==> IsPending(s1, f))
            && (IsPending(s1, f) && !IsPending(s, f) ==> f.mbox == mbox && f.index == index)
  {
  }

  lemma {:induction false} BlankPends(s: Session, args: seq<string>, e: Env, f: Path)
    requires f.stage.Tmp? && args != [] && args != ["rcpt", f.mbox, f.index]
    ensures IsPending(BlankCommand(s, args, e).s, f) <==> IsPending(s, f)
  {
    if args[0] == "rcpt" && |args| == 3 {
      RcptPends(s, args[1], args[2], e, f);
      assert args == ["rcpt", args[1], args[2]];
    }
  }

  lemma {:induction false} LimboPends(s: Session, c: Command, f: Path)
    requires s.mode.InLimbo?
    ensures var s1 := Step(s, c.line, c.e).s;
            if (Commits(s, c) && !s.failed) || RollsBack(s, c) then !IsPending(s1, f) else IsPending(s1, f) <==> IsPending(s, f)
  {
    TokensSingle("commit");
    TokensSingle("rollback");
  }

  lemma {:induction false} LinePends(s: Session, c: Command, f: Path)
    requires f.stage.Tmp? && !Announces(s, c, f)
    ensures var s1 := Step(s, c.line, c.e).s;
            if (Commits(s, c) && !s.failed) || RollsBack(s, c) then !IsPending(s1, f) else IsPending(s1, f) <==> IsPending(s, f)
  {
    var args := Tokens(Strip(c.line));
    if s.mode.InLimbo? {
      LimboPends(s, c, f);
    } else if s.mode.Blank? && args != [] && args[0] != "quit" && args[0] != "control" {
      BlankPends(s, args, c.e, f);
    } else if s.mode.PreLimbo? && |args| == 3 && args[0] == "rcpt" {
      RcptPends(s, args[1], args[2], c.e, f);
      assert args == ["rcpt", args[1], args[2]];
    }
  }

  // A file that was not in cur comes there only by an acknowledged commit with
  // it pending.
  lemma {:induction false} LineFills(s: Session, c: Command, f: Path)
    requires Sound(s) && f.stage.Tmp? && CurOf(f) !in s.store.d.names
    ensures CurOf(f) in Step(s, c.line, c.e).s.store.d.names ==>
              Commits(s, c) && !s.failed && Step(s, c.line, c.e).reply == Ok && IsPending(s, f)
  {
    if CurOf(f) in Step(s, c.line, c.e).s.store.d.names {
      OnlyCommitFillsCur(s, c.line, c.e, CurOf(f));
      var names := s.store.p.filenames;
      var j :| 0 <= j < |names| && CurOf(f) == CurOf(names[j]);
      assert names[j] == f;
    }
  }

  lemma {:induction false} CommitFills(s: Session, c: Command, f: Path)
    requires Sound(s) && IsPending(s, f) && Commits(s, c) && !s.failed && Step(s, c.line, c.e).reply == Ok
    ensures CurOf(f) in Step(s, c.line, c.e).s.store.d.names
  {
    TokensSingle("commit");
    CommitMovesAll(s.store, c.e);
  }

  // ---------------------------------------------------------- the rest of it

  lemma {:induction false} NeverWithoutPending(s: Session, cmds: seq<Command>, f: Path)
    requires Sound(s) && f.stage.Tmp? && !IsPending(s, f) && CurOf(f) !in s.store.d.names && !AnnouncedAgain(s, cmds, f)
    ensures !Reaches(s, cmds, CurOf(f))
    decreases |cmds|
  {
    if cmds != [] {
      StepSound(s, cmds[0].line, cmds[0].e);
      LinePends(s, cmds[0], f);
      LineFills(s, cmds[0], f);
      NeverWithoutPending(Step(s, cmds[0].line, cmds[0].e).s, cmds[1..], f);
    }
  }

  lemma {:induction false} PendingReachesIff(s: Session, cmds: seq<Command>, f: Path)
    requires Sound(s) && f.stage.Tmp? && IsPending(s, f) && CurOf(f) !in s.store.d.names && !AnnouncedAgain(s, cmds, f)
    ensures Reaches(s, cmds, CurOf(f)) <==> CommittedFirst(s, cmds)
    decreases |cmds|
  {
    if cmds != [] {
      var c := cmds[0];
      var s1 := Step(s, c.line, c.e).s;
      StepSound(s, c.line, c.e);
      LinePends(s, c, f);
      LineFills(s, c, f);
      if Commits(s, c) && !s.failed && Step(s, c.line, c.e).reply == Ok {
        CommitFills(s, c, f);
      } else if IsPending(s1, f) {
        PendingReachesIff(s1, cmds[1..], f);
      } else {
        NeverWithoutPending(s1, cmds[1..], f);
      }
    }
  }

  // After any run, a commit of a message to f is refused.  Whatever follows on
  // the connection, unless f is announced again: the file reaches its mailbox
  // if and only if the refusal was for a failed write and a later commit is
  // acknowledged before any rollback, any failing commit, and the end.
  lemma {:induction false} RefusedMessageReachesIff(
      d: Disk, garbage: Option<Handle>, before: seq<Command>, refusal: Command, after: seq<Command>, f: Path)
    requires var s := Run(Start(d, garbage), before);
             && IsPending(s, f) && CurOf(f) !in s.store.d.names && Commits(s, refusal)
             && Step(s, refusal.line, refusal.e).reply == Err
             && !AnnouncedAgain(Step(s, refusal.line, refusal.e).s, after, f)
    ensures var s := Run(Start(d, garbage), before);
            var s1 := Step(s, refusal.line, refusal.e).s;
            Reaches(s1, after, CurOf(f)) <==> s.failed && CommittedFirst(s1, after)
  {
    var s := Run(Start(d, garbage), before);
    EveryRunIsSound(d, garbage, before, refusal.line, refusal.e);
    StepSound(s, refusal.line, refusal.e);
    var s1 := Step(s, refusal.line, refusal.e).s;
    var j :| 0 <= j < |s.store.p.filenames| && s.store.p.filenames[j] == f;
    LinePends(s, refusal, f);
    LineFills(s, refusal, f);
    if s.failed {
      PendingReachesIff(s1, after, f);
    } else {
      NeverWithoutPending(s1, after, f);
    }
  }
}
