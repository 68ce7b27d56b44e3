/** The mode machine of a backend session: what each line of the protocol
    between the mail front ends and a storage backend does. */
module BackendSpec {
  import opened Text
  import opened Disk
  import opened DeliverySpec

  datatype Mode = Blank | UnAuth | InLimbo | PreLimbo | InData | Dir

  datatype Quit = NoQuit | PleaseQuit | PleaseDie

  // Quiet: nothing is sent back.  Raised: the exception of Delivery::giveLine
  // escapes.  Listing and Message are positive answers with their payload.
  datatype Reply = Quiet | Ok | Err | Raised | Listing(files: map<string, nat>) | Message(text: string)

  datatype Session = Session(mode: Mode, failed: bool, store: Store)

  datatype Outcome = Outcome(s: Session, reply: Reply, quit: Quit)

  // The state in which a connection starts; d_fd is not initialised.
  function Start(d: Disk, garbage: Option<Handle>): Session {
    Session(UnAuth, false, Store(Pending([], [], TmpPath("", ""), garbage), d))
  }

  function Answer(s: Session, reply: Reply): Outcome { Outcome(s, reply, NoQuit) }

  // The files of a mailbox, by index, with their sizes.
  function ListMbox(d: Disk, mbox: string): map<string, nat> {
    map p | p in d.names && p.mbox == mbox && p.stage.Cur? :: p.index := |Content(d, d.names[p])|
  }

  function Control(s: Session, args: seq<string>, e: Env): Outcome {
    if !e.local then Answer(s, Err)
    else if |args| < 2 then Answer(s, Err)
    else if args[1] == "stop" then Outcome(s, Ok, PleaseDie)
    else if args[1] == "status" then Answer(s, Ok)
    else Answer(s, Err)
  }

  function PutLine(s: Session, line: string, e: Env): Outcome {
    if IsTerminator(line) then Answer(s.(mode := InLimbo), Ok)
    else if s.failed then Answer(s, Quiet)
    else
      var (store, res) := GiveLine(s.store, line, e);
      if res.None? then Answer(s, Raised)
      else Answer(s.(store := store, failed := !res.value), Quiet)
  }

  function Rcpt(s: Session, mbox: string, index: string, e: Env): Outcome {
    var (store, ok) := AddFile(s.store, mbox, index, e);
    if ok then Answer(s.(store := store, mode := PreLimbo), Ok)
    else Answer(s.(store := store), Err)
  }

  // A commit after a failed write is refused without resetting the delivery.
  function CommitCommand(s: Session, e: Env): Outcome {
    if s.failed then Answer(s.(mode := Blank, failed := false), Err)
    else
      var (store, ok) := Commit(s.store, e);
      Answer(Session(Blank, false, Reset(store)), if ok then Ok else Err)
  }

  function RollBackCommand(s: Session): Outcome {
    Answer(s.(mode := Blank, store := Reset(Reset(s.store))), Ok)
  }

  function BlankCommand(s: Session, args: seq<string>, e: Env): Outcome
    requires args != []
  {
    var d := s.store.d;
    if args[0] == "rcpt" && |args| == 3 then Rcpt(s, args[1], args[2], e)
    else if |args| == 2 && args[0] == "ls" then
      Answer(s, if e.dirErr then Err else Listing(ListMbox(d, args[1])))
    else if |args| == 2 && args[0] == "nuke" then
      var gone := set p | p in e.nuked && p.mbox == args[1];
      Answer(s.(store := s.store.(d := UnlinkSet(d, gone))), if e.unlinkErr then Err else Ok)
    else if |args| == 3 && args[0] == "del" then
      match DelMessage(d, args[1], args[2], e)
      case None => Answer(s, Err)
      case Some(d1) => Answer(s.(store := s.store.(d := d1)), Ok)
    else if |args| == 3 && args[0] == "get" then
      match if e.openErr then None else Lookup(d, Path(args[1], Cur, args[2]))
      case None => Answer(s, Err)
      case Some(text) => Answer(s, Message(text))
    else if args[0] == "ping" then Answer(s, Ok)
    else if args[0] == "stat" then Answer(s, if e.dirErr then Err else Ok)
    else if args[0] == "dir" then Answer(s.(mode := Dir), Ok)
    else if args[0] == "readonly" then Answer(s, Ok)
    else if args[0] == "readwrite" then Answer(s, if e.unlinkErr then Err else Ok)
    else Answer(s, Err)
  }

  // One command line outside the data phase, already stripped and tokenised.
  function Execute(s: Session, stripped: string, args: seq<string>, e: Env): Outcome {
    if args == [] then Answer(s, Err)
    else if args[0] == "quit" then Outcome(s, Ok, PleaseQuit)
    else if s.mode.UnAuth? then
      if args[0] == "pass" && e.passOk then Answer(s.(mode := Blank), Ok)
      else Answer(s, Err)
    else if args[0] == "control" then Control(s, args, e)
    else if s.mode.InLimbo? then
      if stripped == "commit" then CommitCommand(s, e)
      else if stripped == "rollback" then RollBackCommand(s)
      else Answer(s, Err)
    else if s.mode.PreLimbo? then
      if args[0] == "rcpt" && |args| == 3 then Rcpt(s, args[1], args[2], e)
      else if stripped == "put" then Answer(s.(mode := InData, failed := false), Ok)
      else Answer(s, Err)
    else BlankCommand(s, args, e)
  }

  function Step(s: Session, line: string, e: Env): Outcome {
    if s.mode.InData? then PutLine(s, line, e)
    else if s.mode.Dir? then Answer(s.(mode := Blank), Ok)
    else Execute(s, Strip(line), Tokens(Strip(line)), e)
  }

  // The connection is closed and the Delivery destroyed, in whatever state.
  function End(s: Session): Disk { Close(s.store).d }

  // ------------------------------------------------- invariant over all runs

  datatype Command = Command(line: string, e: Env)

  function Run(s: Session, cmds: seq<Command>): Session
    decreases |cmds|
  {
    if cmds == [] then s else Run(Step(s, cmds[0].line, cmds[0].e).s, cmds[1..])
  }

  // Reachable sessions: data phases have a recipient, a recipient has an open
  // descriptor, nothing is pending before authentication, and pending files
  // are all still in tmp.
  ghost predicate Sound(s: Session) {
    && |s.store.p.filenames| == |s.store.p.destinations|
    && AllTmp(s.store.p.filenames, 0)
    && (s.mode.PreLimbo? || s.mode.InData? || s.mode.InLimbo? ==> s.store.p.destinations != [])
    && (s.mode.UnAuth? ==> s.store.p.destinations == [])
    && (s.store.p.destinations != [] ==> s.store.p.fd.Some?)
  }

  lemma {:induction false} RcptSound(s: Session, mbox: string, index: string, e: Env)
    requires Sound(s) && (s.mode.PreLimbo? || s.mode.Blank?)
    ensures Sound(Rcpt(s, mbox, index, e).s)
  {
  }

  lemma {:induction false} BlankSound(s: Session, args: seq<string>, e: Env)
    requires Sound(s) && s.mode.Blank? && args != []
    ensures Sound(BlankCommand(s, args, e).s)
    ensures BlankCommand(s, args, e).reply != Raised
  {
    if args[0] == "rcpt" && |args| == 3 {
      RcptSound(s, args[1], args[2], e);
    }
  }

  lemma {:induction false} ExecuteSound(s: Session, stripped: string, args: seq<string>, e: Env)
    requires Sound(s) && !s.mode.InData? && !s.mode.Dir?
    ensures Sound(Execute(s, stripped, args, e).s)
    ensures Execute(s, stripped, args, e).reply != Raised
  {
    if args != [] {
      if s.mode.PreLimbo? && |args| == 3 {
        RcptSound(s, args[1], args[2], e);
      } else if s.mode.Blank? {
        BlankSound(s, args, e);
      }
    }
  }

  lemma {:induction false} StepSound(s: Session, line: string, e: Env)
    requires Sound(s)
    ensures Sound(Step(s, line, e).s)
    ensures Step(s, line, e).reply != Raised
  {
    if !s.mode.InData? && !s.mode.Dir? {
      ExecuteSound(s, Strip(line), Tokens(Strip(line)), e);
    }
  }

  // In no run of any commands, with any failures, does a write hit a closed
  // descriptor: the exception "Attempt to add line after fd was closed
  // already" is never raised.
  lemma {:induction false} EveryRunIsSound(d: Disk, garbage: Option<Handle>, cmds: seq<Command>, line: string, e: Env)
    ensures Sound(Run(Start(d, garbage), cmds))
    ensures Step(Run(Start(d, garbage), cmds), line, e).reply != Raised
  {
    RunSound(Start(d, garbage), cmds);
    StepSound(Run(Start(d, garbage), cmds), line, e);
  }

  lemma {:induction false} RunSound(s: Session, cmds: seq<Command>)
    requires Sound(s)
    ensures Sound(Run(s, cmds))
    decreases |cmds|
  {
    if cmds != [] {
      StepSound(s, cmds[0].line, cmds[0].e);
      RunSound(Step(s, cmds[0].line, cmds[0].e).s, cmds[1..]);
    }
  }

  // Until the password is accepted no command touches the disk or the
  // delivery, over any run.
  lemma {:induction false} NothingBeforeAuthentication(s: Session, cmds: seq<Command>)
    requires Sound(s) && s.mode.UnAuth?
    requires forall i :: 0 <= i < |cmds| ==> !cmds[i].e.passOk
    ensures Run(s, cmds) == s && End(Run(s, cmds)).names == s.store.d.names
    decreases |cmds|
  {
    if cmds != [] {
      NothingBeforeAuthentication(s, cmds[1..]);
    }
  }

  // ----------------------------------------------------- files reach cur only
  // by a commit that is acknowledged

  // The step puts the file at p into cur (or puts another one in its place).
  ghost predicate Appears(before: Disk, after: Disk, p: Path) {
    && p.stage.Cur?
    && p in after.names
    && (p in before.names ==> before.names[p] != after.names[p])
  }

  ghost predicate CommitsPending(s: Session, line: string, e: Env, p: Path) {
    && s.mode.InLimbo? && Strip(line) == "commit" && !s.failed
    && Step(s, line, e).reply == Ok
    && p in CurNames(s.store.p.filenames)
  }

  lemma {:induction false} OnlyCommitFillsCur(s: Session, line: string, e: Env, p: Path)
    requires Sound(s)
    requires Appears(s.store.d, Step(s, line, e).s.store.d, p)
    ensures CommitsPending(s, line, e, p)
  {
    if !s.mode.InData? && !s.mode.Dir? {
      ExecuteFillsCur(s, Strip(line), Tokens(Strip(line)), e, p);
    }
  }

  lemma {:induction false} ExecuteFillsCur(s: Session, stripped: string, args: seq<string>, e: Env, p: Path)
    requires Sound(s) && !s.mode.InData? && !s.mode.Dir?
    requires Appears(s.store.d, Execute(s, stripped, args, e).s.store.d, p)
    ensures s.mode.InLimbo? && stripped == "commit" && !s.failed
    ensures Execute(s, stripped, args, e).reply == Ok
    ensures p in CurNames(s.store.p.filenames)
  {
    if s.mode.InLimbo? && stripped == "commit" {
      CommitFillsCur(s, e, p);
    }
  }

  lemma {:induction false} CommitFillsCur(s: Session, e: Env, p: Path)
    requires Sound(s) && Appears(s.store.d, CommitCommand(s, e).s.store.d, p)
    ensures !s.failed && CommitCommand(s, e).reply == Ok
    ensures p in CurNames(s.store.p.filenames)
  {
    var names := s.store.p.filenames;
    if !Touched(names, 0, p) {
      CommitFrame(s.store, e, p);
    }
    var m := MoveFrom(names, s.store.d, 0, e.renameErrAt);
    if !m.ok && p in m.d.names && (p in s.store.d.names ==> m.d.names[p] != s.store.d.names[p]) {
      MovedIsListed(names, s.store.d, 0, e.renameErrAt, p);
    }
  }

  // Over any run, up to any end of the session: a file that is in cur at the
  // end was there at the start, or some step of the run was an acknowledged
  // commit with that file pending.
  ghost predicate CommittedIn(s: Session, cmds: seq<Command>, p: Path)
    decreases |cmds|
  {
    cmds != [] &&
    (CommitsPending(s, cmds[0].line, cmds[0].e, p) || CommittedIn(Step(s, cmds[0].line, cmds[0].e).s, cmds[1..], p))
  }

  lemma {:induction false} CurHoldsOnlyCommitted(s: Session, cmds: seq<Command>, p: Path)
    requires Sound(s) && p.stage.Cur? && !CommittedIn(s, cmds, p)
    ensures var d := Run(s, cmds).store.d;
            && (p in d.names ==> p in s.store.d.names && d.names[p] == s.store.d.names[p])
            && (p in End(Run(s, cmds)).names <==> p in d.names)
    decreases |cmds|
  {
    RunSound(s, cmds);
    if cmds != [] {
      var s1 := Step(s, cmds[0].line, cmds[0].e).s;
      StepSound(s, cmds[0].line, cmds[0].e);
      CurHoldsOnlyCommitted(s1, cmds[1..], p);
      if Appears(s.store.d, s1.store.d, p) {
        OnlyCommitFillsCur(s, cmds[0].line, cmds[0].e, p);
      }
    }
  }

  // ---------------------------------------------------- commit is atomic

  // A commit is all or nothing: +OK leaves every pending file in cur with the
  // bytes it had in tmp; a failure on close or on any rename leaves none of
  // them in cur or tmp; and a refusal after a failed write leaves none once
  // the session has ended.
  lemma {:induction false} CommitIsAtomic(s: Session, e: Env)
    requires Sound(s) && s.mode.InLimbo? && NotYetInCur(s.store.p.filenames, s.store.d)
    ensures var o := CommitCommand(s, e);
            && (o.reply == Ok || o.reply == Err)
            && (o.reply == Ok ==> forall f :: f in s.store.p.filenames ==>
                  && f in s.store.d.names && Lookup(o.s.store.d, CurOf(f)) == Lookup(s.store.d, f)
                  && f !in End(o.s).names && CurOf(f) in End(o.s).names)
            && (o.reply == Err ==> forall f :: f in s.store.p.filenames ==>
                  && CurOf(f) !in o.s.store.d.names
                  && (!s.failed ==> f !in o.s.store.d.names)
                  && f !in End(o.s).names && CurOf(f) !in End(o.s).names)
  {
    if !s.failed {
      if Commit(s.store, e).1 {
        CommitMovesAll(s.store, e);
      } else {
        FailedCommitLeavesNothing(s.store, e);
      }
    }
  }

  // -------------------------------------- the command lines a client sends

  function RcptLine(mbox: string, index: string): string { "rcpt" + " " + mbox + " " + index + "\n" }

  lemma {:induction false} RcptLineIsRcpt(s: Session, mbox: string, index: string, e: Env)
    requires IsWord(mbox) && IsWord(index)
    requires s.mode.Blank? || s.mode.PreLimbo?
    ensures Step(s, RcptLine(mbox, index), e) == Rcpt(s, mbox, index, e)
  {
    ThreeWords("rcpt", mbox, index);
  }

  // In the other modes a recipient is refused, or taken as message text.
  lemma {:induction false} RcptLineElsewhere(s: Session, mbox: string, index: string, e: Env)
    requires IsWord(mbox) && IsWord(index)
    requires s.mode.UnAuth? || s.mode.InLimbo? || s.mode.InData?
    ensures Step(s, RcptLine(mbox, index), e).reply != Ok
  {
    ThreeWords("rcpt", mbox, index);
    assert RcptLine(mbox, index)[0] == 'r';
  }

  lemma {:induction false} PutLineIsPut(s: Session, e: Env)
    requires !s.mode.InData? && !s.mode.Dir?
    ensures Step(s, "put\n", e) ==
            if s.mode.PreLimbo? then Answer(s.(mode := InData, failed := false), Ok) else Answer(s, Err)
  {
    assert "put\n" == "put" + "\n";
    OneWord("put");
  }

  lemma {:induction false} CommitLineIsCommit(s: Session, e: Env)
    requires !s.mode.InData? && !s.mode.Dir?
    ensures Step(s, "commit\n", e) == if s.mode.InLimbo? then CommitCommand(s, e) else Answer(s, Err)
  {
    assert "commit\n" == "commit" + "\n";
    OneWord("commit");
    assert Step(s, "commit\n", e) == Execute(s, "commit", ["commit"], e);
  }

  lemma {:induction false} RollbackLineIsRollback(s: Session, e: Env)
    requires s.mode.InLimbo?
    ensures Step(s, "rollback\n", e) == RollBackCommand(s)
  {
    assert "rollback\n" == "rollback" + "\n";
    OneWord("rollback");
    assert Step(s, "rollback\n", e) == Execute(s, "rollback", ["rollback"], e);
  }

  lemma {:induction false} DotLine(s: Session, e: Env)
    requires !s.mode.Dir?
    ensures Step(s, ".\n", e) ==
            if s.mode.InData? then Answer(s.(mode := InLimbo), Ok) else Answer(s, Err)
  {
    assert ".\n" == "." + "\n";
    OneWord(".");
  }

  // ------------------------------------------------- the refused message

  const FINE := Env(true, true, false, false, false, false, false, 999, false, {})

  // Session of a client that announced recipient a and whose message text
  // failed to be written.
  function WriteFailed(a: Path): Session {
    Session(InLimbo, true, Store(Pending([a.mbox], [a], a, Some(Handle(0, 0))), Disk(map[a := 0], map[0 := ""], 1)))
  }

  lemma {:induction false} WriteFailedIsReached(a: Path, text: string)
    requires a.stage.Tmp? && IsWord(a.mbox) && IsWord(a.index) && IsDataLine(text)
    ensures var s1 := Step(Start(EMPTY, None).(mode := Blank), RcptLine(a.mbox, a.index), FINE);
            var s2 := Step(s1.s, "put\n", FINE);
            var s3 := Step(s2.s, text, FINE.(writeErr := true));
            var s4 := Step(s3.s, ".\n", FINE);
            s1.reply == Ok && s2.reply == Ok && s3.reply == Quiet && s4.reply == Ok && s4.s == WriteFailed(a)
  {
    var s0 := Start(EMPTY, None).(mode := Blank);
    RcptLineIsRcpt(s0, a.mbox, a.index, FINE);
    var s1 := Rcpt(s0, a.mbox, a.index, FINE).s;
    PutLineIsPut(s1, FINE);
    var s2 := Step(s1, "put\n", FINE).s;
    DotLine(Step(s2, text, FINE.(writeErr := true)).s, FINE);
  }

  // The next message on the same connection, for recipient b and without text.
  function NextMessage(a: Path, b: Path): Session {
    var p := Pending([a.mbox, b.mbox], [a, b], a, Some(Handle(0, 0)));
    Session(InLimbo, false, Store(p, Disk(map[a := 0, b := 0], map[0 := ""], 1)))
  }

  lemma {:induction false} SecondRecipient(a: Path, b: Path)
    requires a.stage.Tmp? && b.stage.Tmp? && a != b
    ensures Rcpt(WriteFailed(a).(mode := Blank, failed := false), b.mbox, b.index, FINE) ==
            Answer(NextMessage(a, b).(mode := PreLimbo), Ok)
  {
    var s1 := Rcpt(WriteFailed(a).(mode := Blank, failed := false), b.mbox, b.index, FINE).s;
    assert s1.store.d.names == map[a := 0, b := 0];
  }

  lemma {:induction false} NextMessageIsReached(a: Path, b: Path)
    requires a.stage.Tmp? && b.stage.Tmp? && a != b && IsWord(b.mbox) && IsWord(b.index)
    ensures var s0 := Step(WriteFailed(a), "commit\n", FINE);
            var s1 := Step(s0.s, RcptLine(b.mbox, b.index), FINE);
            var s2 := Step(s1.s, "put\n", FINE);
            var s3 := Step(s2.s, ".\n", FINE);
            s0.reply == Err && s1.reply == Ok && s2.reply == Ok && s3.reply == Ok && s3.s == NextMessage(a, b)
  {
    CommitLineIsCommit(WriteFailed(a), FINE);
    var s0 := WriteFailed(a).(mode := Blank, failed := false);
    RcptLineIsRcpt(s0, b.mbox, b.index, FINE);
    SecondRecipient(a, b);
    PutLineIsPut(NextMessage(a, b).(mode := PreLimbo), FINE);
    DotLine(NextMessage(a, b).(mode := InData), FINE);
  }

  // What the missing reset leads to: the commit of that next message, which
  // is acknowledged, puts an empty file into the mailbox of recipient a, whose
  // message was refused.
  lemma {:induction false} RefusedMessageIsDeliveredLater(a: Path, b: Path)
    requires a.stage.Tmp? && b.stage.Tmp? && a != b
    ensures var last := Step(NextMessage(a, b), "commit\n", FINE);
            last.reply == Ok && Lookup(last.s.store.d, CurOf(a)) == Some("")
  {
    var s := NextMessage(a, b);
    CommitLineIsCommit(s, FINE);
    MoveBoth(a, b, s.store.d);
    CommitMovesAll(s.store, FINE);
    assert a in s.store.p.filenames;
  }

  lemma {:induction false} RunSteps(s: Session, cmds: seq<Command>, c: Command)
    ensures Run(s, cmds + [c]) == Step(Run(s, cmds), c.line, c.e).s
    decreases |cmds|
  {
    if cmds == [] {
      assert Run(Step(s, c.line, c.e).s, [c][1..]) == Step(s, c.line, c.e).s;
      assert cmds + [c] == [c];
    } else {
      assert (cmds + [c])[1..] == cmds[1..] + [c];
      RunSteps(Step(s, cmds[0].line, cmds[0].e).s, cmds[1..], c);
    }
  }

  // The whole run: a message to a whose text fails to be written is refused,
  // the next message on the connection, to b, is acknowledged, and then there
  // is a file in the mailbox of a.
  lemma {:induction false} RefusedMessageTurnsUp(a: Path, b: Path, text: string) returns (first: seq<Command>, second: seq<Command>)
    requires a.stage.Tmp? && b.stage.Tmp? && a != b && IsDataLine(text)
    requires IsWord(a.mbox) && IsWord(a.index) && IsWord(b.mbox) && IsWord(b.index)
    ensures var s := Run(Start(EMPTY, None).(mode := Blank), first);
            var refused := Step(s, "commit\n", FINE);
            var t := Run(refused.s, second);
            var accepted := Step(t, "commit\n", FINE);
            && refused.reply == Err && accepted.reply == Ok
            && Lookup(accepted.s.store.d, CurOf(a)) == Some("")
  {
    var s0 := Start(EMPTY, None).(mode := Blank);
    var r, p, w, dot := Command(RcptLine(a.mbox, a.index), FINE), Command("put\n", FINE),
                        Command(text, FINE.(writeErr := true)), Command(".\n", FINE);
    first := [] + [r] + [p] + [w] + [dot];
    RunSteps(s0, [], r);
    RunSteps(s0, [] + [r], p);
    RunSteps(s0, [] + [r] + [p], w);
    RunSteps(s0, [] + [r] + [p] + [w], dot);
    WriteFailedIsReached(a, text);
    assert Run(s0, first) == WriteFailed(a);
    second := SecondMessage(a, b);
    RefusedMessageIsDeliveredLater(a, b);
  }

  lemma {:induction false} SecondMessage(a: Path, b: Path) returns (second: seq<Command>)
    requires a.stage.Tmp? && b.stage.Tmp? && a != b && IsWord(b.mbox) && IsWord(b.index)
    ensures Step(WriteFailed(a), "commit\n", FINE).reply == Err
    ensures Run(Step(WriteFailed(a), "commit\n", FINE).s, second) == NextMessage(a, b)
  {
    var s1 := Step(WriteFailed(a), "commit\n", FINE).s;
    var r, p, dot := Command(RcptLine(b.mbox, b.index), FINE), Command("put\n", FINE), Command(".\n", FINE);
    second := [] + [r] + [p] + [dot];
    RunSteps(s1, [], r);
    RunSteps(s1, [] + [r], p);
    RunSteps(s1, [] + [r] + [p], dot);
    NextMessageIsReached(a, b);
  }

  lemma {:induction false} MoveBoth(x: Path, y: Path, d: Disk)
    requires x.stage.Tmp? && y.stage.Tmp? && CurOf(x) != CurOf(y)
    requires d.names == map[x := 0, y := 0]
    ensures MoveFrom([x, y], d, 0, 999).ok
  {
    var d1 := Rename(d, x, CurOf(x)).value;
    assert [x, y][0 := CurOf(x)] == [CurOf(x), y];
    var d2 := Rename(d1, y, CurOf(y)).value;
    assert MoveFrom([CurOf(x), CurOf(y)], d2, 2, 999).ok;
    assert [CurOf(x), y][1 := CurOf(y)] == [CurOf(x), CurOf(y)];
    assert MoveFrom([CurOf(x), y], d1, 1, 999).ok;
  }
}
