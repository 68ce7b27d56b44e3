/** The other sessions on a backend's disk: whatever they do, as long as they
    neither announce nor delete names of this message, they spare its files,
    their bytes and its inode. */
module Neighbours {
  import opened Text
  import opened Disk
  import opened DeliverySpec
  import BackendSpec
  import opened TalkerSpec
  import opened Sharing

  // ------------------------------------------------------------- the disk

  ghost predicate Safe(d: Disk, tag: Word) { Wf(d) && Private(d, tag) }

  // An inode in use that is none of this message's.
  ghost predicate Clear(d: Disk, ino: Inode, tag: Word) {
    ino < d.next && forall p :: p in d.names && Carries(p, tag) ==> d.names[p] != ino
  }

  // What the owner of the message (own) or another session leaves of a disk.
  ghost predicate Kept(d: Disk, d1: Disk, tag: Word, own: bool) {
    && Safe(d1, tag) && d.next <= d1.next
    && (forall ino :: Clear(d, ino, tag) ==> Clear(d1, ino, tag))
    && (own || Respects(d, d1, tag))
  }

  lemma {:induction false} KeptTwice(d: Disk, d1: Disk, d2: Disk, tag: Word, own: bool)
    requires Kept(d, d1, tag, own) && Kept(d1, d2, tag, own)
    ensures Kept(d, d2, tag, own)
  {
  }

  lemma {:induction false} CreateKept(d: Disk, path: Path, tag: Word)
    requires Safe(d, tag)
    ensures var (d1, ino) := Create(d, path);
            && Kept(d, d1, tag, Carries(path, tag)) && ino < d1.next
            && (!Carries(path, tag) ==> Clear(d1, ino, tag))
  {
    if path !in d.names {
      FreshIsPrivate(d, path, tag);
    }
  }

  lemma {:induction false} FreshIsPrivate(d: Disk, path: Path, tag: Word)
    requires Safe(d, tag) && path !in d.names
    ensures Safe(Create(d, path).0, tag)
  {
    var d1 := Create(d, path).0;
    forall p | p in d1.names
      ensures d1.names[p] <= d.next && (d1.names[p] == d.next <==> p == path)
    {
    }
  }

  lemma {:induction false} UnlinkKept(d: Disk, ps: set<Path>, tag: Word, own: bool)
    requires Safe(d, tag) && (own || forall p :: p in ps ==> !Carries(p, tag))
    ensures Kept(d, UnlinkSet(d, ps), tag, own)
  {
  }

  lemma {:induction false} LinkKept(d: Disk, from: Path, to: Path, tag: Word)
    requires Safe(d, tag) && Link(d, from, to).Some? && (Carries(from, tag) <==> Carries(to, tag))
    ensures Kept(d, Link(d, from, to).value, tag, Carries(to, tag))
  {
  }

  lemma {:induction false} RenameKept(d: Disk, from: Path, tag: Word)
    requires Safe(d, tag) && Rename(d, from, CurOf(from)).Some?
    ensures Kept(d, Rename(d, from, CurOf(from)).value, tag, Carries(from, tag))
  {
    assert Carries(CurOf(from), tag) <==> Carries(from, tag);
  }

  lemma {:induction false} WriteKept(d: Disk, ino: Inode, off: nat, s: string, tag: Word, own: bool)
    requires Safe(d, tag) && ino < d.next && (own || Clear(d, ino, tag))
    ensures Kept(d, Write(d, ino, off, s), tag, own)
  {
  }

  // The names are all of this message, or none is.
  ghost predicate OneKind(names: seq<Path>, tag: Word, own: bool) {
    forall j :: 0 <= j < |names| ==> Carries(names[j], tag) == own
  }

  lemma {:induction false} MoveKept(names: seq<Path>, d: Disk, i: nat, errAt: nat, tag: Word, own: bool)
    requires Safe(d, tag) && OneKind(names, tag, own)
    ensures var m := MoveFrom(names, d, i, errAt); Kept(d, m.d, tag, own) && OneKind(m.filenames, tag, own)
    decreases |names| - i
  {
    if i < |names| {
      if names[i].stage.Cur? {
        MoveKept(names, d, i + 1, errAt, tag, own);
      } else {
        match MoveOne(d, names[i], i == errAt) {
          case None =>
          case Some(d1) =>
            RenameKept(d, names[i], tag);
            assert Carries(CurOf(names[i]), tag) == Carries(names[i], tag);
            MoveKept(names[i := CurOf(names[i])], d1, i + 1, errAt, tag, own);
            KeptTwice(d, d1, MoveFrom(names, d, i, errAt).d, tag, own);
        }
      }
    }
  }

  // ---------------------------------------------------------- one delivery

  // All names of the delivery are of this message, or none is; and in the
  // second case the inode that is written is none of this message's.
  ghost predicate Belongs(s: Store, tag: Word, own: bool) {
    && OneKind(s.p.filenames, tag, own)
    && (s.p.destinations != [] ==>
          && Carries(s.p.first, tag) == own
          && (s.p.fd.Some? ==> s.p.fd.value.ino < s.d.next && (own || Clear(s.d, s.p.fd.value.ino, tag))))
  }

  lemma {:induction false} BelongsLater(s: Store, d1: Disk, tag: Word, own: bool)
    requires Belongs(s, tag, own) && Kept(s.d, d1, tag, false)
    ensures Belongs(s.(d := d1), tag, own)
  {
  }

  lemma {:induction false} AddFileKept(s: Store, mbox: string, index: string, e: Env, tag: Word, own: bool)
    requires Safe(s.d, tag) && Belongs(s, tag, own) && (tag + "." <= index <==> own)
    ensures var s1 := AddFile(s, mbox, index, e).0; Kept(s.d, s1.d, tag, own) && Belongs(s1, tag, own)
  {
    var path := TmpPath(mbox, index);
    if s.p.destinations == [] {
      CreateKept(s.d, path, tag);
      UnlinkKept(s.d, {}, tag, own);
    } else {
      UnlinkKept(s.d, {path}, tag, own);
      var d := Unlink(s.d, path);
      assert d == UnlinkSet(s.d, {path});
      if Link(d, s.p.first, path).Some? {
        LinkKept(d, s.p.first, path, tag);
        KeptTwice(s.d, d, Link(d, s.p.first, path).value, tag, own);
      }
    }
  }

  lemma {:induction false} GiveLineKept(s: Store, line: string, e: Env, tag: Word, own: bool)
    requires Safe(s.d, tag) && Belongs(s, tag, own) && s.p.destinations != []
    ensures var s1 := GiveLine(s, line, e).0; Kept(s.d, s1.d, tag, own) && Belongs(s1, tag, own)
  {
    if s.p.fd.Some? {
      WriteKept(s.d, s.p.fd.value.ino, s.p.fd.value.off, line, tag, own);
    }
  }

  lemma {:induction false} ListKept(s: Store, tag: Word, own: bool)
    requires Safe(s.d, tag) && OneKind(s.p.filenames, tag, own)
    ensures Kept(s.d, UnlinkAll(s).d, tag, own)
  {
    forall p | p in Range(s.p.filenames)
      ensures Carries(p, tag) == own
    {
      var j :| 0 <= j < |s.p.filenames| && s.p.filenames[j] == p;
    }
    UnlinkKept(s.d, Range(s.p.filenames), tag, own);
  }

  lemma {:induction false} CommitKept(s: Store, e: Env, tag: Word, own: bool)
    requires Safe(s.d, tag) && Belongs(s, tag, own)
    ensures var s1 := Commit(s, e).0; Kept(s.d, s1.d, tag, own) && OneKind(s1.p.filenames, tag, own)
  {
    if s.p.fd.None? || e.closeErr {
      ListKept(s, tag, own);
    } else {
      var m := MoveFrom(s.p.filenames, s.d, 0, e.renameErrAt);
      MoveKept(s.p.filenames, s.d, 0, e.renameErrAt, tag, own);
      if !m.ok {
        var s1 := Store(s.p.(fd := None, filenames := m.filenames), m.d);
        ListKept(s1, tag, own);
        KeptTwice(s.d, m.d, UnlinkAll(s1).d, tag, own);
      }
    }
  }

  lemma {:induction false} CommitCommandKept(s: BackendSpec.Session, e: Env, tag: Word, own: bool)
    requires Safe(s.store.d, tag) && Belongs(s.store, tag, own)
    ensures var s1 := BackendSpec.CommitCommand(s, e).s; Kept(s.store.d, s1.store.d, tag, own) && Belongs(s1.store, tag, own)
  {
    UnlinkKept(s.store.d, {}, tag, own);
    if !s.failed {
      var s1 := Commit(s.store, e).0;
      CommitKept(s.store, e, tag, own);
      ListKept(s1, tag, own);
      KeptTwice(s.store.d, s1.d, Reset(s1).d, tag, own);
    }
  }

  lemma {:induction false} RollBackKept(s: BackendSpec.Session, tag: Word, own: bool)
    requires Safe(s.store.d, tag) && Belongs(s.store, tag, own)
    ensures var s1 := BackendSpec.RollBackCommand(s).s; Kept(s.store.d, s1.store.d, tag, own) && Belongs(s1.store, tag, own)
  {
    var s1 := Reset(s.store);
    ListKept(s.store, tag, own);
    ListKept(s1, tag, own);
    KeptTwice(s.store.d, s1.d, Reset(s1).d, tag, own);
  }

  // ------------------------------------------------- one line of a neighbour

  function Gone(mbox: string, e: Env): set<Path> { set p | p in e.nuked && p.mbox == mbox }

  // What a command may do to the delivery and the disk.
  ghost predicate Effect(s: BackendSpec.Session, after: Store, args: seq<string>, e: Env) {
    || after == s.store
    || (|args| == 3 && args[0] == "rcpt" && after == AddFile(s.store, args[1], args[2], e).0)
    || (|args| == 3 && args[0] == "del" && after == s.store.(d := UnlinkSet(s.store.d, {Path(args[1], Cur, args[2])})))
    || (|args| == 2 && after == s.store.(d := UnlinkSet(s.store.d, Gone(args[1], e))))
    || after == BackendSpec.CommitCommand(s, e).s.store
    || after == BackendSpec.RollBackCommand(s).s.store
  }

  lemma {:induction false} BlankEffect(s: BackendSpec.Session, args: seq<string>, e: Env)
    requires args != []
    ensures Effect(s, BackendSpec.BlankCommand(s, args, e).s.store, args, e)
  {
    if |args| == 3 {
      assert Unlink(s.store.d, Path(args[1], Cur, args[2])) == UnlinkSet(s.store.d, {Path(args[1], Cur, args[2])});
    }
  }

  lemma {:induction false} ExecuteEffect(s: BackendSpec.Session, stripped: string, args: seq<string>, e: Env)
    ensures Effect(s, BackendSpec.Execute(s, stripped, args, e).s.store, args, e)
  {
    if args != [] {
      BlankEffect(s, args, e);
    }
  }

  // The line neither announces nor deletes a name of this message.
  ghost predicate Minds(s: BackendSpec.Session, line: string, e: Env, tag: Word) {
    s.mode.InData? || s.mode.Dir? || MindsCommand(Tokens(Strip(line)), e, tag)
  }

  ghost predicate MindsCommand(args: seq<string>, e: Env, tag: Word) {
    && (|args| == 3 && (args[0] == "rcpt" || args[0] == "del") ==> !(tag + "." <= args[2]))
    && forall p :: p in e.nuked ==> !Carries(p, tag)
  }

  lemma {:induction false} DeletionKept(s: Store, ps: set<Path>, tag: Word)
    requires Safe(s.d, tag) && Belongs(s, tag, false) && forall p :: p in ps ==> !Carries(p, tag)
    ensures var d1 := UnlinkSet(s.d, ps); Kept(s.d, d1, tag, false) && Belongs(s.(d := d1), tag, false)
  {
    UnlinkKept(s.d, ps, tag, false);
    BelongsLater(s, UnlinkSet(s.d, ps), tag, false);
  }

  lemma {:induction false} EffectKept(s: BackendSpec.Session, after: Store, args: seq<string>, e: Env, tag: Word)
    requires Safe(s.store.d, tag) && Belongs(s.store, tag, false)
    requires Effect(s, after, args, e) && MindsCommand(args, e, tag)
    ensures Kept(s.store.d, after.d, tag, false) && Belongs(after, tag, false)
  {
    if after == s.store {
      UnlinkKept(s.store.d, {}, tag, false);
    } else if after == BackendSpec.CommitCommand(s, e).s.store {
      CommitCommandKept(s, e, tag, false);
    } else if after == BackendSpec.RollBackCommand(s).s.store {
      RollBackKept(s, tag, false);
    } else if |args| == 3 && args[0] == "rcpt" {
      AddFileKept(s.store, args[1], args[2], e, tag, false);
    } else {
      DeletionKept(s.store, if |args| == 3 then {Path(args[1], Cur, args[2])} else Gone(args[1], e), tag);
    }
  }

  lemma {:induction false} StepKept(s: BackendSpec.Session, line: string, e: Env, tag: Word)
    requires BackendSpec.Sound(s) && Safe(s.store.d, tag) && Belongs(s.store, tag, false) && Minds(s, line, e, tag)
    ensures var s1 := BackendSpec.Step(s, line, e).s;
            Kept(s.store.d, s1.store.d, tag, false) && Belongs(s1.store, tag, false)
  {
    UnlinkKept(s.store.d, {}, tag, false);
    if s.mode.InData? {
      GiveLineKept(s.store, line, e, tag, false);
    } else if !s.mode.Dir? {
      var args := Tokens(Strip(line));
      ExecuteEffect(s, Strip(line), args, e);
      EffectKept(s, BackendSpec.Execute(s, Strip(line), args, e).s.store, args, e, tag);
    }
  }

  lemma {:induction false} EndKept(s: BackendSpec.Session, tag: Word)
    requires Safe(s.store.d, tag) && Belongs(s.store, tag, false)
    ensures Kept(s.store.d, BackendSpec.End(s), tag, false)
  {
    ListKept(s.store.(p := s.store.p.(fd := None)), tag, false);
  }

  // ----------------------------------------------- any number of neighbours

  // The disk and the other sessions; each session works on this disk.
  datatype World = World(d: Disk, ss: seq<BackendSpec.Session>)

  // A session reads a line, comes, or ends and makes room for another.
  datatype Move = Says(i: nat, line: string, e: Env) | Comes(garbage: Option<Handle>) | Ends(i: nat, garbage: Option<Handle>)

  function At(w: World, i: nat): BackendSpec.Session
    requires i < |w.ss|
  {
    w.ss[i].(store := w.ss[i].store.(d := w.d))
  }

  function Turn(w: World, m: Move): World {
    match m
    case Comes(garbage) => w.(ss := w.ss + [BackendSpec.Start(w.d, garbage)])
    case Says(i, line, e) =>
      if i >= |w.ss| then w
      else var s := BackendSpec.Step(At(w, i), line, e).s; World(s.store.d, w.ss[i := s])
    case Ends(i, garbage) =>
      if i >= |w.ss| then w
      else var d := BackendSpec.End(At(w, i)); World(d, w.ss[i := BackendSpec.Start(d, garbage)])
  }

  function Turns(w: World, ms: seq<Move>): World
    decreases |ms|
  {
    if ms == [] then w else Turns(Turn(w, ms[0]), ms[1..])
  }

  // No line of the other sessions announces or deletes a name of this message.
  ghost predicate AllMind(w: World, ms: seq<Move>, tag: Word)
    decreases |ms|
  {
    ms != [] ==>
      && (ms[0].Says? && ms[0].i < |w.ss| ==> Minds(At(w, ms[0].i), ms[0].line, ms[0].e, tag))
      && AllMind(Turn(w, ms[0]), ms[1..], tag)
  }

  ghost predicate Neighbour(s: BackendSpec.Session, d: Disk, tag: Word) {
    var s1 := s.(store := s.store.(d := d));
    BackendSpec.Sound(s1) && Belongs(s1.store, tag, false)
  }

  ghost predicate Apart(w: World, tag: Word) {
    Safe(w.d, tag) && forall i :: 0 <= i < |w.ss| ==> Neighbour(w.ss[i], w.d, tag)
  }

  lemma {:induction false} NeighbourLater(s: BackendSpec.Session, d: Disk, d1: Disk, tag: Word, own: bool)
    requires Neighbour(s, d, tag) && Kept(d, d1, tag, own)
    ensures Neighbour(s, d1, tag)
  {
  }

  lemma {:induction false} StartIsNeighbour(d: Disk, garbage: Option<Handle>, tag: Word)
    ensures Neighbour(BackendSpec.Start(d, garbage), d, tag)
  {
  }

  lemma {:induction false} MoveApart(w: World, m: Move, tag: Word)
    requires Apart(w, tag) && (m.Says? && m.i < |w.ss| ==> Minds(At(w, m.i), m.line, m.e, tag))
    ensures Apart(Turn(w, m), tag) && Kept(w.d, Turn(w, m).d, tag, false)
  {
    var w1 := Turn(w, m);
    UnlinkKept(w.d, {}, tag, false);
    match m {
      case Comes(garbage) => StartIsNeighbour(w.d, garbage, tag);
      case Says(i, line, e) =>
        if i < |w.ss| {
          var s := At(w, i);
          assert Neighbour(w.ss[i], w.d, tag);
          BackendSpec.StepSound(s, line, e);
          StepKept(s, line, e, tag);
          OthersLater(w, w1, i, tag);
        }
      case Ends(i, garbage) =>
        if i < |w.ss| {
          assert Neighbour(w.ss[i], w.d, tag);
          EndKept(At(w, i), tag);
          StartIsNeighbour(w1.d, garbage, tag);
          OthersLater(w, w1, i, tag);
        }
    }
  }

  lemma {:induction false} OthersLater(w: World, w1: World, i: nat, tag: Word)
    requires Apart(w, tag) && Kept(w.d, w1.d, tag, false) && |w.ss| == |w1.ss| && i < |w.ss|
    requires Neighbour(w1.ss[i], w1.d, tag) && forall j :: 0 <= j < |w.ss| && j != i ==> w1.ss[j] == w.ss[j]
    ensures Apart(w1, tag)
  {
    forall j | 0 <= j < |w1.ss|
      ensures Neighbour(w1.ss[j], w1.d, tag)
    {
      if j != i {
        NeighbourLater(w.ss[j], w.d, w1.d, tag, false);
      }
    }
  }

  // Any interleaving of any number of other sessions, with any failures,
  // spares the files of this message and their bytes, and links no other name
  // to its inode.
  lemma {:induction false} NeighboursSpare(w: World, ms: seq<Move>, tag: Word)
    requires Apart(w, tag) && AllMind(w, ms, tag)
    ensures var w1 := Turns(w, ms);
            Apart(w1, tag) && Wf(w1.d) && Respects(w.d, w1.d, tag) && Private(w1.d, tag)
    ensures Kept(w.d, Turns(w, ms).d, tag, false)
    decreases |ms|
  {
    if ms == [] {
      UnlinkKept(w.d, {}, tag, false);
    } else {
      var w1 := Turn(w, ms[0]);
      MoveApart(w, ms[0], tag);
      NeighboursSpare(w1, ms[1..], tag);
      KeptTwice(w.d, w1.d, Turns(w, ms).d, tag, false);
    }
  }

  // ------------------------------------------- a transaction among neighbours

  // The next request finds the disk as some turns of the other sessions left
  // it.
  ghost predicate FoundAfter(t: Talker, others: seq<BackendSpec.Session>, ms: seq<Move>, found: Disk, tag: Word) {
    var w := World(t.peer.store.d, others);
    AllMind(w, ms, tag) && found == Turns(w, ms).d
  }

  // Every call, as long as the connection works, does so.
  ghost predicate Among(t: Talker, others: seq<BackendSpec.Session>, top: nat, cs: seq<Call>, turns: seq<seq<Move>>, tag: Word)
    requires |turns| == |cs|
    decreases |cs|
  {
    cs != [] && !t.broken ==>
      && FoundAfter(t, others, turns[0], cs[0].f.found, tag)
      && Among(Made(t, top, cs[0], tag).0, Turns(World(t.peer.store.d, others), turns[0]).ss, top + 1, cs[1..], turns[1..], tag)
  }

  // The other sessions after these calls.
  ghost function OthersAfter(t: Talker, others: seq<BackendSpec.Session>, top: nat, cs: seq<Call>, turns: seq<seq<Move>>, tag: Word): seq<BackendSpec.Session>
    requires |turns| == |cs|
    decreases |cs|
  {
    if cs == [] then others
    else
      var w := Turns(World(t.peer.store.d, others), turns[0]);
      OthersAfter(Made(t, top, cs[0], tag).0, w.ss, top + 1, cs[1..], turns[1..], tag)
  }

  // The backend's session of this message, and the others beside it.
  ghost predicate Settled(t: Talker, others: seq<BackendSpec.Session>, tag: Word) {
    Apart(World(t.peer.store.d, others), tag) && Belongs(t.peer.store, tag, true)
  }

  // What the others leave is taken over as it is.
  lemma {:induction false} TakenOver(t: Talker, others: seq<BackendSpec.Session>, ms: seq<Move>, found: Sane, tag: Word)
    requires Settled(t, others, tag) && FoundAfter(t, others, ms, found, tag)
    ensures var s := Settle(t.peer, found, tag);
            && s.store.d == found && Private(found, tag)
            && Settled(t.(peer := s), Turns(World(t.peer.store.d, others), ms).ss, tag)
  {
    NeighboursSpare(World(t.peer.store.d, others), ms, tag);
    BelongsLater(t.peer.store, found, tag, true);
  }

  lemma {:induction false} OwnStepSettled(t: Talker, t1: Talker, others: seq<BackendSpec.Session>, tag: Word)
    requires Settled(t, others, tag)
    requires Kept(t.peer.store.d, t1.peer.store.d, tag, true) && Belongs(t1.peer.store, tag, true)
    ensures Settled(t1, others, tag)
  {
    forall i | 0 <= i < |others|
      ensures Neighbour(others[i], t1.peer.store.d, tag)
    {
      NeighbourLater(World(t.peer.store.d, others).ss[i], t.peer.store.d, t1.peer.store.d, tag, true);
    }
  }

  // What a call does spares the others, and keeps to this message's names.
  lemma {:induction false} RecipientKept(t: Talker, mbox: Word, f: Fault, tag: Word, top: nat)
    requires Told(t, tag, top) && AddRecipient(t, mbox, top + 1, f, tag).1
    requires var s := Settle(t.peer, f.found, tag); Safe(s.store.d, tag) && Belongs(s.store, tag, true)
    ensures var s, t1 := Settle(t.peer, f.found, tag), AddRecipient(t, mbox, top + 1, f, tag).0;
            Kept(s.store.d, t1.peer.store.d, tag, true) && Belongs(t1.peer.store, tag, true)
  {
    var s, name := Settle(t.peer, f.found, tag), NameOf(tag, top + 1);
    if s.mode.InData? || s.mode.InLimbo? {
      BackendSpec.RcptLineElsewhere(s, mbox, name, f.e);
    } else {
      BackendSpec.RcptLineIsRcpt(s, mbox, name, f.e);
      FileCarries(To(mbox, top + 1), tag);
      AddFileKept(s.store, mbox, name, f.e, tag, true);
    }
  }

  lemma {:induction false} PutKept(t: Talker, f: Fault, tag: Word, top: nat)
    requires Told(t, tag, top) && StartData(t, f, tag).1
    requires var s := Settle(t.peer, f.found, tag); Safe(s.store.d, tag) && Belongs(s.store, tag, true)
    ensures StartData(t, f, tag).0.peer.store == Settle(t.peer, f.found, tag).store
  {
    var s := Settle(t.peer, f.found, tag);
    if !s.mode.InData? {
      BackendSpec.PutLineIsPut(s, f.e);
    }
  }

  lemma {:induction false} LineKept(t: Talker, text: string, f: Fault, tag: Word, top: nat)
    requires Told(t, tag, top) && !t.broken && t.inmsg && !IsTerminator(text)
    requires var s := Settle(t.peer, f.found, tag); Safe(s.store.d, tag) && Belongs(s.store, tag, true)
    ensures var s, t1 := Settle(t.peer, f.found, tag), AddLine(t, text, f, tag).0;
            Kept(s.store.d, t1.peer.store.d, tag, true) && Belongs(t1.peer.store, tag, true)
  {
    var s := Settle(t.peer, f.found, tag);
    UnlinkKept(s.store.d, {}, tag, true);
    TextKept(s, text, f.e, tag);
    var p1 := AddLine(t, text, f, tag).0.peer;
    assert p1 == s || p1 == BackendSpec.Step(s, text, f.e).s;
  }

  lemma {:induction false} TextKept(s: BackendSpec.Session, text: string, e: Env, tag: Word)
    requires s.mode.InData? && s.store.p.destinations != [] && Safe(s.store.d, tag) && Belongs(s.store, tag, true)
    ensures var s1 := BackendSpec.Step(s, text, e).s;
            Kept(s.store.d, s1.store.d, tag, true) && Belongs(s1.store, tag, true)
  {
    UnlinkKept(s.store.d, {}, tag, true);
    GiveLineKept(s.store, text, e, tag, true);
    assert BackendSpec.Step(s, text, e) == BackendSpec.PutLine(s, text, e);
  }

  lemma {:induction false} CallKept(t: Talker, c: Call, tag: Word, top: nat)
    requires Told(t, tag, top) && !t.broken
    requires var s := Settle(t.peer, c.f.found, tag); Safe(s.store.d, tag) && Belongs(s.store, tag, true)
    requires Made(t, top, c, tag).1 && (c.Line? ==> t.inmsg && !IsTerminator(c.text))
    ensures var s, t1 := Settle(t.peer, c.f.found, tag), Made(t, top, c, tag).0;
            Kept(s.store.d, t1.peer.store.d, tag, true) && Belongs(t1.peer.store, tag, true)
  {
    match c {
      case Recipient(mbox, f) => RecipientKept(t, mbox, f, tag, top);
      case Put(f) =>
        PutKept(t, f, tag, top);
        UnlinkKept(Settle(t.peer, f.found, tag).store.d, {}, tag, true);
      case Line(text, f) => LineKept(t, text, f, tag, top);
    }
  }

  lemma {:induction false} RunAmong(t: Talker, others: seq<BackendSpec.Session>, top: nat, cs: seq<Call>, turns: seq<seq<Move>>, tag: Word)
    requires |turns| == |cs| && Told(t, tag, top) && AllMade(t, top, cs, tag) && Among(t, others, top, cs, turns, tag)
    requires t.broken || Settled(t, others, tag)
    ensures var t1 := After(t, top, cs, tag);
            Told(t1, tag, top + |cs|) && (t1.broken || Settled(t1, OthersAfter(t, others, top, cs, turns, tag), tag))
    decreases |cs|
  {
    if cs != [] {
      var t1, ss := Made(t, top, cs[0], tag).0, Turns(World(t.peer.store.d, others), turns[0]).ss;
      if t.broken {
        CallTold(t, cs[0], tag, top);
        StaysBroken(t, top, cs, tag);
        BrokenRun(t, top, cs, tag);
      } else {
        var f := cs[0].f;
        TakenOver(t, others, turns[0], f.found, tag);
        CallTold(t, cs[0], tag, top);
        CallKept(t, cs[0], tag, top);
        OwnStepSettled(t.(peer := Settle(t.peer, f.found, tag)), t1, ss, tag);
        RunAmong(t1, ss, top + 1, cs[1..], turns[1..], tag);
      }
    }
  }

  lemma {:induction false} StaysBroken(t: Talker, top: nat, cs: seq<Call>, tag: Word)
    requires t.broken
    ensures After(t, top, cs, tag).broken
    decreases |cs|
  {
    if cs != [] {
      StaysBroken(Made(t, top, cs[0], tag).0, top + 1, cs[1..], tag);
    }
  }

  lemma {:induction false} BrokenRun(t: Talker, top: nat, cs: seq<Call>, tag: Word)
    requires t.broken && Told(t, tag, top) && AllMade(t, top, cs, tag)
    ensures Told(After(t, top, cs, tag), tag, top + |cs|)
    decreases |cs|
  {
    if cs != [] {
      CallTold(t, cs[0], tag, top);
      BrokenRun(Made(t, top, cs[0], tag).0, top + 1, cs[1..], tag);
    }
  }

  // From the connection on, among any number of other sessions that take any
  // turns between its requests: what the backend acknowledged is one inode
  // with as many links as recipients.
  lemma {:induction false} SharesAmongNeighbours(
      f: Fault, garbage: Option<Handle>, others: seq<BackendSpec.Session>, cs: seq<Call>, turns: seq<seq<Move>>, tag: Word)
    requires Connect(tag, f, garbage).Some? && AllMade(Connect(tag, f, garbage).value, 0, cs, tag)
    requires |turns| == |cs| && Among(Connect(tag, f, garbage).value, others, 0, cs, turns, tag)
    requires forall i :: 0 <= i < |others| ==> Neighbour(others[i], Connect(tag, f, garbage).value.peer.store.d, tag)
    ensures var t := After(Connect(tag, f, garbage).value, 0, cs, tag);
            !t.broken && t.said != [] ==>
              && SharedInode(t.peer.store)
              && |Links(t.peer.store.d, t.peer.store.p.fd.value.ino)| == |t.said| == |t.peer.store.p.destinations|
  {
    var t0 := Connect(tag, f, garbage).value;
    ConnectMatches(tag, f, garbage, 0);
    RunAmong(t0, others, 0, cs, turns, tag);
    var t := After(t0, 0, cs, tag);
    if !t.broken && t.said != [] {
      AcknowledgedNamesShare(t, tag, |cs|);
    }
  }

  // When the dot and the commit are acknowledged as well, among neighbours
  // still, there is one link per recipient, and the inode is freed when the
  // last is deleted.
  lemma {:induction false} FreedAmongNeighbours(
      f: Fault, garbage: Option<Handle>, others: seq<BackendSpec.Session>, cs: seq<Call>, turns: seq<seq<Move>>,
      g: Fault, beforeDot: seq<Move>, h: Fault, beforeCommit: seq<Move>, tag: Word, dels: seq<Path>)
    requires Connect(tag, f, garbage).Some? && AllMade(Connect(tag, f, garbage).value, 0, cs, tag)
    requires |turns| == |cs| && Among(Connect(tag, f, garbage).value, others, 0, cs, turns, tag)
    requires forall i :: 0 <= i < |others| ==> Neighbour(others[i], Connect(tag, f, garbage).value.peer.store.d, tag)
    requires var t0 := Connect(tag, f, garbage).value;
             var t, ss := After(t0, 0, cs, tag), OthersAfter(t0, others, 0, cs, turns, tag);
             && t.said != [] && MsgDone(t, g, h, tag).1
             && FoundAfter(t, ss, beforeDot, g.found, tag)
             && FoundAfter(Exchange(t, ".\n", g, tag).0, Turns(World(t.peer.store.d, ss), beforeDot).ss, beforeCommit, h.found, tag)
    ensures var t := After(Connect(tag, f, garbage).value, 0, cs, tag);
            t.peer.store.p.fd.Some?
    ensures var t := After(Connect(tag, f, garbage).value, 0, cs, tag);
            var ino, after := t.peer.store.p.fd.value.ino, MsgDone(t, g, h, tag).0.peer.store.d;
            && |Links(after, ino)| == |t.said|
            && (Links(DeleteAll(after, dels), ino) == {} <==>
                  forall a :: a in t.said ==> CurOf(FileOf(a, tag)) in dels)
  {
    var t0 := Connect(tag, f, garbage).value;
    ConnectMatches(tag, f, garbage, 0);
    RunAmong(t0, others, 0, cs, turns, tag);
    var t, ss := After(t0, 0, cs, tag), OthersAfter(t0, others, 0, cs, turns, tag);
    DoneAmong(t, ss, g, beforeDot, h, beforeCommit, tag, |cs|);
    DoneFrees(t, g, h, tag, |cs|, dels);
  }

  lemma {:induction false} DoneAmong(t: Talker, ss: seq<BackendSpec.Session>, g: Fault, beforeDot: seq<Move>, h: Fault, beforeCommit: seq<Move>, tag: Word, top: nat)
    requires Told(t, tag, top) && Settled(t, ss, tag) && MsgDone(t, g, h, tag).1
    requires FoundAfter(t, ss, beforeDot, g.found, tag)
    requires FoundAfter(Exchange(t, ".\n", g, tag).0, Turns(World(t.peer.store.d, ss), beforeDot).ss, beforeCommit, h.found, tag)
    ensures Private(g.found, tag) && Private(h.found, tag)
  {
    TakenOver(t, ss, beforeDot, g.found, tag);
    DotTold(t, g, tag, top);
    var s, ss1 := Settle(t.peer, g.found, tag), Turns(World(t.peer.store.d, ss), beforeDot).ss;
    var t1 := Exchange(t, ".\n", g, tag).0;
    BackendSpec.DotLine(s, g.e);
    assert t1.peer.store == s.store;
    TakenOver(t1, ss1, beforeCommit, h.found, tag);
  }
}
