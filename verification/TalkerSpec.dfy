/** The client side of one backend connection: requests and replies over an
    unreliable link, to a backend whose disk other sessions change as well. */
module TalkerSpec {
  import opened Text
  import opened Disk
  import opened DeliverySpec
  import opened BackendSpec

  // Dropped: the bytes are accepted for sending but never arrive, which only
  // a later read on the same connection reveals.
  datatype Net = Fine | LostRequest | LostReply | Dropped

  type Sane = d: Disk | Wf(d) witness EMPTY

  // What one request meets: the link, the backend's system calls, and the disk
  // as other sessions have left it.
  datatype Fault = Fault(net: Net, e: Env, found: Sane)

  datatype Announced = To(mbox: Word, num: nat)

  // said and sent record what the peer acknowledged: the recipients, and the
  // lines passed on since the data phase began.
  datatype Talker = Talker(peer: Session, inmsg: bool, broken: bool, said: seq<Announced>, sent: string)

  // The name of recipient number n of the message with this index.
  function NameOf(tag: Word, n: nat): Word {
    NameIsWord(tag, n);
    tag + "." + Itoa(n)
  }

  lemma {:induction false} NameIsWord(tag: Word, n: nat)
    ensures IsWord(tag + "." + Itoa(n))
  {
  }

  lemma {:induction false} NamesDiffer(tag: Word, m: nat, n: nat)
    requires m != n
    ensures NameOf(tag, m) != NameOf(tag, n)
  {
    if NameOf(tag, m) == NameOf(tag, n) {
      assert NameOf(tag, m)[|tag| + 1..] == Itoa(m);
      assert NameOf(tag, n)[|tag| + 1..] == Itoa(n);
      ItoaInjective(m, n);
    }
  }

  // ------------------------------------------------------------ interference

  // The file belongs to the message with this index.
  predicate Carries(p: Path, tag: Word) { tag + "." <= p.index }

  predicate NoneCarries(d: Disk, tag: Word) {
    forall p | p in d.names :: !Carries(p, tag)
  }

  // Message indexes are unique, so other sessions leave files that carry this
  // one, and their bytes, alone.
  predicate Respects(d: Disk, found: Disk, tag: Word) {
    && (forall p | p in d.names :: Carries(p, tag) ==>
          p in found.names && found.names[p] == d.names[p] && Content(found, found.names[p]) == Content(d, d.names[p]))
    && (forall p | p in found.names :: Carries(p, tag) ==> p in d.names)
    && d.next <= found.next
  }

  function Settle(s: Session, found: Sane, tag: Word): Session {
    if Respects(s.store.d, found, tag) then s.(store := s.store.(d := found)) else s
  }

  // -------------------------------------------------------------- operations

  // None: no connection.  A new index is not yet on the disk.
  function Connect(tag: Word, f: Fault, garbage: Option<Handle>): Option<Talker> {
    if f.net != Fine || !f.e.passOk then None
    else
      var d := if NoneCarries(f.found, tag) then f.found else EMPTY;
      Some(Talker(Start(d, garbage).(mode := Blank), false, false, [], ""))
  }

  // putLine and getLine; None is a session exception.
  function Exchange(t: Talker, line: string, f: Fault, tag: Word): (Talker, Option<Reply>) {
    if t.broken then (t, None)
    else
      var s := Settle(t.peer, f.found, tag);
      var o := Step(s, line, f.e);
      match f.net
      case LostRequest => (t.(peer := s, broken := true), None)
      case Dropped => (t.(peer := s, broken := true), None)
      case LostReply => (t.(peer := o.s, broken := true), None)
      case Fine => (t.(peer := o.s), if o.reply.Quiet? || o.reply.Raised? then None else Some(o.reply))
  }

  // putLine alone; false is a session exception.
  function Send(t: Talker, line: string, f: Fault, tag: Word): (Talker, bool) {
    if t.broken then (t, !f.net.LostRequest?)
    else
      var s := Settle(t.peer, f.found, tag);
      match f.net
      case LostRequest => (t.(peer := s, broken := true), false)
      case Dropped => (t.(peer := s, broken := true), true)
      case _ => (t.(peer := Step(s, line, f.e).s), true)
  }

  function AddRecipient(t: Talker, mbox: Word, num: nat, f: Fault, tag: Word): (Talker, bool) {
    var (t1, r) := Exchange(t, RcptLine(mbox, NameOf(tag, num)), f, tag);
    if r == Some(Ok) then (t1.(said := t1.said + [To(mbox, num)]), true) else (t1, false)
  }

  function StartData(t: Talker, f: Fault, tag: Word): (Talker, bool) {
    var (t1, r) := Exchange(t, "put\n", f, tag);
    if r == Some(Ok) then (t1.(inmsg := true, sent := ""), true) else (t1, false)
  }

  function AddLine(t: Talker, line: string, f: Fault, tag: Word): (Talker, bool) {
    var (t0, started) := if t.inmsg then (t, true) else StartData(t.(inmsg := true), f, tag);
    if !started then (t0, false)
    else
      var (t1, ok) := Send(t0, line, f, tag);
      (if ok then t1.(sent := t1.sent + line) else t1, ok)
  }

  function MsgDone(t: Talker, f: Fault, g: Fault, tag: Word): (Talker, bool) {
    var (t1, r) := Exchange(t, ".\n", f, tag);
    if r != Some(Ok) then (t1, false)
    else
      var (t2, r2) := Exchange(t1, "commit\n", g, tag);
      (t2, r2 == Some(Ok))
  }

  // Every failure of a rollback is swallowed.
  function MsgRollback(t: Talker, f: Fault, g: Fault, tag: Word): Talker {
    var (t1, r) := Exchange(t, ".\n", f, tag);
    if r != Some(Ok) then t1 else Exchange(t1, "rollback\n", g, tag).0
  }

  // ------------------------------------- what the client may conclude

  function FileOf(a: Announced, tag: Word): Path { TmpPath(a.mbox, NameOf(tag, a.num)) }

  // The backend's pending list is exactly what it acknowledged to this client,
  // all of it linked to the inode being written, and the disk holds no other
  // file of the message; the bytes are the lines sent since the data phase
  // began, unless a write has failed.
  ghost predicate Live(t: Talker, tag: Word) {
    var p, d := t.peer.store.p, t.peer.store.d;
    && |t.said| == |p.filenames| > 0
    && p.destinations != []
    && (forall i :: 0 <= i < |t.said| ==> p.filenames[i] == FileOf(t.said[i], tag))
    && p.first == p.filenames[0]
    && p.fd.Some?
    && (forall f :: f in p.filenames ==> f in d.names && d.names[f] == p.fd.value.ino)
    && (forall f :: f in d.names && Carries(f, tag) ==> f in p.filenames)
    && (var text := if t.peer.mode.PreLimbo? then "" else t.sent;
        t.peer.mode.PreLimbo? || !t.peer.failed ==>
          Content(d, p.fd.value.ino) == text && p.fd.value.off == |text|)
  }

  // The conclusions a client can draw about a peer that answered every one of
  // its requests so far; top bounds the recipient numbers used.
  ghost predicate Match(t: Talker, tag: Word, top: nat) {
    && Wf(t.peer.store.d)
    && (forall i :: 0 <= i < |t.said| ==> t.said[i].num <= top)
    && match t.peer.mode
       case Blank =>
         t.said == [] && t.peer.store.p.destinations == [] && t.peer.store.p.filenames == [] &&
         NoneCarries(t.peer.store.d, tag)
       case PreLimbo => Live(t, tag)
       case InData => Live(t, tag)
       case InLimbo => Live(t, tag)
       case _ => false
  }

  ghost predicate Good(t: Talker, tag: Word, top: nat) { t.broken || Match(t, tag, top) }

  // The message is in the mailbox of a, under its own name, with this text.
  ghost predicate Stored(d: Disk, a: Announced, tag: Word, text: string) {
    Lookup(d, CurOf(FileOf(a, tag))) == Some(text)
  }

  lemma {:induction false} FileCarries(a: Announced, tag: Word)
    ensures Carries(FileOf(a, tag), tag)
  {
  }

  lemma {:induction false} ConnectMatches(tag: Word, f: Fault, garbage: Option<Handle>, top: nat)
    requires Connect(tag, f, garbage).Some?
    ensures Match(Connect(tag, f, garbage).value, tag, top)
  {
  }

  // Interference by other sessions does not invalidate the conclusions.
  lemma {:induction false} SettleMatches(t: Talker, found: Sane, tag: Word, top: nat)
    requires Match(t, tag, top)
    ensures Match(t.(peer := Settle(t.peer, found, tag)), tag, top)
  {
    if t.said != [] {
      var names := t.peer.store.p.filenames;
      forall f | f in names
        ensures Carries(f, tag)
      {
        var i :| 0 <= i < |names| && names[i] == f;
        FileCarries(t.said[i], tag);
      }
      assert names[0] in names;
    }
  }

  lemma {:induction false} AddRecipientMatches(t: Talker, mbox: Word, num: nat, f: Fault, tag: Word, top: nat)
    requires Good(t, tag, top) && top < num && AddRecipient(t, mbox, num, f, tag).1
    ensures var t1 := AddRecipient(t, mbox, num, f, tag).0;
            !t1.broken && Match(t1, tag, num) && t1.said == t.said + [To(mbox, num)] && t1.inmsg == t.inmsg
  {
    var t0 := t.(peer := Settle(t.peer, f.found, tag));
    var s := t0.peer;
    SettleMatches(t, f.found, tag, top);
    if s.mode.InData? || s.mode.InLimbo? {
      RcptLineElsewhere(s, mbox, NameOf(tag, num), f.e);
    } else {
      RcptLineIsRcpt(s, mbox, NameOf(tag, num), f.e);
      RcptMatches(t0, mbox, num, f.e, tag, top);
    }
  }

  lemma {:induction false} RcptMatches(t: Talker, mbox: Word, num: nat, e: Env, tag: Word, top: nat)
    requires Match(t, tag, top) && top < num && (t.peer.mode.Blank? || t.peer.mode.PreLimbo?)
    requires Rcpt(t.peer, mbox, NameOf(tag, num), e).reply == Ok
    ensures Match(t.(peer := Rcpt(t.peer, mbox, NameOf(tag, num), e).s, said := t.said + [To(mbox, num)]), tag, num)
  {
    var path := FileOf(To(mbox, num), tag);
    FileCarries(To(mbox, num), tag);
    var names := t.peer.store.p.filenames;
    forall i | 0 <= i < |names|
      ensures names[i] != path
    {
      NamesDiffer(tag, num, t.said[i].num);
    }
  }

  lemma {:induction false} StartDataMatches(t: Talker, f: Fault, tag: Word, top: nat)
    requires Good(t, tag, top) && StartData(t, f, tag).1
    ensures var t1 := StartData(t, f, tag).0;
            && !t1.broken && Match(t1, tag, top) && t1.peer.mode.InData?
            && t1.said == t.said && t1.sent == "" && t1.inmsg
  {
    SettleMatches(t, f.found, tag, top);
    var s := Settle(t.peer, f.found, tag);
    if !s.mode.InData? {
      PutLineIsPut(s, f.e);
    }
  }

  lemma {:induction false} LineMatches(t: Talker, line: string, e: Env, tag: Word, top: nat)
    requires Match(t, tag, top) && t.peer.mode.InData? && !IsTerminator(line)
    ensures var s := PutLine(t.peer, line, e).s;
            Match(t.(peer := s, sent := t.sent + line), tag, top) && s.mode.InData?
  {
    var p, d := t.peer.store.p, t.peer.store.d;
    if !t.peer.failed && !e.writeErr {
      assert p.filenames[0] in p.filenames;
      var text := Content(d, p.fd.value.ino);
      assert text[..|text|] == text;
      assert Overlay(text, |text|, line) == text + line;
    }
  }

  lemma {:induction false} AddLineMatches(t: Talker, line: string, f: Fault, tag: Word, top: nat)
    requires Good(t, tag, top) && t.inmsg && (t.broken || t.peer.mode.InData?) && !IsTerminator(line)
    requires AddLine(t, line, f, tag).1
    ensures var t1 := AddLine(t, line, f, tag).0;
            && Good(t1, tag, top) && t1.inmsg && (t1.broken || t1.peer.mode.InData?)
            && t1.said == t.said && t1.sent == t.sent + line
  {
    if !t.broken {
      SettleMatches(t, f.found, tag, top);
      var s := Settle(t.peer, f.found, tag);
      LineMatches(t.(peer := s), line, f.e, tag, top);
      assert Step(s, line, f.e) == PutLine(s, line, f.e);
    }
  }

  lemma {:induction false} CommitStores(t: Talker, e: Env, tag: Word, top: nat)
    requires Match(t, tag, top) && t.peer.mode.InLimbo? && CommitCommand(t.peer, e).reply == Ok
    ensures var s := CommitCommand(t.peer, e).s;
            forall a :: a in t.said ==> Stored(s.store.d, a, tag, t.sent) && Stored(End(s), a, tag, t.sent)
  {
    var names := t.peer.store.p.filenames;
    CommitMovesAll(t.peer.store, e);
    var s := CommitCommand(t.peer, e).s;
    assert names[0] in names;
    forall a | a in t.said
      ensures Stored(s.store.d, a, tag, t.sent) && Stored(End(s), a, tag, t.sent)
    {
      var i :| 0 <= i < |t.said| && t.said[i] == a;
      assert names[i] == FileOf(a, tag);
    }
  }

  // An acknowledged commit has put the message, complete, into the mailbox of
  // every recipient this backend ever acknowledged, and the end of the
  // connection leaves it there.
  lemma {:induction false} MsgDoneStores(t: Talker, f: Fault, g: Fault, tag: Word, top: nat)
    requires Good(t, tag, top) && MsgDone(t, f, g, tag).1
    ensures var t1 := MsgDone(t, f, g, tag).0;
            && t1.said == t.said && t1.sent == t.sent
            && forall a :: a in t.said ==> Stored(t1.peer.store.d, a, tag, t.sent) && Stored(End(t1.peer), a, tag, t.sent)
  {
    var t1 := Exchange(t, ".\n", f, tag).0;
    DotMatches(t, f, tag, top);
    SettleMatches(t1, g.found, tag, top);
    var s := Settle(t1.peer, g.found, tag);
    CommitLineIsCommit(s, g.e);
    CommitStores(t1.(peer := s), g.e, tag, top);
  }

  lemma {:induction false} DotMatches(t: Talker, f: Fault, tag: Word, top: nat)
    requires Good(t, tag, top) && Exchange(t, ".\n", f, tag).1 == Some(Ok)
    ensures var t1 := Exchange(t, ".\n", f, tag).0;
            !t1.broken && Match(t1, tag, top) && t1.peer.mode.InLimbo? && t1.said == t.said && t1.sent == t.sent
  {
    SettleMatches(t, f.found, tag, top);
    DotLine(Settle(t.peer, f.found, tag), f.e);
  }
}
