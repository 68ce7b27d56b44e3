/** One message, one inode: over every run of a delivery, its pending names are
    the links of one inode; delivered, it is freed at the last delete. */
module Sharing {
  import opened Text
  import opened Disk
  import opened DeliverySpec
  import BackendSpec
  import TalkerSpec

  // ------------------------------------------------------ runs of a delivery

  datatype Op = Add(mbox: string, index: string, e: Env) | Give(line: string, e: Env)

  function Do(s: Store, op: Op): Store {
    match op
    case Add(mbox, index, e) => AddFile(s, mbox, index, e).0
    case Give(line, e) => GiveLine(s, line, e).0
  }

  function DoAll(s: Store, ops: seq<Op>): Store
    decreases |ops|
  {
    if ops == [] then s else DoAll(Do(s, ops[0]), ops[1..])
  }

  // How many addFile calls succeed.
  function Added(s: Store, ops: seq<Op>): nat
    decreases |ops|
  {
    if ops == [] then 0
    else
      (if ops[0].Add? && AddFile(s, ops[0].mbox, ops[0].index, ops[0].e).1 then 1 else 0) + Added(Do(s, ops[0]), ops[1..])
  }

  // A delivery without recipients; its descriptor is whatever was left there.
  function Nobody(d: Disk, garbage: Option<Handle>): Store {
    Store(Pending([], [], TmpPath("", ""), garbage), d)
  }

  // The names the calls use differ from each other and are new to the disk.
  ghost predicate Fresh(ops: seq<Op>, d: Disk) {
    && (forall k :: 0 <= k < |ops| && ops[k].Add? ==>
          TmpPath(ops[k].mbox, ops[k].index) !in d.names && CurOf(TmpPath(ops[k].mbox, ops[k].index)) !in d.names)
    && (forall j, k :: 0 <= j < k < |ops| && ops[j].Add? && ops[k].Add? ==>
          ops[j].mbox != ops[k].mbox || ops[j].index != ops[k].index)
  }

  // So many recipients so far, all sharing one inode that nothing else uses.
  ghost predicate Shares(s: Store, n: nat) {
    && NamesBelow(s.d) && |s.p.destinations| == n && |s.p.filenames| == n
    && (n > 0 ==> SharedInode(s))
    && NotYetInCur(s.p.filenames, s.d)
    && (forall f :: f in s.p.filenames ==> f in s.d.names)
  }

  lemma {:induction false} AddShares(s: Store, n: nat, mbox: string, index: string, e: Env)
    requires Shares(s, n)
    requires TmpPath(mbox, index) !in s.d.names && CurOf(TmpPath(mbox, index)) !in s.d.names
    ensures var (s1, ok) := AddFile(s, mbox, index, e); Shares(s1, if ok then n + 1 else n)
    ensures var s1 := AddFile(s, mbox, index, e).0;
            forall p :: p != TmpPath(mbox, index) ==> (p in s1.d.names <==> p in s.d.names)
  {
    var (s1, ok) := AddFile(s, mbox, index, e);
    if ok {
      AddFileShares(s, mbox, index, e);
      assert s1.p.filenames == s.p.filenames + [TmpPath(mbox, index)];
      if n > 0 {
        assert s.p.filenames[0] in s.p.filenames;
      }
    } else {
      assert s1.d.names == s.d.names;
    }
  }

  lemma {:induction false} GiveShares(s: Store, n: nat, line: string, e: Env)
    requires Shares(s, n)
    ensures var s1 := GiveLine(s, line, e).0; Shares(s1, n) && s1.d.names == s.d.names
  {
    var s1 := GiveLine(s, line, e).0;
    if n > 0 {
      assert Links(s1.d, s1.p.fd.value.ino) == Links(s.d, s.p.fd.value.ino);
    }
  }

  lemma {:induction false} RunShares(s: Store, n: nat, ops: seq<Op>)
    requires Shares(s, n) && Fresh(ops, s.d)
    ensures Shares(DoAll(s, ops), n + Added(s, ops))
    decreases |ops|
  {
    if ops != [] {
      var s1 := Do(s, ops[0]);
      match ops[0] {
        case Add(mbox, index, e) => AddShares(s, n, mbox, index, e);
        case Give(line, e) => GiveShares(s, n, line, e);
      }
      var ok := ops[0].Add? && AddFile(s, ops[0].mbox, ops[0].index, ops[0].e).1;
      forall k | 0 <= k < |ops[1..]| && ops[1..][k].Add?
        ensures TmpPath(ops[1..][k].mbox, ops[1..][k].index) !in s1.d.names
        ensures CurOf(TmpPath(ops[1..][k].mbox, ops[1..][k].index)) !in s1.d.names
      {
        assert ops[1..][k] == ops[k + 1];
      }
      RunShares(s1, if ok then n + 1 else n, ops[1..]);
    }
  }

  // In every run of addFile and giveLine, with any failures, every pending
  // name is a link of the one inode that is written, which has as many links
  // as there are recipients, as many as there were successes.
  lemma {:induction false} EveryRunShares(d: Disk, garbage: Option<Handle>, ops: seq<Op>)
    requires NamesBelow(d) && Fresh(ops, d)
    ensures var s := DoAll(Nobody(d, garbage), ops);
            var n := Added(Nobody(d, garbage), ops);
            && |s.p.destinations| == n
            && (n > 0 ==> SharedInode(s) && |Links(s.d, s.p.fd.value.ino)| == n)
  {
    RunShares(Nobody(d, garbage), 0, ops);
    if Added(Nobody(d, garbage), ops) > 0 {
      LinkCountIsRecipientCount(DoAll(Nobody(d, garbage), ops));
    }
  }

  // In every run that ends in a successful commit, the names of the inode are
  // then exactly the names in cur; deleting some of them leaves the message
  // whole under the others, and the inode is freed exactly when the deletions
  // have covered every recipient.
  lemma {:induction false} EveryRunFreesAtTheLastDelete(d: Disk, garbage: Option<Handle>, ops: seq<Op>, e: Env, dels: seq<Path>)
    requires NamesBelow(d) && Fresh(ops, d) && Added(Nobody(d, garbage), ops) > 0
    requires Commit(DoAll(Nobody(d, garbage), ops), e).1
    ensures DoAll(Nobody(d, garbage), ops).p.fd.Some?
    ensures var s := DoAll(Nobody(d, garbage), ops);
            var ino, after := s.p.fd.value.ino, Commit(s, e).0.d;
            var left := DeleteAll(after, dels);
            && Links(after, ino) == CurNames(s.p.filenames)
            && |Links(after, ino)| == Added(Nobody(d, garbage), ops)
            && (forall f :: f in s.p.filenames && CurOf(f) !in dels ==> Lookup(left, CurOf(f)) == Some(Content(s.d, ino)))
            && (Links(left, ino) == {} <==> forall f :: f in s.p.filenames ==> CurOf(f) in dels)
  {
    var s := DoAll(Nobody(d, garbage), ops);
    RunShares(Nobody(d, garbage), 0, ops);
    CommitKeepsShared(s, e);
    FreedAtTheLastDelete(s, e, dels);
    CurNamesSize(s.p.filenames);
  }

  lemma {:induction false} CurNamesSize(ps: seq<Path>)
    requires AllTmp(ps, 0) && forall i, j :: 0 <= i < j < |ps| ==> ps[i] != ps[j]
    ensures |CurNames(ps)| == |ps|
  {
    var curs := seq(|ps|, i requires 0 <= i < |ps| => CurOf(ps[i]));
    forall i, j | 0 <= i < j < |ps|
      ensures curs[i] != curs[j]
    {
      assert ps[i].stage.Tmp? && ps[j].stage.Tmp?;
    }
    RangeSize(curs);
    forall p
      ensures p in CurNames(ps) <==> p in Range(curs)
    {
      if j :| 0 <= j < |ps| && p == CurOf(ps[j]) {
        assert curs[j] == p;
      }
    }
    assert CurNames(ps) == Range(curs);
  }

  // ------------------------------- what a client knows of its backend's inode

  // No file of another message is a link to an inode of this one.
  ghost predicate Private(d: Disk, tag: Word) {
    forall p, q :: p in d.names && q in d.names && TalkerSpec.Carries(p, tag) && !TalkerSpec.Carries(q, tag) ==>
      d.names[p] != d.names[q]
  }

  ghost predicate Ascending(t: TalkerSpec.Talker) {
    forall i, j :: 0 <= i < j < |t.said| ==> t.said[i].num < t.said[j].num
  }

  // The suffix with the recipient's number makes the names of the message
  // distinct, so what the backend acknowledged is one inode with as many
  // links as there are recipients.
  lemma {:induction false} AcknowledgedNamesShare(t: TalkerSpec.Talker, tag: Word, top: nat)
    requires TalkerSpec.Match(t, tag, top) && BackendSpec.Sound(t.peer) && t.said != []
    requires Private(t.peer.store.d, tag) && Ascending(t)
    ensures Shares(t.peer.store, |t.said|)
    ensures |Links(t.peer.store.d, t.peer.store.p.fd.value.ino)| == |t.said|
  {
    var p, d := t.peer.store.p, t.peer.store.d;
    var names := p.filenames;
    forall i | 0 <= i < |names|
      ensures TalkerSpec.Carries(names[i], tag) && names[i] in names && names[i].stage.Tmp?
      ensures CurOf(names[i]) !in d.names
    {
      TalkerSpec.FileCarries(t.said[i], tag);
      assert TalkerSpec.Carries(CurOf(names[i]), tag);
    }
    DistinctNames(t, tag);
    OnlyItsNames(t, tag, top);
    LinkCountIsRecipientCount(t.peer.store);
  }

  lemma {:induction false} DistinctNames(t: TalkerSpec.Talker, tag: Word)
    requires Ascending(t) && TalkerSpec.Live(t, tag)
    ensures var names := t.peer.store.p.filenames; forall i, j :: 0 <= i < j < |names| ==> names[i] != names[j]
  {
    var names := t.peer.store.p.filenames;
    forall i, j | 0 <= i < j < |names|
      ensures names[i] != names[j]
    {
      TalkerSpec.NamesDiffer(tag, t.said[i].num, t.said[j].num);
    }
  }

  lemma {:induction false} OnlyItsNames(t: TalkerSpec.Talker, tag: Word, top: nat)
    requires TalkerSpec.Match(t, tag, top) && t.said != [] && Private(t.peer.store.d, tag)
    requires forall i :: 0 <= i < |t.peer.store.p.filenames| ==> TalkerSpec.Carries(t.peer.store.p.filenames[i], tag)
    ensures Links(t.peer.store.d, t.peer.store.p.fd.value.ino) == Range(t.peer.store.p.filenames)
  {
    var p, d := t.peer.store.p, t.peer.store.d;
    var first := p.filenames[0];
    assert first in p.filenames && d.names[first] == p.fd.value.ino;
    forall q | q in d.names && d.names[q] == p.fd.value.ino
      ensures q in p.filenames
    {
      assert TalkerSpec.Carries(q, tag);
    }
  }

  // An acknowledged commit leaves exactly one link per recipient, in cur, and
  // the inode is freed when the last of them is deleted.
  lemma {:induction false} CommittedFreesAtTheLastDelete(t: TalkerSpec.Talker, e: Env, tag: Word, top: nat, dels: seq<Path>)
    requires TalkerSpec.Match(t, tag, top) && BackendSpec.Sound(t.peer) && t.said != []
    requires Private(t.peer.store.d, tag) && Ascending(t)
    requires t.peer.mode.InLimbo? && BackendSpec.CommitCommand(t.peer, e).reply == BackendSpec.Ok
    ensures t.peer.store.p.fd.Some?
    ensures var ino, after := t.peer.store.p.fd.value.ino, BackendSpec.CommitCommand(t.peer, e).s.store.d;
            && Links(after, ino) == CurNames(t.peer.store.p.filenames)
            && (Links(DeleteAll(after, dels), ino) == {} <==>
                  forall a :: a in t.said ==> CurOf(TalkerSpec.FileOf(a, tag)) in dels)
  {
    AcknowledgedNamesShare(t, tag, top);
    var s := t.peer.store;
    CommitKeepsShared(s, e);
    FreedAtTheLastDelete(s, e, dels);
    CommitMovesAll(s, e);
    assert BackendSpec.CommitCommand(t.peer, e).s.store.d.names == Commit(s, e).0.d.names;
    SaidAreFiles(t, tag, dels);
  }

  lemma {:induction false} SaidAreFiles(t: TalkerSpec.Talker, tag: Word, dels: seq<Path>)
    requires TalkerSpec.Live(t, tag)
    ensures (forall f :: f in t.peer.store.p.filenames ==> CurOf(f) in dels) <==>
            forall a :: a in t.said ==> CurOf(TalkerSpec.FileOf(a, tag)) in dels
  {
    var names := t.peer.store.p.filenames;
    if forall f :: f in names ==> CurOf(f) in dels {
      forall a | a in t.said
        ensures CurOf(TalkerSpec.FileOf(a, tag)) in dels
      {
        var i :| 0 <= i < |t.said| && t.said[i] == a;
        assert names[i] in names;
      }
    }
    if forall a :: a in t.said ==> CurOf(TalkerSpec.FileOf(a, tag)) in dels {
      forall f | f in names
        ensures CurOf(f) in dels
      {
        var i :| 0 <= i < |names| && names[i] == f;
        assert t.said[i] in t.said;
      }
    }
  }

  // The other sessions leave the inode alone, and so does the announcing.
  lemma {:induction false} AddRecipientStaysPrivate(t: TalkerSpec.Talker, mbox: Word, num: nat, f: TalkerSpec.Fault, tag: Word, top: nat)
    requires TalkerSpec.Good(t, tag, top) && top < num && TalkerSpec.AddRecipient(t, mbox, num, f, tag).1
    requires Private(t.peer.store.d, tag) && Private(f.found, tag)
    ensures Private(TalkerSpec.AddRecipient(t, mbox, num, f, tag).0.peer.store.d, tag)
  {
    var s := TalkerSpec.Settle(t.peer, f.found, tag);
    TalkerSpec.SettleMatches(t, f.found, tag, top);
    if s.mode.InData? || s.mode.InLimbo? {
      BackendSpec.RcptLineElsewhere(s, mbox, TalkerSpec.NameOf(tag, num), f.e);
    } else {
      BackendSpec.RcptLineIsRcpt(s, mbox, TalkerSpec.NameOf(tag, num), f.e);
      RcptStaysPrivate(t.(peer := s), mbox, num, f.e, tag, top);
    }
  }

  lemma {:induction false} RcptStaysPrivate(t: TalkerSpec.Talker, mbox: Word, num: nat, e: Env, tag: Word, top: nat)
    requires TalkerSpec.Match(t, tag, top) && (t.peer.mode.Blank? || t.peer.mode.PreLimbo?)
    requires Private(t.peer.store.d, tag)
    requires BackendSpec.Rcpt(t.peer, mbox, TalkerSpec.NameOf(tag, num), e).reply == BackendSpec.Ok
    ensures Private(BackendSpec.Rcpt(t.peer, mbox, TalkerSpec.NameOf(tag, num), e).s.store.d, tag)
  {
    TalkerSpec.FileCarries(TalkerSpec.To(mbox, num), tag);
    if t.said != [] {
      TalkerSpec.FileCarries(t.said[0], tag);
      var p := t.peer.store.p;
      assert p.filenames[0] in p.filenames && TalkerSpec.Carries(p.first, tag);
    }
  }

  // ---------------------------------------------- every transaction of a client

  // The calls MegaTalker makes on a connection before the dot.
  datatype Call = Recipient(mbox: Word, f: TalkerSpec.Fault) | Put(f: TalkerSpec.Fault) | Line(text: string, f: TalkerSpec.Fault)

  function Made(t: TalkerSpec.Talker, top: nat, c: Call, tag: Word): (TalkerSpec.Talker, bool) {
    match c
    case Recipient(mbox, f) => TalkerSpec.AddRecipient(t, mbox, top + 1, f, tag)
    case Put(f) => TalkerSpec.StartData(t, f, tag)
    case Line(text, f) => TalkerSpec.AddLine(t, text, f, tag)
  }

  // All calls succeed, lines come after a startData, no line is a terminator.
  predicate AllMade(t: TalkerSpec.Talker, top: nat, cs: seq<Call>, tag: Word)
    decreases |cs|
  {
    cs != [] ==>
      && Made(t, top, cs[0], tag).1
      && (cs[0].Line? ==> t.inmsg && !IsTerminator(cs[0].text))
      && AllMade(Made(t, top, cs[0], tag).0, top + 1, cs[1..], tag)
  }

  function After(t: TalkerSpec.Talker, top: nat, cs: seq<Call>, tag: Word): TalkerSpec.Talker
    decreases |cs|
  {
    if cs == [] then t else After(Made(t, top, cs[0], tag).0, top + 1, cs[1..], tag)
  }

  ghost predicate Told(t: TalkerSpec.Talker, tag: Word, top: nat) {
    && TalkerSpec.Good(t, tag, top)
    && (t.inmsg ==> t.broken || t.peer.mode.InData?)
    && (!t.broken ==>
          && BackendSpec.Sound(t.peer) && Ascending(t) && Private(t.peer.store.d, tag)
          && forall i :: 0 <= i < |t.said| ==> t.said[i].num <= top)
  }

  lemma {:induction false} SettleStays(s: BackendSpec.Session, found: TalkerSpec.Sane, tag: Word)
    requires BackendSpec.Sound(s) && Private(s.store.d, tag) && Private(found, tag)
    ensures var s1 := TalkerSpec.Settle(s, found, tag); BackendSpec.Sound(s1) && Private(s1.store.d, tag)
  {
  }

  lemma {:induction false} RecipientTold(t: TalkerSpec.Talker, mbox: Word, f: TalkerSpec.Fault, tag: Word, top: nat)
    requires Told(t, tag, top) && TalkerSpec.AddRecipient(t, mbox, top + 1, f, tag).1 && Private(f.found, tag)
    ensures Told(TalkerSpec.AddRecipient(t, mbox, top + 1, f, tag).0, tag, top + 1)
  {
    TalkerSpec.AddRecipientMatches(t, mbox, top + 1, f, tag, top);
    AddRecipientStaysPrivate(t, mbox, top + 1, f, tag, top);
    SettleStays(t.peer, f.found, tag);
    var s := TalkerSpec.Settle(t.peer, f.found, tag);
    BackendSpec.StepSound(s, BackendSpec.RcptLine(mbox, TalkerSpec.NameOf(tag, top + 1)), f.e);
    if s.mode.InData? {
      BackendSpec.RcptLineElsewhere(s, mbox, TalkerSpec.NameOf(tag, top + 1), f.e);
    }
  }

  lemma {:induction false} PutTold(t: TalkerSpec.Talker, f: TalkerSpec.Fault, tag: Word, top: nat)
    requires Told(t, tag, top) && TalkerSpec.StartData(t, f, tag).1 && Private(f.found, tag)
    ensures Told(TalkerSpec.StartData(t, f, tag).0, tag, top)
  {
    TalkerSpec.StartDataMatches(t, f, tag, top);
    SettleStays(t.peer, f.found, tag);
    var s := TalkerSpec.Settle(t.peer, f.found, tag);
    BackendSpec.StepSound(s, "put\n", f.e);
    if !s.mode.InData? && !s.mode.Dir? {
      BackendSpec.PutLineIsPut(s, f.e);
    }
  }

  lemma {:induction false} LineTold(t: TalkerSpec.Talker, text: string, f: TalkerSpec.Fault, tag: Word, top: nat)
    requires Told(t, tag, top) && t.inmsg && !IsTerminator(text) && TalkerSpec.AddLine(t, text, f, tag).1
    requires t.broken || Private(f.found, tag)
    ensures Told(TalkerSpec.AddLine(t, text, f, tag).0, tag, top)
  {
    TalkerSpec.AddLineMatches(t, text, f, tag, top);
    if !t.broken {
      SettleStays(t.peer, f.found, tag);
      var s := TalkerSpec.Settle(t.peer, f.found, tag);
      BackendSpec.StepSound(s, text, f.e);
      assert BackendSpec.Step(s, text, f.e) == BackendSpec.PutLine(s, text, f.e);
      assert BackendSpec.PutLine(s, text, f.e).s.store.d.names == s.store.d.names;
    }
  }

  lemma {:induction false} ToldMore(t: TalkerSpec.Talker, tag: Word, top: nat)
    requires Told(t, tag, top)
    ensures Told(t, tag, top + 1)
  {
  }

  lemma {:induction false} CallTold(t: TalkerSpec.Talker, c: Call, tag: Word, top: nat)
    requires Told(t, tag, top) && Made(t, top, c, tag).1 && (c.Line? ==> t.inmsg && !IsTerminator(c.text))
    requires t.broken || Private(c.f.found, tag)
    ensures Told(Made(t, top, c, tag).0, tag, top + 1)
  {
    match c {
      case Recipient(mbox, f) => RecipientTold(t, mbox, f, tag, top);
      case Put(f) =>
        PutTold(t, f, tag, top);
        ToldMore(TalkerSpec.StartData(t, f, tag).0, tag, top);
      case Line(text, f) =>
        LineTold(t, text, f, tag, top);
        ToldMore(TalkerSpec.AddLine(t, text, f, tag).0, tag, top);
    }
  }

  lemma {:induction false} RunTold(t: TalkerSpec.Talker, cs: seq<Call>, tag: Word, top: nat)
    requires Told(t, tag, top) && AllMade(t, top, cs, tag)
    requires forall k :: 0 <= k < |cs| ==> Private(cs[k].f.found, tag)
    ensures Told(After(t, top, cs, tag), tag, top + |cs|)
    decreases |cs|
  {
    if cs != [] {
      CallTold(t, cs[0], tag, top);
      RunTold(Made(t, top, cs[0], tag).0, cs[1..], tag, top + 1);
    }
  }

  // From the connection on, over every run of acknowledged calls, while other
  // sessions change the disk but link nothing to this message's inode: what
  // the backend acknowledged is one inode with as many links as recipients.
  lemma {:induction false} EveryTransactionShares(f: TalkerSpec.Fault, garbage: Option<Handle>, cs: seq<Call>, tag: Word)
    requires TalkerSpec.Connect(tag, f, garbage).Some? && AllMade(TalkerSpec.Connect(tag, f, garbage).value, 0, cs, tag)
    requires forall k :: 0 <= k < |cs| ==> Private(cs[k].f.found, tag)
    ensures var t := After(TalkerSpec.Connect(tag, f, garbage).value, 0, cs, tag);
            !t.broken && t.said != [] ==>
              && SharedInode(t.peer.store)
              && |Links(t.peer.store.d, t.peer.store.p.fd.value.ino)| == |t.said| == |t.peer.store.p.destinations|
  {
    var t0 := TalkerSpec.Connect(tag, f, garbage).value;
    TalkerSpec.ConnectMatches(tag, f, garbage, 0);
    RunTold(t0, cs, tag, 0);
    var t := After(t0, 0, cs, tag);
    if !t.broken && t.said != [] {
      AcknowledgedNamesShare(t, tag, |cs|);
    }
  }

  lemma {:induction false} DotTold(t: TalkerSpec.Talker, f: TalkerSpec.Fault, tag: Word, top: nat)
    requires Told(t, tag, top) && !t.broken && Private(f.found, tag)
    requires TalkerSpec.Exchange(t, ".\n", f, tag).1 == Some(BackendSpec.Ok)
    ensures var t1 := TalkerSpec.Exchange(t, ".\n", f, tag).0;
            && !t1.broken && TalkerSpec.Match(t1, tag, top) && t1.peer.mode.InLimbo? && t1.said == t.said
            && BackendSpec.Sound(t1.peer) && Private(t1.peer.store.d, tag) && t1.peer.store.p == t.peer.store.p
  {
    TalkerSpec.DotMatches(t, f, tag, top);
    SettleStays(t.peer, f.found, tag);
    var s := TalkerSpec.Settle(t.peer, f.found, tag);
    BackendSpec.StepSound(s, ".\n", f.e);
    BackendSpec.DotLine(s, f.e);
  }

  // When the dot and the commit are acknowledged as well, the message has one
  // link per recipient, in cur, and is freed when the last is deleted.
  lemma {:induction false} EveryTransactionFreesAtTheLastDelete(
      f: TalkerSpec.Fault, garbage: Option<Handle>, cs: seq<Call>, g: TalkerSpec.Fault, h: TalkerSpec.Fault, tag: Word, dels: seq<Path>)
    requires TalkerSpec.Connect(tag, f, garbage).Some? && AllMade(TalkerSpec.Connect(tag, f, garbage).value, 0, cs, tag)
    requires (forall k :: 0 <= k < |cs| ==> Private(cs[k].f.found, tag)) && Private(g.found, tag) && Private(h.found, tag)
    requires var t := After(TalkerSpec.Connect(tag, f, garbage).value, 0, cs, tag);
             t.said != [] && TalkerSpec.MsgDone(t, g, h, tag).1
    ensures var t := After(TalkerSpec.Connect(tag, f, garbage).value, 0, cs, tag);
            t.peer.store.p.fd.Some?
    ensures var t := After(TalkerSpec.Connect(tag, f, garbage).value, 0, cs, tag);
            var ino, after := t.peer.store.p.fd.value.ino, TalkerSpec.MsgDone(t, g, h, tag).0.peer.store.d;
            && |Links(after, ino)| == |t.said|
            && (Links(DeleteAll(after, dels), ino) == {} <==>
                  forall a :: a in t.said ==> CurOf(TalkerSpec.FileOf(a, tag)) in dels)
  {
    var t0 := TalkerSpec.Connect(tag, f, garbage).value;
    TalkerSpec.ConnectMatches(tag, f, garbage, 0);
    RunTold(t0, cs, tag, 0);
    DoneFrees(After(t0, 0, cs, tag), g, h, tag, |cs|, dels);
  }

  lemma {:induction false} DoneFrees(t: TalkerSpec.Talker, g: TalkerSpec.Fault, h: TalkerSpec.Fault, tag: Word, top: nat, dels: seq<Path>)
    requires Told(t, tag, top) && t.said != [] && TalkerSpec.MsgDone(t, g, h, tag).1
    requires Private(g.found, tag) && Private(h.found, tag)
    ensures t.peer.store.p.fd.Some?
    ensures var ino, after := t.peer.store.p.fd.value.ino, TalkerSpec.MsgDone(t, g, h, tag).0.peer.store.d;
            && |Links(after, ino)| == |t.said|
            && (Links(DeleteAll(after, dels), ino) == {} <==>
                  forall a :: a in t.said ==> CurOf(TalkerSpec.FileOf(a, tag)) in dels)
  {
    DotTold(t, g, tag, top);
    var t1 := TalkerSpec.Exchange(t, ".\n", g, tag).0;
    TalkerSpec.SettleMatches(t1, h.found, tag, top);
    SettleStays(t1.peer, h.found, tag);
    var t2 := t1.(peer := TalkerSpec.Settle(t1.peer, h.found, tag));
    BackendSpec.CommitLineIsCommit(t2.peer, h.e);
    CommittedFreesAtTheLastDelete(t2, h.e, tag, top, dels);
    AcknowledgedNamesShare(t2, tag, top);
    CurNamesSize(t2.peer.store.p.filenames);
  }
}
