/** The two-stage file store of a backend: files are written in tmp, shared
    between recipients by hard links, and moved to cur by a commit. */
module DeliverySpec {
  import opened Disk

  // What the surroundings answer during one command: whether the password and
  // the peer address are accepted, which system calls fail, and which files a
  // nuke manages to remove.  renameErrAt is the position in d_filenames at
  // which rename fails, if the loop gets there.
  datatype Env = Env(
    passOk: bool, local: bool, dirErr: bool, openErr: bool, linkErr: bool, writeErr: bool,
    closeErr: bool, renameErrAt: nat, unlinkErr: bool, nuked: set<Path>)

  // An open descriptor: the inode and the file offset.
  datatype Handle = Handle(ino: Inode, off: nat)

  datatype Pending = Pending(
    destinations: seq<string>, filenames: seq<Path>, first: Path, fd: Option<Handle>)

  datatype Store = Store(p: Pending, d: Disk)

  datatype Moved = Moved(filenames: seq<Path>, d: Disk, ok: bool)

  function TmpPath(mbox: string, index: string): Path { Path(mbox, Tmp, index) }

  // --------------------------------------------------------- specification

  function UnlinkAll(s: Store): Store {
    s.(d := UnlinkSet(s.d, Range(s.p.filenames)))
  }

  function AddFile(s: Store, mbox: string, index: string, e: Env): (Store, bool) {
    var path := TmpPath(mbox, index);
    if s.p.destinations == [] then
      if e.dirErr || e.openErr then (s.(p := s.p.(fd := None)), false)
      else
        var (d, ino) := Create(s.d, path);
        (Store(Pending([mbox], s.p.filenames + [path], path, Some(Handle(ino, 0))), d), true)
    else if e.dirErr then (s, false)
    else
      var d := Unlink(s.d, path);
      if e.linkErr || Link(d, s.p.first, path).None? then (s.(d := d), false)
      else
        var p := s.p.(destinations := s.p.destinations + [mbox], filenames := s.p.filenames + [path]);
        (Store(p, Link(d, s.p.first, path).value), true)
  }

  // None is the exception for a descriptor that was closed already; otherwise
  // the result says whether the write succeeded.
  function GiveLine(s: Store, line: string, e: Env): (Store, Option<bool>) {
    match s.p.fd
    case None => (s, None)
    case Some(h) =>
      if e.writeErr then (s, Some(false))
      else (Store(s.p.(fd := Some(h.(off := h.off + |line|))), Write(s.d, h.ino, h.off, line)), Some(true))
  }

  // One round of the moving loop: None when the rename fails.
  function MoveOne(d: Disk, p: Path, fails: bool): Option<Disk> {
    if fails then None else Rename(d, p, CurOf(p))
  }

  function MoveFrom(names: seq<Path>, d: Disk, i: nat, errAt: nat): Moved
    decreases |names| - i
  {
    if i >= |names| then Moved(names, d, true)
    else if names[i].stage.Cur? then MoveFrom(names, d, i + 1, errAt)
    else
      match MoveOne(d, names[i], i == errAt)
      case None => Moved(names, d, false)
      case Some(d1) => MoveFrom(names[i := CurOf(names[i])], d1, i + 1, errAt)
  }

  function Commit(s: Store, e: Env): (Store, bool) {
    var s0 := s.(p := s.p.(fd := None));
    if s.p.fd.None? || e.closeErr then (UnlinkAll(s0), false)
    else
      var m := MoveFrom(s.p.filenames, s.d, 0, e.renameErrAt);
      var s1 := Store(s0.p.(filenames := m.filenames), m.d);
      if m.ok then (s1.(p := s1.p.(filenames := [])), true) else (UnlinkAll(s1), false)
  }

  function Reset(s: Store): Store {
    var s1 := UnlinkAll(s);
    s1.(p := s1.p.(fd := None, filenames := [], destinations := []))
  }

  // What the destructor leaves on disk.
  function Close(s: Store): Store {
    UnlinkAll(s.(p := s.p.(fd := None)))
  }

  // None when unlink fails for another reason than a missing file.
  function DelMessage(d: Disk, mbox: string, index: string, e: Env): Option<Disk> {
    if e.unlinkErr then None else Some(Unlink(d, Path(mbox, Cur, index)))
  }

  // ------------------------------------------------- what a commit achieves

  ghost predicate AllTmp(names: seq<Path>, i: nat) {
    forall j :: i <= j < |names| ==> names[j].stage.Tmp?
  }

  // No file of the message is in cur yet.
  ghost predicate NotYetInCur(names: seq<Path>, d: Disk) {
    forall j :: 0 <= j < |names| ==> CurOf(names[j]) !in d.names
  }

  // A path the moving of names[i..] can have an effect on.
  ghost predicate Touched(names: seq<Path>, i: nat, p: Path) {
    exists j :: i <= j < |names| && (p == names[j] || p == CurOf(names[j]))
  }

  lemma {:induction false} MoveFrame(names: seq<Path>, d: Disk, i: nat, errAt: nat, p: Path)
    requires AllTmp(names, i) && !Touched(names, i, p)
    ensures var m := MoveFrom(names, d, i, errAt);
            && (p in m.d.names <==> p in d.names)
            && (p in d.names ==> m.d.names[p] == d.names[p])
    decreases |names| - i
  {
    if i < |names| {
      assert p != names[i] && p != CurOf(names[i]);
      match MoveOne(d, names[i], i == errAt) {
        case None =>
        case Some(d1) => MoveFrame(names[i := CurOf(names[i])], d1, i + 1, errAt, p);
      }
    }
  }

  lemma {:induction false} MovePrefix(names: seq<Path>, d: Disk, i: nat, errAt: nat)
    requires i <= |names| && AllTmp(names, i)
    ensures var m := MoveFrom(names, d, i, errAt);
            m.d.data == d.data && m.d.next == d.next && |m.filenames| == |names| && m.filenames[..i] == names[..i]
    decreases |names| - i
  {
    if i < |names| {
      match MoveOne(d, names[i], i == errAt) {
        case None =>
        case Some(d1) =>
          var names1 := names[i := CurOf(names[i])];
          MovePrefix(names1, d1, i + 1, errAt);
          var m := MoveFrom(names1, d1, i + 1, errAt);
          assert m.filenames[..i] == m.filenames[..i + 1][..i] == names1[..i + 1][..i] == names[..i];
      }
    }
  }

  lemma {:induction false} TmpNeverAdded(names: seq<Path>, d: Disk, i: nat, errAt: nat, p: Path)
    requires AllTmp(names, i) && p.stage.Tmp? && p !in d.names
    ensures p !in MoveFrom(names, d, i, errAt).d.names
    decreases |names| - i
  {
    if i < |names| {
      match MoveOne(d, names[i], i == errAt) {
        case None =>
        case Some(d1) => TmpNeverAdded(names[i := CurOf(names[i])], d1, i + 1, errAt, p);
      }
    }
  }

  // When every rename works, each pending file stands in cur under the inode
  // it had in tmp, whatever stood there before.
  lemma {:induction false} MoveDone(names: seq<Path>, d: Disk, i: nat, errAt: nat, j: nat)
    requires AllTmp(names, i) && MoveFrom(names, d, i, errAt).ok && i <= j < |names|
    ensures var m := MoveFrom(names, d, i, errAt);
            && names[j] in d.names
            && CurOf(names[j]) in m.d.names && m.d.names[CurOf(names[j])] == d.names[names[j]]
            && |m.filenames| == |names| && m.filenames[j] == CurOf(names[j])
    decreases |names| - i
  {
    var d1 := MoveOne(d, names[i], i == errAt).value;
    var names1 := names[i := CurOf(names[i])];
    MovePrefix(names1, d1, i + 1, errAt);
    var m := MoveFrom(names1, d1, i + 1, errAt);
    if i < j {
      MoveDone(names1, d1, i + 1, errAt, j);
    } else {
      assert m.filenames[i] == m.filenames[..i + 1][i] == names1[..i + 1][i];
      if Touched(names1, i + 1, CurOf(names[i])) {
        var k :| i + 1 <= k < |names1| && (CurOf(names[i]) == names1[k] || CurOf(names[i]) == CurOf(names1[k]));
        MoveDone(names1, d1, i + 1, errAt, k);
        assert names1[k] == names[i];
      } else {
        MoveFrame(names1, d1, i + 1, errAt, CurOf(names[i]));
      }
    }
  }

  // Of each pending file still to be moved, cur and tmp do not both hold a
  // name, and whatever exists in cur is logged in the list.
  ghost predicate Tracked(names: seq<Path>, d: Disk, i: nat) {
    forall j :: i <= j < |names| && CurOf(names[j]) in d.names ==> names[j] !in d.names && CurOf(names[j]) in names
  }

  // However the moving ends, the list names every file of the message that is
  // left in tmp or in cur, so that unlinking the list removes them all.
  lemma {:induction false} MoveLeavesOnlyListed(names: seq<Path>, d: Disk, i: nat, errAt: nat, j: nat)
    requires AllTmp(names, i) && Tracked(names, d, i) && i <= j < |names|
    ensures var m := MoveFrom(names, d, i, errAt);
            && (names[j] in m.d.names ==> names[j] in m.filenames)
            && (CurOf(names[j]) in m.d.names ==> CurOf(names[j]) in m.filenames)
            && (m.ok ==> names[j] !in m.d.names)
    decreases |names| - i
  {
    match MoveOne(d, names[i], i == errAt) {
      case None =>
      case Some(d1) =>
        var names1 := names[i := CurOf(names[i])];
        MovePrefix(names1, d1, i + 1, errAt);
        var m := MoveFrom(names1, d1, i + 1, errAt);
        if i == j {
          TmpNeverAdded(names1, d1, i + 1, errAt, names[i]);
          assert CurOf(names[i]) == names1[..i + 1][i] == m.filenames[i];
        } else {
          assert Tracked(names1, d1, i + 1) by {
            forall k | i + 1 <= k < |names1| && CurOf(names1[k]) in d1.names
              ensures names1[k] !in d1.names && CurOf(names1[k]) in names1
            {
              if CurOf(names1[k]) == CurOf(names[i]) {
                assert names1[i] == CurOf(names1[k]);
              } else {
                var x :| 0 <= x < |names| && names[x] == CurOf(names[k]);
                assert names1[x] == names[x];
              }
            }
          }
          MoveLeavesOnlyListed(names1, d1, i + 1, errAt, j);
        }
    }
  }

  // A commit answered with success moved every pending file.
  lemma {:induction false} CommitMovesAll(s: Store, e: Env)
    requires AllTmp(s.p.filenames, 0) && Commit(s, e).1
    ensures var d := Commit(s, e).0.d;
            && d.data == s.d.data && d.next == s.d.next
            && Commit(s, e).0.p.filenames == []
            && (forall f :: f in s.p.filenames ==>
                  f in s.d.names && CurOf(f) in d.names && d.names[CurOf(f)] == s.d.names[f])
            && (NotYetInCur(s.p.filenames, s.d) ==> forall f :: f in s.p.filenames ==> f !in d.names)
  {
    var names := s.p.filenames;
    MovePrefix(names, s.d, 0, e.renameErrAt);
    forall f | f in names
      ensures f in s.d.names && CurOf(f) in Commit(s, e).0.d.names
      ensures Commit(s, e).0.d.names[CurOf(f)] == s.d.names[f]
      ensures NotYetInCur(names, s.d) ==> f !in Commit(s, e).0.d.names
    {
      var j :| 0 <= j < |names| && names[j] == f;
      MoveDone(names, s.d, 0, e.renameErrAt, j);
      if NotYetInCur(names, s.d) {
        MoveLeavesOnlyListed(names, s.d, 0, e.renameErrAt, j);
      }
    }
  }

  // A commit that fails, on close or on any of the renames, leaves none of
  // the files of the message in tmp or in cur.
  lemma {:induction false} FailedCommitLeavesNothing(s: Store, e: Env)
    requires AllTmp(s.p.filenames, 0) && NotYetInCur(s.p.filenames, s.d) && !Commit(s, e).1
    ensures var d := Commit(s, e).0.d;
            && d.data == s.d.data
            && forall f :: f in s.p.filenames ==> f !in d.names && CurOf(f) !in d.names
  {
    var names := s.p.filenames;
    MovePrefix(names, s.d, 0, e.renameErrAt);
    forall f | f in names
      ensures f !in Commit(s, e).0.d.names && CurOf(f) !in Commit(s, e).0.d.names
    {
      var j :| 0 <= j < |names| && names[j] == f;
      MoveLeavesOnlyListed(names, s.d, 0, e.renameErrAt, j);
    }
  }

  // Files of other messages are neither moved nor removed by a commit,
  // whatever its outcome.
  lemma {:induction false} CommitFrame(s: Store, e: Env, p: Path)
    requires AllTmp(s.p.filenames, 0) && !Touched(s.p.filenames, 0, p)
    ensures var d := Commit(s, e).0.d;
            && (p in d.names <==> p in s.d.names)
            && (p in s.d.names ==> d.names[p] == s.d.names[p])
  {
    var names := s.p.filenames;
    MovePrefix(names, s.d, 0, e.renameErrAt);
    MoveFrame(names, s.d, 0, e.renameErrAt, p);
    var m := MoveFrom(names, s.d, 0, e.renameErrAt);
    MoveNames(names, s.d, 0, e.renameErrAt);
  }

  // The list always holds, position by position, the tmp or the cur name.
  lemma {:induction false} MoveNames(names: seq<Path>, d: Disk, i: nat, errAt: nat)
    requires AllTmp(names, i) && i <= |names|
    ensures var m := MoveFrom(names, d, i, errAt);
            && |m.filenames| == |names| && m.filenames[..i] == names[..i]
            && forall j :: i <= j < |names| ==> m.filenames[j] in {names[j], CurOf(names[j])}
    decreases |names| - i
  {
    MovePrefix(names, d, i, errAt);
    if i < |names| {
      match MoveOne(d, names[i], i == errAt) {
        case None =>
        case Some(d1) =>
          var names1 := names[i := CurOf(names[i])];
          MoveNames(names1, d1, i + 1, errAt);
          var m := MoveFrom(names1, d1, i + 1, errAt);
          assert m.filenames[i] == m.filenames[..i + 1][i] == names1[i];
      }
    }
  }

  // A file that the moving puts into cur is on the list afterwards.
  lemma {:induction false} MovedIsListed(names: seq<Path>, d: Disk, i: nat, errAt: nat, p: Path)
    requires AllTmp(names, i) && i <= |names| && p.stage.Cur?
    requires var m := MoveFrom(names, d, i, errAt); p in m.d.names && (p in d.names ==> m.d.names[p] != d.names[p])
    ensures p in MoveFrom(names, d, i, errAt).filenames
    decreases |names| - i
  {
    if i < |names| {
      match MoveOne(d, names[i], i == errAt) {
        case None =>
        case Some(d1) =>
          var names1 := names[i := CurOf(names[i])];
          if p == CurOf(names[i]) {
            MovePrefix(names1, d1, i + 1, errAt);
            assert p == names1[..i + 1][i] == MoveFrom(names1, d1, i + 1, errAt).filenames[i];
          } else {
            MovedIsListed(names1, d1, i + 1, errAt, p);
          }
      }
    }
  }

  // ------------------------------------------------------- the shared inode

  // Every pending name of the message refers to the one inode the open
  // descriptor writes to, and nothing else on disk does.
  ghost predicate SharedInode(s: Store) {
    && s.p.fd.Some?
    && |s.p.filenames| == |s.p.destinations| > 0
    && s.p.filenames[0] == s.p.first
    && AllTmp(s.p.filenames, 0)
    && (forall i, j :: 0 <= i < j < |s.p.filenames| ==> s.p.filenames[i] != s.p.filenames[j])
    && Links(s.d, s.p.fd.value.ino) == Range(s.p.filenames)
  }

  lemma {:induction false} RangeSize(ps: seq<Path>)
    requires forall i, j :: 0 <= i < j < |ps| ==> ps[i] != ps[j]
    ensures |Range(ps)| == |ps|
  {
    if ps != [] {
      var last := ps[|ps| - 1];
      RangeSize(ps[..|ps| - 1]);
      assert Range(ps) == Range(ps[..|ps| - 1]) + {last};
      assert last !in Range(ps[..|ps| - 1]);
    }
  }

  // The link count of the pending message is its number of recipients.
  lemma {:induction false} LinkCountIsRecipientCount(s: Store)
    requires SharedInode(s)
    ensures |Links(s.d, s.p.fd.value.ino)| == |s.p.destinations|
  {
    RangeSize(s.p.filenames);
  }

  // The first recipient opens a fresh file, every later one links to it.
  lemma {:induction false} AddFileShares(s: Store, mbox: string, index: string, e: Env)
    requires NamesBelow(s.d) && AddFile(s, mbox, index, e).1
    requires s.p.destinations == [] ==> s.p.filenames == [] && TmpPath(mbox, index) !in s.d.names
    requires s.p.destinations != [] ==> SharedInode(s) && TmpPath(mbox, index) !in s.p.filenames
    ensures SharedInode(AddFile(s, mbox, index, e).0)
    ensures NamesBelow(AddFile(s, mbox, index, e).0.d)
  {
    var s1 := AddFile(s, mbox, index, e).0;
    var path := TmpPath(mbox, index);
    var ino := s1.p.fd.value.ino;
    if s.p.destinations == [] {
      assert Links(s1.d, ino) == {path};
    } else {
      assert s.p.first in Links(s.d, ino);
      assert Links(Unlink(s.d, path), ino) == Links(s.d, ino);
      assert Links(s1.d, ino) == Links(s.d, ino) + {path};
    }
  }

  ghost function CurNames(ps: seq<Path>): (r: set<Path>)
    ensures forall p :: p in r <==> exists j :: 0 <= j < |ps| && p == CurOf(ps[j])
  {
    set j | 0 <= j < |ps| :: CurOf(ps[j])
  }

  // A commit turns the tmp names into the cur names of the same inode.
  lemma {:induction false} CommitKeepsShared(s: Store, e: Env)
    requires SharedInode(s) && Commit(s, e).1 && NotYetInCur(s.p.filenames, s.d)
    ensures Links(Commit(s, e).0.d, s.p.fd.value.ino) == CurNames(s.p.filenames)
  {
    var ino := s.p.fd.value.ino;
    var names := s.p.filenames;
    var d := Commit(s, e).0.d;
    CommitMovesAll(s, e);
    forall p
      ensures p in Links(d, ino) <==> p in CurNames(names)
    {
      if p in CurNames(names) {
        var j :| 0 <= j < |names| && p == CurOf(names[j]);
        assert names[j] in Range(names);
        assert names[j] in Links(s.d, ino);
      } else if !Touched(names, 0, p) {
        CommitFrame(s, e, p);
      }
    }
  }

  // After delivery to any number of mailboxes, deleting the message from some
  // of them leaves the others intact; the inode loses its last name, and is
  // freed, exactly when the deletions have covered every recipient.
  lemma {:induction false} FreedAtTheLastDelete(s: Store, e: Env, dels: seq<Path>)
    requires SharedInode(s) && Commit(s, e).1 && NotYetInCur(s.p.filenames, s.d)
    ensures var ino := s.p.fd.value.ino;
            var d := DeleteAll(Commit(s, e).0.d, dels);
            && (forall f :: f in s.p.filenames && CurOf(f) !in dels ==>
                  Lookup(d, CurOf(f)) == Some(Content(s.d, ino)))
            && (Links(d, ino) == {} <==> forall f :: f in s.p.filenames ==> CurOf(f) in dels)
  {
    var ino := s.p.fd.value.ino;
    var names := s.p.filenames;
    CommitKeepsShared(s, e);
    CommitMovesAll(s, e);
    DeleteAllLinks(Commit(s, e).0.d, dels, ino);
    var d := DeleteAll(Commit(s, e).0.d, dels);
    forall f | f in names
      ensures CurOf(f) !in dels ==> Lookup(d, CurOf(f)) == Some(Content(s.d, ino)) && CurOf(f) in Links(d, ino)
    {
      assert CurOf(f) in CurNames(names);
      assert CurOf(f) !in dels ==> CurOf(f) in Links(d, ino);
    }
    if p :| p in Links(d, ino) {
      assert p in CurNames(names);
    }
  }
}
