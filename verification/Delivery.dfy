/** The Delivery class of a backend session, in the source's own form: fields
    that every call updates, loops over the pending names.  Each method is
    proved to do what DeliverySpec says. */
module Delivery {
  import opened Disk
  import opened DeliverySpec
  import Spec = DeliverySpec

  class FileSystem {
    var disk: Disk

    constructor (d: Disk)
      ensures disk == d
    {
      disk := d;
    }
  }

  class Delivery {
    const fs: FileSystem
    var destinations: seq<string>
    var filenames: seq<Path>
    var first: Path
    var fd: Option<Handle>

    function View(): Pending
      reads this
    {
      Pending(destinations, filenames, first, fd)
    }

    function State(): Store
      reads this, fs
    {
      Store(View(), fs.disk)
    }

    // d_fd is not initialised by the source's constructor.
    constructor (fs: FileSystem, garbage: Option<Handle>)
      ensures this.fs == fs
      ensures View() == Pending([], [], TmpPath("", ""), garbage)
    {
      this.fs := fs;
      destinations, filenames := [], [];
      first, fd := TmpPath("", ""), garbage;
    }

    method UnlinkAll()
      modifies fs
      ensures fs.disk == UnlinkSet(old(fs.disk), Range(filenames))
    {
      for i := 0 to |filenames|
        invariant fs.disk == UnlinkSet(old(fs.disk), Range(filenames[..i]))
      {
        fs.disk := Unlink(fs.disk, filenames[i]);
        assert Range(filenames[..i + 1]) == Range(filenames[..i]) + {filenames[i]};
      }
      assert filenames[..|filenames|] == filenames;
    }

    method MakeRealMessage(mbox: string, index: string, e: Env) returns (filename: Path, h: Option<Handle>)
      modifies fs
      ensures filename == TmpPath(mbox, index)
      ensures h.None? <==> e.dirErr || e.openErr
      ensures h.None? ==> fs.disk == old(fs.disk)
      ensures h.Some? ==> (fs.disk, h.value.ino) == Create(old(fs.disk), filename) && h.value.off == 0
    {
      filename, h := TmpPath(mbox, index), None;
      if e.dirErr || e.openErr {
        return;
      }
      var (d, ino) := Create(fs.disk, filename);
      fs.disk, h := d, Some(Handle(ino, 0));
    }

    method MakeLinkMessage(mbox: string, index: string, first: Path, e: Env) returns (filename: Path, ok: bool)
      modifies fs
      ensures filename == TmpPath(mbox, index)
      ensures e.dirErr ==> !ok && fs.disk == old(fs.disk)
      ensures !e.dirErr ==>
        var moved := Unlink(old(fs.disk), filename);
        if e.linkErr then !ok && fs.disk == moved
        else match Link(moved, first, filename)
             case None => !ok && fs.disk == moved
             case Some(d) => ok && fs.disk == d
    {
      filename, ok := TmpPath(mbox, index), false;
      if e.dirErr {
        return;
      }
      fs.disk := Unlink(fs.disk, filename); // move out of the way
      if e.linkErr {
        return;
      }
      match Link(fs.disk, first, filename) {
        case None =>
        case Some(d) => fs.disk, ok := d, true;
      }
    }

    method AddFile(mbox: string, index: string, e: Env) returns (ok: bool)
      modifies this, fs
      ensures var (s, added) := Spec.AddFile(old(State()), mbox, index, e); State() == s && ok == added
    {
      ok := false;
      var filename;
      if destinations == [] {
        filename, fd := MakeRealMessage(mbox, index, e);
        if fd.None? {
          return;
        }
        first := filename;
      } else {
        var linked;
        filename, linked := MakeLinkMessage(mbox, index, first, e);
        if !linked {
          return;
        }
      }
      filenames := filenames + [filename];
      destinations := destinations + [mbox];
      ok := true;
    }

    method GiveLine(line: string, e: Env) returns (r: Option<bool>)
      modifies this, fs
      ensures var (s, res) := Spec.GiveLine(old(State()), line, e); State() == s && r == res
    {
      match fd {
        case None => r := None;
        case Some(h) =>
          if e.writeErr {
            r := Some(false);
          } else {
            fs.disk := Write(fs.disk, h.ino, h.off, line);
            fd := Some(h.(off := h.off + |line|));
            r := Some(true);
          }
      }
    }

    method MoveAll(errAt: nat) returns (ok: bool)
      modifies this, fs
      ensures destinations == old(destinations) && first == old(first) && fd == old(fd)
      ensures Moved(filenames, fs.disk, ok) == MoveFrom(old(filenames), old(fs.disk), 0, errAt)
    {
      var i := 0;
      while i < |filenames|
        invariant 0 <= i <= |filenames|
        invariant destinations == old(destinations) && first == old(first) && fd == old(fd)
        invariant MoveFrom(filenames, fs.disk, i, errAt) == MoveFrom(old(filenames), old(fs.disk), 0, errAt)
      {
        if filenames[i].stage.Tmp? {
          match MoveOne(fs.disk, filenames[i], i == errAt) {
            case None =>
              return false;
            case Some(d) =>
              fs.disk := d;
              filenames := filenames[i := CurOf(filenames[i])]; // log the rename
          }
        }
        i := i + 1;
      }
      ok := true;
    }

    // false is the exception thrown on a close or rename error.
    method Commit(e: Env) returns (ok: bool)
      modifies this, fs
      ensures var (s, done) := Spec.Commit(old(State()), e); State() == s && ok == done
    {
      if fd.None? || e.closeErr {
        fd := None;
        UnlinkAll();
        return false;
      }
      fd := None;
      ok := MoveAll(e.renameErrAt);
      if !ok {
        UnlinkAll();
      } else {
        filenames := [];
      }
    }

    method Reset()
      modifies this, fs
      ensures State() == Spec.Reset(old(State()))
    {
      fd := None;
      UnlinkAll();
      filenames := [];
      destinations := [];
    }

    method RollBack()
      modifies this, fs
      ensures State() == Spec.Reset(old(State()))
    {
      Reset();
      UnlinkAll();
      assert UnlinkSet(fs.disk, Range(filenames)) == fs.disk;
    }

    method DelMessage(mbox: string, index: string, e: Env) returns (ok: bool)
      modifies fs
      ensures match Spec.DelMessage(old(fs.disk), mbox, index, e)
              case None => !ok && fs.disk == old(fs.disk)
              case Some(d) => ok && fs.disk == d
    {
      if e.unlinkErr {
        return false;
      }
      fs.disk := Unlink(fs.disk, Path(mbox, Cur, index));
      ok := true;
    }
  }
}
