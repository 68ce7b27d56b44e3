/** The mail-root of one backend: names in a mailbox's tmp or cur directory,
    hard-linked to inodes, and the bytes behind each inode. */
module Disk {

  datatype Option<+T> = None | Some(value: T)

  datatype Stage = Tmp | Cur

  // <mail-root>/<hash>/<mbox>/<stage>/<index>
  datatype Path = Path(mbox: string, stage: Stage, index: string)

  type Inode = nat

  datatype Disk = Disk(names: map<Path, Inode>, data: map<Inode, string>, next: Inode)

  const EMPTY := Disk(map[], map[], 0)

  function CurOf(p: Path): Path { p.(stage := Cur) }

  function Content(d: Disk, ino: Inode): string {
    if ino in d.data then d.data[ino] else ""
  }

  // What a reader of the path finds; None when there is no such file.
  function Lookup(d: Disk, p: Path): Option<string> {
    if p in d.names then Some(Content(d, d.names[p])) else None
  }

  // Every inode that is in use lies below the next free number.
  ghost predicate Wf(d: Disk) {
    && (forall p :: p in d.names ==> d.names[p] < d.next)
    && (forall i :: i in d.data ==> i < d.next)
  }

  ghost predicate NamesBelow(d: Disk) { forall p :: p in d.names ==> d.names[p] < d.next }

  // All names of one inode; its link count is the size of this set, and the
  // file system frees the inode when the set is empty and no descriptor is left.
  ghost function Links(d: Disk, ino: Inode): set<Path> {
    set p | p in d.names && d.names[p] == ino
  }

  // open(O_CREAT|O_WRONLY): an existing file is opened as it is.
  function Create(d: Disk, p: Path): (Disk, Inode) {
    if p in d.names then (d, d.names[p])
    else (Disk(d.names[p := d.next], d.data[d.next := ""], d.next + 1), d.next)
  }

  function Unlink(d: Disk, p: Path): Disk {
    d.(names := d.names - {p})
  }

  function UnlinkSet(d: Disk, ps: set<Path>): Disk {
    d.(names := d.names - ps)
  }

  // link(2) fails when the source is missing or the new name exists.
  function Link(d: Disk, from: Path, to: Path): Option<Disk> {
    if from !in d.names || to in d.names then None
    else Some(d.(names := d.names[to := d.names[from]]))
  }

  // rename(2) replaces the target, and does nothing when both names already
  // are links to the same file.
  function Rename(d: Disk, from: Path, to: Path): Option<Disk> {
    if from !in d.names then None
    else if to in d.names && d.names[to] == d.names[from] then Some(d)
    else Some(d.(names := (d.names - {from})[to := d.names[from]]))
  }

  // write(2) at an offset, over what is there.
  function Overlay(was: string, off: nat, s: string): string {
    if off > |was| then was + seq(off - |was|, i => '\0') + s
    else was[..off] + s + (if off + |s| <= |was| then was[off + |s|..] else "")
  }

  function Write(d: Disk, ino: Inode, off: nat, s: string): Disk {
    d.(data := d.data[ino := Overlay(Content(d, ino), off, s)])
  }

  function Range(ps: seq<Path>): (r: set<Path>)
    ensures forall p :: p in r <==> p in ps
  {
    set p | p in ps
  }

  // A series of deletions, each of one path.
  function DeleteAll(d: Disk, ps: seq<Path>): Disk
    decreases |ps|
  {
    if ps == [] then d else DeleteAll(Unlink(d, ps[0]), ps[1..])
  }

  // Deleting names never changes what the remaining names lead to, and takes
  // exactly the deleted names off the inode.
  lemma {:induction false} DeleteAllLinks(d: Disk, ps: seq<Path>, ino: Inode)
    ensures DeleteAll(d, ps).data == d.data
    ensures Links(DeleteAll(d, ps), ino) == Links(d, ino) - Range(ps)
    decreases |ps|
  {
    if ps == [] {
    } else {
      var d1 := Unlink(d, ps[0]);
      DeleteAllLinks(d1, ps[1..], ino);
      assert Links(d1, ino) == Links(d, ino) - {ps[0]};
      assert Range(ps) == {ps[0]} + Range(ps[1..]);
    }
  }
}
