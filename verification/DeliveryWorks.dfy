/** When the operations of a delivery succeed: exactly when their system calls
    do. */
module DeliveryWorks {
  import opened Disk
  import opened DeliverySpec
  import opened BackendSpec
  import TalkerProgress

  // A recipient is accepted when its directory is there and the file can be
  // created, or linked to that of the first recipient, which must still be
  // there and be another file.
  lemma {:induction false} AddFileWorksIff(s: Store, mbox: string, index: string, e: Env)
    ensures AddFile(s, mbox, index, e).1 <==>
            && !e.dirErr
            && if s.p.destinations == [] then !e.openErr
               else !e.linkErr && s.p.first in s.d.names && s.p.first != Path(mbox, Tmp, index)
  {
  }

  lemma {:induction false} GiveLineWorksIff(s: Store, line: string, e: Env)
    ensures GiveLine(s, line, e).1 == if s.p.fd.None? then None else Some(!e.writeErr)
  {
  }

  lemma {:induction false} MoveFails(names: seq<Path>, d: Disk, i: nat, errAt: nat)
    requires AllTmp(names, i) && i <= errAt < |names|
    ensures !MoveFrom(names, d, i, errAt).ok
    decreases |names| - i
  {
    if i < errAt {
      match MoveOne(d, names[i], false) {
        case None =>
        case Some(d1) => MoveFails(names[i := CurOf(names[i])], d1, i + 1, errAt);
      }
    }
  }

  // A commit of files that are there, under different names, works exactly
  // when the descriptor is open, it can be closed, and no rename fails.
  lemma {:induction false} CommitWorksIff(s: Store, e: Env)
    requires AllTmp(s.p.filenames, 0) && (forall j :: 0 <= j < |s.p.filenames| ==> s.p.filenames[j] in s.d.names)
    requires forall j, k :: 0 <= j < k < |s.p.filenames| ==> s.p.filenames[j] != s.p.filenames[k]
    ensures Commit(s, e).1 <==> s.p.fd.Some? && !e.closeErr && e.renameErrAt >= |s.p.filenames|
  {
    if e.renameErrAt >= |s.p.filenames| {
      TalkerProgress.MoveWorks(s.p.filenames, s.d, 0, e.renameErrAt);
    } else {
      MoveFails(s.p.filenames, s.d, 0, e.renameErrAt);
    }
  }

  // At the session: +OK to a commit means that, and that no write failed.
  lemma {:induction false} CommitIsAnsweredIff(s: Session, e: Env)
    requires Sound(s) && s.mode.InLimbo? && (forall j :: 0 <= j < |s.store.p.filenames| ==> s.store.p.filenames[j] in s.store.d.names)
    requires forall j, k :: 0 <= j < k < |s.store.p.filenames| ==> s.store.p.filenames[j] != s.store.p.filenames[k]
    ensures CommitCommand(s, e).reply ==
            if !s.failed && !e.closeErr && e.renameErrAt >= |s.store.p.filenames| then Ok else Err
  {
    CommitWorksIff(s.store, e);
  }
}
