/** What QUIT does to the backends, told from the DELE and RSET lines of the
    session, and which of its deletes are logged. */
module PopQuit {
  import opened Text
  import opened Disk
  import opened ListingSpec
  import opened PopSpec
  import opened PopLogin

  // The delete of some of these names is known not to have worked on backend i.
  ghost predicate FailedAt(e: PopEnv, names: seq<string>, f: string, i: nat)
    requires i < |e.sites|
  {
    exists n: nat :: n < |names| && names[n] == f && DeleteFails(e, n, i)
  }

  predicate DeleteFails(e: PopEnv, n: nat, i: nat)
    requires i < |e.sites|
  {
    !(e.sites[i].target.up && e.wires(n)(i).Done? && !e.envs(n)(i).unlinkErr)
  }

  lemma {:induction false} TargetsStay(e: PopEnv, mbox: Word, names: seq<Word>, i: nat)
    requires i < |e.sites|
    ensures Deletions(e, mbox, names).sites[i].target == e.sites[i].target
  {
    DeletionsAreBroadcast(e, mbox, names, i);
  }

  lemma {:induction false} LoggedAre(front: seq<(string, nat)>, name: string, log: seq<nat>, f: string, i: nat)
    ensures (f, i) in front + Logged(name, log) <==> (f, i) in front || (f == name && i in log)
  {
    var more := Logged(name, log);
    if f == name && i in log {
      var k :| 0 <= k < |log| && log[k] == i;
      assert more[k] == (name, i);
    }
  }

  // The log names a delete exactly when it failed: the backend was down, the
  // request or the answer was lost, or unlink failed.
  lemma {:induction false} LogsExactlyFailures(e: PopEnv, mbox: Word, names: seq<Word>, f: string, i: nat)
    requires i < |e.sites|
    ensures (f, i) in Deletions(e, mbox, names).log <==> FailedAt(e, names, f, i)
    decreases |names|
  {
    if names != [] {
      var n := |names| - 1;
      var front := names[..n];
      LogsExactlyFailures(e, mbox, front, f, i);
      TargetsStay(e, mbox, front, i);
      var mid := Deletions(e, mbox, front);
      var log := Broadcast(mid.sites, mbox, names[n], e.wires(n), e.envs(n)).1;
      LoggedIff(mid.sites, mbox, names[n], e.wires(n), e.envs(n), i);
      LoggedAre(mid.log, names[n], log, f, i);
      if FailedAt(e, front, f, i) {
        var k: nat :| k < |front| && front[k] == f && DeleteFails(e, k, i);
        assert names[k] == f;
      }
      if FailedAt(e, names, f, i) {
        var k: nat :| k < |names| && names[k] == f && DeleteFails(e, k, i);
        assert k < n ==> front[k] == f;
      }
    }
  }

  ghost predicate AllWords(msgs: seq<MsgDatum>) { forall k :: 0 <= k < |msgs| ==> IsWord(msgs[k].fname) }

  lemma {:induction false} MarkedAreWords(msgs: seq<MsgDatum>) returns (names: seq<Word>)
    requires AllWords(msgs)
    ensures names == ToDelete(msgs)
  {
    ToDeleteAre(msgs);
    forall k | 0 <= k < |ToDelete(msgs)|
      ensures IsWord(ToDelete(msgs)[k])
    {
      assert ToDelete(msgs)[k] in ToDelete(msgs);
    }
    names := ToDelete(msgs);
  }

  // In every session QUIT deletes, from the user's mailbox on every backend,
  // the messages marked by a DELE that no RSET follows, and nothing else; what
  // is not gone is in the failure log, and only what failed is.
  lemma {:induction false} QuitDeletes(ls: seq<Line>, l: Line, i: nat)
    requires Parse(l.text).Quit? && i < |l.e.sites|
    requires IsWord(Run(NOBODY, ls).user) && AllWords(Run(NOBODY, ls).msgs)
    ensures var s, (s1, reply) := Run(NOBODY, ls), Step(Run(NOBODY, ls), l.text, l.e);
            var names := ToDelete(s.msgs);
            && reply.Bye? && |reply.sites| == |l.e.sites|
            && Gone(l.e.sites[i], reply.sites[i], s.user, names, i, reply.log)
            && (forall m: nat :: m < |s.msgs| ==> (s.msgs[m].fname in names <==> MarkedIn(NOBODY, ls, m, false)))
            && (forall f :: f in names ==> exists m :: 0 <= m < |s.msgs| && s.msgs[m].fname == f)
            && (forall f :: (f, i) in reply.log <==> FailedAt(l.e, names, f, i))
  {
    EveryRunInSession(ls);
    var s := Run(NOBODY, ls);
    var names := MarkedAreWords(s.msgs);
    ToDeleteAre(s.msgs);
    forall m: nat | m < |s.msgs|
      ensures s.msgs[m].fname in names <==> MarkedIn(NOBODY, ls, m, false)
    {
      QuitDeletesExactlyTheMarked(ls, m);
    }
    if s.login {
      DeletionsAreBroadcast(l.e, s.user, names, i);
      forall f
        ensures (f, i) in Deletions(l.e, s.mbox, names).log <==> FailedAt(l.e, names, f, i)
      {
        LogsExactlyFailures(l.e, s.user, names, f, i);
      }
    }
  }
}
