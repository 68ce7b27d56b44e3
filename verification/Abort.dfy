/** Transactions that do not reach a commit: nothing of the message shows up in
    a mailbox before the final dot, and nothing of it is left on any backend
    when the transaction is refused for its size, reset or broken off. */
module Abort {
  import opened Text
  import opened Disk
  import opened DeliverySpec
  import BackendSpec
  import opened TalkerSpec
  import opened SelectSpec
  import MegaSpec
  import SmtpSpec

  // -------------------------------------------------------------- a backend

  // Of this message the disk holds only files of the pending list, in tmp; and
  // no directory listing is going on.
  ghost predicate Clean(s: BackendSpec.Session, tag: Word) {
    && !s.mode.Dir?
    && (forall f :: f in s.store.d.names && Carries(f, tag) ==> f in s.store.p.filenames && f.stage.Tmp?)
  }

  // When the connection ends, they are gone.
  lemma {:induction false} CleanEnds(s: BackendSpec.Session, tag: Word)
    requires Clean(s, tag)
    ensures NoneCarries(BackendSpec.End(s), tag)
  {
  }

  // A command that neither commits nor lists the mailboxes.
  predicate Harmless(line: string) {
    var stripped := Strip(line);
    stripped != "commit" && (Tokens(stripped) == [] || Tokens(stripped)[0] != "dir")
  }

  lemma {:induction false} RcptClean(s: BackendSpec.Session, mbox: string, index: string, e: Env, tag: Word)
    requires Clean(s, tag)
    ensures Clean(BackendSpec.Rcpt(s, mbox, index, e).s, tag)
  {
  }

  lemma {:induction false} BlankClean(s: BackendSpec.Session, args: seq<string>, e: Env, tag: Word)
    requires Clean(s, tag) && args != [] && args[0] != "dir"
    ensures Clean(BackendSpec.BlankCommand(s, args, e).s, tag)
  {
    if args[0] == "rcpt" && |args| == 3 {
      RcptClean(s, args[1], args[2], e, tag);
    }
  }

  // Whatever the line, and whatever fails: only a commit fills a mailbox.
  lemma {:induction false} StepClean(s: BackendSpec.Session, line: string, e: Env, tag: Word)
    requires Clean(s, tag) && (s.mode.InData? || Harmless(line))
    ensures Clean(BackendSpec.Step(s, line, e).s, tag)
  {
    var args := Tokens(Strip(line));
    if !s.mode.InData? && !s.mode.Dir? && args != [] {
      if s.mode.PreLimbo? && |args| == 3 {
        RcptClean(s, args[1], args[2], e, tag);
      } else if s.mode.Blank? {
        BlankClean(s, args, e, tag);
      }
    }
  }

  lemma {:induction false} SettleClean(s: BackendSpec.Session, found: Sane, tag: Word)
    requires Clean(s, tag)
    ensures Clean(Settle(s, found, tag), tag)
  {
  }

  // ------------------------------------------------------------ a connection

  // A connection that is still used and was told to take data is taking data.
  ghost predicate CleanEntry(en: MegaSpec.Entry, tag: Word) {
    en.link.Storage? ==>
      && Clean(en.link.t.peer, tag)
      && (en.ok && en.link.t.inmsg ==> en.link.t.broken || en.link.t.peer.mode.InData?)
  }

  lemma {:induction false} ExchangeClean(t: MegaSpec.Talker, line: string, f: Fault, tag: Word)
    requires Clean(t.peer, tag) && Harmless(line)
    ensures Clean(Exchange(t, line, f, tag).0.peer, tag)
  {
    SettleClean(t.peer, f.found, tag);
    if !t.broken {
      StepClean(Settle(t.peer, f.found, tag), line, f.e, tag);
    }
  }

  lemma {:induction false} SendClean(t: MegaSpec.Talker, line: string, f: Fault, tag: Word)
    requires Clean(t.peer, tag) && (!t.broken ==> t.peer.mode.InData?) && !IsTerminator(line)
    ensures var t1 := Send(t, line, f, tag).0;
            Clean(t1.peer, tag) && (!t1.broken ==> t1.peer.mode.InData?) && t1.inmsg == t.inmsg
  {
    SettleClean(t.peer, f.found, tag);
    if !t.broken {
      StepClean(Settle(t.peer, f.found, tag), line, f.e, tag);
    }
  }

  lemma {:induction false} RcptIsHarmless(mbox: Word, index: Word)
    ensures Harmless(BackendSpec.RcptLine(mbox, index))
  {
    ThreeWords("rcpt", mbox, index);
    TokensSingle("commit");
  }

  lemma {:induction false} WordIsHarmless(w: string)
    requires IsWord(w) && w != "commit" && w != "dir"
    ensures Harmless(w + "\n")
  {
    OneWord(w);
  }

  lemma {:induction false} AnnounceClean(en: MegaSpec.Entry, mbox: Word, num: nat, f: Fault, tag: Word)
    requires CleanEntry(en, tag)
    ensures CleanEntry(MegaSpec.Announce(en, mbox, num, f, tag), tag)
  {
    if en.ok && en.link.Storage? {
      RcptIsHarmless(mbox, NameOf(tag, num));
      ExchangeClean(en.link.t, BackendSpec.RcptLine(mbox, NameOf(tag, num)), f, tag);
      if en.link.t.inmsg && !en.link.t.broken {
        BackendSpec.RcptLineElsewhere(Settle(en.link.t.peer, f.found, tag), mbox, NameOf(tag, num), f.e);
      }
    }
  }

  lemma {:induction false} PutClean(t: MegaSpec.Talker, f: Fault, tag: Word)
    requires Clean(t.peer, tag)
    ensures var (t1, ok) := StartData(t, f, tag);
            Clean(t1.peer, tag) && (ok ==> t1.inmsg && !t1.broken && t1.peer.mode.InData?)
  {
    assert "put\n" == "put" + "\n";
    WordIsHarmless("put");
    ExchangeClean(t, "put\n", f, tag);
    var s := Settle(t.peer, f.found, tag);
    if s.mode.InData? {
      assert BackendSpec.Step(s, "put\n", f.e).reply != BackendSpec.Ok;
    } else if !t.broken {
      BackendSpec.PutLineIsPut(s, f.e);
    }
  }

  lemma {:induction false} StartClean(en: MegaSpec.Entry, f: Fault, tag: Word)
    requires CleanEntry(en, tag)
    ensures CleanEntry(MegaSpec.Start1(en, f, tag), tag)
  {
    if en.ok && en.link.Storage? {
      PutClean(en.link.t, f, tag);
    }
  }

  lemma {:induction false} AddLineCleans(t: MegaSpec.Talker, line: string, f: Fault, tag: Word)
    requires Clean(t.peer, tag) && (t.inmsg ==> t.broken || t.peer.mode.InData?) && !IsTerminator(line)
    ensures var (t1, ok) := AddLine(t, line, f, tag);
            Clean(t1.peer, tag) && (ok && t1.inmsg ==> t1.broken || t1.peer.mode.InData?)
  {
    if t.inmsg {
      SendClean(t, line, f, tag);
    } else {
      PutClean(t.(inmsg := true), f, tag);
      var (t1, started) := StartData(t.(inmsg := true), f, tag);
      if started {
        SendClean(t1, line, f, tag);
      }
    }
  }

  lemma {:induction false} LineClean(en: MegaSpec.Entry, line: string, f: Fault, tag: Word)
    requires CleanEntry(en, tag) && !IsTerminator(line)
    ensures CleanEntry(MegaSpec.Line1(en, line, f, tag), tag)
  {
    if en.ok && en.link.Storage? {
      AddLineCleans(en.link.t, line, f, tag);
    }
  }

  lemma {:induction false} RollbackClean(en: MegaSpec.Entry, f: Fault, g: Fault, tag: Word)
    requires CleanEntry(en, tag)
    ensures var en1 := MegaSpec.Rollback1(en, f, g, tag); en1.link.Storage? ==> Clean(en1.link.t.peer, tag)
  {
    if en.ok && en.link.Storage? {
      assert ".\n" == "." + "\n" && "rollback\n" == "rollback" + "\n";
      WordIsHarmless(".");
      WordIsHarmless("rollback");
      ExchangeClean(en.link.t, ".\n", f, tag);
      var (t1, r) := Exchange(en.link.t, ".\n", f, tag);
      ExchangeClean(t1, "rollback\n", g, tag);
    }
  }

  lemma {:induction false} ConnectClean(target: Target, f: Fault, garbage: Option<Handle>, tag: Word)
    ensures forall i :: 0 <= i < |MegaSpec.ConnectOne(target, f, garbage, tag)| ==>
              CleanEntry(MegaSpec.ConnectOne(target, f, garbage, tag)[i], tag)
  {
  }

  // ------------------------------------------------------------- all of them

  ghost predicate AllClean(es: seq<MegaSpec.Entry>, tag: Word) {
    forall i :: 0 <= i < |es| ==> CleanEntry(es[i], tag)
  }

  lemma {:induction false} ConnectedClean(td: seq<Target>, ps: seq<nat>, faults: MegaSpec.Faults, garbage: nat -> Option<Handle>, tag: Word)
    requires forall i :: 0 <= i < |ps| ==> ps[i] < |td|
    ensures AllClean(MegaSpec.Connected(td, ps, faults, garbage, tag), tag)
  {
    if ps != [] {
      var n := |ps| - 1;
      ConnectedClean(td, ps[..n], faults, garbage, tag);
      ConnectClean(td[ps[n]], faults(n), garbage(n), tag);
    }
  }

  lemma {:induction false} AddRecipientClean(m: MegaSpec.Mega, mbox: Word, faults: MegaSpec.Faults, tag: Word)
    requires AllClean(m.entries, tag)
    ensures AllClean(MegaSpec.AddRecipient(m, mbox, faults, tag).m.entries, tag)
  {
    var es := MegaSpec.AddRecipient(m, mbox, faults, tag).m.entries;
    forall i | 0 <= i < |es|
      ensures CleanEntry(es[i], tag)
    {
      var en := m.entries[i];
      assert es[i] == MegaSpec.Announce(en, mbox, m.msgnum + 1, faults(i), tag);
      AnnounceClean(en, mbox, m.msgnum + 1, faults(i), tag);
    }
  }

  lemma {:induction false} StartDataClean(m: MegaSpec.Mega, faults: MegaSpec.Faults, tag: Word)
    requires AllClean(m.entries, tag)
    ensures AllClean(MegaSpec.StartData(m, faults, tag).m.entries, tag)
  {
    var es := MegaSpec.StartData(m, faults, tag).m.entries;
    forall i | 0 <= i < |es|
      ensures CleanEntry(es[i], tag)
    {
      assert es[i] == MegaSpec.Start1(m.entries[i], faults(i), tag);
      StartClean(m.entries[i], faults(i), tag);
    }
  }

  lemma {:induction false} AddLineClean(m: MegaSpec.Mega, line: string, faults: MegaSpec.Faults, tag: Word)
    requires AllClean(m.entries, tag) && !IsTerminator(line)
    ensures AllClean(MegaSpec.AddLine(m, line, faults, tag).entries, tag)
  {
    var es := MegaSpec.AddLine(m, line, faults, tag).entries;
    forall i | 0 <= i < |es|
      ensures CleanEntry(es[i], tag)
    {
      assert es[i] == MegaSpec.Line1(m.entries[i], line, faults(i), tag);
      LineClean(m.entries[i], line, faults(i), tag);
    }
  }

  // ----------------------------------------------------------- all sessions

  // The dot was answered 450 because not a single commit is known to have
  // worked; the session keeps its connections.
  predicate DotFailed(s: SmtpSpec.Smtp, cfg: SmtpSpec.Config, x: SmtpSpec.Input) {
    && s.indata && s.mega.Some? && s.mega.value.entries != [] && IsTerminator(x.line) && !SmtpSpec.TooLarge(s, cfg)
    && MegaSpec.MsgDone(s.mega.value, x.f, x.g, s.tag).thrown
  }

  // That has happened to the transaction that is going on after the run.
  predicate CommitTried(s: SmtpSpec.Smtp, cfg: SmtpSpec.Config, xs: seq<SmtpSpec.Input>, before: bool)
    decreases |xs|
  {
    if xs == [] then before
    else
      var s1 := SmtpSpec.Step(s, cfg, xs[0]).0;
      CommitTried(s1, cfg, xs[1..], s1.mega.Some? && (before || DotFailed(s, cfg, xs[0])))
  }

  // Unless a commit was tried, no backend has anything of the message but
  // pending files; and once it was, there is no data phase any more.
  ghost predicate CleanUnless(s: SmtpSpec.Smtp, tried: bool) {
    if tried then s.mega.Some? && s.mega.value.degraded && s.mega.value.entries != [] && !s.indata
    else s.mega.Some? ==> AllClean(s.mega.value.entries, s.tag)
  }

  lemma {:induction false} AnnounceOneClean(s: SmtpSpec.Smtp, box: SmtpSpec.Mbox, usage: Option<seq<nat>>, faults: MegaSpec.Faults)
    requires s.mega.Some? && AllClean(s.mega.value.entries, s.tag)
    ensures var s1 := SmtpSpec.AnnounceOne(s, box, usage, faults).0;
            s1.mega.Some? && AllClean(s1.mega.value.entries, s1.tag) && s1.tag == s.tag && s1.indata == s.indata
  {
    AddRecipientClean(s.mega.value, box.name, faults, s.tag);
  }

  lemma {:induction false} AnnounceFromClean(s: SmtpSpec.Smtp, i: nat, d: SmtpSpec.DataEnv)
    requires s.mega.Some? && AllClean(s.mega.value.entries, s.tag)
    ensures var s1 := SmtpSpec.AnnounceFrom(s, i, d).0;
            s1.mega.Some? && AllClean(s1.mega.value.entries, s1.tag) && s1.tag == s.tag && s1.indata == s.indata
    decreases |s.recipients| - i
  {
    if i < |s.recipients| {
      AnnounceOneClean(s, s.recipients[i], d.usage(i), d.announces(i));
      var (s1, err) := SmtpSpec.AnnounceOne(s, s.recipients[i], d.usage(i), d.announces(i));
      if err.None? {
        AnnounceFromClean(s1, i + 1, d);
      }
    }
  }

  lemma {:induction false} BeginClean(s: SmtpSpec.Smtp, cfg: SmtpSpec.Config, d: SmtpSpec.DataEnv)
    requires s.mega.Some? && AllClean(s.mega.value.entries, s.tag)
    ensures CleanUnless(SmtpSpec.BeginData(s, cfg, d).0, false)
  {
    StartDataClean(s.mega.value, d.puts, s.tag);
    var line := SmtpSpec.ReceivedLine(d.received);
    assert line[0] == 'R';
    AddLineClean(MegaSpec.StartData(s.mega.value, d.puts, s.tag).m, line, d.receivedFaults, s.tag);
  }

  lemma {:induction false} OpenClean(s: SmtpSpec.Smtp, cfg: SmtpSpec.Config, d: SmtpSpec.DataEnv)
    requires CleanUnless(s, false)
    ensures CleanUnless(SmtpSpec.OpenForData(s, cfg, d).0, false)
  {
    if s.recipients != [] {
      var picks := if SmtpSpec.LegalPicks(cfg, d) then d.picks else [];
      ConnectedClean(d.td, picks, d.connects, d.garbage, s.tag);
    }
  }

  lemma {:induction false} DataClean(s: SmtpSpec.Smtp, cfg: SmtpSpec.Config, d: SmtpSpec.DataEnv)
    requires CleanUnless(s, false)
    ensures CleanUnless(SmtpSpec.EatData(s, cfg, d).0, false)
  {
    if s.fromset && !(s.recipients == [] && s.mega.None?) {
      var (s1, thrown) := SmtpSpec.OpenForData(s, cfg, d);
      OpenClean(s, cfg, d);
      if !thrown && !s1.mega.value.degraded {
        var s2 := s1.(names := []);
        AnnounceFromClean(s2, 0, d);
        var (s3, err) := SmtpSpec.AnnounceFrom(s2, 0, d);
        if err.None? {
          BeginClean(s3, cfg, d);
        }
      }
    }
  }

  // After a commit was tried, DATA is answered 450.
  lemma {:induction false} DataAfterTrying(s: SmtpSpec.Smtp, cfg: SmtpSpec.Config, d: SmtpSpec.DataEnv)
    requires CleanUnless(s, true)
    ensures CleanUnless(SmtpSpec.EatData(s, cfg, d).0, true)
  {
  }

  lemma {:induction false} DotClean(s: SmtpSpec.Smtp, cfg: SmtpSpec.Config, x: SmtpSpec.Input)
    requires CleanUnless(s, false) && SmtpSpec.SessionInv(s, cfg.redundancy) && s.indata && IsTerminator(x.line)
    ensures var s1 := SmtpSpec.EatDot(s, cfg, x).0; CleanUnless(s1, s1.mega.Some? && DotFailed(s, cfg, x))
  {
    var m := s.mega.value;
    if DotFailed(s, cfg, x) && !m.degraded {
      MegaSpec.MsgDoneInv(m, x.f, x.g, s.tag);
    }
  }

  lemma {:induction false} StepCleanSession(s: SmtpSpec.Smtp, cfg: SmtpSpec.Config, x: SmtpSpec.Input, tried: bool)
    requires CleanUnless(s, tried) && SmtpSpec.SessionInv(s, cfg.redundancy)
    ensures var s1 := SmtpSpec.Step(s, cfg, x).0; CleanUnless(s1, s1.mega.Some? && (tried || DotFailed(s, cfg, x)))
  {
    if s.indata {
      if IsTerminator(x.line) {
        DotClean(s, cfg, x);
      } else {
        AddLineClean(s.mega.value, x.line, x.f, s.tag);
      }
    } else if x.cmd.Data? {
      if tried {
        DataAfterTrying(s, cfg, x.cmd.env);
      } else {
        DataClean(s, cfg, x.cmd.env);
      }
    }
  }

  lemma {:induction false} RunClean(s: SmtpSpec.Smtp, cfg: SmtpSpec.Config, xs: seq<SmtpSpec.Input>, tried: bool)
    requires CleanUnless(s, tried) && SmtpSpec.SessionInv(s, cfg.redundancy)
    ensures CleanUnless(SmtpSpec.Run(s, cfg, xs), CommitTried(s, cfg, xs, tried))
    decreases |xs|
  {
    if xs != [] {
      var s1 := SmtpSpec.Step(s, cfg, xs[0]).0;
      SmtpSpec.StepInv(s, cfg, xs[0]);
      StepCleanSession(s, cfg, xs[0], tried);
      RunClean(s1, cfg, xs[1..], s1.mega.Some? && (tried || DotFailed(s, cfg, xs[0])));
    }
  }

  // No backend has a file of the message once its connection has ended.
  ghost predicate LeavesNothing(es: seq<MegaSpec.Entry>, tag: Word) {
    forall i :: 0 <= i < |es| && es[i].link.Storage? ==> NoneCarries(BackendSpec.End(es[i].link.t.peer), tag)
  }

  lemma {:induction false} CleanLeavesNothing(es: seq<MegaSpec.Entry>, tag: Word)
    requires AllClean(es, tag)
    ensures LeavesNothing(es, tag)
  {
    forall i | 0 <= i < |es| && es[i].link.Storage?
      ensures NoneCarries(BackendSpec.End(es[i].link.t.peer), tag)
    {
      CleanEnds(es[i].link.t.peer, tag);
    }
  }

  // A client that goes away in the data phase leaves nothing behind, whatever
  // failed before.
  lemma {:induction false} BrokenOffLeavesNothing(cfg: SmtpSpec.Config, xs: seq<SmtpSpec.Input>)
    ensures var s := SmtpSpec.Run(SmtpSpec.INITIAL, cfg, xs);
            s.indata && s.mega.Some? ==> LeavesNothing(s.mega.value.entries, s.tag)
  {
    var s := SmtpSpec.Run(SmtpSpec.INITIAL, cfg, xs);
    RunClean(SmtpSpec.INITIAL, cfg, xs, false);
    if s.indata && s.mega.Some? {
      CleanLeavesNothing(s.mega.value.entries, s.tag);
    }
  }

  // A transaction that is reset by RSET, or whose client goes away between
  // commands, leaves nothing behind either, unless a dot was answered 450
  // because no commit is known to have worked: a commit may have worked whose
  // acknowledgement was lost.
  lemma {:induction false} ResetLeavesNothing(cfg: SmtpSpec.Config, xs: seq<SmtpSpec.Input>, x: SmtpSpec.Input)
    ensures var s := SmtpSpec.Run(SmtpSpec.INITIAL, cfg, xs);
            s.mega.Some? && !s.indata && x.cmd.Rset? ==>
              && SmtpSpec.Step(s, cfg, x).0.mega.None?
              && (!CommitTried(SmtpSpec.INITIAL, cfg, xs, false) ==> LeavesNothing(s.mega.value.entries, s.tag))
  {
    var s := SmtpSpec.Run(SmtpSpec.INITIAL, cfg, xs);
    RunClean(SmtpSpec.INITIAL, cfg, xs, false);
    if s.mega.Some? && !CommitTried(SmtpSpec.INITIAL, cfg, xs, false) {
      CleanLeavesNothing(s.mega.value.entries, s.tag);
    }
  }

  lemma {:induction false} RollbackLeavesNothing(m: MegaSpec.Mega, f: MegaSpec.Faults, g: MegaSpec.Faults, tag: Word)
    requires AllClean(m.entries, tag)
    ensures LeavesNothing(MegaSpec.MsgRollback(m, f, g, tag).entries, tag)
  {
    var es := MegaSpec.MsgRollback(m, f, g, tag).entries;
    forall i | 0 <= i < |es| && es[i].link.Storage?
      ensures NoneCarries(BackendSpec.End(es[i].link.t.peer), tag)
    {
      RollbackClean(m.entries[i], f(i), g(i), tag);
      CleanEnds(es[i].link.t.peer, tag);
    }
  }

  lemma {:induction false} StepLeavesNothing(s: SmtpSpec.Smtp, cfg: SmtpSpec.Config, x: SmtpSpec.Input)
    requires (s.indata ==> CleanUnless(s, false)) && SmtpSpec.SessionInv(s, cfg.redundancy)
    ensures match SmtpSpec.Step(s, cfg, x).1
            case Refused(entries) => LeavesNothing(entries, s.tag)
            case _ => true
  {
    if s.indata && IsTerminator(x.line) {
      RollbackLeavesNothing(s.mega.value, x.rf, x.rg, s.tag);
    }
  }

  // A message that is refused for its size at the final dot is on no backend,
  // whatever failed before or during the rollback.
  lemma {:induction false} RefusedLeavesNothing(cfg: SmtpSpec.Config, xs: seq<SmtpSpec.Input>, x: SmtpSpec.Input)
    ensures var s := SmtpSpec.Run(SmtpSpec.INITIAL, cfg, xs);
            match SmtpSpec.Step(s, cfg, x).1
            case Refused(entries) => LeavesNothing(entries, s.tag)
            case _ => true
  {
    var s := SmtpSpec.Run(SmtpSpec.INITIAL, cfg, xs);
    RunClean(SmtpSpec.INITIAL, cfg, xs, false);
    SmtpSpec.RunInv(SmtpSpec.INITIAL, cfg, xs);
    StepLeavesNothing(s, cfg, x);
  }

  // ------------------------------------------------------ not undone by a 450

  lemma {:induction false} StoredSettles(s: BackendSpec.Session, found: Sane, a: Announced, tag: Word, text: string)
    requires Stored(s.store.d, a, tag, text)
    ensures Stored(Settle(s, found, tag).store.d, a, tag, text)
  {
    FileCarries(a, tag);
    assert Carries(CurOf(FileOf(a, tag)), tag);
  }

  // When too few backends commit, the answer is 450 and the rest is rolled
  // back; but a backend that has committed keeps the message, so that a
  // client that tries again may deliver it twice.
  lemma {:induction false} CommittedIsNotRolledBack(t: MegaSpec.Talker, f: Fault, g: Fault, h: Fault, k: Fault, tag: Word, top: nat, a: Announced)
    requires Good(t, tag, top) && MsgDone(t, f, g, tag).1 && a in t.said
    ensures Stored(MsgRollback(MsgDone(t, f, g, tag).0, h, k, tag).peer.store.d, a, tag, t.sent)
  {
    var t1 := MsgDone(t, f, g, tag).0;
    MsgDoneStores(t, f, g, tag, top);
    CommittedIsBlank(t, f, g, tag, top);
    StoredSettles(t1.peer, h.found, a, tag, t.sent);
    BackendSpec.DotLine(Settle(t1.peer, h.found, tag), h.e);
  }

  lemma {:induction false} CommittedIsBlank(t: MegaSpec.Talker, f: Fault, g: Fault, tag: Word, top: nat)
    requires Good(t, tag, top) && MsgDone(t, f, g, tag).1
    ensures MsgDone(t, f, g, tag).0.peer.mode.Blank?
  {
    DotMatches(t, f, tag, top);
    var t1 := Exchange(t, ".\n", f, tag).0;
    BackendSpec.CommitLineIsCommit(Settle(t1.peer, g.found, tag), g.e);
  }
}
