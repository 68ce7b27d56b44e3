/** One backend. */
module TalkerProgress {
  import opened Text
  import opened Disk
  import opened DeliverySpec
  import opened BackendSpec
  import opened TalkerSpec

  predicate ClearEnv(e: Env, n: nat) {
    e.passOk && !e.dirErr && !e.openErr && !e.linkErr && !e.writeErr && !e.closeErr && e.renameErrAt >= n
  }

  // Nothing fails while the message has at most n recipients; other sessions
  // may still change the disk.
  predicate Clear(f: Fault, n: nat) { f.net.Fine? && ClearEnv(f.e, n) }

  lemma {:induction false} MoveWorks(names: seq<Path>, d: Disk, i: nat, errAt: nat)
    requires AllTmp(names, i) && errAt >= |names|
    requires forall j :: i <= j < |names| ==> names[j] in d.names
    requires forall j, k :: i <= j < k < |names| ==> names[j] != names[k]
    ensures MoveFrom(names, d, i, errAt).ok
    decreases |names| - i
  {
    if i < |names| {
      var d1 := Rename(d, names[i], CurOf(names[i])).value;
      MoveWorks(names[i := CurOf(names[i])], d1, i + 1, errAt);
    }
  }

  datatype Phase = Fresh | Announced1 | Feeding1

  ghost predicate InPhase(t: Talker, ph: Phase) {
    match ph
    case Fresh => t.peer.mode.Blank?
    case Announced1 => t.peer.mode.PreLimbo?
    case Feeding1 => t.peer.mode.InData? && t.inmsg && !t.peer.failed
  }

  // The connection works, and the backend acknowledged everything so far.
  ghost predicate Ready(t: Talker, tag: Word, top: nat, ph: Phase) {
    && !t.broken && Match(t, tag, top) && InPhase(t, ph) && |t.said| <= top
    && forall i, j :: 0 <= i < j < |t.said| ==> t.said[i].num < t.said[j].num
  }

  lemma {:induction false} NamesDistinct(t: Talker, tag: Word, top: nat, ph: Phase)
    requires Ready(t, tag, top, ph) && !ph.Fresh?
    ensures var names := t.peer.store.p.filenames;
            AllTmp(names, 0) && forall i, j :: 0 <= i < j < |names| ==> names[i] != names[j]
  {
    var names := t.peer.store.p.filenames;
    forall i, j | 0 <= i < j < |names|
      ensures names[i] != names[j]
    {
      NamesDiffer(tag, t.said[i].num, t.said[j].num);
    }
  }

  lemma {:induction false} RcptWorks(t: Talker, mbox: Word, num: nat, e: Env, n: nat, tag: Word, top: nat)
    requires Match(t, tag, top) && top < num && (t.peer.mode.Blank? || t.peer.mode.PreLimbo?) && ClearEnv(e, n)
    ensures Rcpt(t.peer, mbox, NameOf(tag, num), e).reply == Ok
  {
    var path := FileOf(To(mbox, num), tag);
    var p := t.peer.store.p;
    if p.destinations != [] {
      NamesDiffer(tag, num, t.said[0].num);
      assert p.filenames[0] == FileOf(t.said[0], tag);
      assert p.first in p.filenames && p.first != path;
    }
  }

  lemma {:induction false} AnnounceWorks(t: Talker, mbox: Word, f: Fault, n: nat, tag: Word, top: nat, ph: Phase)
    requires Ready(t, tag, top, ph) && !ph.Feeding1? && Clear(f, n)
    ensures var r := AddRecipient(t, mbox, top + 1, f, tag);
            r.1 && Ready(r.0, tag, top + 1, Announced1)
  {
    AnnounceAccepted(t, mbox, f, n, tag, top, ph);
    AddRecipientMatches(t, mbox, top + 1, f, tag, top);
    AppendReady(t, AddRecipient(t, mbox, top + 1, f, tag).0, mbox, tag, top, ph);
  }

  lemma {:induction false} AppendReady(t: Talker, t1: Talker, mbox: Word, tag: Word, top: nat, ph: Phase)
    requires Ready(t, tag, top, ph) && Match(t1, tag, top + 1)
    requires !t1.broken && t1.said == t.said + [To(mbox, top + 1)] && t1.peer.mode.PreLimbo?
    ensures Ready(t1, tag, top + 1, Announced1)
  {
  }

  lemma {:induction false} AnnounceAccepted(t: Talker, mbox: Word, f: Fault, n: nat, tag: Word, top: nat, ph: Phase)
    requires Ready(t, tag, top, ph) && !ph.Feeding1? && Clear(f, n)
    ensures var (t1, ok) := AddRecipient(t, mbox, top + 1, f, tag);
            ok && t1.peer.mode.PreLimbo?
  {
    var s := Settle(t.peer, f.found, tag);
    SettleMatches(t, f.found, tag, top);
    RcptLineIsRcpt(s, mbox, NameOf(tag, top + 1), f.e);
    RcptWorks(t.(peer := s), mbox, top + 1, f.e, n, tag, top);
  }

  lemma {:induction false} StartWorks(t: Talker, f: Fault, n: nat, tag: Word, top: nat)
    requires Ready(t, tag, top, Announced1) && Clear(f, n)
    ensures var (t1, ok) := StartData(t, f, tag);
            ok && Ready(t1, tag, top, Feeding1)
  {
    var s := Settle(t.peer, f.found, tag);
    PutLineIsPut(s, f.e);
    StartDataMatches(t, f, tag, top);
  }

  lemma {:induction false} LineWorks(t: Talker, line: string, f: Fault, n: nat, tag: Word, top: nat)
    requires Ready(t, tag, top, Feeding1) && Clear(f, n) && !IsTerminator(line)
    ensures var (t1, ok) := AddLine(t, line, f, tag);
            ok && Ready(t1, tag, top, Feeding1)
  {
    AddLineMatches(t, line, f, tag, top);
    var s := Settle(t.peer, f.found, tag);
    assert Step(s, line, f.e) == PutLine(s, line, f.e);
  }

  lemma {:induction false} DoneWorks(t: Talker, f: Fault, g: Fault, n: nat, tag: Word, top: nat)
    requires Ready(t, tag, top, Feeding1) && Clear(f, n) && Clear(g, n) && |t.said| <= n
    ensures MsgDone(t, f, g, tag).1
  {
    NamesDistinct(t, tag, top, Feeding1);
    SettleMatches(t, f.found, tag, top);
    var s := Settle(t.peer, f.found, tag);
    DotLine(s, f.e);
    var t1 := Exchange(t, ".\n", f, tag).0;
    DotMatches(t, f, tag, top);
    SettleMatches(t1, g.found, tag, top);
    var s1 := Settle(t1.peer, g.found, tag);
    CommitLineIsCommit(s1, g.e);
    var names := s1.store.p.filenames;
    forall j | 0 <= j < |names|
      ensures names[j] in s1.store.d.names
    {
      assert names[j] in names;
    }
    MoveWorks(names, s1.store.d, 0, g.e.renameErrAt);
  }
}

/** What happens when nothing fails: the transaction goes through.  This is the
    other half of the redundancy theorem, and settles exactly when relay
    connections, which count towards the target, break it. */
module Progress {
  import opened Text
  import opened Disk
  import opened DeliverySpec
  import TalkerSpec
  import opened TalkerProgress
  import opened SelectSpec
  import opened MegaSpec
  import opened SmtpSpec

  ghost predicate AllClear(faults: Faults, n: nat) {
    forall i: nat :: Clear(faults(i), n)
  }

  // Every connection works and is in the same phase.
  ghost predicate Going(m: Mega, tag: Word, ph: Phase) {
    && !m.degraded && m.entries != []
    && forall i :: 0 <= i < |m.entries| ==>
         m.entries[i].ok && (m.entries[i].link.Storage? ==> Ready(m.entries[i].link.t, tag, m.msgnum, ph))
  }

  ghost predicate StepsOn(m: Mega, m1: Mega, tag: Word, ph: Phase) {
    Going(m1, tag, ph) && SameLinks(m.entries, m1.entries)
  }

  lemma {:induction false} EntryAnnounces(en: Entry, mbox: Word, f: MegaSpec.Fault, n: nat, tag: Word, top: nat, ph: Phase)
    requires en.ok && (en.link.Storage? ==> Ready(en.link.t, tag, top, ph)) && !ph.Feeding1? && Clear(f, n)
    ensures var en1 := Announce(en, mbox, top + 1, f, tag);
            en1.ok && SameLink(en, en1) && (en1.link.Storage? ==> Ready(en1.link.t, tag, top + 1, Announced1))
  {
    if en.link.Storage? {
      AnnounceWorks(en.link.t, mbox, f, n, tag, top, ph);
    }
  }

  lemma {:induction false} MegaAnnounces(m: Mega, mbox: Word, faults: Faults, n: nat, tag: Word, ph: Phase)
    requires Going(m, tag, ph) && !ph.Feeding1? && AllClear(faults, n) && Copies(m.entries) != []
    ensures var r := MegaSpec.AddRecipient(m, mbox, faults, tag);
            !r.thrown && StepsOn(m, r.m, tag, Announced1) && r.m.msgnum == m.msgnum + 1
  {
    var r := MegaSpec.AddRecipient(m, mbox, faults, tag);
    forall i | 0 <= i < |m.entries|
      ensures r.m.entries[i].ok && SameLink(m.entries[i], r.m.entries[i])
      ensures r.m.entries[i].link.Storage? ==> Ready(r.m.entries[i].link.t, tag, m.msgnum + 1, Announced1)
    {
      assert r.m.entries[i] == Announce(m.entries[i], mbox, m.msgnum + 1, faults(i), tag);
      EntryAnnounces(m.entries[i], mbox, faults(i), n, tag, m.msgnum, ph);
    }
    var k := CopyIsEntry(m.entries, 0);
    assert r.m.entries[k].ok && r.m.entries[k].link.Storage?;
  }

  lemma {:induction false} MegaStarts(m: Mega, faults: Faults, n: nat, tag: Word)
    requires Going(m, tag, Announced1) && AllClear(faults, n)
    ensures var r := MegaSpec.StartData(m, faults, tag);
            !r.thrown && StepsOn(m, r.m, tag, Feeding1) && r.m.msgnum == m.msgnum
  {
    var r := MegaSpec.StartData(m, faults, tag);
    forall i | 0 <= i < |m.entries|
      ensures r.m.entries[i].ok && SameLink(m.entries[i], r.m.entries[i])
      ensures r.m.entries[i].link.Storage? ==> Ready(r.m.entries[i].link.t, tag, m.msgnum, Feeding1)
    {
      assert r.m.entries[i] == Start1(m.entries[i], faults(i), tag);
      if m.entries[i].link.Storage? {
        StartWorks(m.entries[i].link.t, faults(i), n, tag, m.msgnum);
      }
    }
    assert r.m.entries[0].ok;
  }

  lemma {:induction false} MegaFeeds(m: Mega, line: string, faults: Faults, n: nat, tag: Word)
    requires Going(m, tag, Feeding1) && AllClear(faults, n) && !IsTerminator(line)
    ensures var m1 := MegaSpec.AddLine(m, line, faults, tag);
            StepsOn(m, m1, tag, Feeding1) && m1.msgnum == m.msgnum
  {
    var m1 := MegaSpec.AddLine(m, line, faults, tag);
    forall i | 0 <= i < |m.entries|
      ensures m1.entries[i].ok && SameLink(m.entries[i], m1.entries[i])
      ensures m1.entries[i].link.Storage? ==> Ready(m1.entries[i].link.t, tag, m.msgnum, Feeding1)
    {
      assert m1.entries[i] == Line1(m.entries[i], line, faults(i), tag);
      if m.entries[i].link.Storage? {
        LineWorks(m.entries[i].link.t, line, faults(i), n, tag, m.msgnum);
      }
    }
  }

  lemma {:induction false} MegaFinishes(m: Mega, f: Faults, g: Faults, n: nat, tag: Word)
    requires Going(m, tag, Feeding1) && AllClear(f, n) && AllClear(g, n) && m.msgnum <= n
    ensures var r := MegaSpec.MsgDone(m, f, g, tag);
            !r.thrown && !r.m.degraded && SameLinks(m.entries, r.m.entries)
  {
    var r := MegaSpec.MsgDone(m, f, g, tag);
    forall i | 0 <= i < |m.entries|
      ensures r.m.entries[i].ok && SameLink(m.entries[i], r.m.entries[i])
    {
      assert r.m.entries[i] == Done1(m.entries[i], f(i), g(i), tag);
      if m.entries[i].link.Storage? {
        DoneWorks(m.entries[i].link.t, f(i), g(i), n, tag, m.msgnum);
      }
    }
    assert r.m.entries[0].ok;
  }

  lemma {:induction false} ConnectsAll(td: seq<Target>, ps: seq<nat>, faults: Faults, garbage: nat -> Option<Handle>, tag: Word, n: nat, top: nat)
    requires forall i :: 0 <= i < |ps| ==> ps[i] < |td|
    requires AllClear(faults, n)
    ensures var es := Connected(td, ps, faults, garbage, tag);
            |es| == |ps| && AllStorage(es) && Going1(es, tag, top)
  {
    if ps != [] {
      var k := |ps| - 1;
      ConnectsAll(td, ps[..k], faults, garbage, tag, n, top);
      TalkerSpec.ConnectMatches(tag, faults(k), garbage(k), top);
    }
  }

  ghost predicate Going1(es: seq<Entry>, tag: Word, top: nat) {
    forall i :: 0 <= i < |es| ==> es[i].ok && (es[i].link.Storage? ==> Ready(es[i].link.t, tag, top, Fresh))
  }

  lemma {:induction false} SameLinksTransitive(a: seq<Entry>, b: seq<Entry>, c: seq<Entry>)
    requires SameLinks(a, b) && SameLinks(b, c)
    ensures SameLinks(a, c)
  {
    forall i | 0 <= i < |a|
      ensures SameLink(a[i], c[i])
    {
      assert SameLink(a[i], b[i]) && SameLink(b[i], c[i]);
    }
  }

  // ---------------------------------------------------------------- session

  ghost predicate ClearData(d: DataEnv, n: nat) {
    && AllClear(d.connects, n) && AllClear(d.puts, n) && AllClear(d.receivedFaults, n)
    && (forall i: nat :: AllClear(d.announces(i), n))
    && (forall i: nat :: d.usage(i).Some?)
  }

  lemma {:induction false} AnnouncesNext(s: Smtp, i: nat, d: DataEnv, n: nat, ph: Phase)
    requires s.mega.Some? && Going(s.mega.value, s.tag, ph) && !ph.Feeding1? && Copies(s.mega.value.entries) != []
    requires ClearData(d, n) && i < |s.recipients|
    ensures var (s1, err) := AnnounceOne(s, s.recipients[i], d.usage(i), d.announces(i));
            && err.None? && SameEnvelope(s, s1) && s1.mega.Some?
            && StepsOn(s.mega.value, s1.mega.value, s.tag, Announced1)
            && s1.mega.value.msgnum == s.mega.value.msgnum + 1
  {
    MegaAnnounces(s.mega.value, s.recipients[i].name, d.announces(i), n, s.tag, ph);
  }

  lemma {:induction false} AnnouncesAll(s: Smtp, i: nat, d: DataEnv, n: nat, ph: Phase)
    requires s.mega.Some? && Going(s.mega.value, s.tag, ph) && !ph.Feeding1? && Copies(s.mega.value.entries) != []
    requires ClearData(d, n) && i <= |s.recipients|
    ensures var (s1, err) := AnnounceFrom(s, i, d);
            && err.None? && SameEnvelope(s, s1) && s1.mega.Some?
            && StepsOn(s.mega.value, s1.mega.value, s.tag, if i < |s.recipients| then Announced1 else ph)
            && s1.mega.value.msgnum == s.mega.value.msgnum + |s.recipients| - i
    decreases |s.recipients| - i
  {
    var es := s.mega.value.entries;
    if i < |s.recipients| {
      AnnouncesNext(s, i, d, n, ph);
      var s1 := AnnounceOne(s, s.recipients[i], d.usage(i), d.announces(i)).0;
      CopiesKept(es, s1.mega.value.entries);
      AnnouncesAll(s1, i + 1, d, n, Announced1);
      SameLinksTransitive(es, s1.mega.value.entries, AnnounceFrom(s1, i + 1, d).0.mega.value.entries);
    } else {
      assert forall k :: 0 <= k < |es| ==> SameLink(es[k], es[k]);
    }
  }

  // The data phase is on, on every connection.
  ghost predicate Under(s: Smtp, es: seq<Entry>, n: nat) {
    && s.indata && s.mega.Some? && Going(s.mega.value, s.tag, Feeding1)
    && SameLinks(es, s.mega.value.entries) && s.mega.value.msgnum <= n
  }

  lemma {:induction false} Begins(s: Smtp, cfg: Config, d: DataEnv, n: nat)
    requires s.mega.Some? && Going(s.mega.value, s.tag, Announced1) && ClearData(d, n) && s.mega.value.msgnum <= n
    ensures var (s1, reply) := BeginData(s, cfg, d);
            reply == Code(552) || (reply == Code(354) && Under(s1, s.mega.value.entries, n))
    ensures BeginData(s, cfg, d).1 == Code(552) <==> OverQuota(s, cfg)
  {
    var m := s.mega.value;
    MegaStarts(m, d.puts, n, s.tag);
    var m1 := StartData(m, d.puts, s.tag).m;
    var line := ReceivedLine(d.received);
    assert line[0] == 'R';
    MegaFeeds(m1, line, d.receivedFaults, n, s.tag);
    SameLinksTransitive(m.entries, m1.entries, AddLine(m1, line, d.receivedFaults, s.tag).entries);
  }

  // The client has sent its envelope; forwards are connected, nothing else is.
  ghost predicate EnvelopeGiven(s: Smtp) {
    && s.fromset && !s.indata && s.recipients != []
    && (s.mega.Some? ==>
          && !s.mega.value.degraded && s.mega.value.msgnum == 0
          && forall i :: 0 <= i < |s.mega.value.entries| ==> s.mega.value.entries[i] == Entry(Relay, true))
  }

  ghost function Forwards(s: Smtp): nat { if s.mega.None? then 0 else |s.mega.value.entries| }

  lemma {:induction false} RelaysAreNoCopies(es: seq<Entry>)
    requires forall i :: 0 <= i < |es| ==> es[i].link.Relay?
    ensures Copies(es) == []
    decreases |es|
  {
    if es != [] {
      RelaysAreNoCopies(es[..|es| - 1]);
    }
  }

  ghost predicate Reachable(s: Smtp, cfg: Config, d: DataEnv) {
    LegalPicks(cfg, d) && d.picks != [] && Forwards(s) + |d.picks| >= cfg.redundancy && ClearData(d, |s.recipients|)
  }

  lemma {:induction false} MegaOpens(m: Mega, redundancy: nat, td: seq<Target>, ps: seq<nat>, faults: Faults,
                                     garbage: nat -> Option<Handle>, tag: Word, n: nat)
    requires !m.degraded && forall i :: 0 <= i < |m.entries| ==> m.entries[i] == Entry(Relay, true)
    requires (forall i :: 0 <= i < |ps| ==> ps[i] < |td|) && ps != [] && |m.entries| + |ps| >= redundancy
    requires AllClear(faults, n)
    ensures var r := OpenStorage(m, redundancy, Connected(td, ps, faults, garbage, tag));
            && !r.thrown && Going(r.m, tag, Fresh) && r.m.msgnum == m.msgnum
            && |Copies(r.m.entries)| == |ps| && Relays(r.m.entries) == |m.entries|
  {
    var es := Connected(td, ps, faults, garbage, tag);
    ConnectsAll(td, ps, faults, garbage, tag, n, m.msgnum);
    OpenCounts(m.entries, es);
    var r := OpenStorage(m, redundancy, es);
    forall i | 0 <= i < |r.m.entries|
      ensures r.m.entries[i].ok && (r.m.entries[i].link.Storage? ==> Ready(r.m.entries[i].link.t, tag, m.msgnum, Fresh))
    {
      if i >= |m.entries| {
        assert r.m.entries[i] == es[i - |m.entries|];
      }
    }
  }

  lemma {:induction false} OpenCounts(relays: seq<Entry>, es: seq<Entry>)
    requires (forall i :: 0 <= i < |relays| ==> relays[i] == Entry(Relay, true)) && AllStorage(es)
    ensures |Copies(relays + es)| == |es| && Relays(relays + es) == |relays|
  {
    RelaysAreNoCopies(relays);
    CopiesAppend(relays, es);
    CopiesOfStorage(es);
  }

  lemma {:induction false} Opens(s: Smtp, cfg: Config, d: DataEnv)
    requires EnvelopeGiven(s) && Reachable(s, cfg, d)
    ensures var (s1, thrown) := OpenForData(s, cfg, d);
            && !thrown && SameEnvelope(s, s1) && Going(s1.mega.value, s.tag, Fresh) && s1.mega.value.msgnum == 0
            && |Copies(s1.mega.value.entries)| == |d.picks| && Relays(s1.mega.value.entries) == Forwards(s)
  {
    var m := if s.mega.None? then NEW else s.mega.value;
    MegaOpens(m, cfg.redundancy, d.td, d.picks, d.connects, d.garbage, s.tag, |s.recipients|);
  }

  lemma {:induction false} DataIsAnswered(s: Smtp, cfg: Config, d: DataEnv) returns (es: seq<Entry>)
    requires EnvelopeGiven(s) && Reachable(s, cfg, d)
    ensures var (s1, reply) := EatData(s, cfg, d);
            && (reply == Code(552) || (reply == Code(354) && Under(s1, es, |s.recipients|)))
            && SameEnvelope(s.(indata := s1.indata), s1)
    ensures |Copies(es)| == |d.picks| && Relays(es) == Forwards(s)
  {
    var n := |s.recipients|;
    var s3 := AllAnnounced(s, cfg, d);
    Begins(s3, cfg, d, n);
    es := s3.mega.value.entries;
  }

  lemma {:induction false} AllAnnounced(s: Smtp, cfg: Config, d: DataEnv) returns (s3: Smtp)
    requires EnvelopeGiven(s) && Reachable(s, cfg, d)
    ensures s3.mega.Some? && Going(s3.mega.value, s3.tag, Announced1) && s3.mega.value.msgnum <= |s.recipients|
    ensures SameEnvelope(s, s3) && EatData(s, cfg, d) == BeginData(s3, cfg, d)
    ensures |Copies(s3.mega.value.entries)| == |d.picks| && Relays(s3.mega.value.entries) == Forwards(s)
  {
    Opens(s, cfg, d);
    var s1 := OpenForData(s, cfg, d).0;
    var s2 := s1.(names := []);
    AnnouncesAll(s2, 0, d, |s.recipients|, Fresh);
    s3 := AnnounceFrom(s2, 0, d).0;
    CopiesKept(s1.mega.value.entries, s3.mega.value.entries);
    EatDataIs(s, cfg, d);
  }

  lemma {:induction false} Feeds(s: Smtp, cfg: Config, xs: seq<Input>, es: seq<Entry>, n: nat)
    requires Under(s, es, n)
    requires forall i :: 0 <= i < |xs| ==> !IsTerminator(xs[i].line) && AllClear(xs[i].f, n)
    ensures Under(Run(s, cfg, xs), es, n) && SameEnvelope(s, Run(s, cfg, xs))
    decreases |xs|
  {
    if xs != [] {
      var m := s.mega.value;
      MegaFeeds(m, xs[0].line, xs[0].f, n, s.tag);
      var s1 := Step(s, cfg, xs[0]).0;
      if PassedOn(s) {
        SameLinksTransitive(es, m.entries, s1.mega.value.entries);
      }
      Feeds(s1, cfg, xs[1..], es, n);
    }
  }

  lemma {:induction false} Ends(s: Smtp, cfg: Config, x: Input, es: seq<Entry>, n: nat)
    requires Under(s, es, n) && IsTerminator(x.line) && AllClear(x.f, n) && AllClear(x.g, n) && !TooLarge(s, cfg)
    ensures var reply := Step(s, cfg, x).1;
            reply.Delivered? && reply.to == s.recipients && reply.body == s.body && SameLinks(es, reply.entries)
  {
    var m := s.mega.value;
    MegaFinishes(m, x.f, x.g, n, s.tag);
    SameLinksTransitive(es, m.entries, MsgDone(m, x.f, x.g, s.tag).m.entries);
  }

  // When no call fails, enough backends are up, and the message keeps to the
  // limits, the transaction is acknowledged, on every backend picked.
  lemma {:induction false} ClearRunIsAcknowledged(s: Smtp, cfg: Config, d: DataEnv, xs: seq<Input>, dot: Input)
    requires EnvelopeGiven(s) && Reachable(s, cfg, d)
    requires forall i :: 0 <= i < |xs| ==> !IsTerminator(xs[i].line) && AllClear(xs[i].f, |s.recipients|)
    requires IsTerminator(dot.line) && AllClear(dot.f, |s.recipients|) && AllClear(dot.g, |s.recipients|)
    ensures var (s1, r1) := EatData(s, cfg, d);
            var s2 := Run(s1, cfg, xs);
            var reply := Step(s2, cfg, dot).1;
            && (r1 == Code(354) || r1 == Code(552))
            && (r1 == Code(354) ==>
                  if TooLarge(s2, cfg) then reply.Refused?
                  else reply.Delivered? && reply.to == s.recipients && reply.body == s2.body &&
                       |Copies(reply.entries)| == |d.picks| && Relays(reply.entries) == Forwards(s))
  {
    var es := DataIsAnswered(s, cfg, d);
    var (s1, r1) := EatData(s, cfg, d);
    if r1 == Code(354) {
      var n := |s.recipients|;
      Feeds(s1, cfg, xs, es, n);
      var s2 := Run(s1, cfg, xs);
      if !TooLarge(s2, cfg) {
        Ends(s2, cfg, dot, es, n);
        CopiesKept(es, Step(s2, cfg, dot).1.entries);
      }
    }
  }

  // -------------------------------------- relays count towards the target

  ghost predicate MeetsTarget(cfg: Config, xs: seq<Input>, x: Input) {
    var s := Run(INITIAL, cfg, xs);
    var reply := Step(s, cfg, x).1;
    reply.Delivered? && reply.to != [] ==>
      Redundant(Copies(reply.entries), cfg.redundancy, s.tag, reply.names, reply.body)
  }

  ghost predicate WithRelays(cfg: Config, xs: seq<Input>, x: Input, relays: nat) {
    var reply := Step(Run(INITIAL, cfg, xs), cfg, x).1;
    reply.Delivered? && Relays(reply.entries) == relays
  }

  ghost predicate TargetAlwaysMet(redundancy: nat, relays: nat) {
    forall cfg: Config, xs, x | cfg.redundancy == redundancy && WithRelays(cfg, xs, x, relays) :: MeetsTarget(cfg, xs, x)
  }

  const CLEAR := TalkerSpec.Fault(TalkerSpec.Fine, Env(true, true, false, false, false, false, false, 1, false, {}), EMPTY)

  function Line1Of(line: Line, cmd: Cmd): Input { Input(line, cmd, i => CLEAR, i => CLEAR, i => CLEAR, i => CLEAR) }

  const BOX := Mbox("u", 0, false)
  const FORWARD := Mbox("v", 0, true)

  // A client that gives some forwarded recipients and one mailbox.
  function Envelope(forwards: nat): seq<Input> {
    if forwards == 0 then [Line1Of("\n", Mail("m", 0))]
    else Envelope(forwards - 1) + [Line1Of("\n", Rcpt(Found(FORWARD), Missing, true))]
  }

  function Backends(n: nat): seq<Target> {
    seq(n, i => Target("b", 1101, i, 1, true, false, 0, 0.0))
  }

  function DataFor(n: nat): DataEnv {
    DataEnv(Backends(n), seq(n, i => i), i => CLEAR, i => None, i => Some([]), i => (j => CLEAR), i => CLEAR, "", i => CLEAR)
  }

  lemma {:induction false} RunAppend(s: Smtp, cfg: Config, xs: seq<Input>, ys: seq<Input>)
    ensures Run(s, cfg, xs + ys) == Run(Run(s, cfg, xs), cfg, ys)
    decreases |xs|
  {
    if xs == [] {
      assert xs + ys == ys;
    } else {
      assert (xs + ys)[1..] == xs[1..] + ys;
      RunAppend(Step(s, cfg, xs[0]).0, cfg, xs[1..], ys);
    }
  }

  lemma {:induction false} RunOne(s: Smtp, cfg: Config, x: Input)
    ensures Run(s, cfg, [x]) == Step(s, cfg, x).0
  {
    assert Run(Step(s, cfg, x).0, cfg, [x][1..]) == Step(s, cfg, x).0;
  }

  lemma {:induction false} EnvelopeRuns(cfg: Config, forwards: nat)
    ensures var s := Run(INITIAL, cfg, Envelope(forwards));
            && s.fromset && !s.indata && s.recipients == [] && s.quotaneeded && Forwards(s) == forwards
            && (s.mega.Some? ==>
                  && !s.mega.value.degraded && s.mega.value.msgnum == 0
                  && forall i :: 0 <= i < |s.mega.value.entries| ==> s.mega.value.entries[i] == Entry(Relay, true))
  {
    if forwards == 0 {
      RunOne(INITIAL, cfg, Line1Of("\n", Mail("m", 0)));
    } else {
      EnvelopeRuns(cfg, forwards - 1);
      var x := Line1Of("\n", Rcpt(Found(FORWARD), Missing, true));
      RunAppend(INITIAL, cfg, Envelope(forwards - 1), [x]);
      RunOne(Run(INITIAL, cfg, Envelope(forwards - 1)), cfg, x);
    }
  }

  ghost function UpTo(n: nat): (r: set<int>)
    ensures |r| == n && forall g :: g in r <==> 0 <= g < n
  {
    if n == 0 then {} else UpTo(n - 1) + {n - 1}
  }

  lemma {:induction false} BackendGroups(n: nat)
    ensures |UsableGroups(Backends(n))| == n
  {
    var td := Backends(n);
    assert UsableGroups(td) == UpTo(n) by {
      forall g | g in UpTo(n)
        ensures g in UsableGroups(td)
      {
        assert Usable(td[g]) && td[g].group == g;
      }
    }
  }

  // With any number of forwards, and so many backends that the target is
  // reached by counting both, the message is acknowledged on these backends.
  lemma {:induction false} RelaysMakeUpTheNumber(cfg: Config, relays: nat, n: nat) returns (xs: seq<Input>, x: Input)
    requires cfg.maxMsgKb == 0 && 0 < n <= cfg.redundancy <= relays + n
    ensures WithRelays(cfg, xs, x, relays)
    ensures var reply := Step(Run(INITIAL, cfg, xs), cfg, x).1; reply.to != [] && |Copies(reply.entries)| == n
  {
    var rcpt, data := Line1Of("\n", Rcpt(Found(BOX), Missing, false)), Line1Of("\n", Data(DataFor(n)));
    EnvelopeRuns(cfg, relays);
    var s1 := Step(Run(INITIAL, cfg, Envelope(relays)), cfg, rcpt).0;
    x := Line1Of(".\n", Rset);
    BoxIsServed(s1, cfg, n, x);
    xs := Envelope(relays) + [rcpt] + [data];
    RunTwo(cfg, Envelope(relays), rcpt, data);
  }

  lemma {:induction false} BoxIsServed(s: Smtp, cfg: Config, n: nat, dot: Input)
    requires EnvelopeGiven(s) && s.recipients == [BOX] && cfg.maxMsgKb == 0 && 0 < n <= cfg.redundancy <= Forwards(s) + n
    requires IsTerminator(dot.line) && AllClear(dot.f, 1) && AllClear(dot.g, 1)
    ensures var reply := Step(EatData(s, cfg, DataFor(n)).0, cfg, dot).1;
            reply.Delivered? && reply.to == [BOX] && |Copies(reply.entries)| == n && Relays(reply.entries) == Forwards(s)
  {
    BackendGroups(n);
    var d := DataFor(n);
    assert Picked(d.td, cfg.spread, cfg.redundancy, d.picks);
    ClearRunIsAcknowledged(s, cfg, d, [], dot);
    NoQuota(s, cfg, d);
  }

  lemma {:induction false} RunTwo(cfg: Config, xs: seq<Input>, y: Input, z: Input)
    ensures Run(INITIAL, cfg, xs + [y] + [z]) == Step(Step(Run(INITIAL, cfg, xs), cfg, y).0, cfg, z).0
  {
    RunAppend(INITIAL, cfg, xs + [y], [z]);
    RunAppend(INITIAL, cfg, xs, [y]);
    RunOne(Run(INITIAL, cfg, xs), cfg, y);
    RunOne(Run(INITIAL, cfg, xs + [y]), cfg, z);
  }

  // Without a quota or a size limit nothing is refused for its size.
  lemma {:induction false} NoQuota(s: Smtp, cfg: Config, d: DataEnv)
    requires EnvelopeGiven(s) && Reachable(s, cfg, d) && s.recipients == [BOX] && cfg.maxMsgKb == 0
    ensures var (s1, r1) := EatData(s, cfg, d); r1 != Code(552) && !TooLarge(s1, cfg)
  {
    Opens(s, cfg, d);
    var s1 := OpenForData(s, cfg, d).0;
    var s2 := s1.(names := []);
    AnnouncesAll(s2, 0, d, 1, Fresh);
    var s3 := AnnounceFrom(s2, 0, d).0;
    assert AnnounceFrom(AnnounceOne(s2, BOX, d.usage(0), d.announces(0)).0, 1, d).0 == s3;
    Begins(s3, cfg, d, 1);
  }

  // ------------------------------------------------ a message cut off

  function Letters(n: nat): Line { seq(n, i => 'a') + "\n" }

  const SMALLBOX := Mbox("u", 1, false)

  function FullMailbox(): DataEnv { DataFor(1).(usage := i => Some([999 * 1024])) }

  lemma {:induction false} SmallBoxCharged(s: Smtp)
    requires s.quotaneeded && s.kbroom == 0
    ensures Charge(s, SMALLBOX, Some([999 * 1024])) == Some(s.(kbroom := 1))
  {
    assert [999 * 1024][1..] == [];
    assert KbUsage([999 * 1024]) == 999;
  }

  lemma {:induction false} OneBackendIsPicked(cfg: Config)
    requires cfg.redundancy == 1
    ensures LegalPicks(cfg, FullMailbox()) && FullMailbox().picks == [0]
  {
    BackendGroups(1);
    var d := FullMailbox();
    assert Picked(d.td, cfg.spread, cfg.redundancy, d.picks);
  }

  lemma {:induction false} OnlyOneAnnounced(s: Smtp, d: DataEnv)
    requires s.mega.Some? && s.recipients == [SMALLBOX] && AnnounceOne(s, SMALLBOX, d.usage(0), d.announces(0)).1.None?
    ensures AnnounceFrom(s, 0, d) == (AnnounceOne(s, SMALLBOX, d.usage(0), d.announces(0)).0, None)
  {
    var s1 := AnnounceOne(s, SMALLBOX, d.usage(0), d.announces(0)).0;
    assert AnnounceFrom(s1, 1, d) == (s1, None);
  }

  lemma {:induction false} OneKilobyteLeft(s: Smtp, cfg: Config)
    requires EnvelopeGiven(s) && s.mega.None? && s.recipients == [SMALLBOX] && s.quotaneeded && s.kbroom == 0 && s.esmtpkb == 0
    requires cfg.maxMsgKb == 0 && cfg.redundancy == 1
    ensures Reachable(s, cfg, FullMailbox())
    ensures var (s1, r1) := EatData(s, cfg, FullMailbox());
            r1 == Code(354) && s1.quotaneeded && s1.kbroom == 1 && s1.databytes == 0 && s1.given == [] && s1.body == s1.received
  {
    var s3 := AnnouncedToSmallBox(s, cfg);
    Begins(s3, cfg, FullMailbox(), 1);
  }

  lemma {:induction false} AnnouncedToSmallBox(s: Smtp, cfg: Config) returns (s3: Smtp)
    requires EnvelopeGiven(s) && s.mega.None? && s.recipients == [SMALLBOX] && s.quotaneeded && s.kbroom == 0 && s.esmtpkb == 0
    requires cfg.maxMsgKb == 0 && cfg.redundancy == 1
    ensures Reachable(s, cfg, FullMailbox())
    ensures s3.mega.Some? && Going(s3.mega.value, s3.tag, Announced1) && s3.mega.value.msgnum <= 1
    ensures s3.quotaneeded && s3.kbroom == 1 && s3.esmtpkb == 0 && s3.databytes == 0
    ensures EatData(s, cfg, FullMailbox()) == BeginData(s3, cfg, FullMailbox())
  {
    var d := FullMailbox();
    OneBackendIsPicked(cfg);
    Opens(s, cfg, d);
    OpensKeepsQuota(s, cfg, d);
    var s2 := OpenForData(s, cfg, d).0.(names := []);
    AnnouncesNext(s2, 0, d, 1, Fresh);
    OnlyOneAnnounced(s2, d);
    OneAnnounced(s2, d);
    s3 := AnnounceFrom(s2, 0, d).0;
    EatDataIs(s, cfg, d);
  }

  lemma {:induction false} OpensKeepsQuota(s: Smtp, cfg: Config, d: DataEnv)
    requires s.recipients != [] && !OpenForData(s, cfg, d).1
    ensures var s1 := OpenForData(s, cfg, d).0;
            s1.quotaneeded == s.quotaneeded && s1.kbroom == s.kbroom && s1.esmtpkb == s.esmtpkb && s1.databytes == 0
  {
  }

  lemma {:induction false} OneAnnounced(s: Smtp, d: DataEnv)
    requires s.mega.Some? && s.quotaneeded && s.kbroom == 0 && d.usage(0) == Some([999 * 1024])
    ensures var s1 := AnnounceOne(s, SMALLBOX, d.usage(0), d.announces(0)).0;
            s1.quotaneeded && s1.kbroom == 1 && s1.esmtpkb == s.esmtpkb && s1.databytes == s.databytes
  {
    SmallBoxCharged(s);
  }

  lemma {:induction false} EatDataIs(s: Smtp, cfg: Config, d: DataEnv)
    requires EnvelopeGiven(s) && !OpenForData(s, cfg, d).1 && !OpenForData(s, cfg, d).0.mega.value.degraded
    requires AnnounceFrom(OpenForData(s, cfg, d).0.(names := []), 0, d).1.None?
    ensures EatData(s, cfg, d) == BeginData(AnnounceFrom(OpenForData(s, cfg, d).0.(names := []), 0, d).0, cfg, d)
  {
  }

  // A run that shows the cut-off: one kilobyte is left in the mailbox, the
  // client sends a line of 1000 bytes and one more line, and the message is
  // acknowledged without the second.
  lemma {:induction false} AcknowledgedWithoutItsTail(cfg: Config, tail: Line) returns (xs: seq<Input>, dot: Input)
    requires cfg.maxMsgKb == 0 && cfg.redundancy == 1 && !IsTerminator(tail) && |tail| < 1000
    ensures var s := Run(INITIAL, cfg, xs);
            var reply := Step(s, cfg, dot).1;
            && s.indata && s.given == [Letters(999), tail]
            && reply.Delivered? && reply.body == s.received + Letters(999)
  {
    var mail, rcpt := Line1Of("\n", Mail("m", 0)), Line1Of("\n", Rcpt(Found(SMALLBOX), Missing, false));
    var data, full, last := Line1Of("\n", Data(FullMailbox())), Line1Of(Letters(999), Rset), Line1Of(tail, Rset);
    dot := Line1Of(".\n", Rset);
    var s1 := Step(Step(INITIAL, cfg, mail).0, cfg, rcpt).0;
    CutOff(s1, cfg, full, last, dot);
    xs := [mail] + [rcpt] + [data] + [full, last];
    RunOne(INITIAL, cfg, mail);
    RunTwo(cfg, [mail], rcpt, data);
    RunAppend(INITIAL, cfg, [mail] + [rcpt] + [data], [full, last]);
  }

  lemma {:induction false} CutOff(s: Smtp, cfg: Config, full: Input, last: Input, dot: Input)
    requires EnvelopeGiven(s) && s.mega.None? && s.recipients == [SMALLBOX] && s.quotaneeded && s.kbroom == 0 && s.esmtpkb == 0
    requires cfg.maxMsgKb == 0 && cfg.redundancy == 1
    requires full.line == Letters(999) && !IsTerminator(last.line) && |last.line| < 1000 && dot.line == ".\n"
    requires AllClear(full.f, 1) && AllClear(last.f, 1) && AllClear(dot.f, 1) && AllClear(dot.g, 1)
    ensures var s2 := Run(EatData(s, cfg, FullMailbox()).0, cfg, [full, last]);
            var reply := Step(s2, cfg, dot).1;
            && s2.indata && s2.given == [Letters(999), last.line]
            && reply.Delivered? && reply.body == s2.received + Letters(999)
  {
    OneKilobyteLeft(s, cfg);
    assert Letters(999)[0] == 'a';
    ClearRunIsAcknowledged(s, cfg, FullMailbox(), [full, last], dot);
    DataIsAnswered1(s, cfg);
    var s1 := EatData(s, cfg, FullMailbox()).0;
    TruncatedButAccepted(s1, cfg, full.f, last.f, Letters(999), last.line);
    RunBoth(s1, cfg, full, last);
  }

  lemma {:induction false} DataIsAnswered1(s: Smtp, cfg: Config)
    requires EnvelopeGiven(s) && Reachable(s, cfg, FullMailbox()) && EatData(s, cfg, FullMailbox()).1 == Code(354)
    ensures var s1 := EatData(s, cfg, FullMailbox()).0; s1.indata && s1.mega.Some?
  {
    var es := DataIsAnswered(s, cfg, FullMailbox());
  }

  lemma {:induction false} RunBoth(s: Smtp, cfg: Config, x: Input, y: Input)
    requires s.indata && s.mega.Some? && !IsTerminator(x.line) && !IsTerminator(y.line)
    ensures Run(s, cfg, [x, y]) == EatLine(EatLine(s, x.line, x.f), y.line, y.f)
  {
    assert [x, y][1..] == [y] && [y][1..] == [];
    RunOne(Step(s, cfg, x).0, cfg, y);
  }

  // ----------------------------------- exactly when relays are harmless

  // Exactly when is the redundancy target kept by every acknowledgement of a
  // transaction with this many forwarded recipients?  When there are none, or
  // when one copy is all that is asked.
  lemma {:induction false} TargetKeptIffNoRelays(redundancy: nat, relays: nat)
    ensures TargetAlwaysMet(redundancy, relays) <==> relays == 0 || redundancy <= 1
  {
    if relays == 0 || redundancy <= 1 {
      forall cfg: Config, xs, x | cfg.redundancy == redundancy && WithRelays(cfg, xs, x, relays)
        ensures MeetsTarget(cfg, xs, x)
      {
        TargetMet(cfg, xs, x);
      }
    } else {
      var cfg := Config(redundancy, 0, SelectSpec.Spread(false, false));
      var n := if relays < redundancy then redundancy - relays else 1;
      var xs, x := RelaysMakeUpTheNumber(cfg, relays, n);
      assert !MeetsTarget(cfg, xs, x);
    }
  }

  lemma {:induction false} TargetMet(cfg: Config, xs: seq<Input>, x: Input)
    requires Step(Run(INITIAL, cfg, xs), cfg, x).1.Delivered? ==>
               Relays(Step(Run(INITIAL, cfg, xs), cfg, x).1.entries) == 0 || cfg.redundancy <= 1
    ensures MeetsTarget(cfg, xs, x)
  {
    var s := Run(INITIAL, cfg, xs);
    var reply := Step(s, cfg, x).1;
    if reply.Delivered? && reply.to != [] {
      AcknowledgedMeansStored(cfg, xs, x);
      RedundantFewer(Copies(reply.entries), Guaranteed(reply.entries, cfg.redundancy), cfg.redundancy, s.tag, reply.names, reply.body);
    }
  }
}
