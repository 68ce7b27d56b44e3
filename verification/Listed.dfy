/** From the acknowledgement to the listing: over every run of the SMTP session,
    an acknowledged message is found again by whoever lists the mailbox. */
module Listed {
  import opened Text
  import opened Disk
  import opened DeliverySpec
  import BackendSpec
  import TalkerSpec
  import opened SelectSpec
  import opened MegaSpec
  import SmtpSpec
  import opened ListingSpec

  // ---------------------------- every connection leads to a configured group

  predicate TargetsIn(td: seq<Target>, groups: set<int>) {
    forall i | 0 <= i < |td| :: td[i].group in groups
  }

  ghost predicate GroupsIn(es: seq<Entry>, groups: set<int>) {
    forall i :: 0 <= i < |es| && es[i].link.Storage? ==> es[i].link.target.group in groups
  }

  lemma {:induction false} ConnectedIn(td: seq<Target>, ps: seq<nat>, faults: Faults, garbage: nat -> Option<Handle>, tag: Word, groups: set<int>)
    requires (forall i :: 0 <= i < |ps| ==> ps[i] < |td|) && TargetsIn(td, groups)
    ensures GroupsIn(Connected(td, ps, faults, garbage, tag), groups)
  {
    if ps != [] {
      ConnectedIn(td, ps[..|ps| - 1], faults, garbage, tag, groups);
    }
  }

  lemma {:induction false} LinksIn(a: seq<Entry>, b: seq<Entry>, groups: set<int>)
    requires SameLinks(a, b) && GroupsIn(a, groups)
    ensures GroupsIn(b, groups)
  {
    forall i | 0 <= i < |b| && b[i].link.Storage?
      ensures b[i].link.target.group in groups
    {
      assert SameLink(a[i], b[i]);
    }
  }

  // No call changes where a connection leads.
  lemma {:induction false} AddRecipientLinks(m: Mega, mbox: Word, faults: Faults, tag: Word)
    ensures SameLinks(m.entries, MegaSpec.AddRecipient(m, mbox, faults, tag).m.entries)
  {
    var es := MegaSpec.AddRecipient(m, mbox, faults, tag).m.entries;
    forall i | 0 <= i < |es|
      ensures SameLink(m.entries[i], es[i])
    {
      assert es[i] == Announce(m.entries[i], mbox, m.msgnum + 1, faults(i), tag);
    }
  }

  lemma {:induction false} StartDataLinks(m: Mega, faults: Faults, tag: Word)
    ensures SameLinks(m.entries, MegaSpec.StartData(m, faults, tag).m.entries)
  {
    var es := MegaSpec.StartData(m, faults, tag).m.entries;
    forall i | 0 <= i < |es|
      ensures SameLink(m.entries[i], es[i])
    {
      assert es[i] == Start1(m.entries[i], faults(i), tag);
    }
  }

  lemma {:induction false} AddLineLinks(m: Mega, line: string, faults: Faults, tag: Word)
    ensures SameLinks(m.entries, MegaSpec.AddLine(m, line, faults, tag).entries)
  {
    var es := MegaSpec.AddLine(m, line, faults, tag).entries;
    forall i | 0 <= i < |es|
      ensures SameLink(m.entries[i], es[i])
    {
      assert es[i] == Line1(m.entries[i], line, faults(i), tag);
    }
  }

  lemma {:induction false} MsgDoneLinks(m: Mega, f: Faults, g: Faults, tag: Word)
    ensures SameLinks(m.entries, MegaSpec.MsgDone(m, f, g, tag).m.entries)
  {
    var es := MegaSpec.MsgDone(m, f, g, tag).m.entries;
    forall i | 0 <= i < |es|
      ensures SameLink(m.entries[i], es[i])
    {
      assert es[i] == Done1(m.entries[i], f(i), g(i), tag);
    }
  }

  ghost predicate SessionIn(s: SmtpSpec.Smtp, groups: set<int>) {
    s.mega.Some? ==> GroupsIn(s.mega.value.entries, groups)
  }

  lemma {:induction false} AnnounceOneIn(s: SmtpSpec.Smtp, box: SmtpSpec.Mbox, usage: Option<seq<nat>>, faults: Faults, groups: set<int>)
    requires s.mega.Some? && SessionIn(s, groups)
    ensures SessionIn(SmtpSpec.AnnounceOne(s, box, usage, faults).0, groups)
  {
    AddRecipientLinks(s.mega.value, box.name, faults, s.tag);
    LinksIn(s.mega.value.entries, MegaSpec.AddRecipient(s.mega.value, box.name, faults, s.tag).m.entries, groups);
  }

  lemma {:induction false} AnnounceIn(s: SmtpSpec.Smtp, i: nat, d: SmtpSpec.DataEnv, groups: set<int>)
    requires s.mega.Some? && SessionIn(s, groups)
    ensures SessionIn(SmtpSpec.AnnounceFrom(s, i, d).0, groups)
    decreases |s.recipients| - i
  {
    if i < |s.recipients| {
      AnnounceOneIn(s, s.recipients[i], d.usage(i), d.announces(i), groups);
      var (s1, err) := SmtpSpec.AnnounceOne(s, s.recipients[i], d.usage(i), d.announces(i));
      if err.None? {
        AnnounceIn(s1, i + 1, d, groups);
      }
    }
  }

  lemma {:induction false} BeginIn(s: SmtpSpec.Smtp, cfg: SmtpSpec.Config, d: SmtpSpec.DataEnv, groups: set<int>)
    requires s.mega.Some? && SessionIn(s, groups)
    ensures SessionIn(SmtpSpec.BeginData(s, cfg, d).0, groups)
  {
    var m := s.mega.value;
    var m1 := MegaSpec.StartData(m, d.puts, s.tag).m;
    StartDataLinks(m, d.puts, s.tag);
    LinksIn(m.entries, m1.entries, groups);
    var line := SmtpSpec.ReceivedLine(d.received);
    AddLineLinks(m1, line, d.receivedFaults, s.tag);
    LinksIn(m1.entries, MegaSpec.AddLine(m1, line, d.receivedFaults, s.tag).entries, groups);
  }

  lemma {:induction false} OpenIn(s: SmtpSpec.Smtp, cfg: SmtpSpec.Config, d: SmtpSpec.DataEnv, groups: set<int>)
    requires SessionIn(s, groups) && TargetsIn(d.td, groups)
    ensures SessionIn(SmtpSpec.OpenForData(s, cfg, d).0, groups)
  {
    if s.recipients != [] {
      var picks := if SmtpSpec.LegalPicks(cfg, d) then d.picks else [];
      ConnectedIn(d.td, picks, d.connects, d.garbage, s.tag, groups);
    }
  }

  lemma {:induction false} DataIn(s: SmtpSpec.Smtp, cfg: SmtpSpec.Config, d: SmtpSpec.DataEnv, groups: set<int>)
    requires SessionIn(s, groups) && TargetsIn(d.td, groups)
    ensures SessionIn(SmtpSpec.EatData(s, cfg, d).0, groups)
  {
    if s.fromset && !(s.recipients == [] && s.mega.None?) {
      OpenIn(s, cfg, d, groups);
      var (s1, thrown) := SmtpSpec.OpenForData(s, cfg, d);
      if !thrown && !s1.mega.value.degraded {
        var s2 := s1.(names := []);
        AnnounceIn(s2, 0, d, groups);
        var (s3, err) := SmtpSpec.AnnounceFrom(s2, 0, d);
        if err.None? {
          BeginIn(s3, cfg, d, groups);
        }
      }
    }
  }

  // The backends configured whenever a DATA command came.
  ghost predicate Configured(xs: seq<SmtpSpec.Input>, groups: set<int>) {
    forall k :: 0 <= k < |xs| && xs[k].cmd.Data? ==> TargetsIn(xs[k].cmd.env.td, groups)
  }

  lemma {:induction false} DotIn(s: SmtpSpec.Smtp, cfg: SmtpSpec.Config, x: SmtpSpec.Input, groups: set<int>)
    requires s.mega.Some? && SessionIn(s, groups)
    ensures var (s1, reply) := SmtpSpec.EatDot(s, cfg, x);
            SessionIn(s1, groups) && (reply.Delivered? ==> GroupsIn(reply.entries, groups))
  {
    var m := s.mega.value;
    MsgDoneLinks(m, x.f, x.g, s.tag);
    LinksIn(m.entries, MegaSpec.MsgDone(m, x.f, x.g, s.tag).m.entries, groups);
  }

  lemma {:induction false} StepIn(s: SmtpSpec.Smtp, cfg: SmtpSpec.Config, x: SmtpSpec.Input, groups: set<int>)
    requires SessionIn(s, groups) && SmtpSpec.SessionInv(s, cfg.redundancy)
    requires x.cmd.Data? ==> TargetsIn(x.cmd.env.td, groups)
    ensures var (s1, reply) := SmtpSpec.Step(s, cfg, x);
            SessionIn(s1, groups) && (reply.Delivered? ==> GroupsIn(reply.entries, groups))
  {
    SmtpSpec.StepInv(s, cfg, x);
    if s.indata {
      if IsTerminator(x.line) {
        DotIn(s, cfg, x, groups);
      } else {
        AddLineLinks(s.mega.value, x.line, x.f, s.tag);
        LinksIn(s.mega.value.entries, MegaSpec.AddLine(s.mega.value, x.line, x.f, s.tag).entries, groups);
      }
    } else if x.cmd.Data? {
      DataIn(s, cfg, x.cmd.env, groups);
    }
  }

  lemma {:induction false} RunIn(s: SmtpSpec.Smtp, cfg: SmtpSpec.Config, xs: seq<SmtpSpec.Input>, groups: set<int>)
    requires SessionIn(s, groups) && SmtpSpec.SessionInv(s, cfg.redundancy) && Configured(xs, groups)
    ensures SessionIn(SmtpSpec.Run(s, cfg, xs), groups)
    decreases |xs|
  {
    if xs != [] {
      SmtpSpec.StepInv(s, cfg, xs[0]);
      StepIn(s, cfg, xs[0], groups);
      RunIn(SmtpSpec.Step(s, cfg, xs[0]).0, cfg, xs[1..], groups);
    }
  }

  // --------------------------------------------------------- at listing time

  // The backend of a connection, by what does not change while it is
  // configured.
  predicate SameBackend(a: Target, b: Target) { a.address == b.address && a.port == b.port && a.group == b.group }

  // What happened on the backend since the connection ended spared this file:
  // in particular the message was not deleted.
  ghost predicate SparedAt(en: Entry, sites: seq<Site>, f: Path)
    requires en.link.Storage?
  {
    exists j :: 0 <= j < |sites| && SameBackend(en.link.target, sites[j].target)
                && Lookup(sites[j].disk, f) == Lookup(BackendSpec.End(en.link.t.peer), f)
  }

  // For every run that ends in the acknowledgement of a message without
  // forwards, with as many copies wanted as groups are configured: whenever
  // the mailbox of a recipient is listed later, on backends that were changed
  // in any way but for this file, and all backends of some group are up,
  // however many are down in the other groups, and no listing fails, getMsgs
  // returns the message exactly once, under its own index.
  lemma {:induction false} AcknowledgedIsListedOnce(
      cfg: SmtpSpec.Config, xs: seq<SmtpSpec.Input>, x: SmtpSpec.Input,
      groups: set<int>, a: TalkerSpec.Announced, sites: seq<Site>, fails: nat -> bool, g: int)
    requires cfg.redundancy == |groups| && Configured(xs, groups)
    requires var s := SmtpSpec.Run(SmtpSpec.INITIAL, cfg, xs);
             var reply := SmtpSpec.Step(s, cfg, x).1;
             && reply.Delivered? && reply.to != [] && AllStorage(reply.entries) && a in reply.names
             && forall i :: 0 <= i < |reply.entries| ==> SparedAt(reply.entries[i], sites, CurOf(TalkerSpec.FileOf(a, s.tag)))
    requires g in groups && forall j :: 0 <= j < |sites| && sites[j].target.group == g ==> sites[j].target.up
    requires forall j :: 0 <= j < |sites| && sites[j].target.up ==> Truthful(sites[j], a.mbox)
    requires AllListed(sites, fails)
    ensures GetMsgs(sites, fails).Some?
    ensures var s := SmtpSpec.Run(SmtpSpec.INITIAL, cfg, xs);
            ListedOnce(GetMsgs(sites, fails).value, TalkerSpec.NameOf(s.tag, a.num))
  {
    var s := SmtpSpec.Run(SmtpSpec.INITIAL, cfg, xs);
    var reply := SmtpSpec.Step(s, cfg, x).1;
    SmtpSpec.AcknowledgedMeansRedundant(cfg, xs, x);
    DeliveredIn(cfg, xs, x, groups);
    SparedIsThere(reply.entries, |groups|, s.tag, reply.names, reply.body, a, sites);
    RedundantIsListedOnce(reply.entries, s.tag, a, reply.names, reply.body, groups, sites, g);
    GetMsgsMergesIff(sites, fails);
  }

  lemma {:induction false} DeliveredIn(cfg: SmtpSpec.Config, xs: seq<SmtpSpec.Input>, x: SmtpSpec.Input, groups: set<int>)
    requires Configured(xs, groups)
    requires SmtpSpec.Step(SmtpSpec.Run(SmtpSpec.INITIAL, cfg, xs), cfg, x).1.Delivered?
    ensures GroupsIn(SmtpSpec.Step(SmtpSpec.Run(SmtpSpec.INITIAL, cfg, xs), cfg, x).1.entries, groups)
  {
    var s := SmtpSpec.Run(SmtpSpec.INITIAL, cfg, xs);
    SmtpSpec.RunInv(SmtpSpec.INITIAL, cfg, xs);
    RunIn(SmtpSpec.INITIAL, cfg, xs, groups);
    SmtpSpec.StepInv(s, cfg, x);
    DotIn(s, cfg, x, groups);
  }

  lemma {:induction false} SparedIsThere(es: seq<Entry>, n: nat, tag: Word, names: seq<Announced>, body: string, a: Announced, sites: seq<Site>)
    requires Redundant(es, n, tag, names, body) && a in names && AllStorage(es)
    requires forall i :: 0 <= i < |es| ==> SparedAt(es[i], sites, CurOf(TalkerSpec.FileOf(a, tag)))
    ensures forall i :: 0 <= i < n ==> StillThere(es[i], sites, TalkerSpec.FileOf(a, tag))
  {
    var f := CurOf(TalkerSpec.FileOf(a, tag));
    forall i | 0 <= i < n
      ensures StillThere(es[i], sites, TalkerSpec.FileOf(a, tag))
    {
      assert Holds(es[i], tag, names, body) && SparedAt(es[i], sites, f);
      assert Lookup(BackendSpec.End(es[i].link.t.peer), f).Some?;
      var j :| 0 <= j < |sites| && SameBackend(es[i].link.target, sites[j].target)
               && Lookup(sites[j].disk, f) == Lookup(BackendSpec.End(es[i].link.t.peer), f);
      assert f in sites[j].disk.names;
    }
  }
}
