/** The SMTP transaction: envelope, quota, data phase and the final verdict. */
module SmtpSpec {
  import opened Text
  import opened Disk
  import opened DeliverySpec
  import TalkerSpec
  import opened SelectSpec
  import opened MegaSpec

  // What the userbase knows about an accepted recipient; quota is in megabytes.
  datatype Mbox = Mbox(name: Word, quota: int, isForward: bool)

  datatype Lookup = TempError | Missing | Found(mbox: Mbox)

  // redundancy: copies wanted; maxMsgKb: message size limit, 0 for none.
  datatype Config = Config(redundancy: nat, maxMsgKb: nat, spread: Spread)

  // Everything a DATA command meets: the state of the configured backends, the
  // servers picked among them, connections, listings for the quota, and the
  // variable part of the Received line.
  datatype DataEnv = DataEnv(
    td: seq<Target>, picks: seq<nat>, connects: Faults, garbage: nat -> Option<Handle>,
    usage: nat -> Option<seq<nat>>, announces: nat -> Faults, puts: Faults,
    received: string, receivedFaults: Faults)

  datatype Cmd =
    | Mail(tag: Word, sizeKb: nat)
    | Rcpt(direct: Lookup, wildcard: Lookup, relayOk: bool)
    | Data(env: DataEnv)
    | Rset
    | Other(code: nat)

  // A line from the client: its text, which counts in the data phase; what it
  // means as a command, which counts outside; and the faults that the requests
  // to the backends meet, the last two those of a rollback.
  datatype Input = Input(line: Line, cmd: Cmd, f: Faults, g: Faults, rf: Faults, rg: Faults)

  // What Session::getLine hands out.
  type Line = s: string | IsLine(s) witness "\n"

  // The last four fields record the data phase: the names announced for the
  // recipients, the Received line, the lines of the client, and the text that
  // was passed on to the backends.
  datatype Smtp = Smtp(
    fromset: bool, tag: Word, quotaneeded: bool, kbroom: int, databytes: nat, esmtpkb: nat,
    recipients: seq<Mbox>, indata: bool, mega: Option<Mega>,
    names: seq<Announced>, received: string, given: seq<Line>, body: string)

  // Delivered is "250 Delivered message", Refused the 552 and Undelivered the
  // 450 that may answer the final dot instead; all with the state of the
  // backend connections at that moment.
  datatype Reply =
    | Silent
    | Code(n: nat)
    | Delivered(to: seq<Mbox>, names: seq<Announced>, body: string, entries: seq<Entry>)
    | Refused(entries: seq<Entry>)
    | Undelivered(entries: seq<Entry>)

  const INITIAL := Smtp(false, "a", true, 0, 0, 0, [], false, None, [], "", [], "")

  function ResetSession(s: Smtp): Smtp {
    s.(quotaneeded := true, kbroom := 0, databytes := 0, fromset := false, recipients := [], mega := None)
  }

  function Max(a: int, b: int): int { if a < b then b else a }

  // Kilobytes in use; small files are penalised.
  function KbUsage(sizes: seq<nat>): nat {
    if sizes == [] then 0 else Max(4, sizes[0] / 1024) + KbUsage(sizes[1..])
  }

  function ReceivedLine(rest: string): string { "Received: from " + rest }

  // ---------------------------------------------------------------- commands

  function EatFrom(s: Smtp, tag: Word, sizeKb: nat): (Smtp, Reply) {
    if s.fromset then (s, Code(503))
    else (s.(tag := tag, fromset := true, quotaneeded := true, kbroom := 0, esmtpkb := sizeKb), Code(250))
  }

  // A direct hit is tried first, then the wildcard of the domain.
  function Resolve(direct: Lookup, wildcard: Lookup): Lookup {
    if direct.Missing? then wildcard else direct
  }

  function EatTo(s: Smtp, direct: Lookup, wildcard: Lookup, relayOk: bool): (Smtp, Reply) {
    if !s.fromset then (s, Code(503))
    else
      match Resolve(direct, wildcard)
      case TempError => (s, Code(450))
      case Missing => (s, Code(550))
      case Found(mbox) =>
        if !mbox.isForward then (s.(recipients := s.recipients + [mbox]), Code(250))
        else
          var m := if s.mega.None? then NEW else s.mega.value;
          if relayOk then (s.(mega := Some(m.(entries := m.entries + [Entry(Relay, true)]))), Code(250))
          else (s.(mega := Some(m)), Code(450))
  }

  // The quota of one recipient; None when the mailbox could not be listed.
  function Charge(s: Smtp, box: Mbox, usage: Option<seq<nat>>): Option<Smtp> {
    if !box.isForward && box.quota <= 0 then Some(s.(quotaneeded := false))
    else if !s.quotaneeded then Some(s)
    else
      match usage
      case None => None
      case Some(sizes) => Some(s.(kbroom := Max(box.quota * 1000 - KbUsage(sizes), s.kbroom)))
  }

  // One round of the loop over the recipients; Some(code) is an early return.
  function AnnounceOne(s: Smtp, box: Mbox, usage: Option<seq<nat>>, faults: Faults): (r: (Smtp, Option<nat>))
    requires s.mega.Some?
    ensures r.0.mega.Some? && r.0.recipients == s.recipients
  {
    match Charge(s, box, usage)
    case None => (s, Some(450))
    case Some(s1) =>
      var r := AddRecipient(s.mega.value, box.name, faults, s.tag);
      (s1.(mega := Some(r.m), names := s.names + [TalkerSpec.To(box.name, r.m.msgnum)]),
       if r.thrown then Some(450) else None)
  }

  function AnnounceFrom(s: Smtp, i: nat, d: DataEnv): (r: (Smtp, Option<nat>))
    requires s.mega.Some?
    ensures r.0.mega.Some?
    decreases |s.recipients| - i
  {
    if i >= |s.recipients| then (s, None)
    else
      var (s1, err) := AnnounceOne(s, s.recipients[i], d.usage(i), d.announces(i));
      if err.Some? then (s1, err) else AnnounceFrom(s1, i + 1, d)
  }

  predicate OverQuota(s: Smtp, cfg: Config) {
    s.quotaneeded &&
    (|| s.kbroom <= 0
     || (s.esmtpkb != 0 && s.esmtpkb > s.kbroom)
     || (s.esmtpkb != 0 && cfg.maxMsgKb != 0 && s.esmtpkb > cfg.maxMsgKb))
  }

  // After the announcements: startData, the quota tests and the Received line.
  function BeginData(s: Smtp, cfg: Config, d: DataEnv): (Smtp, Reply)
    requires s.mega.Some?
  {
    var r := StartData(s.mega.value, d.puts, s.tag);
    var s1 := s.(mega := Some(r.m));
    if r.thrown || r.m.degraded then (s1, Code(450))
    else if OverQuota(s, cfg) then (s1, Code(552))
    else
      var line := ReceivedLine(d.received);
      var m := AddLine(r.m, line, d.receivedFaults, s.tag);
      (s.(mega := Some(m), indata := true, received := line, given := [], body := line), Code(354))
  }

  // From the degraded test before the announcements to the reply.
  function Prepare(s: Smtp, cfg: Config, d: DataEnv): (Smtp, Reply)
    requires s.mega.Some?
  {
    if s.mega.value.degraded then (s, Code(450))
    else
      var (s1, err) := AnnounceFrom(s.(names := []), 0, d);
      if err.Some? then (s1, Code(450)) else BeginData(s1, cfg, d)
  }

  predicate LegalPicks(cfg: Config, d: DataEnv) { Picked(d.td, cfg.spread, cfg.redundancy, d.picks) }

  // Storage is opened unless there are only forwards; the flag says that no
  // backend could be reached at all.
  function OpenForData(s: Smtp, cfg: Config, d: DataEnv): (r: (Smtp, bool))
    ensures r.0.mega.Some?
  {
    var m := if s.mega.None? then NEW else s.mega.value;
    if s.recipients == [] then (s.(mega := Some(m), quotaneeded := false, databytes := 0), false)
    else
      var picks := if LegalPicks(cfg, d) then d.picks else [];
      var r := OpenStorage(m, cfg.redundancy, Connected(d.td, picks, d.connects, d.garbage, s.tag));
      (s.(mega := Some(r.m), databytes := if r.thrown then s.databytes else 0), r.thrown)
  }

  function EatData(s: Smtp, cfg: Config, d: DataEnv): (Smtp, Reply) {
    if !s.fromset || (s.recipients == [] && s.mega.None?) then (s, Code(503))
    else
      var (s1, thrown) := OpenForData(s, cfg, d);
      if thrown then (s1, Code(450)) else Prepare(s1, cfg, d)
  }

  // ------------------------------------------------------------- data phase

  // Lines beyond the room left by the quota are not passed on.
  predicate PassedOn(s: Smtp) { !s.quotaneeded || s.databytes / 1000 < s.kbroom }

  function EatLine(s: Smtp, line: Line, f: Faults): Smtp
    requires s.mega.Some?
  {
    var s1 := if PassedOn(s) then s.(mega := Some(AddLine(s.mega.value, line, f, s.tag)), body := s.body + line) else s;
    s1.(databytes := s.databytes + |line|, given := s.given + [line])
  }

  predicate TooLarge(s: Smtp, cfg: Config) {
    || (s.quotaneeded && s.databytes / 1000 > s.kbroom)
    || (cfg.maxMsgKb != 0 && s.databytes / 1000 > cfg.maxMsgKb)
  }

  function EatDot(s: Smtp, cfg: Config, x: Input): (Smtp, Reply)
    requires s.mega.Some?
  {
    var s0 := s.(indata := false);
    if TooLarge(s, cfg) then (ResetSession(s0), Refused(MsgRollback(s.mega.value, x.rf, x.rg, s.tag).entries))
    else
      var r := MsgDone(s.mega.value, x.f, x.g, s.tag);
      if r.thrown then (s0.(mega := Some(r.m)), Code(450))
      else if r.m.degraded then (ResetSession(s0), Undelivered(MsgRollback(r.m, x.rf, x.rg, s.tag).entries))
      else (ResetSession(s0), Delivered(s.recipients, s.names, s.body, r.m.entries))
  }

  function Step(s: Smtp, cfg: Config, x: Input): (Smtp, Reply) {
    if s.indata && s.mega.Some? then
      if IsTerminator(x.line) then EatDot(s, cfg, x) else (EatLine(s, x.line, x.f), Silent)
    else
      match x.cmd
      case Mail(tag, sizeKb) => EatFrom(s, tag, sizeKb)
      case Rcpt(direct, wildcard, relayOk) => EatTo(s, direct, wildcard, relayOk)
      case Data(env) => EatData(s, cfg, env)
      case Rset => (ResetSession(s), Code(250))
      case Other(code) => (s, Code(code))
  }

  function Run(s: Smtp, cfg: Config, xs: seq<Input>): Smtp
    decreases |xs|
  {
    if xs == [] then s else Run(Step(s, cfg, xs[0]).0, cfg, xs[1..])
  }

  // ---------------------------------------------------------------- invariant

  // Names were given to the recipients, in order.
  ghost predicate Named(to: seq<Mbox>, names: seq<Announced>) {
    && |to| == |names|
    && (forall i :: 0 <= i < |to| ==> names[i].mbox == to[i].name)
    && (forall i, j :: 0 <= i < j < |names| ==> names[i].num < names[j].num)
  }

  ghost predicate SessionInv(s: Smtp, redundancy: nat) {
    && (s.mega.Some? ==> s.fromset && Inv(s.mega.value, redundancy, s.tag))
    && (s.indata ==>
          && s.mega.Some?
          && Named(s.recipients, s.names)
          && (!s.mega.value.degraded ==>
                && Knows(s.mega.value, s.names) && Feeding(s.mega.value, s.body)
                && (s.recipients != [] ==> Copies(s.mega.value.entries) != [])))
  }

  lemma {:induction false} RelayInv(m: Mega, redundancy: nat, tag: Word)
    requires Inv(m, redundancy, tag)
    ensures Inv(m.(entries := m.entries + [Entry(Relay, true)]), redundancy, tag)
  {
    var relay := [Entry(Relay, true)];
    CopiesAppend(m.entries, relay);
    assert Copies(relay) == [];
    var n := Wanted(m.entries + relay, redundancy);
    if Covered(m.entries, redundancy) {
      assert Copies(m.entries)[..n] == Copies(m.entries)[..Wanted(m.entries, redundancy)][..n];
    }
  }

  ghost predicate Told(s: Smtp, i: nat) {
    && s.mega.Some? && i <= |s.recipients|
    && Named(s.recipients[..i], s.names)
    && (s.names != [] ==> s.names[|s.names| - 1].num <= s.mega.value.msgnum)
    && (!s.mega.value.degraded ==>
          Knows(s.mega.value, s.names) && (s.names != [] ==> Copies(s.mega.value.entries) != []))
  }

  ghost predicate SameEnvelope(s: Smtp, s1: Smtp) {
    s1.tag == s.tag && s1.fromset == s.fromset && s1.recipients == s.recipients && s1.indata == s.indata
  }

  lemma {:induction false} ToldOne(s: Smtp, i: nat, s1: Smtp)
    requires Told(s, i) && i < |s.recipients| && s1.recipients == s.recipients && s1.mega.Some?
    requires var m, m1 := s.mega.value, s1.mega.value;
             && m1.msgnum == m.msgnum + 1
             && s1.names == s.names + [TalkerSpec.To(s.recipients[i].name, m1.msgnum)]
             && (!m1.degraded ==> Knows(m1, s1.names) && Copies(m1.entries) != [])
    ensures Told(s1, i + 1)
  {
    assert s.recipients[..i + 1] == s.recipients[..i] + [s.recipients[i]];
  }

  lemma {:induction false} AnnounceOneInv(s: Smtp, i: nat, usage: Option<seq<nat>>, faults: Faults, redundancy: nat)
    requires s.mega.Some? && Inv(s.mega.value, redundancy, s.tag) && Told(s, i) && i < |s.recipients|
    ensures var (s1, err) := AnnounceOne(s, s.recipients[i], usage, faults);
            && Inv(s1.mega.value, redundancy, s1.tag) && SameEnvelope(s, s1)
            && (err.None? ==> Told(s1, i + 1))
  {
    AddRecipientInv(s.mega.value, s.recipients[i].name, faults, s.tag, redundancy, s.names);
    var (s1, err) := AnnounceOne(s, s.recipients[i], usage, faults);
    if err.None? {
      var es := s1.mega.value.entries;
      var k :| 0 <= k < |es| && es[k].ok && es[k].link.Storage?;
      CopiesHasStorage(es, k);
      ToldOne(s, i, s1);
    }
  }

  lemma {:induction false} AnnounceInv(s: Smtp, i: nat, d: DataEnv, redundancy: nat)
    requires s.mega.Some? && Inv(s.mega.value, redundancy, s.tag) && Told(s, i)
    ensures var (s1, err) := AnnounceFrom(s, i, d);
            && s1.mega.Some? && Inv(s1.mega.value, redundancy, s1.tag) && SameEnvelope(s, s1)
            && (err.None? ==> Told(s1, |s.recipients|))
    decreases |s.recipients| - i
  {
    if i < |s.recipients| {
      var (s1, err) := AnnounceOne(s, s.recipients[i], d.usage(i), d.announces(i));
      AnnounceOneInv(s, i, d.usage(i), d.announces(i), redundancy);
      if err.None? {
        AnnounceInv(s1, i + 1, d, redundancy);
      }
    }
  }

  lemma {:induction false} BeginDataInv(s: Smtp, cfg: Config, d: DataEnv)
    requires Told(s, |s.recipients|) && s.fromset && !s.indata && Inv(s.mega.value, cfg.redundancy, s.tag)
    ensures SessionInv(BeginData(s, cfg, d).0, cfg.redundancy)
    ensures !BeginData(s, cfg, d).1.Delivered?
  {
    var r := StartData(s.mega.value, d.puts, s.tag);
    StartDataInv(s.mega.value, d.puts, s.tag, cfg.redundancy, s.names);
    assert s.recipients[..|s.recipients|] == s.recipients;
    var line := ReceivedLine(d.received);
    assert line[0] == 'R';
    if !r.m.degraded {
      AddLineInv(r.m, line, d.receivedFaults, s.tag, cfg.redundancy, s.names, "");
      assert "" + line == line;
    }
  }

  lemma {:induction false} PrepareInv(s: Smtp, cfg: Config, d: DataEnv)
    requires s.mega.Some? && s.fromset && !s.indata && Inv(s.mega.value, cfg.redundancy, s.tag)
    ensures SessionInv(Prepare(s, cfg, d).0, cfg.redundancy)
    ensures !Prepare(s, cfg, d).1.Delivered?
  {
    if !s.mega.value.degraded {
      assert s.recipients[..0] == [];
      var s0 := s.(names := []);
      AnnounceInv(s0, 0, d, cfg.redundancy);
      var (s1, err) := AnnounceFrom(s0, 0, d);
      if err.None? {
        BeginDataInv(s1, cfg, d);
      }
    }
  }

  lemma {:induction false} OpenForDataInv(s: Smtp, cfg: Config, d: DataEnv)
    requires SessionInv(s, cfg.redundancy) && !s.indata && s.fromset
    ensures var s1 := OpenForData(s, cfg, d).0;
            Inv(s1.mega.value, cfg.redundancy, s1.tag) && s1.fromset && !s1.indata
  {
    var m := if s.mega.None? then NEW else s.mega.value;
    if s.recipients != [] {
      var picks := if LegalPicks(cfg, d) then d.picks else [];
      OpenStorageInv(m, cfg.redundancy, d.td, picks, d.connects, d.garbage, s.tag);
    }
  }

  lemma {:induction false} EatDataInv(s: Smtp, cfg: Config, d: DataEnv)
    requires SessionInv(s, cfg.redundancy) && !s.indata
    ensures SessionInv(EatData(s, cfg, d).0, cfg.redundancy)
    ensures !EatData(s, cfg, d).1.Delivered?
  {
    if s.fromset && !(s.recipients == [] && s.mega.None?) {
      OpenForDataInv(s, cfg, d);
      var (s1, thrown) := OpenForData(s, cfg, d);
      if !thrown {
        PrepareInv(s1, cfg, d);
      }
    }
  }

  lemma {:induction false} EatLineInv(s: Smtp, line: Line, f: Faults, redundancy: nat)
    requires SessionInv(s, redundancy) && s.indata && !IsTerminator(line)
    ensures SessionInv(EatLine(s, line, f), redundancy)
  {
    AddLineInv(s.mega.value, line, f, s.tag, redundancy, s.names, s.body);
  }

  lemma {:induction false} EatDotInv(s: Smtp, cfg: Config, x: Input)
    requires SessionInv(s, cfg.redundancy) && s.indata
    ensures SessionInv(EatDot(s, cfg, x).0, cfg.redundancy)
  {
    var m := s.mega.value;
    if !m.degraded {
      MsgDoneInv(m, x.f, x.g, s.tag);
    }
    var r := MsgDone(m, x.f, x.g, s.tag);
    assert r.thrown && m.entries == [] ==> r.m.entries == [];
  }

  lemma {:induction false} MailInv(s: Smtp, tag: Word, sizeKb: nat, redundancy: nat)
    requires SessionInv(s, redundancy) && !s.indata
    ensures SessionInv(EatFrom(s, tag, sizeKb).0, redundancy) && !EatFrom(s, tag, sizeKb).1.Delivered?
  {
  }

  lemma {:induction false} WithMega(s: Smtp, m: Mega, redundancy: nat)
    requires s.fromset && !s.indata && Inv(m, redundancy, s.tag)
    ensures SessionInv(s.(mega := Some(m)), redundancy)
  {
  }

  // The relay connections of a forwarded recipient.
  lemma {:induction false} ForwardInv(s: Smtp, m: Mega, redundancy: nat)
    requires s.fromset && !s.indata && Inv(m, redundancy, s.tag)
    ensures SessionInv(s.(mega := Some(m)), redundancy)
    ensures SessionInv(s.(mega := Some(m.(entries := m.entries + [Entry(Relay, true)]))), redundancy)
  {
    WithMega(s, m, redundancy);
    RelayInv(m, redundancy, s.tag);
    WithMega(s, m.(entries := m.entries + [Entry(Relay, true)]), redundancy);
  }

  lemma {:induction false} RcptInv(s: Smtp, direct: Lookup, wildcard: Lookup, relayOk: bool, redundancy: nat)
    requires SessionInv(s, redundancy) && !s.indata
    ensures SessionInv(EatTo(s, direct, wildcard, relayOk).0, redundancy) && !EatTo(s, direct, wildcard, relayOk).1.Delivered?
  {
    if s.fromset {
      var m := MegaOf(s, redundancy);
      ForwardInv(s, m, redundancy);
    }
  }

  lemma {:induction false} MegaOf(s: Smtp, redundancy: nat) returns (m: Mega)
    requires SessionInv(s, redundancy)
    ensures m == (if s.mega.None? then NEW else s.mega.value) && Inv(m, redundancy, s.tag)
  {
    m := if s.mega.None? then NEW else s.mega.value;
  }

  lemma {:induction false} ResetInv(s: Smtp, redundancy: nat)
    requires !s.indata
    ensures SessionInv(ResetSession(s), redundancy)
  {
  }

  lemma {:induction false} CommandInv(s: Smtp, cfg: Config, x: Input)
    requires SessionInv(s, cfg.redundancy) && !s.indata
    ensures SessionInv(Step(s, cfg, x).0, cfg.redundancy) && !Step(s, cfg, x).1.Delivered?
  {
    match x.cmd {
      case Mail(tag, sizeKb) => MailInv(s, tag, sizeKb, cfg.redundancy);
      case Rcpt(direct, wildcard, relayOk) => RcptInv(s, direct, wildcard, relayOk, cfg.redundancy);
      case Data(env) => EatDataInv(s, cfg, env);
      case Rset => ResetInv(s, cfg.redundancy);
      case Other(code) =>
    }
  }

  lemma {:induction false} StepInv(s: Smtp, cfg: Config, x: Input)
    requires SessionInv(s, cfg.redundancy)
    ensures SessionInv(Step(s, cfg, x).0, cfg.redundancy)
    ensures Step(s, cfg, x).1.Delivered? ==> s.indata && IsTerminator(x.line)
  {
    if !s.indata {
      CommandInv(s, cfg, x);
    } else if IsTerminator(x.line) {
      EatDotInv(s, cfg, x);
    } else {
      EatLineInv(s, x.line, x.f, cfg.redundancy);
    }
  }

  lemma {:induction false} RunInv(s: Smtp, cfg: Config, xs: seq<Input>)
    requires SessionInv(s, cfg.redundancy)
    ensures SessionInv(Run(s, cfg, xs), cfg.redundancy)
    decreases |xs|
  {
    if xs != [] {
      StepInv(s, cfg, xs[0]);
      RunInv(Step(s, cfg, xs[0]).0, cfg, xs[1..]);
    }
  }

  // ------------------------------------------------------------ main theorem

  // After any run of SMTP commands and data lines, with any failures of links,
  // backends and disks and any interference by other sessions: if the final
  // dot is answered "250 Delivered", then the text that was passed on is held,
  // under one name per recipient, by as many backends in pairwise different
  // groups as s_redundancy asks for less the number of relay connections, and
  // by one at least; they keep it when their connections end.
  ghost predicate Fulfilled(s: Smtp, cfg: Config, reply: Reply)
    requires reply.Delivered?
  {
    && reply.to == s.recipients && Named(reply.to, reply.names)
    && (reply.to != [] ==>
          Redundant(Copies(reply.entries), Guaranteed(reply.entries, cfg.redundancy), s.tag, reply.names, reply.body))
  }

  lemma {:induction false} AcknowledgedMeansStored(cfg: Config, xs: seq<Input>, x: Input)
    ensures var s := Run(INITIAL, cfg, xs);
            Step(s, cfg, x).1.Delivered? ==> Fulfilled(s, cfg, Step(s, cfg, x).1)
  {
    var s := Run(INITIAL, cfg, xs);
    RunInv(INITIAL, cfg, xs);
    StepInv(s, cfg, x);
    if Step(s, cfg, x).1.Delivered? && s.recipients != [] {
      var m := s.mega.value;
      MsgDoneInv(m, x.f, x.g, s.tag);
      MsgDoneRedundant(m, x.f, x.g, s.tag, cfg.redundancy, s.names, s.body);
    }
  }

  // Without forwarded recipients that is the whole redundancy target.
  lemma {:induction false} AcknowledgedMeansRedundant(cfg: Config, xs: seq<Input>, x: Input)
    ensures var s := Run(INITIAL, cfg, xs);
            match Step(s, cfg, x).1
            case Delivered(to, names, body, entries) =>
              to != [] && AllStorage(entries) ==> Redundant(entries, cfg.redundancy, s.tag, names, body)
            case _ => true
  {
    AcknowledgedMeansStored(cfg, xs, x);
    var s := Run(INITIAL, cfg, xs);
    match Step(s, cfg, x).1 {
      case Delivered(to, names, body, entries) =>
        if to != [] && AllStorage(entries) {
          CopiesOfStorage(entries);
          RedundantFewer(entries, Guaranteed(entries, cfg.redundancy), cfg.redundancy, s.tag, names, body);
        }
      case _ =>
    }
  }

  // ------------------------------------------------------------------ quota

  function Total(sizes: seq<nat>): nat { if sizes == [] then 0 else sizes[0] + Total(sizes[1..]) }

  // The usage in kilobytes is at least four for every message, and otherwise
  // off by less than one for each.
  lemma {:induction false} KbUsageBounds(sizes: seq<nat>)
    ensures 4 * |sizes| <= KbUsage(sizes)
    ensures Total(sizes) <= 1024 * KbUsage(sizes) + 1023 * |sizes|
    ensures 1024 * KbUsage(sizes) <= Total(sizes) + 4096 * |sizes|
    decreases |sizes|
  {
    if sizes != [] {
      KbUsageBounds(sizes[1..]);
    }
  }

  function Room(box: Mbox, usage: Option<seq<nat>>): int {
    if usage.None? then 0 else box.quota * 1000 - KbUsage(usage.value)
  }

  predicate Limited(box: Mbox) { box.isForward || box.quota > 0 }

  lemma {:induction false} OneRoom(s: Smtp, box: Mbox, usage: Option<seq<nat>>, faults: Faults)
    requires s.mega.Some? && AnnounceOne(s, box, usage, faults).1.None?
    ensures var s1 := AnnounceOne(s, box, usage, faults).0;
            && (s1.quotaneeded <==> s.quotaneeded && Limited(box)) && s1.recipients == s.recipients
            && (s1.quotaneeded ==> s1.kbroom == Max(Room(box, usage), s.kbroom))
  {
  }

  // There is no limit when one of the recipients has none.
  lemma {:induction false} LimitedIffAllAre(s: Smtp, i: nat, d: DataEnv)
    requires s.mega.Some? && i <= |s.recipients| && AnnounceFrom(s, i, d).1.None?
    ensures AnnounceFrom(s, i, d).0.quotaneeded <==>
            s.quotaneeded && forall j :: i <= j < |s.recipients| ==> Limited(s.recipients[j])
    decreases |s.recipients| - i
  {
    if i < |s.recipients| {
      OneRoom(s, s.recipients[i], d.usage(i), d.announces(i));
      LimitedIffAllAre(AnnounceOne(s, s.recipients[i], d.usage(i), d.announces(i)).0, i + 1, d);
    }
  }

  // Of the boxes from i on, and the room there was before them.
  ghost predicate Roomiest(boxes: seq<Mbox>, i: nat, usage: nat -> Option<seq<nat>>, before: int, room: int) {
    && room >= before
    && (forall j :: i <= j < |boxes| ==> room >= Room(boxes[j], usage(j)))
    && (room == before || exists j :: i <= j < |boxes| && room == Room(boxes[j], usage(j)))
  }

  lemma {:induction false} RoomStep(boxes: seq<Mbox>, i: nat, usage: nat -> Option<seq<nat>>, before: int, room: int)
    requires i < |boxes| && Roomiest(boxes, i + 1, usage, Max(Room(boxes[i], usage(i)), before), room)
    ensures Roomiest(boxes, i, usage, before, room)
  {
  }

  // The room for a message is otherwise that of its roomiest recipient.
  lemma {:induction false} RoomOfTheRoomiest(s: Smtp, i: nat, d: DataEnv)
    requires s.mega.Some? && i <= |s.recipients| && AnnounceFrom(s, i, d).1.None? && AnnounceFrom(s, i, d).0.quotaneeded
    ensures Roomiest(s.recipients, i, d.usage, s.kbroom, AnnounceFrom(s, i, d).0.kbroom)
    decreases |s.recipients| - i
  {
    if i < |s.recipients| {
      OneRoom(s, s.recipients[i], d.usage(i), d.announces(i));
      var s1 := AnnounceOne(s, s.recipients[i], d.usage(i), d.announces(i)).0;
      LimitedIffAllAre(s1, i + 1, d);
      RoomOfTheRoomiest(s1, i + 1, d);
      RoomStep(s.recipients, i, d.usage, s.kbroom, AnnounceFrom(s, i, d).0.kbroom);
    }
  }

  // ------------------------------------------------- what text is passed on

  // The lines that start below the room left by the quota.
  function Kept(lines: seq<Line>, quotaneeded: bool, kbroom: int): seq<Line> {
    if lines == [] then []
    else
      var n := |lines| - 1;
      Kept(lines[..n], quotaneeded, kbroom) +
      if !quotaneeded || |Concat(lines[..n])| / 1000 < kbroom then [lines[n]] else []
  }

  ghost predicate TextInv(s: Smtp) {
    s.indata ==>
      && s.databytes == |Concat(s.given)|
      && s.body == s.received + Concat(Kept(s.given, s.quotaneeded, s.kbroom))
  }

  lemma {:induction false} EatLineText(s: Smtp, line: Line, f: Faults)
    requires TextInv(s) && s.indata && s.mega.Some?
    ensures TextInv(EatLine(s, line, f))
  {
    ConcatSnoc(s.given, line);
    var given := s.given + [line];
    assert given[..|given| - 1] == s.given;
    var kept := Kept(s.given, s.quotaneeded, s.kbroom);
    ConcatSnoc(kept, line);
    assert Kept(given, s.quotaneeded, s.kbroom) == if PassedOn(s) then kept + [line] else kept;
    assert s.received + Concat(kept) + line == s.received + (Concat(kept) + line);
  }

  // None of the lines recorded in the data phase is a terminator.
  ghost predicate GivenInv(s: Smtp) {
    s.indata ==> forall i :: 0 <= i < |s.given| ==> !IsTerminator(s.given[i])
  }

  lemma {:induction false} RunGiven(s: Smtp, cfg: Config, xs: seq<Input>)
    requires GivenInv(s) && SessionInv(s, cfg.redundancy)
    ensures GivenInv(Run(s, cfg, xs))
    decreases |xs|
  {
    if xs != [] {
      StepInv(s, cfg, xs[0]);
      StepGiven(s, cfg, xs[0]);
      RunGiven(Step(s, cfg, xs[0]).0, cfg, xs[1..]);
    }
  }

  lemma {:induction false} AnnounceOneKeeps(s: Smtp, box: Mbox, usage: Option<seq<nat>>, faults: Faults)
    requires s.mega.Some?
    ensures var s1 := AnnounceOne(s, box, usage, faults).0; s1.databytes == s.databytes && s1.indata == s.indata && s1.given == s.given
  {
  }

  lemma {:induction false} AnnounceKeeps(s: Smtp, i: nat, d: DataEnv)
    requires s.mega.Some?
    ensures var s1 := AnnounceFrom(s, i, d).0; s1.databytes == s.databytes && s1.indata == s.indata && s1.given == s.given
    decreases |s.recipients| - i
  {
    if i < |s.recipients| {
      AnnounceOneKeeps(s, s.recipients[i], d.usage(i), d.announces(i));
      var (s1, err) := AnnounceOne(s, s.recipients[i], d.usage(i), d.announces(i));
      if err.None? {
        AnnounceKeeps(s1, i + 1, d);
      }
    }
  }

  lemma {:induction false} DataGiven(s: Smtp, cfg: Config, d: DataEnv)
    requires !s.indata
    ensures GivenInv(EatData(s, cfg, d).0)
  {
    if s.fromset && !(s.recipients == [] && s.mega.None?) {
      var (s1, thrown) := OpenForData(s, cfg, d);
      if !thrown {
        AnnounceKeeps(s1.(names := []), 0, d);
      }
    }
  }

  lemma {:induction false} StepGiven(s: Smtp, cfg: Config, x: Input)
    requires GivenInv(s) && SessionInv(s, cfg.redundancy)
    ensures GivenInv(Step(s, cfg, x).0)
  {
    if !s.indata && x.cmd.Data? {
      DataGiven(s, cfg, x.cmd.env);
    }
  }

  lemma {:induction false} GivenAreData(cfg: Config, xs: seq<Input>)
    ensures var s := Run(INITIAL, cfg, xs);
            s.indata ==> forall i :: 0 <= i < |s.given| ==> IsDataLine(s.given[i])
  {
    RunGiven(INITIAL, cfg, xs);
  }

  lemma {:induction false} RunText(s: Smtp, cfg: Config, xs: seq<Input>)
    requires TextInv(s) && SessionInv(s, cfg.redundancy)
    ensures TextInv(Run(s, cfg, xs))
    decreases |xs|
  {
    if xs != [] {
      StepInv(s, cfg, xs[0]);
      StepText(s, cfg, xs[0]);
      RunText(Step(s, cfg, xs[0]).0, cfg, xs[1..]);
    }
  }

  lemma {:induction false} PrepareText(s: Smtp, cfg: Config, d: DataEnv)
    requires s.mega.Some? && !s.indata && s.databytes == 0
    ensures TextInv(Prepare(s, cfg, d).0)
  {
    if !s.mega.value.degraded {
      AnnounceKeeps(s.(names := []), 0, d);
      var s1 := Prepare(s, cfg, d).0;
      assert s1.indata ==> s1.body == s1.received + "";
    }
  }

  lemma {:induction false} DataText(s: Smtp, cfg: Config, d: DataEnv)
    requires !s.indata
    ensures TextInv(EatData(s, cfg, d).0)
  {
    if s.fromset && !(s.recipients == [] && s.mega.None?) {
      var (s1, thrown) := OpenForData(s, cfg, d);
      if !thrown {
        PrepareText(s1, cfg, d);
      }
    }
  }

  lemma {:induction false} StepText(s: Smtp, cfg: Config, x: Input)
    requires TextInv(s) && (s.indata ==> s.mega.Some?)
    ensures TextInv(Step(s, cfg, x).0)
  {
    if s.indata {
      if !IsTerminator(x.line) {
        EatLineText(s, x.line, x.f);
      }
    } else if x.cmd.Data? {
      DataText(s, cfg, x.cmd.env);
    }
  }

  lemma {:induction false} KeptSnoc(front: seq<Line>, line: Line, quotaneeded: bool, kbroom: int)
    ensures var kept := Kept(front, quotaneeded, kbroom);
            Kept(front + [line], quotaneeded, kbroom) ==
            if !quotaneeded || |Concat(front)| / 1000 < kbroom then kept + [line] else kept
  {
    var lines := front + [line];
    assert lines[..|lines| - 1] == front;
  }

  // The last line was passed on.
  ghost predicate LastKept(lines: seq<Line>, quotaneeded: bool, kbroom: int) {
    lines == [] || !quotaneeded || |Concat(lines[..|lines| - 1])| / 1000 < kbroom
  }

  lemma {:induction false} KeptAll(lines: seq<Line>, quotaneeded: bool, kbroom: int)
    ensures |Concat(Kept(lines, quotaneeded, kbroom))| <= |Concat(lines)|
    ensures LastKept(lines, quotaneeded, kbroom) <==> |Concat(Kept(lines, quotaneeded, kbroom))| == |Concat(lines)|
    ensures LastKept(lines, quotaneeded, kbroom) ==> Kept(lines, quotaneeded, kbroom) == lines
  {
    if lines != [] {
      var n := |lines| - 1;
      var front, line := lines[..n], lines[n];
      assert lines == front + [line];
      KeptAll(front, quotaneeded, kbroom);
      KeptSnoc(front, line, quotaneeded, kbroom);
      ConcatSnoc(front, line);
      ConcatSnoc(Kept(front, quotaneeded, kbroom), line);
      if n > 0 {
        ConcatSnoc(front[..n - 1], front[n - 1]);
        assert front == front[..n - 1] + [front[n - 1]];
      }
    }
  }

  // The quota cut-off: at the moment of the dot the text passed on is complete,
  // the Received line and then every line of the client, if and only if the
  // quota did not apply or the last line still started below the room left.
  lemma {:induction false} CompleteIffLastLineStartedBelowTheQuota(cfg: Config, xs: seq<Input>)
    ensures var s := Run(INITIAL, cfg, xs);
            s.indata ==>
              (s.body == s.received + Concat(s.given) <==>
               s.given == [] || !s.quotaneeded || |Concat(s.given[..|s.given| - 1])| / 1000 < s.kbroom)
  {
    var s := Run(INITIAL, cfg, xs);
    RunText(INITIAL, cfg, xs);
    KeptAll(s.given, s.quotaneeded, s.kbroom);
  }

  // Both halves of the promise: a message acknowledged without forwards, whose
  // last line started below the room left, is held complete, the Received line
  // and every line of the client, by the full number of backends.
  lemma {:induction false} AcknowledgedMessageIsComplete(cfg: Config, xs: seq<Input>, x: Input)
    ensures var s := Run(INITIAL, cfg, xs);
            var reply := Step(s, cfg, x).1;
            && reply.Delivered? && reply.to != [] && AllStorage(reply.entries)
            && (s.given == [] || !s.quotaneeded || |Concat(s.given[..|s.given| - 1])| / 1000 < s.kbroom)
            ==> Redundant(reply.entries, cfg.redundancy, s.tag, reply.names, s.received + Concat(s.given))
  {
    var s := Run(INITIAL, cfg, xs);
    AcknowledgedMeansRedundant(cfg, xs, x);
    CompleteIffLastLineStartedBelowTheQuota(cfg, xs);
    RunInv(INITIAL, cfg, xs);
    StepInv(s, cfg, x);
  }

  // The message is refused only above the quota, so a message that reaches it
  // exactly loses its tail and is accepted all the same.
  lemma {:induction false} TruncatedButAccepted(s: Smtp, cfg: Config, f: Faults, g: Faults, full: Line, tail: Line)
    requires s.indata && s.mega.Some? && s.given == [] && s.databytes == 0 && s.body == s.received
    requires s.quotaneeded && s.kbroom == 1 && cfg.maxMsgKb == 0
    requires |full| == 1000 && |tail| < 1000
    ensures var s2 := EatLine(EatLine(s, full, f), tail, g);
            !TooLarge(s2, cfg) && s2.body == s2.received + full && s2.given == [full, tail]
  {
  }
}
