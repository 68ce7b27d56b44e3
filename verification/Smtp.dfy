/** SmtpSession in the source's own form: the envelope fields, the quota
    counters and the MegaTalker it creates and deletes. */
module Smtp {
  import opened Text
  import opened Disk
  import TalkerSpec
  import opened MegaSpec
  import opened SmtpSpec
  import Spec = SmtpSpec
  import Mega

  class SmtpSession {
    const cfg: Config
    var fromset: bool
    var tag: Word
    var quotaneeded: bool
    var kbroom: int
    var databytes: nat
    var esmtpkb: nat
    var recipients: seq<Mbox>
    var indata: bool
    var mega: Mega.MegaTalker?
    var names: seq<Announced>
    var received: string
    var given: seq<Line>
    var body: string

    function State(): Smtp
      reads this, mega
    {
      Smtp(fromset, tag, quotaneeded, kbroom, databytes, esmtpkb, recipients, indata,
           if mega == null then None else Some(mega.State()), names, received, given, body)
    }

    constructor (cfg: Config)
      ensures this.cfg == cfg && State() == INITIAL
    {
      this.cfg := cfg;
      fromset, tag, quotaneeded, kbroom, databytes, esmtpkb := false, "a", true, 0, 0, 0;
      recipients, indata, mega := [], false, null;
      names, received, given, body := [], "", [], "";
    }

    method RsetSession()
      modifies this
      ensures State() == ResetSession(old(State()))
    {
      quotaneeded, kbroom, databytes, fromset := true, 0, 0, false;
      recipients := [];
      mega := null;
    }

    method EatFrom(newTag: Word, sizeKb: nat) returns (reply: Reply)
      modifies this
      ensures (State(), reply) == Spec.EatFrom(old(State()), newTag, sizeKb)
    {
      if fromset {
        return Code(503);
      }
      tag, fromset, quotaneeded, kbroom, esmtpkb := newTag, true, true, 0, sizeKb;
      reply := Code(250);
    }

    method EatTo(direct: Lookup, wildcard: Lookup, relayOk: bool) returns (reply: Reply)
      modifies this, mega
      ensures (State(), reply) == Spec.EatTo(old(State()), direct, wildcard, relayOk)
      ensures mega == old(mega) || fresh(mega)
    {
      if !fromset {
        return Code(503);
      }
      var tries := [direct, wildcard];
      var found := tries[0];
      for i := 1 to 2
        invariant found == if i == 1 then direct else Resolve(direct, wildcard)
      {
        if found.Missing? {
          found := tries[i];
        }
      }
      match found {
        case TempError => reply := Code(450);
        case Missing => reply := Code(550);
        case Found(mbox) =>
          if !mbox.isForward {
            recipients := recipients + [mbox];
            return Code(250);
          }
          if mega == null {
            mega := new Mega.MegaTalker();
          }
          ghost var before := mega.entries;
          assert before + [] == before;
          var thrown := mega.AddRemote(relayOk);
          reply := if thrown then Code(450) else Code(250);
      }
    }

    method ChargeQuota(box: Mbox, usage: Option<seq<nat>>) returns (ok: bool)
      modifies this`quotaneeded, this`kbroom
      ensures match Charge(old(State()), box, usage)
              case None => !ok && State() == old(State())
              case Some(s) => ok && State() == s
    {
      if !box.isForward && box.quota <= 0 {
        quotaneeded := false;
      } else if quotaneeded {
        match usage {
          case None => return false;
          case Some(sizes) => kbroom := Max(box.quota * 1000 - KbUsage(sizes), kbroom);
        }
      }
      ok := true;
    }

    method AnnounceRecipient(box: Mbox, usage: Option<seq<nat>>, faults: Faults) returns (err: Option<nat>)
      requires mega != null
      modifies this, mega
      ensures mega == old(mega)
      ensures (State(), err) == AnnounceOne(old(State()), box, usage, faults)
    {
      var ok := ChargeQuota(box, usage);
      if !ok {
        return Some(450);
      }
      var thrown := mega.AddRecipient(box.name, faults, tag);
      names := names + [TalkerSpec.To(box.name, mega.msgnum)];
      err := if thrown then Some(450) else None;
    }

    method AnnounceAll(d: DataEnv) returns (err: Option<nat>)
      requires mega != null
      modifies this, mega
      ensures mega == old(mega)
      ensures (State(), err) == AnnounceFrom(old(State()), 0, d)
    {
      var i := 0;
      while i < |recipients|
        invariant 0 <= i <= |recipients| && mega == old(mega)
        invariant AnnounceFrom(State(), i, d) == AnnounceFrom(old(State()), 0, d)
      {
        err := AnnounceRecipient(recipients[i], d.usage(i), d.announces(i));
        if err.Some? {
          return;
        }
        i := i + 1;
      }
      err := None;
    }

    method OpenForData(d: DataEnv) returns (thrown: bool, picks: seq<nat>)
      requires !(cfg.spread.disk && cfg.spread.load)
      modifies this, mega
      ensures (State(), thrown) == Spec.OpenForData(old(State()), cfg, d.(picks := picks))
      ensures mega != null && (mega == old(mega) || fresh(mega))
    {
      thrown, picks := false, [];
      if mega == null {
        mega := new Mega.MegaTalker();
      }
      if recipients != [] {
        thrown, picks := mega.OpenStorage(d.td, cfg.spread, cfg.redundancy, d.connects, d.garbage, tag);
        assert LegalPicks(cfg, d.(picks := picks));
      } else {
        quotaneeded := false;
      }
      if !thrown {
        databytes := 0;
      }
    }

    method EatData(d: DataEnv) returns (reply: Reply, picks: seq<nat>)
      requires !(cfg.spread.disk && cfg.spread.load)
      modifies this, mega
      ensures (State(), reply) == Spec.EatData(old(State()), cfg, d.(picks := picks))
      ensures mega == old(mega) || fresh(mega)
    {
      picks := [];
      if !fromset || (recipients == [] && mega == null) {
        return Code(503), picks;
      }
      var thrown;
      thrown, picks := OpenForData(d);
      if thrown {
        return Code(450), picks;
      }
      PrepareIgnoresPicks(State(), cfg, d, picks);
      reply := PrepareData(d);
    }

    method PrepareData(d: DataEnv) returns (reply: Reply)
      requires mega != null
      modifies this, mega
      ensures mega == old(mega)
      ensures (State(), reply) == Prepare(old(State()), cfg, d)
    {
      if mega.degraded {
        return Code(450);
      }
      names := [];
      var err := AnnounceAll(d);
      if err.Some? {
        return Code(450);
      }
      reply := BeginData(d);
    }

    method BeginData(d: DataEnv) returns (reply: Reply)
      requires mega != null
      modifies this, mega
      ensures mega == old(mega)
      ensures (State(), reply) == Spec.BeginData(old(State()), cfg, d)
    {
      var thrown := mega.StartData(d.puts, tag);
      if thrown || mega.degraded {
        return Code(450);
      }
      if quotaneeded {
        if kbroom <= 0 || (esmtpkb != 0 && esmtpkb > kbroom) {
          return Code(552);
        }
        if esmtpkb != 0 && cfg.maxMsgKb != 0 && esmtpkb > cfg.maxMsgKb {
          return Code(552);
        }
      }
      indata := true;
      received, given, body := ReceivedLine(d.received), [], ReceivedLine(d.received);
      mega.MsgAddLine(received, d.receivedFaults, tag);
      reply := Code(354);
    }

    method EatDataLine(x: Input) returns (reply: Reply)
      requires indata && mega != null
      modifies this, mega
      ensures (State(), reply) ==
              if IsTerminator(x.line) then EatDot(old(State()), cfg, x) else (EatLine(old(State()), x.line, x.f), Silent)
    {
      var line := x.line;
      if !IsTerminator(line) {
        if !quotaneeded || databytes / 1000 < kbroom {
          mega.MsgAddLine(line, x.f, tag);
          body := body + line;
        }
        databytes := databytes + |line|;
        given := given + [line];
        return Silent;
      }
      indata := false;
      if quotaneeded && databytes / 1000 > kbroom {
        mega.MsgRollback(x.rf, x.rg, tag);
        reply := Refused(mega.entries);
        RsetSession();
        return;
      }
      if cfg.maxMsgKb != 0 && databytes / 1000 > cfg.maxMsgKb {
        mega.MsgRollback(x.rf, x.rg, tag);
        reply := Refused(mega.entries);
        RsetSession();
        return;
      }
      var thrown := mega.MsgDone(x.f, x.g, tag);
      if thrown {
        return Code(450);
      }
      if mega.degraded {
        mega.MsgRollback(x.rf, x.rg, tag);
        reply := Undelivered(mega.entries);
        RsetSession();
        return;
      }
      reply := Delivered(recipients, names, body, mega.entries);
      RsetSession();
    }

    // giveLine, with the meaning of the line as a command already known.
    method GiveLine(x: Input) returns (reply: Reply, picks: seq<nat>)
      requires !(cfg.spread.disk && cfg.spread.load)
      modifies this, mega
      ensures (State(), reply) ==
              Step(old(State()), cfg, if x.cmd.Data? then x.(cmd := Data(x.cmd.env.(picks := picks))) else x)
    {
      picks := [];
      if indata && mega != null {
        reply := EatDataLine(x);
        return;
      }
      match x.cmd {
        case Mail(newTag, sizeKb) => reply := EatFrom(newTag, sizeKb);
        case Rcpt(direct, wildcard, relayOk) => reply := EatTo(direct, wildcard, relayOk);
        case Data(env) => reply, picks := EatData(env);
        case Rset =>
          RsetSession();
          reply := Code(250);
        case Other(code) => reply := Code(code);
      }
    }
  }

  lemma {:induction false} AnnounceIgnoresPicks(s: Smtp, i: nat, d: DataEnv, picks: seq<nat>)
    requires s.mega.Some?
    ensures AnnounceFrom(s, i, d) == AnnounceFrom(s, i, d.(picks := picks))
    decreases |s.recipients| - i
  {
    if i < |s.recipients| {
      var (s1, err) := AnnounceOne(s, s.recipients[i], d.usage(i), d.announces(i));
      if err.None? {
        AnnounceIgnoresPicks(s1, i + 1, d, picks);
      }
    }
  }

  lemma {:induction false} PrepareIgnoresPicks(s: Smtp, cfg: Config, d: DataEnv, picks: seq<nat>)
    requires s.mega.Some?
    ensures Prepare(s, cfg, d) == Prepare(s, cfg, d.(picks := picks))
  {
    AnnounceIgnoresPicks(s.(names := []), 0, d, picks);
  }
}
