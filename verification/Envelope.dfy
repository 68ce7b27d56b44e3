/** The envelope of a transaction, told from what the client sent and what it
    was answered: every acknowledged recipient gets the message. */
module Envelope {
  import opened Text
  import opened Disk
  import opened DeliverySpec
  import opened SelectSpec
  import opened MegaSpec
  import opened SmtpSpec
  import Listed

  // What the client sent, with the answers.
  datatype Exchanged = Exchanged(cmd: Cmd, reply: Reply)

  function Replies(s: Smtp, cfg: Config, xs: seq<Input>): seq<Exchanged>
    decreases |xs|
  {
    if xs == [] then []
    else var (s1, reply) := Step(s, cfg, xs[0]); [Exchanged(xs[0].cmd, reply)] + Replies(s1, cfg, xs[1..])
  }

  // ---------------------------------------------------------- from the log

  // A 354 to DATA opens the data phase; until an answer comes, lines are text.
  predicate InText(log: seq<Exchanged>) {
    if log == [] then false
    else
      var n := |log| - 1;
      if InText(log[..n]) then log[n].reply.Silent? else log[n].cmd.Data? && log[n].reply == Code(354)
  }

  // A transaction ends with RSET, or with a verdict on the message; a 450 that
  // is no verdict of all backends leaves it open.
  predicate Ends(log: seq<Exchanged>, x: Exchanged) {
    if InText(log) then x.reply.Delivered? || x.reply.Refused? || x.reply.Undelivered? else x.cmd.Rset?
  }

  predicate Mailed(log: seq<Exchanged>, x: Exchanged) { !InText(log) && x.cmd.Mail? && x.reply == Code(250) }

  // A MAIL was accepted in the transaction.
  predicate Open(log: seq<Exchanged>) {
    if log == [] then false
    else
      var n := |log| - 1;
      !Ends(log[..n], log[n]) && (Mailed(log[..n], log[n]) || Open(log[..n]))
  }

  // The address itself if the userbase knows it, and else the wildcard, unless
  // the userbase failed.
  function BoxOf(cmd: Cmd): Option<Mbox>
    requires cmd.Rcpt?
  {
    match (cmd.direct, cmd.wildcard)
    case (Found(box), _) => Some(box)
    case (Missing, Found(box)) => Some(box)
    case _ => None
  }

  predicate Accepted(log: seq<Exchanged>, x: Exchanged) { !InText(log) && x.cmd.Rcpt? && x.reply == Code(250) }

  // The mailboxes whose RCPT was answered 250, in this order.
  function Boxes(log: seq<Exchanged>): seq<Mbox> {
    if log == [] then []
    else
      var n := |log| - 1;
      if Ends(log[..n], log[n]) then []
      else if Accepted(log[..n], log[n]) && BoxOf(log[n].cmd).Some? && !BoxOf(log[n].cmd).value.isForward
      then Boxes(log[..n]) + [BoxOf(log[n].cmd).value]
      else Boxes(log[..n])
  }

  // How many forwarded recipients were answered 250.
  function Forwards(log: seq<Exchanged>): nat {
    if log == [] then 0
    else
      var n := |log| - 1;
      if Ends(log[..n], log[n]) then 0
      else if Accepted(log[..n], log[n]) && BoxOf(log[n].cmd).Some? && BoxOf(log[n].cmd).value.isForward
      then Forwards(log[..n]) + 1
      else Forwards(log[..n])
  }

  // Index and announced size, as the accepted MAIL gave them.
  function MailOf(log: seq<Exchanged>): (Word, nat) {
    if log == [] then ("a", 0)
    else
      var n := |log| - 1;
      if Mailed(log[..n], log[n]) then (log[n].cmd.tag, log[n].cmd.sizeKb) else MailOf(log[..n])
  }

  // ------------------------------------------------------ the session agrees

  ghost function RelayCount(es: seq<Entry>): nat {
    if es == [] then 0 else RelayCount(es[..|es| - 1]) + if es[|es| - 1].link.Relay? then 1 else 0
  }

  lemma {:induction false} RelayCountIs(es: seq<Entry>)
    ensures RelayCount(es) == Relays(es)
  {
    if es != [] {
      RelayCountIs(es[..|es| - 1]);
    }
  }

  lemma {:induction false} RelaysAppend(a: seq<Entry>, b: seq<Entry>)
    ensures RelayCount(a + b) == RelayCount(a) + RelayCount(b)
    decreases |b|
  {
    if b == [] {
      assert a + b == a;
    } else {
      var n := |b| - 1;
      assert (a + b)[..|a| + n] == a + b[..n];
      RelaysAppend(a, b[..n]);
    }
  }

  lemma {:induction false} RelaysOfSame(a: seq<Entry>, b: seq<Entry>)
    requires SameLinks(a, b)
    ensures RelayCount(a) == RelayCount(b)
  {
    if a != [] {
      var n := |a| - 1;
      forall i | 0 <= i < n
        ensures SameLink(a[..n][i], b[..n][i])
      {
        assert SameLink(a[i], b[i]);
      }
      RelaysOfSame(a[..n], b[..n]);
      assert SameLink(a[n], b[n]);
    }
  }

  lemma {:induction false} NoRelaysIff(es: seq<Entry>)
    ensures RelayCount(es) == 0 <==> AllStorage(es)
  {
    if es != [] {
      var n := |es| - 1;
      NoRelaysIff(es[..n]);
      if AllStorage(es[..n]) && es[n].link.Storage? {
        forall i | 0 <= i < |es|
          ensures es[i].link.Storage?
        {
          assert i < n ==> es[..n][i] == es[i];
        }
      }
    }
  }

  lemma {:induction false} ConnectedIsStorage(td: seq<Target>, ps: seq<nat>, faults: Faults, garbage: nat -> Option<Handle>, tag: Word)
    requires forall i :: 0 <= i < |ps| ==> ps[i] < |td|
    ensures RelayCount(Connected(td, ps, faults, garbage, tag)) == 0
  {
    if ps != [] {
      var n := |ps| - 1;
      ConnectedIsStorage(td, ps[..n], faults, garbage, tag);
      var one := ConnectOne(td[ps[n]], faults(n), garbage(n), tag);
      RelaysAppend(Connected(td, ps[..n], faults, garbage, tag), one);
    }
  }

  // The envelope is as it was.
  ghost predicate SameMail(s: Smtp, s1: Smtp) {
    && s1.fromset == s.fromset && s1.recipients == s.recipients && s1.tag == s.tag && s1.esmtpkb == s.esmtpkb
    && s1.mega.Some? && (s.mega.Some? ==> RelayCount(s1.mega.value.entries) == RelayCount(s.mega.value.entries))
    && (s.mega.None? ==> RelayCount(s1.mega.value.entries) == 0)
  }

  lemma {:induction false} SameMailTwice(s: Smtp, s1: Smtp, s2: Smtp)
    requires SameMail(s, s1) && SameMail(s1, s2)
    ensures SameMail(s, s2)
  {
  }

  lemma {:induction false} AnnounceOneSame(s: Smtp, box: Mbox, usage: Option<seq<nat>>, faults: Faults)
    requires s.mega.Some?
    ensures var s1 := AnnounceOne(s, box, usage, faults).0; SameMail(s, s1) && s1.indata == s.indata
  {
    Listed.AddRecipientLinks(s.mega.value, box.name, faults, s.tag);
    RelaysOfSame(s.mega.value.entries, AddRecipient(s.mega.value, box.name, faults, s.tag).m.entries);
  }

  lemma {:induction false} AnnounceSame(s: Smtp, i: nat, d: DataEnv)
    requires s.mega.Some?
    ensures var s1 := AnnounceFrom(s, i, d).0; SameMail(s, s1) && s1.indata == s.indata
    decreases |s.recipients| - i
  {
    if i < |s.recipients| {
      AnnounceOneSame(s, s.recipients[i], d.usage(i), d.announces(i));
      var (s1, err) := AnnounceOne(s, s.recipients[i], d.usage(i), d.announces(i));
      if err.None? {
        AnnounceSame(s1, i + 1, d);
        SameMailTwice(s, s1, AnnounceFrom(s1, i + 1, d).0);
      }
    }
  }

  lemma {:induction false} BeginSame(s: Smtp, cfg: Config, d: DataEnv)
    requires s.mega.Some? && !s.indata
    ensures var (s1, reply) := BeginData(s, cfg, d); SameMail(s, s1) && s1.indata == (reply == Code(354))
  {
    var m := s.mega.value;
    var m1 := StartData(m, d.puts, s.tag).m;
    Listed.StartDataLinks(m, d.puts, s.tag);
    RelaysOfSame(m.entries, m1.entries);
    var line := ReceivedLine(d.received);
    Listed.AddLineLinks(m1, line, d.receivedFaults, s.tag);
    RelaysOfSame(m1.entries, AddLine(m1, line, d.receivedFaults, s.tag).entries);
  }

  lemma {:induction false} OpenSame(s: Smtp, cfg: Config, d: DataEnv)
    ensures var s1 := OpenForData(s, cfg, d).0; SameMail(s, s1) && s1.indata == s.indata
  {
    if s.recipients != [] {
      var m := if s.mega.None? then NEW else s.mega.value;
      var picks := if LegalPicks(cfg, d) then d.picks else [];
      ConnectedIsStorage(d.td, picks, d.connects, d.garbage, s.tag);
      RelaysAppend(m.entries, Connected(d.td, picks, d.connects, d.garbage, s.tag));
    }
  }

  lemma {:induction false} DataSame(s: Smtp, cfg: Config, d: DataEnv)
    requires !s.indata
    ensures var (s1, reply) := EatData(s, cfg, d);
            s1.indata == (reply == Code(354)) && (s1 == s || SameMail(s, s1))
  {
    if s.fromset && !(s.recipients == [] && s.mega.None?) {
      OpenSame(s, cfg, d);
      var (s1, thrown) := OpenForData(s, cfg, d);
      if !thrown && !s1.mega.value.degraded {
        var s2 := s1.(names := []);
        AnnounceSame(s2, 0, d);
        var (s3, err) := AnnounceFrom(s2, 0, d);
        if err.None? {
          BeginSame(s3, cfg, d);
        }
      }
    }
  }

  ghost function RelaysOf(s: Smtp): nat { if s.mega.Some? then RelayCount(s.mega.value.entries) else 0 }

  ghost predicate Agrees(s: Smtp, log: seq<Exchanged>) {
    && s.indata == InText(log) && s.fromset == Open(log) && s.recipients == Boxes(log)
    && (s.tag, s.esmtpkb) == MailOf(log)
    && Forwards(log) == RelaysOf(s)
    && (s.indata ==> s.mega.Some?)
  }

  lemma {:induction false} DotAgrees(s: Smtp, cfg: Config, x: Input, log: seq<Exchanged>)
    requires Agrees(s, log) && s.indata
    ensures var (s1, reply) := EatDot(s, cfg, x); Agrees(s1, log + [Exchanged(x.cmd, reply)])
    ensures EatDot(s, cfg, x).1.Delivered? ==> RelayCount(EatDot(s, cfg, x).1.entries) == Forwards(log)
  {
    var (s1, reply) := EatDot(s, cfg, x);
    assert (log + [Exchanged(x.cmd, reply)])[..|log|] == log;
    Listed.MsgDoneLinks(s.mega.value, x.f, x.g, s.tag);
    RelaysOfSame(s.mega.value.entries, MsgDone(s.mega.value, x.f, x.g, s.tag).m.entries);
  }

  // What a RCPT outside the text changes, by its answer.
  lemma {:induction false} RcptDoes(s: Smtp, direct: Lookup, wildcard: Lookup, relayOk: bool)
    ensures var (s1, reply), box := EatTo(s, direct, wildcard, relayOk), BoxOf(Rcpt(direct, wildcard, relayOk));
            && (reply == Code(250) ==> box.Some?)
            && s1.recipients == (if reply == Code(250) && !box.value.isForward then s.recipients + [box.value] else s.recipients)
            && RelaysOf(s1) == RelaysOf(s) + (if reply == Code(250) && box.value.isForward then 1 else 0)
            && s1.fromset == s.fromset && s1.indata == s.indata && s1.tag == s.tag && s1.esmtpkb == s.esmtpkb
            && (s.mega.Some? ==> s1.mega.Some?)
  {
    var m := if s.mega.None? then NEW else s.mega.value;
    RelaysAppend(m.entries, [Entry(Relay, true)]);
    assert RelayCount([Entry(Relay, true)]) == 1;
  }

  lemma {:induction false} RcptAgrees(s: Smtp, cfg: Config, x: Input, log: seq<Exchanged>)
    requires Agrees(s, log) && !s.indata && x.cmd.Rcpt?
    ensures var (s1, reply) := Step(s, cfg, x); Agrees(s1, log + [Exchanged(x.cmd, reply)])
  {
    RcptDoes(s, x.cmd.direct, x.cmd.wildcard, x.cmd.relayOk);
    var (s1, reply) := EatTo(s, x.cmd.direct, x.cmd.wildcard, x.cmd.relayOk);
    LogRcpt(log, Exchanged(x.cmd, reply));
  }

  lemma {:induction false} LogRcpt(log: seq<Exchanged>, e: Exchanged)
    requires !InText(log) && e.cmd.Rcpt? && (e.reply == Code(250) ==> BoxOf(e.cmd).Some?)
    ensures var box, more := BoxOf(e.cmd), log + [e];
            && !InText(more) && Open(more) == Open(log) && MailOf(more) == MailOf(log)
            && Boxes(more) == (if e.reply == Code(250) && !box.value.isForward then Boxes(log) + [box.value] else Boxes(log))
            && Forwards(more) == Forwards(log) + (if e.reply == Code(250) && box.value.isForward then 1 else 0)
  {
    assert (log + [e])[..|log|] == log;
  }

  lemma {:induction false} StepAgrees(s: Smtp, cfg: Config, x: Input, log: seq<Exchanged>)
    requires Agrees(s, log)
    ensures var (s1, reply) := Step(s, cfg, x); Agrees(s1, log + [Exchanged(x.cmd, reply)])
  {
    var (s1, reply) := Step(s, cfg, x);
    assert (log + [Exchanged(x.cmd, reply)])[..|log|] == log;
    if s.indata {
      if IsTerminator(x.line) {
        DotAgrees(s, cfg, x, log);
      } else {
        Listed.AddLineLinks(s.mega.value, x.line, x.f, s.tag);
        RelaysOfSame(s.mega.value.entries, AddLine(s.mega.value, x.line, x.f, s.tag).entries);
      }
    } else if x.cmd.Data? {
      DataSame(s, cfg, x.cmd.env);
    } else if x.cmd.Rcpt? {
      RcptAgrees(s, cfg, x, log);
    }
  }

  lemma {:induction false} RunAgrees(s: Smtp, cfg: Config, xs: seq<Input>, log: seq<Exchanged>)
    requires Agrees(s, log)
    ensures Agrees(Run(s, cfg, xs), log + Replies(s, cfg, xs))
    decreases |xs|
  {
    if xs == [] {
      assert log + [] == log;
    } else {
      var (s1, reply) := Step(s, cfg, xs[0]);
      var e := Exchanged(xs[0].cmd, reply);
      StepAgrees(s, cfg, xs[0], log);
      RunAgrees(s1, cfg, xs[1..], log + [e]);
      assert log + ([e] + Replies(s1, cfg, xs[1..])) == log + [e] + Replies(s1, cfg, xs[1..]);
    }
  }

  lemma {:induction false} EveryRunAgrees(cfg: Config, xs: seq<Input>)
    ensures Agrees(Run(INITIAL, cfg, xs), Replies(INITIAL, cfg, xs))
  {
    RunAgrees(INITIAL, cfg, xs, []);
    assert [] + Replies(INITIAL, cfg, xs) == Replies(INITIAL, cfg, xs);
  }

  // ----------------------------------------------------------- the promises

  // In every run the transaction's recipients are exactly the mailboxes whose
  // RCPT was answered 250, in this order, each as often as it was.
  lemma {:induction false} RecipientsAreTheAccepted(cfg: Config, xs: seq<Input>)
    ensures var s, log := Run(INITIAL, cfg, xs), Replies(INITIAL, cfg, xs);
            && s.recipients == Boxes(log) && s.fromset == Open(log) && s.indata == InText(log)
            && (s.tag, s.esmtpkb) == MailOf(log)
  {
    EveryRunAgrees(cfg, xs);
  }

  // The message is held for each of the mailboxes under its own name: in as
  // many groups as the target asks for beside the forwards, and by all
  // backends when there are none.
  ghost predicate EveryoneHasIt(log: seq<Exchanged>, cfg: Config, reply: Reply)
    requires reply.Delivered?
  {
    var boxes, tag := Boxes(log), MailOf(log).0;
    && reply.to == boxes && |reply.names| == |boxes|
    && (forall i :: 0 <= i < |boxes| ==> reply.names[i].mbox == boxes[i].name)
    && (boxes != [] ==>
          var n := if Forwards(log) < cfg.redundancy then cfg.redundancy - Forwards(log) else 1;
          Redundant(Copies(reply.entries), n, tag, reply.names, reply.body))
    && (boxes != [] && Forwards(log) == 0 ==>
          Redundant(reply.entries, cfg.redundancy, tag, reply.names, reply.body))
  }

  lemma {:induction false} DeliveredToAll(s: Smtp, cfg: Config, reply: Reply, log: seq<Exchanged>)
    requires Agrees(s, log) && reply.Delivered? && Fulfilled(s, cfg, reply) && RelayCount(reply.entries) == Forwards(log)
    requires reply.to != [] && AllStorage(reply.entries) ==> Redundant(reply.entries, cfg.redundancy, s.tag, reply.names, reply.body)
    ensures EveryoneHasIt(log, cfg, reply)
  {
    NoRelaysIff(reply.entries);
    RelayCountIs(reply.entries);
  }

  // In every run, when the message is acknowledged, every mailbox whose RCPT
  // was answered 250 in this transaction has it.
  lemma {:induction false} EveryAcceptedRecipientHasIt(cfg: Config, xs: seq<Input>, x: Input)
    ensures var reply := Step(Run(INITIAL, cfg, xs), cfg, x).1;
            reply.Delivered? ==> EveryoneHasIt(Replies(INITIAL, cfg, xs), cfg, reply)
  {
    var s, log := Run(INITIAL, cfg, xs), Replies(INITIAL, cfg, xs);
    EveryRunAgrees(cfg, xs);
    RunInv(INITIAL, cfg, xs);
    StepInv(s, cfg, x);
    AcknowledgedMeansStored(cfg, xs, x);
    AcknowledgedMeansRedundant(cfg, xs, x);
    if Step(s, cfg, x).1.Delivered? {
      DotAgrees(s, cfg, x, log);
      DeliveredToAll(s, cfg, Step(s, cfg, x).1, log);
    }
  }

  // In every run: MAIL is accepted once in a transaction; RCPT is accepted
  // after it, when the userbase knows the address or its wildcard and, for a
  // forward, the relay can be reached; otherwise the answer tells which.
  lemma {:induction false} EnvelopeAnswers(cfg: Config, xs: seq<Input>, x: Input)
    ensures var log, reply := Replies(INITIAL, cfg, xs), Step(Run(INITIAL, cfg, xs), cfg, x).1;
            !InText(log) ==>
              match x.cmd
              case Mail(_, _) => reply == Code(if Open(log) then 503 else 250)
              case Rcpt(direct, wildcard, relayOk) =>
                reply == Code(
                  if !Open(log) then 503
                  else if BoxOf(x.cmd).Some? then (if BoxOf(x.cmd).value.isForward && !relayOk then 450 else 250)
                  else if direct.Missing? && wildcard.Missing? then 550
                  else 450)
              case Data(_) => !Open(log) || (Boxes(log) == [] && Run(INITIAL, cfg, xs).mega.None?) ==> reply == Code(503)
              case Rset => reply == Code(250)
              case Other(code) => reply == Code(code)
  {
    EveryRunAgrees(cfg, xs);
  }
}
