/** The limits on a message: what DATA and the final dot are answered, told
    from the accepted recipients and the lines of the client. */
module Verdicts {
  import opened Text
  import opened Disk
  import opened DeliverySpec
  import BackendSpec
  import TalkerSpec
  import SelectSpec
  import opened MegaSpec
  import opened SmtpSpec
  import opened Envelope

  // ---------------------------------------------------------------- kilobytes

  // The usage counts for each message the whole kilobytes of its size, and
  // four at least.
  ghost predicate Kilobytes(size: nat, k: nat) {
    && 4 <= k && (1024 * k <= size || k == 4) && size < 1024 * (k + 1)
  }

  lemma {:induction false} UsageIs(sizes: seq<nat>) returns (ks: seq<nat>)
    ensures |ks| == |sizes| && Total(ks) == KbUsage(sizes)
    ensures forall i :: 0 <= i < |sizes| ==> Kilobytes(sizes[i], ks[i])
    decreases |sizes|
  {
    if sizes == [] {
      ks := [];
    } else {
      var rest := UsageIs(sizes[1..]);
      ks := [Max(4, sizes[0] / 1024)] + rest;
      assert ks[1..] == rest;
      forall i | 0 <= i < |sizes|
        ensures Kilobytes(sizes[i], ks[i])
      {
        if i > 0 {
          assert sizes[1..][i - 1] == sizes[i];
        }
      }
    }
  }

  // ------------------------------------------------------ before any DATA

  // No DATA came since the transaction, or the one before it, ended.
  predicate NoDataYet(log: seq<Exchanged>) {
    if log == [] then true
    else
      var n := |log| - 1;
      || Ends(log[..n], log[n]) || Mailed(log[..n], log[n])
      || (NoDataYet(log[..n]) && (InText(log[..n]) || !log[n].cmd.Data?))
  }

  // No quota was looked at, and there are no connections but to relays.
  ghost predicate Uncharged(s: Smtp) {
    s.quotaneeded && s.kbroom == 0 && (s.mega.Some? ==> OnlyRelays(s.mega.value.entries) && !s.mega.value.degraded)
  }

  ghost predicate OnlyRelays(es: seq<Entry>) { forall i :: 0 <= i < |es| ==> es[i] == Entry(Relay, true) }

  lemma {:induction false} StepUncharged(s: Smtp, cfg: Config, x: Input)
    requires Uncharged(s) && !s.indata && !x.cmd.Data?
    ensures Uncharged(Step(s, cfg, x).0) && !Step(s, cfg, x).0.indata
  {
  }

  // The end of a transaction and an accepted MAIL start over.
  lemma {:induction false} StartsOver(s: Smtp, cfg: Config, x: Input, log: seq<Exchanged>)
    requires Agrees(s, log) && (!s.fromset ==> s.mega.None?)
    requires Ends(log, Exchanged(x.cmd, Step(s, cfg, x).1)) || Mailed(log, Exchanged(x.cmd, Step(s, cfg, x).1))
    ensures Uncharged(Step(s, cfg, x).0) && !Step(s, cfg, x).0.indata
  {
  }

  ghost predicate NotCharged(s: Smtp, log: seq<Exchanged>) {
    (NoDataYet(log) ==> Uncharged(s) && !s.indata) && (!s.fromset ==> s.mega.None?)
  }

  lemma {:induction false} ClosedHasNone(s: Smtp, cfg: Config, x: Input)
    requires !s.fromset ==> s.mega.None?
    ensures var s1 := Step(s, cfg, x).0; !s1.fromset ==> s1.mega.None?
  {
    if !(s.indata && s.mega.Some?) && x.cmd.Data? && s.fromset {
      DataKeepsOpen(s, cfg, x.cmd.env);
    }
  }

  lemma {:induction false} DataKeepsOpen(s: Smtp, cfg: Config, d: DataEnv)
    requires s.fromset
    ensures EatData(s, cfg, d).0.fromset
  {
    OpenSame(s, cfg, d);
    AnnounceSame(OpenForData(s, cfg, d).0.(names := []), 0, d);
  }

  lemma {:induction false} StepNotCharged(s: Smtp, cfg: Config, x: Input, log: seq<Exchanged>)
    requires Agrees(s, log) && NotCharged(s, log)
    ensures NotCharged(Step(s, cfg, x).0, log + [Exchanged(x.cmd, Step(s, cfg, x).1)])
  {
    var e := Exchanged(x.cmd, Step(s, cfg, x).1);
    assert (log + [e])[..|log|] == log;
    ClosedHasNone(s, cfg, x);
    if Ends(log, e) || Mailed(log, e) {
      StartsOver(s, cfg, x, log);
    } else if NoDataYet(log) && !x.cmd.Data? {
      StepUncharged(s, cfg, x);
    }
  }

  lemma {:induction false} NothingCharged(s: Smtp, cfg: Config, xs: seq<Input>, log: seq<Exchanged>)
    requires Agrees(s, log) && NotCharged(s, log)
    ensures NotCharged(Run(s, cfg, xs), log + Replies(s, cfg, xs))
    decreases |xs|
  {
    if xs == [] {
      assert log + [] == log;
    } else {
      var (s1, reply) := Step(s, cfg, xs[0]);
      var e := Exchanged(xs[0].cmd, reply);
      StepAgrees(s, cfg, xs[0], log);
      StepNotCharged(s, cfg, xs[0], log);
      NothingCharged(s1, cfg, xs[1..], log + [e]);
      assert log + ([e] + Replies(s1, cfg, xs[1..])) == log + [e] + Replies(s1, cfg, xs[1..]);
    }
  }

  // ------------------------------------------------------------ the announcing

  lemma {:induction false} AnnounceSizes(s: Smtp, i: nat, d: DataEnv)
    requires s.mega.Some?
    ensures AnnounceFrom(s, i, d).0.databytes == s.databytes && AnnounceFrom(s, i, d).0.given == s.given
  {
    AnnounceKeeps(s, i, d);
  }

  // A message is limited when every recipient's mailbox has a quota, by the
  // room of the roomiest of them, if there is any; forwards have none.
  ghost predicate LimitIs(boxes: seq<Mbox>, usage: nat -> Option<seq<nat>>, limited: bool, room: int) {
    && (limited <==> boxes != [] && forall j :: 0 <= j < |boxes| ==> boxes[j].quota > 0)
    && (limited ==> Roomiest(boxes, 0, usage, 0, room))
  }

  // Refused before its text: there is no room, or the announced size exceeds
  // the room or the maximum.
  predicate NoRoomFor(size: nat, room: int, maxMsgKb: nat) {
    room <= 0 || (size > 0 && (size > room || (maxMsgKb > 0 && size > maxMsgKb)))
  }

  lemma {:induction false} BoxesAreNoForwards(log: seq<Exchanged>)
    ensures forall j :: 0 <= j < |Boxes(log)| ==> !Boxes(log)[j].isForward
  {
    if log != [] {
      BoxesAreNoForwards(log[..|log| - 1]);
    }
  }

  lemma {:induction false} DataLimit(s: Smtp, cfg: Config, d: DataEnv)
    requires !s.indata && Uncharged(s) && forall j :: 0 <= j < |s.recipients| ==> !s.recipients[j].isForward
    requires EatData(s, cfg, d).1 == Code(354) || EatData(s, cfg, d).1 == Code(552)
    ensures var (s1, reply) := EatData(s, cfg, d);
            && LimitIs(s.recipients, d.usage, s1.quotaneeded, s1.kbroom)
            && (reply == Code(552) <==> s1.quotaneeded && NoRoomFor(s.esmtpkb, s1.kbroom, cfg.maxMsgKb))
            && (reply == Code(354) ==> s1.databytes == 0 && s1.given == [] && s1.received == ReceivedLine(d.received) && s1.body == s1.received)
  {
    var s1 := OpenForData(s, cfg, d).0;
    var s2 := s1.(names := []);
    var s3 := AnnounceFrom(s2, 0, d).0;
    OpenSame(s, cfg, d);
    AnnounceSame(s2, 0, d);
    AnnounceSizes(s2, 0, d);
    LimitedIffAllAre(s2, 0, d);
    if s3.quotaneeded {
      RoomOfTheRoomiest(s2, 0, d);
    }
    LimitOfBoxes(s, s2, s3, d);
  }

  lemma {:induction false} LimitOfBoxes(s: Smtp, s2: Smtp, s3: Smtp, d: DataEnv)
    requires s2.recipients == s.recipients && s2.kbroom == 0 && (s2.quotaneeded <==> s.recipients != [])
    requires forall j :: 0 <= j < |s.recipients| ==> !s.recipients[j].isForward
    requires s3.quotaneeded <==> s2.quotaneeded && forall j :: 0 <= j < |s2.recipients| ==> Limited(s2.recipients[j])
    requires s3.quotaneeded ==> Roomiest(s2.recipients, 0, d.usage, s2.kbroom, s3.kbroom)
    ensures LimitIs(s.recipients, d.usage, s3.quotaneeded, s3.kbroom)
  {
    if s.recipients != [] && forall j :: 0 <= j < |s.recipients| ==> s.recipients[j].quota > 0 {
      assert forall j :: 0 <= j < |s2.recipients| ==> Limited(s2.recipients[j]);
    }
  }

  // ------------------------------------------------------------ the text

  function LinesOf(ys: seq<Input>): seq<Line> { seq(|ys|, i requires 0 <= i < |ys| => ys[i].line) }

  lemma {:induction false} TextIs(s: Smtp, cfg: Config, ys: seq<Input>)
    requires s.indata && s.mega.Some? && s.databytes == |Concat(s.given)|
    requires forall i :: 0 <= i < |ys| ==> !IsTerminator(ys[i].line)
    ensures var s1 := Run(s, cfg, ys);
            && s1.indata && s1.mega.Some? && s1.given == s.given + LinesOf(ys) && s1.databytes == |Concat(s1.given)|
            && s1.quotaneeded == s.quotaneeded && s1.kbroom == s.kbroom && s1.received == s.received
    decreases |ys|
  {
    if ys == [] {
      assert s.given + [] == s.given;
    } else {
      ConcatSnoc(s.given, ys[0].line);
      var s1 := Step(s, cfg, ys[0]).0;
      TextIs(s1, cfg, ys[1..]);
      assert LinesOf(ys) == [ys[0].line] + LinesOf(ys[1..]);
      assert s1.given + LinesOf(ys[1..]) == s.given + LinesOf(ys);
    }
  }

  // ----------------------------------------------------------- the promises

  // In every run, the first DATA of a transaction that no backend fails is
  // answered 552 exactly when the accepted mailboxes all have quotas, and the
  // roomiest has no room for the announced size.
  lemma {:induction false} DataIsRefusedIff(cfg: Config, xs: seq<Input>, x: Input)
    requires x.cmd.Data? && !InText(Replies(INITIAL, cfg, xs)) && NoDataYet(Replies(INITIAL, cfg, xs))
    requires var reply := Step(Run(INITIAL, cfg, xs), cfg, x).1; reply == Code(354) || reply == Code(552)
    ensures var log, (s1, reply) := Replies(INITIAL, cfg, xs), Step(Run(INITIAL, cfg, xs), cfg, x);
            && LimitIs(Boxes(log), x.cmd.env.usage, s1.quotaneeded, s1.kbroom)
            && (reply == Code(552) <==> s1.quotaneeded && NoRoomFor(MailOf(log).1, s1.kbroom, cfg.maxMsgKb))
  {
    EveryRunAgrees(cfg, xs);
    FirstData(cfg, xs);
    BoxesAreNoForwards(Replies(INITIAL, cfg, xs));
    DataLimit(Run(INITIAL, cfg, xs), cfg, x.cmd.env);
  }

  lemma {:induction false} FirstData(cfg: Config, xs: seq<Input>)
    ensures NoDataYet(Replies(INITIAL, cfg, xs)) ==> Uncharged(Run(INITIAL, cfg, xs))
  {
    NothingCharged(INITIAL, cfg, xs, []);
    assert [] + Replies(INITIAL, cfg, xs) == Replies(INITIAL, cfg, xs);
  }

  lemma {:induction false} DotVerdict(s: Smtp, cfg: Config, dot: Input)
    requires s.indata && s.mega.Some? && IsTerminator(dot.line) && TextInv(s)
    ensures var kb, reply := |Concat(s.given)| / 1000, Step(s, cfg, dot).1;
            && (reply.Refused? <==> (s.quotaneeded && kb > s.kbroom) || (cfg.maxMsgKb > 0 && kb > cfg.maxMsgKb))
            && (reply.Refused? || reply.Delivered? || reply.Undelivered? || reply == Code(450))
            && (reply.Delivered? ==> reply.body == s.received + Concat(Kept(s.given, s.quotaneeded, s.kbroom)))
  {
  }

  lemma {:induction false} TextStarts(s: Smtp, cfg: Config, x: Input, ys: seq<Input>)
    requires SessionInv(s, cfg.redundancy) && !s.indata && Uncharged(s) && forall j :: 0 <= j < |s.recipients| ==> !s.recipients[j].isForward
    requires x.cmd.Data? && Step(s, cfg, x).1 == Code(354)
    requires forall i :: 0 <= i < |ys| ==> !IsTerminator(ys[i].line)
    ensures var s1, s2 := Step(s, cfg, x).0, Run(Step(s, cfg, x).0, cfg, ys);
            && LimitIs(s.recipients, x.cmd.env.usage, s1.quotaneeded, s1.kbroom)
            && s2.indata && s2.mega.Some? && TextInv(s2) && s2.given == LinesOf(ys)
            && s2.quotaneeded == s1.quotaneeded && s2.kbroom == s1.kbroom
            && s2.received == ReceivedLine(x.cmd.env.received)
  {
    DataLimit(s, cfg, x.cmd.env);
    var s1 := Step(s, cfg, x).0;
    DataSame(s, cfg, x.cmd.env);
    TextIs(s1, cfg, ys);
    assert s1.given + LinesOf(ys) == LinesOf(ys);
    StepInv(s, cfg, x);
    assert s1.body == s1.received + Concat(Kept(s1.given, s1.quotaneeded, s1.kbroom));
    RunText(s1, cfg, ys);
  }

  // And after the 354: the dot is answered 552 exactly when the lines of the
  // client, in whole kilobytes, exceed the room or the maximum; and what an
  // acknowledged message holds is the Received line and those of these lines
  // that start below the room.
  lemma {:induction false} DotIsRefusedIff(cfg: Config, xs: seq<Input>, x: Input, ys: seq<Input>, dot: Input)
    requires x.cmd.Data? && !InText(Replies(INITIAL, cfg, xs)) && NoDataYet(Replies(INITIAL, cfg, xs))
    requires Step(Run(INITIAL, cfg, xs), cfg, x).1 == Code(354)
    requires (forall i :: 0 <= i < |ys| ==> !IsTerminator(ys[i].line)) && IsTerminator(dot.line)
    ensures var s1 := Step(Run(INITIAL, cfg, xs), cfg, x).0;
            var kb, reply := |Concat(LinesOf(ys))| / 1000, Step(Run(s1, cfg, ys), cfg, dot).1;
            && LimitIs(Boxes(Replies(INITIAL, cfg, xs)), x.cmd.env.usage, s1.quotaneeded, s1.kbroom)
            && (reply.Refused? <==> (s1.quotaneeded && kb > s1.kbroom) || (cfg.maxMsgKb > 0 && kb > cfg.maxMsgKb))
            && (reply.Refused? || reply.Delivered? || reply.Undelivered? || reply == Code(450))
            && (reply.Delivered? ==>
                  reply.body == "Received: from " + x.cmd.env.received + Concat(Kept(LinesOf(ys), s1.quotaneeded, s1.kbroom)))
  {
    EveryRunAgrees(cfg, xs);
    FirstData(cfg, xs);
    BoxesAreNoForwards(Replies(INITIAL, cfg, xs));
    RunInv(INITIAL, cfg, xs);
    var s := Run(INITIAL, cfg, xs);
    TextStarts(s, cfg, x, ys);
    DotVerdict(Run(Step(s, cfg, x).0, cfg, ys), cfg, dot);
  }

  // A line gets through where nothing fails.
  lemma {:induction false} LineGoes(m: Mega, line: string, faults: Faults, tag: Word, redundancy: nat)
    requires !m.degraded && Inv(m, redundancy, tag) && Feeding(m, "") && forall i: nat :: faults(i).net.Fine?
    ensures var m1 := AddLine(m, line, faults, tag); !m1.degraded && forall i :: 0 <= i < |m1.entries| ==> m1.entries[i].ok
  {
    var m1 := AddLine(m, line, faults, tag);
    forall i | 0 <= i < |m1.entries|
      ensures m1.entries[i].ok
    {
      assert m1.entries[i] == Line1(m.entries[i], line, faults(i), tag);
      assert faults(i).net.Fine?;
    }
  }

  lemma {:induction false} BeginsWhole(s: Smtp, cfg: Config, d: DataEnv)
    requires s.mega.Some? && Inv(s.mega.value, cfg.redundancy, s.tag) && BeginData(s, cfg, d).1 == Code(354)
    requires forall i: nat :: d.receivedFaults(i).net.Fine?
    ensures var m := BeginData(s, cfg, d).0.mega;
            m.Some? && !m.value.degraded && m.value.entries != [] && forall i :: 0 <= i < |m.value.entries| ==> m.value.entries[i].ok
  {
    var m1 := StartData(s.mega.value, d.puts, s.tag).m;
    StartDataInv(s.mega.value, d.puts, s.tag, cfg.redundancy, []);
    LineGoes(m1, ReceivedLine(d.received), d.receivedFaults, s.tag, cfg.redundancy);
  }

  // DATA is answered 354 only when there is a connection, and every one took all recipients and
  // started its data: then nothing is degraded unless the Received line is
  // lost on the way.
  lemma {:induction false} GoAheadMeansWhole(cfg: Config, xs: seq<Input>, x: Input)
    requires x.cmd.Data? && !InText(Replies(INITIAL, cfg, xs))
    requires Step(Run(INITIAL, cfg, xs), cfg, x).1 == Code(354)
    requires forall i: nat :: x.cmd.env.receivedFaults(i).net.Fine?
    ensures var m := Step(Run(INITIAL, cfg, xs), cfg, x).0.mega;
            m.Some? && !m.value.degraded && m.value.entries != [] && forall i :: 0 <= i < |m.value.entries| ==> m.value.entries[i].ok
  {
    EveryRunAgrees(cfg, xs);
    RunInv(INITIAL, cfg, xs);
    DataWhole(Run(INITIAL, cfg, xs), cfg, x.cmd.env);
  }

  lemma {:induction false} DataWhole(s: Smtp, cfg: Config, d: DataEnv)
    requires SessionInv(s, cfg.redundancy) && !s.indata && EatData(s, cfg, d).1 == Code(354)
    requires forall i: nat :: d.receivedFaults(i).net.Fine?
    ensures var m := EatData(s, cfg, d).0.mega;
            m.Some? && !m.value.degraded && m.value.entries != [] && forall i :: 0 <= i < |m.value.entries| ==> m.value.entries[i].ok
  {
    OpenForDataInv(s, cfg, d);
    var s2 := OpenForData(s, cfg, d).0.(names := []);
    assert s2.recipients[..0] == [];
    AnnounceInv(s2, 0, d, cfg.redundancy);
    BeginsWhole(AnnounceFrom(s2, 0, d).0, cfg, d);
  }

  // ---------------------------------------------------- too few connections

  // The backend of this connection was asked for nothing.
  ghost predicate Unasked(en: Entry) { en.link.Storage? ==> en.link.t.said == [] && !en.link.t.inmsg }

  ghost predicate AllUnasked(es: seq<Entry>) { forall i :: 0 <= i < |es| ==> Unasked(es[i]) }

  lemma {:induction false} ConnectedUnasked(td: seq<SelectSpec.Target>, ps: seq<nat>, faults: Faults, garbage: nat -> Option<Handle>, tag: Word)
    requires forall i :: 0 <= i < |ps| ==> ps[i] < |td|
    ensures AllUnasked(Connected(td, ps, faults, garbage, tag))
  {
    if ps != [] {
      var n := |ps| - 1;
      ConnectedUnasked(td, ps[..n], faults, garbage, tag);
      var front, one := Connected(td, ps[..n], faults, garbage, tag), ConnectOne(td[ps[n]], faults(n), garbage(n), tag);
      assert |one| <= 1 && (one != [] ==> Unasked(one[0]));
      UnaskedAppend(front, one);
    }
  }

  lemma {:induction false} UnaskedAppend(a: seq<Entry>, b: seq<Entry>)
    requires AllUnasked(a) && AllUnasked(b)
    ensures AllUnasked(a + b)
  {
  }

  // In every run, the first DATA of a transaction that finds fewer backends
  // than the target asks for is answered 450, and none of them is asked for
  // anything.
  lemma {:induction false} TooFewAreNotAsked(cfg: Config, xs: seq<Input>, x: Input)
    requires x.cmd.Data? && !InText(Replies(INITIAL, cfg, xs)) && NoDataYet(Replies(INITIAL, cfg, xs))
    requires Open(Replies(INITIAL, cfg, xs)) && Boxes(Replies(INITIAL, cfg, xs)) != []
    requires var m := Step(Run(INITIAL, cfg, xs), cfg, x).0.mega; m.Some? ==> |m.value.entries| < cfg.redundancy
    ensures var (s1, reply) := Step(Run(INITIAL, cfg, xs), cfg, x);
            reply == Code(450) && s1.mega.Some? && AllUnasked(s1.mega.value.entries)
  {
    EveryRunAgrees(cfg, xs);
    FirstData(cfg, xs);
    FewNotAsked(Run(INITIAL, cfg, xs), cfg, x.cmd.env);
  }

  lemma {:induction false} FewNotAsked(s: Smtp, cfg: Config, d: DataEnv)
    requires !s.indata && s.fromset && s.recipients != [] && Uncharged(s)
    requires var m := EatData(s, cfg, d).0.mega; m.Some? ==> |m.value.entries| < cfg.redundancy
    ensures var (s1, reply) := EatData(s, cfg, d);
            reply == Code(450) && s1.mega.Some? && AllUnasked(s1.mega.value.entries)
  {
    var m := if s.mega.None? then NEW else s.mega.value;
    var picks := if LegalPicks(cfg, d) then d.picks else [];
    var added := Connected(d.td, picks, d.connects, d.garbage, s.tag);
    ConnectedUnasked(d.td, picks, d.connects, d.garbage, s.tag);
    UnaskedAppend(m.entries, added);
    DataKeepsCount(s, cfg, d);
  }

  // DATA changes the number of connections only by opening them.
  lemma {:induction false} DataKeepsCount(s: Smtp, cfg: Config, d: DataEnv)
    requires s.fromset && s.recipients != []
    ensures EatData(s, cfg, d).0.mega.Some? &&
            |EatData(s, cfg, d).0.mega.value.entries| == |OpenForData(s, cfg, d).0.mega.value.entries|
  {
    var s1 := OpenForData(s, cfg, d).0;
    AnnounceCount(s1.(names := []), 0, d);
  }

  lemma {:induction false} AnnounceCount(s: Smtp, i: nat, d: DataEnv)
    requires s.mega.Some?
    ensures |AnnounceFrom(s, i, d).0.mega.value.entries| == |s.mega.value.entries|
    decreases |s.recipients| - i
  {
    if i < |s.recipients| {
      var (s1, err) := AnnounceOne(s, s.recipients[i], d.usage(i), d.announces(i));
      assert |s1.mega.value.entries| == |s.mega.value.entries|;
      if err.None? {
        AnnounceCount(s1, i + 1, d);
      }
    }
  }

  // ------------------------------------------------- the verdict of the commits

  // The connection takes the end of the message.
  ghost predicate Takes(en: Entry, f: Fault, g: Fault, tag: Word) {
    en.ok && match en.link
             case Relay => f.net.Fine?
             case Storage(_, t) => TalkerSpec.MsgDone(t, f, g, tag).1
  }

  ghost predicate TakesAt(es: seq<Entry>, x: Input, tag: Word, i: nat) { i < |es| && Takes(es[i], x.f(i), x.g(i), tag) }

  // In every run, a dot that is not refused is answered 250 when all
  // connections take it and none was lost before, 450 with a rollback when
  // some do, and 450 with the transaction left open when none does.
  lemma {:induction false} DotIsAnsweredBy(cfg: Config, xs: seq<Input>, dot: Input)
    requires var s := Run(INITIAL, cfg, xs); s.indata && s.mega.Some? && IsTerminator(dot.line) && !TooLarge(s, cfg)
    ensures var s := Run(INITIAL, cfg, xs);
            var es, (s1, reply) := s.mega.value.entries, Step(s, cfg, dot);
            && (reply == Code(450) <==> forall i: nat :: !TakesAt(es, dot, s.tag, i))
            && (reply == Code(450) ==> s1.mega.Some? && s1.recipients == s.recipients && s1.fromset == s.fromset)
            && (reply.Delivered? <==>
                  && !s.mega.value.degraded && es != [] && forall i: nat :: i < |es| ==> TakesAt(es, dot, s.tag, i))
            && (reply.Delivered? || reply.Undelivered? || reply == Code(450))
            && (reply != Code(450) ==> s1.mega.None? && s1.recipients == [] && !s1.fromset)
  {
    var s := Run(INITIAL, cfg, xs);
    RunInv(INITIAL, cfg, xs);
    DotByCommits(s.mega.value, dot, s.tag, cfg.redundancy);
  }

  lemma {:induction false} DotByCommits(m: Mega, x: Input, tag: Word, redundancy: nat)
    requires Inv(m, redundancy, tag)
    ensures var r := MsgDone(m, x.f, x.g, tag);
            && (r.thrown <==> forall i: nat :: !TakesAt(m.entries, x, tag, i))
            && (!r.m.degraded <==> !m.degraded && forall i: nat :: i < |m.entries| ==> TakesAt(m.entries, x, tag, i))
  {
    var r := MsgDone(m, x.f, x.g, tag);
    forall i: nat | i < |m.entries|
      ensures r.m.entries[i].ok <==> TakesAt(m.entries, x, tag, i)
    {
      assert r.m.entries[i] == Done1(m.entries[i], x.f(i), x.g(i), tag);
    }
    if !r.m.degraded {
      forall i: nat | i < |m.entries|
        ensures TakesAt(m.entries, x, tag, i)
      {
        assert m.entries[i].ok && !Lost(m.entries, r.m.entries);
      }
    }
  }

  // ------------------------------------------------------------ the rollback

  // The backend holds nothing of the message any more, and is ready for
  // another.
  ghost predicate RolledBack(en: Entry, tag: Word) {
    en.link.Storage? && !en.link.t.broken ==>
      && en.link.t.peer.mode.Blank? && en.link.t.peer.store.p.filenames == []
      && TalkerSpec.NoneCarries(en.link.t.peer.store.d, tag)
  }

  lemma {:induction false} TalkerRollsBack(t: TalkerSpec.Talker, f: Fault, g: Fault, tag: Word, top: nat)
    requires TalkerSpec.Good(t, tag, top) && t.inmsg && (t.broken || t.peer.mode.InData?) && f.net.Fine? && g.net.Fine?
    ensures var t1 := TalkerSpec.MsgRollback(t, f, g, tag);
            t1.broken || (t1.peer.mode.Blank? && t1.peer.store.p.filenames == [] && TalkerSpec.NoneCarries(t1.peer.store.d, tag))
  {
    if !t.broken {
      var s := TalkerSpec.Settle(t.peer, f.found, tag);
      BackendSpec.DotLine(s, f.e);
      TalkerSpec.DotMatches(t, f, tag, top);
      var t1 := TalkerSpec.Exchange(t, ".\n", f, tag).0;
      TalkerSpec.SettleMatches(t1, g.found, tag, top);
      var s1 := TalkerSpec.Settle(t1.peer, g.found, tag);
      BackendSpec.RollbackLineIsRollback(s1, g.e);
      assert forall p :: p in s1.store.d.names && TalkerSpec.Carries(p, tag) ==> p in Range(s1.store.p.filenames);
    }
  }

  // In every run, a message refused at the dot while no connection was lost is
  // rolled back on every backend that the rollback reaches.
  lemma {:induction false} RefusedIsRolledBack(cfg: Config, xs: seq<Input>, dot: Input)
    requires Step(Run(INITIAL, cfg, xs), cfg, dot).1.Refused? && !Run(INITIAL, cfg, xs).mega.value.degraded
    requires forall i: nat :: dot.rf(i).net.Fine? && dot.rg(i).net.Fine?
    ensures var s, reply := Run(INITIAL, cfg, xs), Step(Run(INITIAL, cfg, xs), cfg, dot).1;
            forall i :: 0 <= i < |reply.entries| ==> RolledBack(reply.entries[i], s.tag)
  {
    var s := Run(INITIAL, cfg, xs);
    RunInv(INITIAL, cfg, xs);
    var es := Step(s, cfg, dot).1.entries;
    var m := s.mega.value;
    forall i | 0 <= i < |es|
      ensures RolledBack(es[i], s.tag)
    {
      assert es[i] == Rollback1(m.entries[i], dot.rf(i), dot.rg(i), s.tag);
      if m.entries[i].link.Storage? {
        TalkerRollsBack(m.entries[i].link.t, dot.rf(i), dot.rg(i), s.tag, m.msgnum);
      }
    }
  }
}
