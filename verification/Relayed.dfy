/** The forwarded recipients: a relay connection takes its recipient when it is
    opened, and an acknowledged message went over it line by line. */
module Relayed {
  import opened Text
  import opened Disk
  import opened DeliverySpec
  import opened MegaSpec
  import opened SmtpSpec
  import opened Envelope
  import opened Verdicts

  predicate RelayAt(m: Mega, i: nat) { i < |m.entries| && m.entries[i].link.Relay? }

  lemma {:induction false} LineRelayed(m: Mega, line: string, faults: Faults, tag: Word, redundancy: nat, i: nat)
    requires Inv(m, redundancy, tag) && RelayAt(m, i)
    ensures var m1 := AddLine(m, line, faults, tag);
            RelayAt(m1, i) && (!m1.degraded ==> !m.degraded && faults(i).net.Fine?)
  {
    var m1 := AddLine(m, line, faults, tag);
    assert m1.entries[i] == Line1(m.entries[i], line, faults(i), tag);
    if !m1.degraded {
      assert m.entries[i].ok && !Lost(m.entries, m1.entries);
    }
  }

  lemma {:induction false} DoneRelayed(m: Mega, f: Faults, g: Faults, tag: Word, redundancy: nat, i: nat)
    requires Inv(m, redundancy, tag) && RelayAt(m, i)
    ensures var m1 := MsgDone(m, f, g, tag).m;
            RelayAt(m1, i) && (!m1.degraded ==> !m.degraded && f(i).net.Fine?)
  {
    var m1 := MsgDone(m, f, g, tag).m;
    assert m1.entries[i] == Done1(m.entries[i], f(i), g(i), tag);
    if !m1.degraded {
      assert m.entries[i].ok && !Lost(m.entries, m1.entries);
    }
  }

  // The line at k is passed on, because it starts below the room.
  predicate Starts(ys: seq<Input>, k: nat, before: nat, limited: bool, room: int)
    requires k <= |ys|
  {
    !limited || (before + |Concat(LinesOf(ys[..k]))|) / 1000 < room
  }

  lemma {:induction false} TextRelayed(s: Smtp, cfg: Config, ys: seq<Input>, i: nat)
    requires SessionInv(s, cfg.redundancy) && s.indata && RelayAt(s.mega.value, i)
    requires forall k :: 0 <= k < |ys| ==> !IsTerminator(ys[k].line)
    ensures var s1 := Run(s, cfg, ys);
            && s1.indata && s1.mega.Some? && RelayAt(s1.mega.value, i)
            && (!s1.mega.value.degraded ==>
                  && !s.mega.value.degraded
                  && forall k: nat :: k < |ys| && Starts(ys, k, s.databytes, s.quotaneeded, s.kbroom) ==> ys[k].f(i).net.Fine?)
    decreases |ys|
  {
    if ys != [] {
      var s1 := Step(s, cfg, ys[0]).0;
      StepInv(s, cfg, ys[0]);
      LineRelayed(s.mega.value, ys[0].line, ys[0].f, s.tag, cfg.redundancy, i);
      TextRelayed(s1, cfg, ys[1..], i);
      assert Concat(LinesOf(ys[..0])) == "";
      forall k: nat | 0 < k < |ys| && Starts(ys, k, s.databytes, s.quotaneeded, s.kbroom)
        ensures Starts(ys[1..], k - 1, s1.databytes, s1.quotaneeded, s1.kbroom) && ys[1..][k - 1] == ys[k]
      {
        assert ys[1..][..k - 1] == ys[..k][1..];
        assert LinesOf(ys[..k]) == [ys[0].line] + LinesOf(ys[1..][..k - 1]);
      }
    }
  }

  lemma {:induction false} BeginRelayed(s: Smtp, cfg: Config, d: DataEnv, i: nat)
    requires s.mega.Some? && Inv(s.mega.value, cfg.redundancy, s.tag) && BeginData(s, cfg, d).1 == Code(354)
    requires RelayAt(BeginData(s, cfg, d).0.mega.value, i)
    ensures !BeginData(s, cfg, d).0.mega.value.degraded ==> d.receivedFaults(i).net.Fine?
  {
    var m := s.mega.value;
    var m1 := StartData(m, d.puts, s.tag).m;
    StartDataInv(m, d.puts, s.tag, cfg.redundancy, []);
    var m2 := AddLine(m1, ReceivedLine(d.received), d.receivedFaults, s.tag);
    assert m2.entries[i] == Line1(m1.entries[i], ReceivedLine(d.received), d.receivedFaults(i), s.tag);
    LineRelayed(m1, ReceivedLine(d.received), d.receivedFaults, s.tag, cfg.redundancy, i);
  }

  lemma {:induction false} DataRelayed(s: Smtp, cfg: Config, d: DataEnv, i: nat)
    requires SessionInv(s, cfg.redundancy) && !s.indata && EatData(s, cfg, d).1 == Code(354)
    requires EatData(s, cfg, d).0.mega.Some? && RelayAt(EatData(s, cfg, d).0.mega.value, i)
    ensures !EatData(s, cfg, d).0.mega.value.degraded ==> d.receivedFaults(i).net.Fine?
  {
    OpenForDataInv(s, cfg, d);
    var s2 := OpenForData(s, cfg, d).0.(names := []);
    assert s2.recipients[..0] == [];
    AnnounceInv(s2, 0, d, cfg.redundancy);
    BeginRelayed(AnnounceFrom(s2, 0, d).0, cfg, d, i);
  }

  lemma {:induction false} DotRelayed(s: Smtp, cfg: Config, dot: Input, i: nat)
    requires SessionInv(s, cfg.redundancy) && s.indata && RelayAt(s.mega.value, i) && Step(s, cfg, dot).1.Delivered?
    ensures !s.mega.value.degraded && dot.f(i).net.Fine? && i < |Step(s, cfg, dot).1.entries|
  {
    DoneRelayed(s.mega.value, dot.f, dot.g, s.tag, cfg.redundancy, i);
  }

  // In every run, when the message is acknowledged, every relay connection
  // took the Received line, every line of the client that starts below the
  // room, and the dot.
  lemma {:induction false} RelaysTakeEverything(cfg: Config, xs: seq<Input>, x: Input, ys: seq<Input>, dot: Input, i: nat)
    requires x.cmd.Data? && !InText(Replies(INITIAL, cfg, xs)) && Step(Run(INITIAL, cfg, xs), cfg, x).1 == Code(354)
    requires (forall k :: 0 <= k < |ys| ==> !IsTerminator(ys[k].line)) && IsTerminator(dot.line)
    requires var s1 := Step(Run(INITIAL, cfg, xs), cfg, x).0;
             && s1.mega.Some? && RelayAt(s1.mega.value, i) && Step(Run(s1, cfg, ys), cfg, dot).1.Delivered?
    ensures var s1 := Step(Run(INITIAL, cfg, xs), cfg, x).0;
            && x.cmd.env.receivedFaults(i).net.Fine? && dot.f(i).net.Fine?
            && forall k: nat :: k < |ys| && Starts(ys, k, 0, s1.quotaneeded, s1.kbroom) ==> ys[k].f(i).net.Fine?
  {
    EveryRunAgrees(cfg, xs);
    RunInv(INITIAL, cfg, xs);
    var s := Run(INITIAL, cfg, xs);
    var s1 := Step(s, cfg, x).0;
    StepInv(s, cfg, x);
    DataBytes(s, cfg, x.cmd.env);
    DataSame(s, cfg, x.cmd.env);
    TextRelayed(s1, cfg, ys, i);
    RunInv(s1, cfg, ys);
    DotRelayed(Run(s1, cfg, ys), cfg, dot, i);
    DataRelayed(s, cfg, x.cmd.env, i);
  }

  lemma {:induction false} DataBytes(s: Smtp, cfg: Config, d: DataEnv)
    requires !s.indata && EatData(s, cfg, d).1 == Code(354)
    ensures EatData(s, cfg, d).0.databytes == 0
  {
    AnnounceKeeps(OpenForData(s, cfg, d).0.(names := []), 0, d);
  }
}
