/** MegaTalker in the source's own form: each call loops over the connections,
    drops the ones that fail, and remembers that it did. */
module Mega {
  import opened Text
  import opened Disk
  import opened DeliverySpec
  import opened SelectSpec
  import opened MegaSpec
  import Spec = MegaSpec
  import Select

  class MegaTalker {
    var entries: seq<Entry>
    var degraded: bool
    var msgnum: nat

    function State(): Mega
      reads this
    {
      Mega(entries, degraded, msgnum)
    }

    constructor ()
      ensures State() == NEW
    {
      entries, degraded, msgnum := [], false, 0;
    }

    // relayOk: the relay accepted the connection, sender and recipient.
    method AddRemote(relayOk: bool) returns (thrown: bool)
      modifies this
      ensures thrown == !relayOk
      ensures State() == old(State()).(entries := old(entries) + if relayOk then [Entry(Relay, true)] else [])
    {
      if relayOk {
        entries := entries + [Entry(Relay, true)];
      }
      thrown := !relayOk;
    }

    // s_redundancy calls of getServer, until one finds no server left.
    static method PickServers(td: seq<Target>, spread: Spread, redundancy: nat) returns (picks: seq<nat>)
      requires !(spread.disk && spread.load)
      ensures Picked(td, spread, redundancy, picks)
    {
      var ss := new Select.ServerSelect(td, spread);
      picks := [];
      var n := 0;
      while n < redundancy
        invariant 0 <= n <= redundancy && |ss.answers| == |picks| == n && fresh(ss)
        invariant ss.td == td && ss.spread == spread && ss.Valid() && Servers(ss.answers) == picks
      {
        var tdp := ss.GetServer();
        if tdp.None? {
          assert Servers(ss.answers) == picks + [] == picks;
          break;
        }
        picks := picks + [tdp.value];
        n := n + 1;
      }
      assert Servers(ss.answers) == picks;
      PickedAtStop(td, spread, redundancy, ss.answers);
    }

    // The source connects to each server as it is picked; which servers are
    // picked does not depend on the connections.
    method OpenStorage(td: seq<Target>, spread: Spread, redundancy: nat, connects: Faults,
                       garbage: nat -> Option<Handle>, tag: Word)
      returns (thrown: bool, picks: seq<nat>)
      requires !(spread.disk && spread.load)
      modifies this
      ensures Picked(td, spread, redundancy, picks)
      ensures Result(State(), thrown) ==
              Spec.OpenStorage(old(State()), redundancy, Connected(td, picks, connects, garbage, tag))
    {
      picks := PickServers(td, spread, redundancy);
      ConnectTo(td, picks, connects, garbage, tag);
      thrown := entries == [];
      if !thrown && |entries| < redundancy {
        degraded := true;
      }
    }

    method ConnectTo(td: seq<Target>, picks: seq<nat>, connects: Faults, garbage: nat -> Option<Handle>, tag: Word)
      requires forall i :: 0 <= i < |picks| ==> picks[i] < |td|
      modifies this`entries
      ensures entries == old(entries) + Connected(td, picks, connects, garbage, tag)
    {
      for n := 0 to |picks|
        invariant entries == old(entries) + Connected(td, picks[..n], connects, garbage, tag)
      {
        assert picks[..n + 1][..n] == picks[..n];
        entries := entries + ConnectOne(td[picks[n]], connects(n), garbage(n), tag);
      }
      assert picks[..|picks|] == picks;
    }

    // The recipient is announced to the storage backends only.
    method AddRecipient(mbox: Word, faults: Faults, tag: Word) returns (thrown: bool)
      modifies this
      ensures Result(State(), thrown) == Spec.AddRecipient(old(State()), mbox, faults, tag)
    {
      var n := 0;
      msgnum := msgnum + 1;
      for i := 0 to |entries|
        invariant |entries| == |old(entries)| && msgnum == old(msgnum) + 1
        invariant forall j :: 0 <= j < i ==> entries[j] == Announce(old(entries)[j], mbox, msgnum, faults(j), tag)
        invariant forall j :: i <= j < |entries| ==> entries[j] == old(entries)[j]
        invariant degraded <==> old(degraded) || exists j :: 0 <= j < i && old(entries)[j].ok && !entries[j].ok
        invariant n > 0 <==> exists j :: 0 <= j < i && entries[j].ok && entries[j].link.Storage?
      {
        var en := entries[i];
        if en.ok && en.link.Storage? {
          entries := entries[i := Announce(en, mbox, msgnum, faults(i), tag)];
          if entries[i].ok {
            n := n + 1;
          } else {
            degraded := true;
          }
        }
      }
      assert entries == Spec.AddRecipient(old(State()), mbox, faults, tag).m.entries;
      thrown := n == 0;
    }

    method StartData(faults: Faults, tag: Word) returns (thrown: bool)
      modifies this
      ensures Result(State(), thrown) == Spec.StartData(old(State()), faults, tag)
    {
      var success := 0;
      for i := 0 to |entries|
        invariant |entries| == |old(entries)| && msgnum == old(msgnum)
        invariant forall j :: 0 <= j < i ==> entries[j] == Start1(old(entries)[j], faults(j), tag)
        invariant forall j :: i <= j < |entries| ==> entries[j] == old(entries)[j]
        invariant degraded <==> old(degraded) || exists j :: 0 <= j < i && old(entries)[j].ok && !entries[j].ok
        invariant success > 0 <==> exists j :: 0 <= j < i && entries[j].ok
      {
        var en := entries[i];
        if en.ok {
          entries := entries[i := Start1(en, faults(i), tag)];
          if entries[i].ok {
            success := success + 1;
          } else {
            degraded := true;
          }
        }
      }
      assert entries == Spec.StartData(old(State()), faults, tag).m.entries;
      thrown := success == 0;
    }

    method MsgAddLine(line: string, faults: Faults, tag: Word)
      modifies this
      ensures State() == AddLine(old(State()), line, faults, tag)
    {
      for i := 0 to |entries|
        invariant |entries| == |old(entries)| && msgnum == old(msgnum)
        invariant forall j :: 0 <= j < i ==> entries[j] == Line1(old(entries)[j], line, faults(j), tag)
        invariant forall j :: i <= j < |entries| ==> entries[j] == old(entries)[j]
        invariant degraded <==> old(degraded) || exists j :: 0 <= j < i && old(entries)[j].ok && !entries[j].ok
      {
        var en := entries[i];
        if en.ok {
          entries := entries[i := Line1(en, line, faults(i), tag)];
          if !entries[i].ok {
            degraded := true;
          }
        }
      }
      assert entries == AddLine(old(State()), line, faults, tag).entries;
    }

    method MsgDone(f: Faults, g: Faults, tag: Word) returns (thrown: bool)
      modifies this
      ensures Result(State(), thrown) == Spec.MsgDone(old(State()), f, g, tag)
    {
      var success := 0;
      for i := 0 to |entries|
        invariant |entries| == |old(entries)| && msgnum == old(msgnum)
        invariant forall j :: 0 <= j < i ==> entries[j] == Done1(old(entries)[j], f(j), g(j), tag)
        invariant forall j :: i <= j < |entries| ==> entries[j] == old(entries)[j]
        invariant degraded <==> old(degraded) || exists j :: 0 <= j < i && old(entries)[j].ok && !entries[j].ok
        invariant success > 0 <==> exists j :: 0 <= j < i && entries[j].ok
      {
        var en := entries[i];
        if en.ok {
          entries := entries[i := Done1(en, f(i), g(i), tag)];
          if entries[i].ok {
            success := success + 1;
          } else {
            degraded := true;
          }
        }
      }
      assert entries == Spec.MsgDone(old(State()), f, g, tag).m.entries;
      thrown := success == 0;
    }

    method MsgRollback(f: Faults, g: Faults, tag: Word)
      modifies this
      ensures State() == Spec.MsgRollback(old(State()), f, g, tag)
    {
      for i := 0 to |entries|
        invariant |entries| == |old(entries)| && msgnum == old(msgnum) && degraded == old(degraded)
        invariant forall j :: 0 <= j < i ==> entries[j] == Rollback1(old(entries)[j], f(j), g(j), tag)
        invariant forall j :: i <= j < |entries| ==> entries[j] == old(entries)[j]
      {
        if entries[i].ok {
          entries := entries[i := Rollback1(entries[i], f(i), g(i), tag)];
        }
      }
      assert entries == Spec.MsgRollback(old(State()), f, g, tag).entries;
    }
  }
}
