/** Fanning one message out to several backends: which connections are still
    good, and whether the transaction is degraded. */
module MegaSpec {
  import opened Text
  import opened Disk
  import opened DeliverySpec
  import opened BackendSpec
  import TalkerSpec
  import opened SelectSpec

  type Talker = TalkerSpec.Talker
  type Fault = TalkerSpec.Fault
  type Announced = TalkerSpec.Announced

  // A storage connection, or a relay connection for a forwarded recipient,
  // of which only success and failure are modelled.
  datatype Link = Storage(target: Target, t: Talker) | Relay

  datatype Entry = Entry(link: Link, ok: bool)

  datatype Mega = Mega(entries: seq<Entry>, degraded: bool, msgnum: nat)

  // The state after a call, and whether the call threw a MegaTalkerException.
  datatype Result = Result(m: Mega, thrown: bool)

  // What each entry's request meets, by position.
  type Faults = nat -> Fault

  const NEW := Mega([], false, 0)

  // ------------------------------------------------------- one entry, one call

  function Announce(en: Entry, mbox: Word, num: nat, f: Fault, tag: Word): Entry {
    if !en.ok || en.link.Relay? then en
    else
      var (t, ok) := TalkerSpec.AddRecipient(en.link.t, mbox, num, f, tag);
      Entry(en.link.(t := t), ok)
  }

  // A relay connection is in its data phase since its recipient was added.
  function Start1(en: Entry, f: Fault, tag: Word): Entry {
    if !en.ok || en.link.Relay? then en
    else
      var (t, ok) := TalkerSpec.StartData(en.link.t, f, tag);
      Entry(en.link.(t := t), ok)
  }

  function Line1(en: Entry, line: string, f: Fault, tag: Word): Entry {
    if !en.ok then en
    else if en.link.Relay? then en.(ok := f.net.Fine?)
    else
      var (t, ok) := TalkerSpec.AddLine(en.link.t, line, f, tag);
      Entry(en.link.(t := t), ok)
  }

  function Done1(en: Entry, f: Fault, g: Fault, tag: Word): Entry {
    if !en.ok then en
    else if en.link.Relay? then en.(ok := f.net.Fine?)
    else
      var (t, ok) := TalkerSpec.MsgDone(en.link.t, f, g, tag);
      Entry(en.link.(t := t), ok)
  }

  function Rollback1(en: Entry, f: Fault, g: Fault, tag: Word): Entry {
    if !en.ok || en.link.Relay? then en
    else en.(link := en.link.(t := TalkerSpec.MsgRollback(en.link.t, f, g, tag)))
  }

  // ------------------------------------------------------------- the calls

  predicate Lost(a: seq<Entry>, b: seq<Entry>)
    requires |a| == |b|
  {
    exists i | 0 <= i < |a| :: a[i].ok && !b[i].ok
  }

  predicate AnyOk(es: seq<Entry>) { exists i | 0 <= i < |es| :: es[i].ok }

  predicate AnyStorageOk(es: seq<Entry>) { exists i | 0 <= i < |es| :: es[i].ok && es[i].link.Storage? }

  // s_redundancy answers of getServer, up to the first that finds none left.
  predicate Picked(td: seq<Target>, sp: Spread, redundancy: nat, ps: seq<nat>) {
    && |ps| == Min(redundancy, |UsableGroups(td)|)
    && DistinctGroups(td, ps)
    && forall i | 0 <= i < |ps| :: ps[i] < |td| && td[ps[i]].up && !td[ps[i]].readonly && Preferred(td, ps[i], sp)
  }

  lemma {:induction false} PickedAtStop(td: seq<Target>, sp: Spread, redundancy: nat, answers: seq<Option<nat>>)
    requires MayReturnAll(td, Nothing(|td|), sp, answers) && |answers| <= redundancy
    requires |answers| == redundancy || |Servers(answers)| < |answers|
    ensures Picked(td, sp, redundancy, Servers(answers))
  {
    SuccessiveCalls(td, sp, answers);
  }

  function ConnectOne(target: Target, f: Fault, garbage: Option<Handle>, tag: Word): seq<Entry> {
    match TalkerSpec.Connect(tag, f, garbage)
    case None => []
    case Some(t) => [Entry(Storage(target, t), true)]
  }

  // The servers whose connection succeeds are added.
  function Connected(td: seq<Target>, ps: seq<nat>, faults: Faults, garbage: nat -> Option<Handle>, tag: Word): seq<Entry>
    requires forall i | 0 <= i < |ps| :: ps[i] < |td|
  {
    if ps == [] then []
    else
      var n := |ps| - 1;
      Connected(td, ps[..n], faults, garbage, tag) + ConnectOne(td[ps[n]], faults(n), garbage(n), tag)
  }

  function OpenStorage(m: Mega, redundancy: nat, added: seq<Entry>): Result {
    var m1 := m.(entries := m.entries + added);
    if m1.entries == [] then Result(m1, true)
    else Result(m1.(degraded := m.degraded || |m1.entries| < redundancy), false)
  }

  function AddRecipient(m: Mega, mbox: Word, faults: Faults, tag: Word): Result {
    var num := m.msgnum + 1;
    var es := seq(|m.entries|, i requires 0 <= i < |m.entries| => Announce(m.entries[i], mbox, num, faults(i), tag));
    Result(Mega(es, m.degraded || Lost(m.entries, es), num), !AnyStorageOk(es))
  }

  function StartData(m: Mega, faults: Faults, tag: Word): Result {
    var es := seq(|m.entries|, i requires 0 <= i < |m.entries| => Start1(m.entries[i], faults(i), tag));
    Result(Mega(es, m.degraded || Lost(m.entries, es), m.msgnum), !AnyOk(es))
  }

  function AddLine(m: Mega, line: string, faults: Faults, tag: Word): Mega {
    var es := seq(|m.entries|, i requires 0 <= i < |m.entries| => Line1(m.entries[i], line, faults(i), tag));
    Mega(es, m.degraded || Lost(m.entries, es), m.msgnum)
  }

  function MsgDone(m: Mega, f: Faults, g: Faults, tag: Word): Result {
    var es := seq(|m.entries|, i requires 0 <= i < |m.entries| => Done1(m.entries[i], f(i), g(i), tag));
    Result(Mega(es, m.degraded || Lost(m.entries, es), m.msgnum), !AnyOk(es))
  }

  function MsgRollback(m: Mega, f: Faults, g: Faults, tag: Word): Mega {
    m.(entries := seq(|m.entries|, i requires 0 <= i < |m.entries| => Rollback1(m.entries[i], f(i), g(i), tag)))
  }

  // -------------------------------------------------------------- invariant

  // The storage connections among the entries; all others are relays.
  ghost function Copies(es: seq<Entry>): (r: seq<Entry>)
    ensures |r| <= |es| && AllStorage(r)
  {
    if es == [] then []
    else Copies(es[..|es| - 1]) + if es[|es| - 1].link.Storage? then [es[|es| - 1]] else []
  }

  ghost function Relays(es: seq<Entry>): nat { |es| - |Copies(es)| }

  // How many copies are wanted beside the relays, which count as copies.
  ghost function Wanted(es: seq<Entry>, redundancy: nat): nat {
    if redundancy <= Relays(es) then 0 else redundancy - Relays(es)
  }

  ghost predicate AllStorage(es: seq<Entry>) {
    forall i :: 0 <= i < |es| ==> es[i].link.Storage?
  }

  ghost predicate DifferentGroups(es: seq<Entry>) {
    && AllStorage(es)
    && forall i, j :: 0 <= i < j < |es| ==> es[i].link.target.group != es[j].link.target.group
  }

  ghost predicate AllGood(es: seq<Entry>, tag: Word, top: nat) {
    forall i :: 0 <= i < |es| ==> es[i].ok && (es[i].link.Storage? ==> TalkerSpec.Good(es[i].link.t, tag, top))
  }

  // While not degraded, every connection is good and, once storage is open,
  // what the relays leave of s_redundancy is met by storage connections to
  // different groups.
  ghost predicate Inv(m: Mega, redundancy: nat, tag: Word) {
    !m.degraded ==>
      && AllGood(m.entries, tag, m.msgnum)
      && (Copies(m.entries) != [] ==> Covered(m.entries, redundancy))
  }

  ghost predicate Covered(es: seq<Entry>, redundancy: nat) {
    Wanted(es, redundancy) <= |Copies(es)| && DifferentGroups(Copies(es)[..Wanted(es, redundancy)])
  }

  lemma {:induction false} CopyIsEntry(es: seq<Entry>, j: nat) returns (k: nat)
    requires j < |Copies(es)|
    ensures k < |es| && Copies(es)[j] == es[k]
  {
    var n := |es| - 1;
    if j < |Copies(es[..n])| {
      k := CopyIsEntry(es[..n], j);
    } else {
      k := n;
    }
  }

  lemma {:induction false} CopiesAppend(a: seq<Entry>, b: seq<Entry>)
    ensures Copies(a + b) == Copies(a) + Copies(b)
    decreases |b|
  {
    if b == [] {
      assert a + b == a;
    } else {
      var n := |b| - 1;
      assert (a + b)[..|a| + n] == a + b[..n];
      CopiesAppend(a, b[..n]);
    }
  }

  lemma {:induction false} CopiesOfStorage(es: seq<Entry>)
    requires AllStorage(es)
    ensures Copies(es) == es
    decreases |es|
  {
    if es != [] {
      CopiesOfStorage(es[..|es| - 1]);
    }
  }

  lemma {:induction false} CopiesHasStorage(es: seq<Entry>, k: nat)
    requires k < |es| && es[k].link.Storage?
    ensures Copies(es) != []
    decreases |es|
  {
    if k < |es| - 1 {
      CopiesHasStorage(es[..|es| - 1], k);
    }
  }

  lemma {:induction false} ConnectedGroups(td: seq<Target>, ps: seq<nat>, faults: Faults, garbage: nat -> Option<Handle>, tag: Word, top: nat)
    requires DistinctGroups(td, ps)
    ensures var es := Connected(td, ps, faults, garbage, tag);
            && |es| <= |ps| && DifferentGroups(es) && AllGood(es, tag, top)
            && forall i :: 0 <= i < |es| ==> exists k :: 0 <= k < |ps| && es[i].link.target == td[ps[k]]
  {
    if ps != [] {
      var n := |ps| - 1;
      ConnectedGroups(td, ps[..n], faults, garbage, tag, top);
      var c := TalkerSpec.Connect(tag, faults(n), garbage(n));
      if c.Some? {
        TalkerSpec.ConnectMatches(tag, faults(n), garbage(n), top);
        var es := Connected(td, ps, faults, garbage, tag);
        assert es[|es| - 1].link.target == td[ps[n]];
      }
    }
  }

  lemma {:induction false} OpenStorageInv(m: Mega, redundancy: nat, td: seq<Target>, ps: seq<nat>, faults: Faults, garbage: nat -> Option<Handle>, tag: Word)
    requires Inv(m, redundancy, tag) && DistinctGroups(td, ps)
    ensures Inv(OpenStorage(m, redundancy, Connected(td, ps, faults, garbage, tag)).m, redundancy, tag)
  {
    var es := Connected(td, ps, faults, garbage, tag);
    ConnectedGroups(td, ps, faults, garbage, tag, m.msgnum);
    var m1 := OpenStorage(m, redundancy, es).m;
    if !m1.degraded {
      CoveredWith(m.entries, es, redundancy);
    }
  }

  lemma {:induction false} CoveredWith(a: seq<Entry>, b: seq<Entry>, redundancy: nat)
    requires Copies(a) != [] ==> Covered(a, redundancy)
    requires DifferentGroups(b) && (a + b == [] || |a + b| >= redundancy)
    ensures Copies(a + b) != [] ==> Covered(a + b, redundancy)
  {
    CopiesAppend(a, b);
    CopiesOfStorage(b);
    if Copies(a) != [] {
      StillCovered(a, b, redundancy);
    } else if b != [] {
      FirstCovered(a, b, redundancy);
    }
  }

  lemma {:induction false} StillCovered(a: seq<Entry>, b: seq<Entry>, redundancy: nat)
    requires Covered(a, redundancy) && AllStorage(b) && Copies(a + b) == Copies(a) + b
    ensures Covered(a + b, redundancy)
  {
    var n := Wanted(a, redundancy);
    assert Copies(a + b)[..n] == Copies(a)[..n];
  }

  lemma {:induction false} FirstCovered(a: seq<Entry>, b: seq<Entry>, redundancy: nat)
    requires DifferentGroups(b) && Copies(a + b) == [] + b && |a + b| >= redundancy
    ensures Covered(a + b, redundancy)
  {
    var n := Wanted(a + b, redundancy);
    assert Copies(a + b)[..n] == b[..n];
    assert forall i :: 0 <= i < n ==> b[..n][i] == b[i];
  }

  // ----------------------------------------------- steps of the transaction

  // Every storage connection has been told of all these recipients.
  ghost predicate Knows(m: Mega, names: seq<Announced>) {
    forall i :: 0 <= i < |m.entries| && m.entries[i].link.Storage? ==>
      forall a :: a in names ==> a in m.entries[i].link.t.said
  }

  // Every storage connection is in its data phase and was sent exactly body.
  ghost predicate Feeding(m: Mega, body: string) {
    forall i :: 0 <= i < |m.entries| && m.entries[i].link.Storage? ==>
      var t := m.entries[i].link.t;
      t.inmsg && (t.broken || t.peer.mode.InData?) && t.sent == body
  }

  ghost predicate SameLink(a: Entry, b: Entry) {
    match a.link
    case Storage(target, _) => b.link.Storage? && b.link.target == target
    case Relay => b.link.Relay?
  }

  // The links of b lead where those of a do, entry by entry.
  ghost predicate SameLinks(a: seq<Entry>, b: seq<Entry>) {
    |a| == |b| && forall i :: 0 <= i < |a| ==> SameLink(a[i], b[i])
  }

  lemma {:induction false} CopiesKept(a: seq<Entry>, b: seq<Entry>)
    requires SameLinks(a, b)
    ensures SameLinks(Copies(a), Copies(b))
    decreases |a|
  {
    if a != [] {
      CopiesKept(a[..|a| - 1], b[..|b| - 1]);
      assert SameLink(a[|a| - 1], b[|b| - 1]);
    }
  }

  lemma {:induction false} CoverKept(a: seq<Entry>, b: seq<Entry>, redundancy: nat)
    requires SameLinks(a, b) && (Copies(a) != [] ==> Covered(a, redundancy))
    ensures |Copies(a)| == |Copies(b)| && (Copies(b) != [] ==> Covered(b, redundancy))
  {
    CopiesKept(a, b);
    if Copies(b) != [] {
      var n := Wanted(a, redundancy);
      var c, d := Copies(a), Copies(b);
      forall i, j | 0 <= i < j < n
        ensures d[..n][i].link.target.group != d[..n][j].link.target.group
      {
        assert SameLink(c[i], d[i]) && SameLink(c[j], d[j]);
        assert c[..n][i].link.target.group != c[..n][j].link.target.group;
      }
    }
  }

  lemma {:induction false} AddRecipientInv(m: Mega, mbox: Word, faults: Faults, tag: Word, redundancy: nat, names: seq<Announced>)
    requires Inv(m, redundancy, tag)
    ensures var m1 := AddRecipient(m, mbox, faults, tag).m;
            && Inv(m1, redundancy, tag)
            && (!m1.degraded ==> !m.degraded && |Copies(m1.entries)| == |Copies(m.entries)|)
            && (!m1.degraded && Knows(m, names) ==> Knows(m1, names + [TalkerSpec.To(mbox, m1.msgnum)]))
  {
    var m1 := AddRecipient(m, mbox, faults, tag).m;
    if !m1.degraded {
      forall i | 0 <= i < |m.entries|
        ensures m1.entries[i].ok && SameLink(m.entries[i], m1.entries[i])
        ensures m.entries[i].link.Storage? ==>
                  && TalkerSpec.Good(m1.entries[i].link.t, tag, m1.msgnum)
                  && m1.entries[i].link.t.said == m.entries[i].link.t.said + [TalkerSpec.To(mbox, m1.msgnum)]
      {
        assert m.entries[i].ok && m1.entries[i] == Announce(m.entries[i], mbox, m1.msgnum, faults(i), tag);
        if m.entries[i].link.Storage? {
          TalkerSpec.AddRecipientMatches(m.entries[i].link.t, mbox, m1.msgnum, faults(i), tag, m.msgnum);
        }
      }
      CoverKept(m.entries, m1.entries, redundancy);
    }
  }

  lemma {:induction false} StartDataInv(m: Mega, faults: Faults, tag: Word, redundancy: nat, names: seq<Announced>)
    requires Inv(m, redundancy, tag)
    ensures var m1 := StartData(m, faults, tag).m;
            && Inv(m1, redundancy, tag)
            && (!m1.degraded ==> !m.degraded && |Copies(m1.entries)| == |Copies(m.entries)| && Feeding(m1, ""))
            && (!m1.degraded && Knows(m, names) ==> Knows(m1, names))
  {
    var m1 := StartData(m, faults, tag).m;
    if !m1.degraded {
      forall i | 0 <= i < |m.entries|
        ensures m1.entries[i].ok && SameLink(m.entries[i], m1.entries[i])
        ensures m.entries[i].link.Storage? ==>
                  var t, t1 := m.entries[i].link.t, m1.entries[i].link.t;
                  TalkerSpec.Good(t1, tag, m1.msgnum) && t1.said == t.said && t1.inmsg && t1.sent == "" && t1.peer.mode.InData?
      {
        assert m.entries[i].ok && m1.entries[i] == Start1(m.entries[i], faults(i), tag);
        if m.entries[i].link.Storage? {
          TalkerSpec.StartDataMatches(m.entries[i].link.t, faults(i), tag, m.msgnum);
        }
      }
      CoverKept(m.entries, m1.entries, redundancy);
    }
  }

  lemma {:induction false} AddLineInv(m: Mega, line: string, faults: Faults, tag: Word, redundancy: nat, names: seq<Announced>, body: string)
    requires Inv(m, redundancy, tag) && !IsTerminator(line)
    requires !m.degraded ==> Knows(m, names) && Feeding(m, body)
    ensures var m1 := AddLine(m, line, faults, tag);
            && Inv(m1, redundancy, tag)
            && (!m1.degraded ==> !m.degraded && |Copies(m1.entries)| == |Copies(m.entries)|)
            && (!m1.degraded ==> Knows(m1, names) && Feeding(m1, body + line))
  {
    var m1 := AddLine(m, line, faults, tag);
    if !m1.degraded {
      forall i | 0 <= i < |m.entries|
        ensures m1.entries[i].ok && SameLink(m.entries[i], m1.entries[i])
        ensures m.entries[i].link.Storage? ==>
                  var t, t1 := m.entries[i].link.t, m1.entries[i].link.t;
                  && TalkerSpec.Good(t1, tag, m1.msgnum) && t1.said == t.said && t1.inmsg
                  && (t1.broken || t1.peer.mode.InData?) && t1.sent == body + line
      {
        assert m.entries[i].ok && m1.entries[i] == Line1(m.entries[i], line, faults(i), tag);
        if m.entries[i].link.Storage? {
          TalkerSpec.AddLineMatches(m.entries[i].link.t, line, faults(i), tag, m.msgnum);
        }
      }
      CoverKept(m.entries, m1.entries, redundancy);
    }
  }

  // The backend holds the message, complete, in the mailbox of every one of
  // these recipients, and keeps it when the connection ends.
  ghost predicate Holds(en: Entry, tag: Word, names: seq<Announced>, body: string) {
    && en.link.Storage?
    && forall a :: a in names ==>
         TalkerSpec.Stored(en.link.t.peer.store.d, a, tag, body) && TalkerSpec.Stored(End(en.link.t.peer), a, tag, body)
  }

  // At least n backends, in pairwise different groups, hold the message.
  ghost predicate Redundant(es: seq<Entry>, n: nat, tag: Word, names: seq<Announced>, body: string) {
    && n <= |es|
    && DifferentGroups(es[..n])
    && forall i :: 0 <= i < n ==> Holds(es[i], tag, names, body)
  }

  lemma {:induction false} RedundantFewer(es: seq<Entry>, n: nat, k: nat, tag: Word, names: seq<Announced>, body: string)
    requires Redundant(es, n, tag, names, body) && k <= n
    ensures Redundant(es, k, tag, names, body)
  {
    assert forall i :: 0 <= i < k ==> es[..k][i] == es[..n][i];
  }

  // At least one copy, if there is anybody to store for, whatever the relays.
  ghost function Guaranteed(es: seq<Entry>, redundancy: nat): nat {
    if Wanted(es, redundancy) == 0 then 1 else Wanted(es, redundancy)
  }

  lemma {:induction false} Done1Holds(en: Entry, f: Fault, g: Fault, tag: Word, top: nat, names: seq<Announced>, body: string)
    requires en.ok && Done1(en, f, g, tag).ok
    requires en.link.Storage? ==>
               TalkerSpec.Good(en.link.t, tag, top) && en.link.t.sent == body && forall a :: a in names ==> a in en.link.t.said
    ensures SameLink(en, Done1(en, f, g, tag))
    ensures en.link.Storage? ==> Holds(Done1(en, f, g, tag), tag, names, body)
  {
    if en.link.Storage? {
      TalkerSpec.MsgDoneStores(en.link.t, f, g, tag, top);
    }
  }

  lemma {:induction false} MsgDoneRedundant(m: Mega, f: Faults, g: Faults, tag: Word, redundancy: nat, names: seq<Announced>, body: string)
    requires Inv(m, redundancy, tag) && Copies(m.entries) != []
    requires !m.degraded ==> Knows(m, names) && Feeding(m, body)
    requires !MsgDone(m, f, g, tag).m.degraded
    ensures var es := MsgDone(m, f, g, tag).m.entries;
            Redundant(Copies(es), Guaranteed(es, redundancy), tag, names, body)
  {
    var m1 := MsgDone(m, f, g, tag).m;
    forall i | 0 <= i < |m.entries|
      ensures m1.entries[i].link.Storage? ==> Holds(m1.entries[i], tag, names, body)
      ensures SameLink(m.entries[i], m1.entries[i])
    {
      assert m.entries[i].ok && m1.entries[i].ok;
      assert m1.entries[i] == Done1(m.entries[i], f(i), g(i), tag);
      Done1Holds(m.entries[i], f(i), g(i), tag, m.msgnum, names, body);
    }
    CopiesKept(m.entries, m1.entries);
    CoverKept(m.entries, m1.entries, redundancy);
    var es := Copies(m1.entries);
    forall j | 0 <= j < |es|
      ensures Holds(es[j], tag, names, body)
    {
      var k := CopyIsEntry(m1.entries, j);
    }
  }

  // A connection that was lost is remembered: the degraded flag is set with
  // it, and no call ever clears it.
  lemma {:induction false} MsgDoneInv(m: Mega, f: Faults, g: Faults, tag: Word)
    requires forall i :: 0 <= i < |m.entries| ==> m.entries[i].ok
    ensures var r := MsgDone(m, f, g, tag);
            && (m.degraded ==> r.m.degraded)
            && (r.thrown && m.entries != [] ==> r.m.degraded)
            && (!r.m.degraded ==> forall i :: 0 <= i < |m.entries| ==> r.m.entries[i].ok)
  {
    var r := MsgDone(m, f, g, tag);
    if r.thrown && m.entries != [] {
      assert m.entries[0].ok && !r.m.entries[0].ok;
    }
  }
}
