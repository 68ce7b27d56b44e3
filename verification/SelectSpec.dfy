/** Choosing storage backends: one per redundancy group, the best of its group. */
module SelectSpec {
  import opened Disk

  datatype Target = Target(address: string, port: nat, group: int, priority: int,
                           up: bool, readonly: bool, kbfree: int, load: real)

  // The spread-disk and spread-load switches.
  datatype Spread = Spread(disk: bool, load: bool)

  predicate ByPrio(a: Target, b: Target, sp: Spread) {
    || a.priority < b.priority
    || (a.priority == b.priority && sp.disk && b.kbfree < a.kbfree)
    || (a.priority == b.priority && sp.load && a.load < b.load)
  }

  ghost predicate StrictWeakOrder(less: (Target, Target) -> bool) {
    && (forall a :: !less(a, a))
    && (forall a, b, c :: less(a, b) && less(b, c) ==> less(a, c))
    && (forall a, b, c :: !less(a, b) && !less(b, c) ==> !less(a, c))
  }

  // The comparison is an order that stable_sort may be given exactly when at
  // most one of the two switches is on.
  lemma {:induction false} ByPrioIsAnOrderIff(sp: Spread)
    ensures StrictWeakOrder((a, b) => ByPrio(a, b, sp)) <==> !(sp.disk && sp.load)
  {
    var less := (a, b) => ByPrio(a, b, sp);
    if sp.disk && sp.load {
      var a := Target("a", 1101, 1, 1, true, false, 200, 2.0);
      var b := Target("b", 1101, 1, 1, true, false, 100, 1.0);
      assert less(a, b) && less(b, a) && !less(a, a);
    }
  }

  predicate Usable(t: Target) { t.up && !t.readonly }

  predicate Unused(td: seq<Target>, used: seq<bool>, group: int)
    requires |td| == |used|
  {
    forall j | 0 <= j < |td| :: used[j] ==> td[j].group != group
  }

  predicate Eligible(td: seq<Target>, used: seq<bool>, i: nat)
    requires |td| == |used|
  {
    i < |td| && Usable(td[i]) && Unused(td, used, td[i].group)
  }

  // No usable server of the same group is preferred to this one.
  predicate BestOfGroup(td: seq<Target>, i: nat, sp: Spread)
    requires i < |td|
  {
    forall j | 0 <= j < |td| :: Usable(td[j]) && td[j].group == td[i].group ==> !ByPrio(td[j], td[i], sp)
  }

  // The documented preference: the smallest priority number wins, and among
  // equal ones the most free disk or the least load, as far as these count.
  predicate Preferred(td: seq<Target>, p: nat, sp: Spread)
    requires p < |td|
  {
    forall j | 0 <= j < |td| :: td[j].up && !td[j].readonly && td[j].group == td[p].group ==>
      && td[p].priority <= td[j].priority
      && (td[p].priority == td[j].priority && sp.disk ==> td[p].kbfree >= td[j].kbfree)
      && (td[p].priority == td[j].priority && sp.load ==> td[p].load <= td[j].load)
  }

  lemma {:induction false} BestIsPreferred(td: seq<Target>, p: nat, sp: Spread)
    requires p < |td|
    ensures BestOfGroup(td, p, sp) <==> Preferred(td, p, sp)
  {
    if BestOfGroup(td, p, sp) {
      forall j | 0 <= j < |td| && td[j].up && !td[j].readonly && td[j].group == td[p].group
        ensures !ByPrio(td[j], td[p], sp)
      {
        assert Usable(td[j]);
      }
    }
  }

  // What one call of getServer may return, whatever the random choices.
  predicate MayReturn(td: seq<Target>, used: seq<bool>, sp: Spread, r: Option<nat>)
    requires |td| == |used|
  {
    match r
    case None => forall i | 0 <= i < |td| :: !Eligible(td, used, i)
    case Some(i) => Eligible(td, used, i) && BestOfGroup(td, i, sp)
  }

  function Mark(used: seq<bool>, r: Option<nat>): seq<bool>
    requires r.Some? ==> r.value < |used|
  {
    match r case None => used case Some(i) => used[i := true]
  }

  function Nothing(n: nat): seq<bool> { seq(n, i => false) }

  // The answers of successive calls.
  predicate MayReturnAll(td: seq<Target>, used: seq<bool>, sp: Spread, rs: seq<Option<nat>>)
    requires |td| == |used|
    decreases |rs|
  {
    rs == [] || (MayReturn(td, used, sp, rs[0]) && MayReturnAll(td, Mark(used, rs[0]), sp, rs[1..]))
  }

  function Servers(rs: seq<Option<nat>>): seq<nat> {
    if rs == [] then [] else (if rs[0].Some? then [rs[0].value] else []) + Servers(rs[1..])
  }

  // Groups with a usable server from which none was taken yet.
  function OpenGroups(td: seq<Target>, used: seq<bool>): set<int>
    requires |td| == |used|
  {
    set i | 0 <= i < |td| && Eligible(td, used, i) :: td[i].group
  }

  function UsableGroups(td: seq<Target>): set<int> {
    set i | 0 <= i < |td| && td[i].up && !td[i].readonly :: td[i].group
  }

  predicate DistinctGroups(td: seq<Target>, ps: seq<nat>) {
    && (forall i | 0 <= i < |ps| :: ps[i] < |td|)
    && (forall i, j | 0 <= i < j < |ps| :: td[ps[i]].group != td[ps[j]].group)
  }

  function Min(a: nat, b: nat): nat { if a < b then a else b }

  lemma {:induction false} PicksFrom(td: seq<Target>, used: seq<bool>, sp: Spread, rs: seq<Option<nat>>)
    requires |td| == |used| && MayReturnAll(td, used, sp, rs)
    ensures var ps := Servers(rs);
            && |ps| == Min(|rs|, |OpenGroups(td, used)|)
            && DistinctGroups(td, ps)
            && forall i :: 0 <= i < |ps| ==> Eligible(td, used, ps[i]) && BestOfGroup(td, ps[i], sp)
    decreases |rs|
  {
    if rs != [] {
      var used1 := Mark(used, rs[0]);
      PicksFrom(td, used1, sp, rs[1..]);
      var rest := Servers(rs[1..]);
      if rs[0].Some? {
        var i := rs[0].value;
        assert OpenGroups(td, used1) == OpenGroups(td, used) - {td[i].group} by {
          forall j | 0 <= j < |td|
            ensures Eligible(td, used1, j) <==> Eligible(td, used, j) && td[j].group != td[i].group
          {
            if Eligible(td, used1, j) {
              assert used1[i];
              assert forall k :: 0 <= k < |td| && used[k] ==> used1[k];
            }
          }
        }
        assert td[i].group in OpenGroups(td, used);
        forall k | 0 <= k < |rest|
          ensures Eligible(td, used, rest[k]) && td[rest[k]].group != td[i].group
        {
          assert used1[i] && Eligible(td, used1, rest[k]);
          assert forall j :: 0 <= j < |td| && used[j] ==> used1[j];
        }
      } else {
        assert OpenGroups(td, used) == {};
      }
    }
  }

  // k successive calls return exactly min(k, groups with a usable server)
  // servers, in pairwise different groups, each up, writable and the best of
  // its group.
  lemma {:induction false} SuccessiveCalls(td: seq<Target>, sp: Spread, rs: seq<Option<nat>>)
    requires MayReturnAll(td, Nothing(|td|), sp, rs)
    ensures var ps := Servers(rs);
            && |ps| == Min(|rs|, |UsableGroups(td)|)
            && DistinctGroups(td, ps)
            && forall i :: 0 <= i < |ps| ==>
                 ps[i] < |td| && td[ps[i]].up && !td[ps[i]].readonly && Preferred(td, ps[i], sp)
  {
    PicksFrom(td, Nothing(|td|), sp, rs);
    forall i | 0 <= i < |Servers(rs)|
      ensures Preferred(td, Servers(rs)[i], sp)
    {
      BestIsPreferred(td, Servers(rs)[i], sp);
    }
    assert OpenGroups(td, Nothing(|td|)) == UsableGroups(td);
  }

  // The marks after a series of answers.
  function UsedAfter(used: seq<bool>, rs: seq<Option<nat>>): seq<bool>
    requires forall i :: 0 <= i < |rs| && rs[i].Some? ==> rs[i].value < |used|
    decreases |rs|
  {
    if rs == [] then used else UsedAfter(Mark(used, rs[0]), rs[1..])
  }

  lemma {:induction false} OneMore(td: seq<Target>, used: seq<bool>, sp: Spread, rs: seq<Option<nat>>, r: Option<nat>)
    requires |td| == |used| && MayReturnAll(td, used, sp, rs)
    requires forall i :: 0 <= i < |rs| && rs[i].Some? ==> rs[i].value < |used|
    requires |UsedAfter(used, rs)| == |td| && MayReturn(td, UsedAfter(used, rs), sp, r)
    ensures MayReturnAll(td, used, sp, rs + [r])
    ensures UsedAfter(used, rs + [r]) == Mark(UsedAfter(used, rs), r)
    ensures Servers(rs + [r]) == Servers(rs) + if r.Some? then [r.value] else []
    decreases |rs|
  {
    if rs == [] {
      assert (rs + [r])[1..] == [];
    } else {
      assert (rs + [r])[1..] == rs[1..] + [r];
      OneMore(td, Mark(used, rs[0]), sp, rs[1..], r);
    }
  }
}
