/** ServerSelect in the source's own form: maps built in loops, a random group,
    a shuffle, a stable sort, and the used mark. */
module Select {
  import opened Disk
  import opened SelectSpec

  // random_shuffle: any permutation.
  method Shuffle(s: seq<nat>) returns (r: seq<nat>)
    ensures multiset(r) == multiset(s)
  {
    r := [];
    for i := 0 to |s|
      invariant multiset(r) == multiset(s[..i])
    {
      var p :| 0 <= p <= |r|;
      assert r == r[..p] + r[p..];
      assert s[..i + 1] == s[..i] + [s[i]];
      r := r[..p] + [s[i]] + r[p..];
    }
    assert s[..|s|] == s;
  }

  ghost predicate Sorted(td: seq<Target>, s: seq<nat>, sp: Spread) {
    && (forall i :: 0 <= i < |s| ==> s[i] < |td|)
    && (forall i, j :: 0 <= i < j < |s| ==> !ByPrio(td[s[j]], td[s[i]], sp))
  }

  lemma {:induction false} NegTransitive(a: Target, b: Target, c: Target, sp: Spread)
    requires !(sp.disk && sp.load) && !ByPrio(a, b, sp) && !ByPrio(b, c, sp)
    ensures !ByPrio(a, c, sp)
  {
  }

  lemma {:induction false} Asymmetric(a: Target, b: Target, sp: Spread)
    requires !(sp.disk && sp.load) && ByPrio(a, b, sp)
    ensures !ByPrio(b, a, sp)
  {
  }

  lemma {:induction false} InsertKeepsSorted(td: seq<Target>, r: seq<nat>, p: nat, x: nat, sp: Spread)
    requires !(sp.disk && sp.load) && Sorted(td, r, sp) && x < |td| && p <= |r|
    requires forall k :: p <= k < |r| ==> ByPrio(td[x], td[r[k]], sp)
    requires p > 0 ==> !ByPrio(td[x], td[r[p - 1]], sp)
    ensures Sorted(td, r[..p] + [x] + r[p..], sp)
  {
    forall k | p <= k < |r|
      ensures !ByPrio(td[r[k]], td[x], sp)
    {
      Asymmetric(td[x], td[r[k]], sp);
    }
    forall k | 0 <= k < p
      ensures !ByPrio(td[x], td[r[k]], sp)
    {
      if k < p - 1 {
        NegTransitive(td[x], td[r[p - 1]], td[r[k]], sp);
      }
    }
  }

  // stable_sort with byPrio.
  method StableSort(td: seq<Target>, s: seq<nat>, sp: Spread) returns (r: seq<nat>)
    requires forall i :: 0 <= i < |s| ==> s[i] < |td|
    requires !(sp.disk && sp.load)
    ensures multiset(r) == multiset(s) && Sorted(td, r, sp)
  {
    r := [];
    for i := 0 to |s|
      invariant multiset(r) == multiset(s[..i]) && Sorted(td, r, sp)
    {
      var p := |r|;
      while p > 0 && ByPrio(td[s[i]], td[r[p - 1]], sp)
        invariant 0 <= p <= |r|
        invariant forall k :: p <= k < |r| ==> ByPrio(td[s[i]], td[r[k]], sp)
      {
        p := p - 1;
      }
      InsertKeepsSorted(td, r, p, s[i], sp);
      assert s[..i + 1] == s[..i] + [s[i]];
      assert r == r[..p] + r[p..];
      r := r[..p] + [s[i]] + r[p..];
    }
    assert s[..|s|] == s;
  }

  class ServerSelect {
    const td: seq<Target>
    const spread: Spread
    var used: seq<bool>
    ghost var answers: seq<Option<nat>> // of the calls so far

    ghost predicate Valid()
      reads this
    {
      && MayReturnAll(td, Nothing(|td|), spread, answers)
      && (forall i :: 0 <= i < |answers| && answers[i].Some? ==> answers[i].value < |td|)
      && used == UsedAfter(Nothing(|td|), answers) && |used| == |td|
    }

    constructor (td: seq<Target>, spread: Spread)
      ensures this.td == td && this.spread == spread
      ensures Valid() && answers == []
    {
      this.td, this.spread := td, spread;
      used := Nothing(|td|);
      answers := [];
    }

    method GetServer() returns (r: Option<nat>)
      requires Valid()
      requires !(spread.disk && spread.load)
      modifies this
      ensures MayReturn(td, old(used), spread, r)
      ensures used == Mark(old(used), r)
      ensures Valid() && answers == old(answers) + [r]
      ensures Servers(answers) == old(Servers(answers)) + if r.Some? then [r.value] else []
      ensures r.Some? ==> r.value < |td| && td[r.value].up && !td[r.value].readonly && Preferred(td, r.value, spread)
      ensures r.None? ==> forall i :: 0 <= i < |td| && td[i].up && !td[i].readonly ==>
                exists j :: 0 <= j < |td| && old(used)[j] && td[j].group == td[i].group
    {
      r := PickServer();
      if r.Some? {
        BestIsPreferred(td, r.value, spread);
      } else {
        forall i | 0 <= i < |td| && td[i].up && !td[i].readonly
          ensures exists j :: 0 <= j < |td| && old(used)[j] && td[j].group == td[i].group
        {
          assert !Eligible(td, old(used), i);
        }
      }
      OneMore(td, Nothing(|td|), spread, answers, r);
      answers := answers + [r];
    }

    method PickServer() returns (r: Option<nat>)
      requires |used| == |td|
      requires !(spread.disk && spread.load)
      modifies this`used
      ensures MayReturn(td, old(used), spread, r)
      ensures used == Mark(old(used), r)
    {
      var usedGroup: set<int> := {};
      for i := 0 to |td|
        invariant used == old(used)
        invariant forall g :: g in usedGroup <==> exists j :: 0 <= j < i && used[j] && td[j].group == g
      {
        if used[i] {
          usedGroup := usedGroup + {td[i].group};
        }
      }
      var perGroup: map<int, seq<nat>>, groups: seq<int> := map[], [];
      for i := 0 to |td|
        invariant used == old(used)
        invariant forall g :: g in perGroup ==> g in groups && perGroup[g] != []
        invariant forall n :: 0 <= n < |groups| ==> groups[n] in perGroup
        invariant forall g, x :: g in perGroup && x in perGroup[g] ==> Eligible(td, used, x) && td[x].group == g
        invariant forall x :: 0 <= x < i && Eligible(td, used, x) ==> td[x].group in perGroup && x in perGroup[td[x].group]
      {
        var g := td[i].group;
        if Usable(td[i]) && g !in usedGroup {
          if g !in perGroup {
            groups := groups + [g];
          }
          perGroup := perGroup[g := (if g in perGroup then perGroup[g] else []) + [i]];
        }
      }
      if groups == [] {
        return None;
      }
      var cGroup :| 0 <= cGroup < |groups|; // random()%perGroup.size()
      var g := groups[cGroup];
      var candidates := perGroup[g];
      var shuffled := Shuffle(candidates);
      forall i | 0 <= i < |shuffled|
        ensures Eligible(td, used, shuffled[i]) && td[shuffled[i]].group == g
      {
        assert shuffled[i] in multiset(shuffled);
        assert shuffled[i] in multiset(candidates);
        assert shuffled[i] in perGroup[g];
      }
      var sorted := StableSort(td, shuffled, spread);
      assert |sorted| == |multiset(sorted)| == |multiset(candidates)| == |candidates|;
      var best := sorted[0];
      assert best in multiset(sorted);
      forall j | 0 <= j < |td| && Usable(td[j]) && td[j].group == td[best].group
        ensures !ByPrio(td[j], td[best], spread)
      {
        assert Eligible(td, used, j);
        assert j in multiset(candidates);
        assert j in multiset(sorted);
        assert j in sorted;
        var k :| 0 <= k < |sorted| && sorted[k] == j;
      }
      used := used[best := true];
      r := Some(best);
    }
  }
}
