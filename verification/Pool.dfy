/** PoolClass and its Handle in the source's own form, for one thread; what the
    steps do under interleaving is in PoolSpec. */
module Pool {
  import opened PoolSpec
  import Spec = PoolSpec
  import opened PoolCalls

  class PoolClass {
    var avail: seq<Thing>
    var sem: nat
    var created: int
    var max: nat
    var maxspare: nat
    var next: Thing

    function State(): Spec.Pool
      reads this
    {
      Spec.Pool(avail, sem, created, max, maxspare, next)
    }

    constructor ()
      ensures State() == Empty(0, 5)
    {
      avail, sem, created, max, maxspare, next := [], 0, 0, 0, 5, 0;
    }

    method SetMax(newmax: nat)
      modifies this`max
      ensures State() == old(State()).(max := newmax)
    {
      max := newmax;
    }

    method SetMaxSpares(newmax: nat)
      modifies this`maxspare
      ensures State() == old(State()).(maxspare := newmax)
    {
      maxspare := newmax;
    }

    // The generator function: a thing that never existed before.
    method Create()
      modifies this
      ensures State() == Generate(old(State()))
    {
      created := created + 1;
      avail := [next] + avail;
      next := next + 1;
    }

    method Stock(number: nat)
      modifies this
      ensures State() == StockAlone(old(State()), number)
      ensures |avail| == number + |old(avail)| && avail[number..] == old(avail) && created == old(created) + number
    {
      for n := 0 to number
        invariant State() == StockAlone(old(State()), n)
      {
        Create();
        sem := sem + 1;
      }
      StockAdds(old(State()), number);
    }

    method Get() returns (r: Outcome)
      modifies this
      ensures (State(), r) == GetAlone(old(State()))
      ensures old(sem == |avail|) ==>
                && (r.Waits? <==> old(avail == [] && max > 0 && created >= max))
                && (old(avail) != [] ==> r == Handed(old(avail)[0]) && avail == old(avail)[1..])
    {
      if sem == |avail| {
        GetWaitsIff(State());
      }
      if avail == [] {
        if max == 0 || created < max {
          Create();
          sem := sem + 1;
        }
      }
      if sem == 0 || avail == [] {
        return Waits;
      }
      sem := sem - 1;
      r := Handed(avail[0]);
      avail := avail[1..];
    }

    method GiveBack(thing: Thing)
      modifies this
      ensures State() == GiveAlone(old(State()), thing)
      ensures avail == if old(|avail| < maxspare) then old(avail) + [thing] else old(avail)
    {
      if |avail| < maxspare {
        avail := avail + [thing];
        sem := sem + 1;
      } else {
        created := created - 1;
      }
    }
  }

  class Handle {
    const thing: Thing
    const parent: PoolClass
    var count: int

    constructor (thing: Thing, parent: PoolClass)
      ensures this.thing == thing && this.parent == parent && count == 1
    {
      this.thing, this.parent, count := thing, parent, 1;
    }

    // The copy takes over the count, and the original counts one up.
    constructor Copied(handle: Handle)
      modifies handle
      ensures thing == handle.thing && parent == handle.parent
      ensures count == old(handle.count) && handle.count == old(handle.count) + 1
    {
      thing, parent, count := handle.thing, handle.parent, handle.count;
      new;
      handle.count := handle.count + 1;
    }

    method Destroy()
      modifies this, parent
      ensures count == old(count) - 1
      ensures parent.State() == if count == 0 then GiveAlone(old(parent.State()), thing) else old(parent.State())
    {
      count := count - 1;
      if count == 0 {
        parent.GiveBack(thing);
      }
    }
  }
}
