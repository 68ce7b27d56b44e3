/** Reading mail back: merging the listings of all backends, and passing a
    stored message to the reader line by line. */
module ListingSpec {
  import opened Text
  import opened Disk
  import opened DeliverySpec
  import BackendSpec
  import TalkerSpec
  import opened SelectSpec
  import MegaSpec

  datatype Msg = Msg(index: string, size: nat)

  // ------------------------------------------ std::map, ordered by its keys

  // operator< on std::string.
  predicate Less(a: string, b: string) {
    if b == "" then false
    else if a == "" then true
    else if a[0] != b[0] then a[0] < b[0]
    else Less(a[1..], b[1..])
  }

  lemma {:induction false} LessIsOrder(a: string, b: string)
    ensures !Less(a, a)
    ensures Less(a, b) ==> !Less(b, a)
    ensures a == b || Less(a, b) || Less(b, a)
  {
    if a != "" {
      LessIsOrder(a[1..], if b != "" then b[1..] else "");
      if b != "" && a[0] == b[0] && a[1..] == b[1..] {
        assert a == [a[0]] + a[1..] && b == [b[0]] + b[1..];
      }
    }
  }

  lemma {:induction false} LessTransitive(a: string, b: string, c: string)
    requires Less(a, b) && Less(b, c)
    ensures Less(a, c)
  {
    if a != "" && a[0] == b[0] && b[0] == c[0] {
      LessTransitive(a[1..], b[1..], c[1..]);
    }
  }

  // Strictly ascending, so that no index occurs twice.
  ghost predicate Ordered(ms: seq<Msg>) {
    forall i, j :: 0 <= i < j < |ms| ==> Less(ms[i].index, ms[j].index)
  }

  // msgs[index] = size.
  function Put(ms: seq<Msg>, m: Msg): seq<Msg> {
    if ms == [] then [m]
    else if ms[0].index == m.index then [m] + ms[1..]
    else if Less(m.index, ms[0].index) then [m] + ms
    else [ms[0]] + Put(ms[1..], m)
  }

  function Keys(ms: seq<Msg>): set<string> {
    set i | 0 <= i < |ms| :: ms[i].index
  }

  lemma {:induction false} PutKeys(ms: seq<Msg>, m: Msg)
    ensures Keys(Put(ms, m)) == Keys(ms) + {m.index}
    ensures m in Put(ms, m)
  {
    if ms == [] {
      assert Put(ms, m)[0] == m;
    } else {
      var rest := ms[1..];
      assert Keys(ms) == {ms[0].index} + Keys(rest) by { KeysCons(ms[0], rest); assert ms == [ms[0]] + rest; }
      if ms[0].index == m.index {
        KeysCons(m, rest);
        assert Put(ms, m)[0] == m;
      } else if Less(m.index, ms[0].index) {
        KeysCons(m, ms);
        assert Put(ms, m)[0] == m;
      } else {
        PutKeys(rest, m);
        KeysCons(ms[0], Put(rest, m));
        var i :| 0 <= i < |Put(rest, m)| && Put(rest, m)[i] == m;
        assert Put(ms, m)[i + 1] == m;
      }
    }
  }

  lemma {:induction false} KeysCons(m: Msg, ms: seq<Msg>)
    ensures Keys([m] + ms) == {m.index} + Keys(ms)
  {
    var all := [m] + ms;
    forall k
      ensures k in Keys(all) <==> k in {m.index} + Keys(ms)
    {
      if k in Keys(ms) {
        var i :| 0 <= i < |ms| && ms[i].index == k;
        assert all[i + 1].index == k;
      }
      if k == m.index {
        assert all[0].index == k;
      }
    }
  }

  lemma {:induction false} PutOrdered(ms: seq<Msg>, m: Msg)
    requires Ordered(ms)
    ensures Ordered(Put(ms, m))
  {
    if ms != [] && ms[0].index != m.index {
      LessIsOrder(m.index, ms[0].index);
      if Less(m.index, ms[0].index) {
        forall j | 0 < j < |ms|
          ensures Less(m.index, ms[j].index)
        {
          LessTransitive(m.index, ms[0].index, ms[j].index);
        }
      } else {
        var rest := ms[1..];
        PutOrdered(rest, m);
        PutKeys(rest, m);
        var put := Put(rest, m);
        forall j | 0 <= j < |put|
          ensures Less(ms[0].index, put[j].index)
        {
          assert put[j].index in Keys(put);
          if put[j].index != m.index {
            var k :| 0 <= k < |rest| && rest[k].index == put[j].index;
            assert rest[k] == ms[k + 1];
          }
        }
      }
    }
  }

  function PutAll(ms: seq<Msg>, view: seq<Msg>): seq<Msg> {
    if view == [] then ms else Put(PutAll(ms, view[..|view| - 1]), view[|view| - 1])
  }

  // What getMsgs returns for the listings of the backends, in their order.
  function Merge(views: seq<seq<Msg>>): seq<Msg> {
    if views == [] then [] else PutAll(Merge(views[..|views| - 1]), views[|views| - 1])
  }

  lemma {:induction false} PutAllKeys(ms: seq<Msg>, view: seq<Msg>)
    requires Ordered(ms)
    ensures Ordered(PutAll(ms, view)) && Keys(PutAll(ms, view)) == Keys(ms) + Keys(view)
  {
    if view == [] {
    } else {
      var front, last := view[..|view| - 1], view[|view| - 1];
      PutAllKeys(ms, front);
      PutOrdered(PutAll(ms, front), last);
      PutKeys(PutAll(ms, front), last);
      assert Keys(view) == Keys(front) + {last.index} by {
        forall k | k in Keys(view)
          ensures k in Keys(front) + {last.index}
        {
          var i :| 0 <= i < |view| && view[i].index == k;
          assert i < |front| ==> front[i].index == k;
        }
        assert forall i :: 0 <= i < |front| ==> view[i].index == front[i].index;
        assert view[|view| - 1].index in Keys(view);
      }
    }
  }

  // The merged list shows an index exactly once if some backend lists it, and
  // not at all otherwise.
  lemma {:induction false} MergeListsOnce(views: seq<seq<Msg>>)
    ensures Ordered(Merge(views))
    ensures forall k :: k in Keys(Merge(views)) <==> exists v :: 0 <= v < |views| && k in Keys(views[v])
  {
    if views == [] {
    } else {
      var front, last := views[..|views| - 1], views[|views| - 1];
      MergeListsOnce(front);
      PutAllKeys(Merge(front), last);
      forall k
        ensures k in Keys(Merge(views)) <==> exists v :: 0 <= v < |views| && k in Keys(views[v])
      {
        if k in Keys(Merge(front)) {
          var v :| 0 <= v < |front| && k in Keys(front[v]);
          assert views[v] == front[v];
        }
        if v :| 0 <= v < |views| && k in Keys(views[v]) {
          assert v < |front| ==> front[v] == views[v];
        }
      }
    }
  }

  lemma {:induction false} OrderedOnce(ms: seq<Msg>, i: nat, j: nat)
    requires Ordered(ms) && i < |ms| && j < |ms| && ms[i].index == ms[j].index
    ensures i == j
  {
    LessIsOrder(ms[i].index, ms[j].index);
  }

  // -------------------------------------------------------------- pigeonhole

  // A configured backend at the time of listing, and what its listing of the
  // mailbox answered.
  datatype Site = Site(target: Target, disk: Disk, view: seq<Msg>)

  // A listing shows exactly the files in cur.
  ghost predicate Truthful(s: Site, mbox: string) {
    forall k :: k in Keys(s.view) <==> Path(mbox, Cur, k) in s.disk.names
  }

  function UpViews(sites: seq<Site>): seq<seq<Msg>> {
    if sites == [] then []
    else UpViews(sites[..|sites| - 1]) + if sites[|sites| - 1].target.up then [sites[|sites| - 1].view] else []
  }

  lemma {:induction false} UpViewsHasAll(sites: seq<Site>, i: nat) returns (v: nat)
    requires i < |sites| && sites[i].target.up
    ensures v < |UpViews(sites)| && UpViews(sites)[v] == sites[i].view
  {
    var n := |sites| - 1;
    if i == n {
      v := |UpViews(sites[..n])|;
    } else {
      v := UpViewsHasAll(sites[..n], i);
    }
  }

  ghost function GroupsOf(es: seq<MegaSpec.Entry>): (r: set<int>)
    requires MegaSpec.AllStorage(es)
  {
    set i | 0 <= i < |es| :: es[i].link.target.group
  }

  lemma {:induction false} GroupCount(es: seq<MegaSpec.Entry>)
    requires MegaSpec.DifferentGroups(es)
    ensures |GroupsOf(es)| == |es|
  {
    if es != [] {
      var n := |es| - 1;
      GroupCount(es[..n]);
      assert GroupsOf(es) == GroupsOf(es[..n]) + {es[n].link.target.group} by {
        forall g | g in GroupsOf(es)
          ensures g in GroupsOf(es[..n]) + {es[n].link.target.group}
        {
          var i :| 0 <= i < |es| && es[i].link.target.group == g;
          assert i < n ==> es[..n][i] == es[i];
        }
        forall g | g in GroupsOf(es[..n])
          ensures g in GroupsOf(es)
        {
          var i :| 0 <= i < n && es[..n][i].link.target.group == g;
          assert es[i] == es[..n][i];
        }
        assert es[n].link.target.group in GroupsOf(es);
      }
      assert es[n].link.target.group !in GroupsOf(es[..n]);
    }
  }

  lemma {:induction false} SubsetOfSameSize(a: set<int>, b: set<int>)
    requires a <= b && |a| == |b|
    ensures a == b
  {
    assert b == a + (b - a);
    assert |b| == |a| + |b - a|;
  }

  // Pigeonhole: as many different groups as there are configured covers them.
  lemma {:induction false} EveryGroupIsCovered(es: seq<MegaSpec.Entry>, groups: set<int>, g: int) returns (i: nat)
    requires MegaSpec.DifferentGroups(es) && |es| == |groups| && g in groups
    requires forall k :: 0 <= k < |es| ==> es[k].link.target.group in groups
    ensures i < |es| && es[i].link.target.group == g
  {
    GroupCount(es);
    SubsetOfSameSize(GroupsOf(es), groups);
    i :| 0 <= i < |es| && es[i].link.target.group == g;
  }

  ghost predicate ListedOnce(ms: seq<Msg>, index: string) {
    exists i :: 0 <= i < |ms| && ms[i].index == index && forall j :: 0 <= j < |ms| && ms[j].index == index ==> j == i
  }

  lemma {:induction false} OrderedListsOnce(ms: seq<Msg>, index: string)
    requires Ordered(ms) && index in Keys(ms)
    ensures ListedOnce(ms, index)
  {
    var i :| 0 <= i < |ms| && ms[i].index == index;
    forall j | 0 <= j < |ms| && ms[j].index == index
      ensures j == i
    {
      OrderedOnce(ms, i, j);
    }
  }

  lemma {:induction false} ListedByOneIsListedOnce(sites: seq<Site>, j: nat, index: string)
    requires j < |sites| && sites[j].target.up && index in Keys(sites[j].view)
    ensures ListedOnce(Merge(UpViews(sites)), index)
  {
    var v := UpViewsHasAll(sites, j);
    MergeListsOnce(UpViews(sites));
    OrderedListsOnce(Merge(UpViews(sites)), index);
  }

  // The backend that acknowledged the message is one of the sites, and its
  // copy has not been deleted since.
  ghost predicate StillThere(en: MegaSpec.Entry, sites: seq<Site>, f: Path)
    requires en.link.Storage?
  {
    exists j :: 0 <= j < |sites| && sites[j].target.group == en.link.target.group && CurOf(f) in sites[j].disk.names
  }

  // With one copy per configured group, a message is listed exactly once under
  // its index whenever all backends of some group are up.
  lemma {:induction false} RedundantIsListedOnce(
      entries: seq<MegaSpec.Entry>, tag: Word, a: MegaSpec.Announced, names: seq<MegaSpec.Announced>, body: string,
      groups: set<int>, sites: seq<Site>, g: int)
    requires MegaSpec.Redundant(entries, |groups|, tag, names, body) && a in names
    requires forall i :: 0 <= i < |groups| ==> entries[i].link.target.group in groups
    requires forall i :: 0 <= i < |groups| ==> StillThere(entries[i], sites, TalkerSpec.FileOf(a, tag))
    requires g in groups && forall j :: 0 <= j < |sites| && sites[j].target.group == g ==> sites[j].target.up
    requires forall j :: 0 <= j < |sites| && sites[j].target.up ==> Truthful(sites[j], a.mbox)
    ensures ListedOnce(Merge(UpViews(sites)), TalkerSpec.NameOf(tag, a.num))
  {
    var f := TalkerSpec.FileOf(a, tag);
    var es := entries[..|groups|];
    assert forall k :: 0 <= k < |es| ==> es[k] == entries[k];
    var i := EveryGroupIsCovered(es, groups, g);
    assert StillThere(entries[i], sites, f);
    var j :| 0 <= j < |sites| && sites[j].target.group == g && CurOf(f) in sites[j].disk.names;
    ListedByOneIsListedOnce(sites, j, TalkerSpec.NameOf(tag, a.num));
  }

  // -------------------------------------------- the reading half of MegaTalker

  // d_megaData: what each backend that was up listed, in the order of backends.
  datatype View = View(site: nat, msgs: seq<Msg>)

  function Collect(sites: seq<Site>, n: nat): seq<View>
    requires n <= |sites|
  {
    if n == 0 then []
    else Collect(sites, n - 1) + if sites[n - 1].target.up then [View(n - 1, sites[n - 1].view)] else []
  }

  // The first backend that is up and whose listing fails; all, if none does.
  function FirstFailure(sites: seq<Site>, fails: nat -> bool, i: nat): (n: nat)
    requires i <= |sites|
    ensures i <= n <= |sites|
    decreases |sites| - i
  {
    if i == |sites| || (sites[i].target.up && fails(i)) then i else FirstFailure(sites, fails, i + 1)
  }

  function MsgsOf(views: seq<View>): seq<seq<Msg>> {
    seq(|views|, i requires 0 <= i < |views| => views[i].msgs)
  }

  function Hits(msgs: seq<Msg>, index: string, site: nat): seq<nat> {
    if msgs == [] then []
    else Hits(msgs[..|msgs| - 1], index, site) + if msgs[|msgs| - 1].index == index then [site] else []
  }

  // The backends a message may be fetched from.
  function Candidates(views: seq<View>, index: string): seq<nat> {
    if views == [] then []
    else
      var n := |views| - 1;
      Candidates(views[..n], index) + Hits(views[n].msgs, index, views[n].site)
  }

  lemma {:induction false} CollectIsUpViews(sites: seq<Site>, n: nat)
    requires n <= |sites|
    ensures MsgsOf(Collect(sites, n)) == UpViews(sites[..n])
  {
    if n > 0 {
      CollectIsUpViews(sites, n - 1);
      assert sites[..n][..n - 1] == sites[..n - 1];
      var less := Collect(sites, n - 1);
      assert MsgsOf(less + [View(n - 1, sites[n - 1].view)]) == MsgsOf(less) + [sites[n - 1].view];
    } else {
      assert MsgsOf([]) == [];
    }
  }

  // What getMsgs returns; None is the exception.
  function GetMsgs(sites: seq<Site>, fails: nat -> bool): Option<seq<Msg>> {
    var n := FirstFailure(sites, fails, 0);
    if n < |sites| then None else Some(Merge(MsgsOf(Collect(sites, n))))
  }

  ghost predicate AllListed(sites: seq<Site>, fails: nat -> bool) {
    forall i :: 0 <= i < |sites| && sites[i].target.up ==> !fails(i)
  }

  lemma {:induction false} FirstFailureIs(sites: seq<Site>, fails: nat -> bool, i: nat)
    requires i <= |sites|
    ensures var n := FirstFailure(sites, fails, i);
            && (n < |sites| ==> sites[n].target.up && fails(n))
            && forall j :: i <= j < n && sites[j].target.up ==> !fails(j)
    decreases |sites| - i
  {
    if i < |sites| && !(sites[i].target.up && fails(i)) {
      FirstFailureIs(sites, fails, i + 1);
    }
  }

  // It is the merge of what all backends that are up listed, if and only if
  // none of their listings fails.
  lemma {:induction false} GetMsgsMergesIff(sites: seq<Site>, fails: nat -> bool)
    ensures GetMsgs(sites, fails) == Some(Merge(UpViews(sites))) <==> AllListed(sites, fails)
    ensures GetMsgs(sites, fails).Some? <==> AllListed(sites, fails)
  {
    FirstFailureIs(sites, fails, 0);
    CollectIsUpViews(sites, |sites|);
    assert sites[..|sites|] == sites;
  }

  lemma {:induction false} HitsAre(msgs: seq<Msg>, index: string, site: nat)
    ensures index in Keys(msgs) <==> Hits(msgs, index, site) != []
    ensures forall c :: c in Hits(msgs, index, site) ==> c == site
  {
    if msgs != [] {
      var n := |msgs| - 1;
      var front := msgs[..n];
      HitsAre(front, index, site);
      assert msgs[n].index in Keys(msgs);
      if i :| 0 <= i < |msgs| && msgs[i].index == index {
        assert i < n ==> front[i].index == index;
      }
      if i :| 0 <= i < |front| && front[i].index == index {
        assert msgs[i].index == index;
      }
    }
  }

  lemma {:induction false} CandidatesAre(views: seq<View>, index: string)
    ensures forall c :: c in Candidates(views, index) <==>
              exists v :: 0 <= v < |views| && views[v].site == c && index in Keys(views[v].msgs)
  {
    if views != [] {
      var n := |views| - 1;
      var front := views[..n];
      CandidatesAre(front, index);
      HitsAre(views[n].msgs, index, views[n].site);
      var hits := Hits(views[n].msgs, index, views[n].site);
      forall c
        ensures c in Candidates(views, index) <==>
                exists v :: 0 <= v < |views| && views[v].site == c && index in Keys(views[v].msgs)
      {
        if v :| 0 <= v < |views| && views[v].site == c && index in Keys(views[v].msgs) {
          if v < n {
            assert front[v] == views[v];
          } else {
            assert hits != [] && hits[0] in hits;
          }
        }
        if c in Candidates(front, index) {
          var v :| 0 <= v < |front| && front[v].site == c && index in Keys(front[v].msgs);
          assert views[v] == front[v];
        }
      }
    }
  }

  // Every index on the merged list can be fetched from some backend that
  // listed it, and an index that is not on the list from none.
  lemma {:induction false} ListedMeansFetchable(views: seq<View>, index: string)
    ensures index in Keys(Merge(MsgsOf(views))) <==> Candidates(views, index) != []
    ensures forall c :: c in Candidates(views, index) ==>
              exists v :: 0 <= v < |views| && views[v].site == c && index in Keys(views[v].msgs)
  {
    CandidatesAre(views, index);
    MergeListsOnce(MsgsOf(views));
    if v :| 0 <= v < |views| && index in Keys(MsgsOf(views)[v]) {
      assert views[v].site in Candidates(views, index);
    }
    if Candidates(views, index) != [] {
      var c := Candidates(views, index)[0];
      assert c in Candidates(views, index);
      var v :| 0 <= v < |views| && views[v].site == c && index in Keys(views[v].msgs);
      assert index in Keys(MsgsOf(views)[v]);
    }
  }

  // ------------------------------------------------------------------ delMsg

  function DelLine(mbox: string, index: string): string { "del" + " " + mbox + " " + index + "\n" }

  lemma {:induction false} DelLineIsDel(s: BackendSpec.Session, mbox: string, index: string, e: Env)
    requires IsWord(mbox) && IsWord(index) && s.mode.Blank?
    ensures BackendSpec.Step(s, DelLine(mbox, index), e) ==
            if e.unlinkErr then BackendSpec.Answer(s, BackendSpec.Err)
            else BackendSpec.Answer(s.(store := s.store.(d := Unlink(s.store.d, Path(mbox, Cur, index)))), BackendSpec.Ok)
  {
    ThreeWords("del", mbox, index);
  }

  // One backend's share of a delete: the request is lost, or the backend
  // answers it, and the answer may be lost.
  datatype Wire = Done | NoRequest | NoReply

  function DeleteAt(s: Site, mbox: string, index: string, w: Wire, e: Env): (Site, bool) {
    if !s.target.up || w.NoRequest? then (s, false)
    else
      var session := BackendSpec.Start(s.disk, None).(mode := BackendSpec.Blank);
      var o := BackendSpec.Step(session, DelLine(mbox, index), e);
      (s.(disk := o.s.store.d), w.Done? && o.reply == BackendSpec.Ok)
  }

  // A delete goes to all backends; those it is not known to have reached are
  // written to the failure log.
  function Broadcast(sites: seq<Site>, mbox: string, index: string, ws: nat -> Wire, es: nat -> Env): (r: (seq<Site>, seq<nat>))
    ensures |r.0| == |sites|
  {
    if sites == [] then ([], [])
    else
      var n := |sites| - 1;
      var (rest, log) := Broadcast(sites[..n], mbox, index, ws, es);
      var (site, ok) := DeleteAt(sites[n], mbox, index, ws(n), es(n));
      (rest + [site], log + if ok then [] else [n])
  }

  // Afterwards the file is gone from every backend that is not in the log,
  // and no other file has changed anywhere.
  lemma {:induction false} DeletedUnlessLogged(sites: seq<Site>, mbox: Word, index: Word, ws: nat -> Wire, es: nat -> Env)
    ensures var (after, log) := Broadcast(sites, mbox, index, ws, es);
            && (forall i :: 0 <= i < |sites| ==> DeletedAt(sites[i], after[i], Path(mbox, Cur, index), i !in log))
            && (forall i :: i in log ==> i < |sites|)
  {
    if sites != [] {
      var n := |sites| - 1;
      DeletedUnlessLogged(sites[..n], mbox, index, ws, es);
      DeleteAtOne(sites[n], mbox, index, ws(n), es(n));
      var (after, log) := Broadcast(sites, mbox, index, ws, es);
      var (rest, less) := Broadcast(sites[..n], mbox, index, ws, es);
      forall i | 0 <= i < n
        ensures DeletedAt(sites[i], after[i], Path(mbox, Cur, index), i !in log)
      {
        assert DeletedAt(sites[..n][i], rest[i], Path(mbox, Cur, index), i !in less);
      }
    }
  }

  // The log names exactly the backends that are down, that the request or its
  // answer did not pass, or whose unlink failed.
  lemma {:induction false} LoggedIff(sites: seq<Site>, mbox: Word, index: Word, ws: nat -> Wire, es: nat -> Env, i: nat)
    requires i < |sites|
    ensures i in Broadcast(sites, mbox, index, ws, es).1 <==> !(sites[i].target.up && ws(i).Done? && !es(i).unlinkErr)
  {
    var n := |sites| - 1;
    DeletedUnlessLogged(sites[..n], mbox, index, ws, es);
    DeleteWorksIff(sites[n], mbox, index, ws(n), es(n));
    if i < n {
      LoggedIff(sites[..n], mbox, index, ws, es, i);
    }
  }

  lemma {:induction false} DeleteWorksIff(s: Site, mbox: Word, index: Word, w: Wire, e: Env)
    ensures DeleteAt(s, mbox, index, w, e).1 <==> s.target.up && w.Done? && !e.unlinkErr
  {
    DelLineIsDel(BackendSpec.Start(s.disk, None).(mode := BackendSpec.Blank), mbox, index, e);
  }

  // Nothing else has changed, and if the delete is known to have worked the
  // file is gone.
  ghost predicate DeletedAt(before: Site, after: Site, f: Path, known: bool) {
    && after.target == before.target
    && after.disk.names - {f} == before.disk.names - {f} && after.disk.data == before.disk.data
    && (f in after.disk.names ==> !known && f in before.disk.names && after.disk.names[f] == before.disk.names[f])
  }

  lemma {:induction false} DeleteAtOne(s: Site, mbox: Word, index: Word, w: Wire, e: Env)
    ensures var (after, ok) := DeleteAt(s, mbox, index, w, e); DeletedAt(s, after, Path(mbox, Cur, index), ok)
  {
    DelLineIsDel(BackendSpec.Start(s.disk, None).(mode := BackendSpec.Blank), mbox, index, e);
  }

  // With no entry in the log, and truthful listings after the delete, the
  // message is on nobody's list any more.
  lemma {:induction false} DeletedIsNotListed(sites: seq<Site>, mbox: Word, index: Word, ws: nat -> Wire, es: nat -> Env,
                                              later: seq<Site>, fails: nat -> bool)
    requires Broadcast(sites, mbox, index, ws, es).1 == []
    requires |later| == |sites|
    requires forall i :: 0 <= i < |later| ==>
               later[i].disk == Broadcast(sites, mbox, index, ws, es).0[i].disk && (later[i].target.up ==> Truthful(later[i], mbox))
    ensures var msgs := GetMsgs(later, fails); msgs.Some? ==> index !in Keys(msgs.value)
  {
    GetMsgsMergesIff(later, fails);
    DeletedUnlessLogged(sites, mbox, index, ws, es);
    UpViewsAreViews(later);
    MergeListsOnce(UpViews(later));
    forall v | 0 <= v < |UpViews(later)|
      ensures index !in Keys(UpViews(later)[v])
    {
      assert ViewOf(later, UpViews(later)[v]);
      var i :| 0 <= i < |later| && later[i].target.up && later[i].view == UpViews(later)[v];
      assert Truthful(later[i], mbox);
      var after := Broadcast(sites, mbox, index, ws, es).0;
      assert DeletedAt(sites[i], after[i], Path(mbox, Cur, index), true);
    }
  }

  ghost predicate ViewOf(sites: seq<Site>, view: seq<Msg>) {
    exists i :: 0 <= i < |sites| && sites[i].target.up && sites[i].view == view
  }

  lemma {:induction false} UpViewsAreViews(sites: seq<Site>)
    ensures forall v :: 0 <= v < |UpViews(sites)| ==> ViewOf(sites, UpViews(sites)[v])
  {
    if sites != [] {
      var n := |sites| - 1;
      var front := sites[..n];
      UpViewsAreViews(front);
      forall v | 0 <= v < |UpViews(sites)|
        ensures ViewOf(sites, UpViews(sites)[v])
      {
        if v < |UpViews(front)| {
          assert ViewOf(front, UpViews(front)[v]);
          var i :| 0 <= i < |front| && front[i].target.up && front[i].view == UpViews(front)[v];
          assert sites[i] == front[i];
        } else {
          assert sites[n].view == UpViews(sites)[v];
        }
      }
    }
  }

  // ---------------------------------------------------------------------- ls

  function LsLine(mbox: string): string { "ls" + " " + mbox + "\n" }

  // The entries of the reply to "ls", in the order of the directory.
  ghost predicate Enumerates(view: seq<Msg>, files: map<string, nat>) {
    && (forall i :: 0 <= i < |view| ==> view[i].index in files && files[view[i].index] == view[i].size)
    && (forall k :: k in files ==> k in Keys(view))
  }

  lemma {:induction false} LsIsTruthful(site: Site, mbox: Word, e: Env, files: map<string, nat>)
    requires BackendSpec.Step(BackendSpec.Start(site.disk, None).(mode := BackendSpec.Blank), LsLine(mbox), e).reply ==
             BackendSpec.Listing(files)
    requires Enumerates(site.view, files)
    ensures Truthful(site, mbox)
    ensures forall i :: 0 <= i < |site.view| ==>
              var text := Lookup(site.disk, Path(mbox, Cur, site.view[i].index));
              text.Some? && site.view[i].size == |text.value|
  {
    TwoWords("ls", mbox);
    assert files == BackendSpec.ListMbox(site.disk, mbox);
    forall p | p in site.disk.names && p.mbox == mbox && p.stage.Cur?
      ensures p == Path(mbox, Cur, p.index)
    {
    }
  }
}
