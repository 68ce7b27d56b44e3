/** The sizes on the merged list: which backend's word counts, and what the
    numbers of LIST and STAT are. */
module ListedSizes {
  import opened Text
  import opened Disk
  import opened DeliverySpec
  import BackendSpec
  import opened ListingSpec
  import opened PopSpec

  // The last entry of the views, in their order, that names this index is
  // entry i of view v.
  ghost predicate NamedLast(views: seq<seq<Msg>>, index: string, v: nat, i: nat) {
    && v < |views| && i < |views[v]| && views[v][i].index == index
    && (forall j :: i < j < |views[v]| ==> views[v][j].index != index)
    && forall w, j :: v < w < |views| && 0 <= j < |views[w]| ==> views[w][j].index != index
  }

  ghost predicate SizeOfLast(views: seq<seq<Msg>>, m: Msg) {
    exists v: nat, i: nat :: NamedLast(views, m.index, v, i) && views[v][i].size == m.size
  }

  // ----------------------------------------------------------- the merged list

  lemma {:induction false} PutEntries(ms: seq<Msg>, m: Msg)
    requires Ordered(ms)
    ensures forall x :: x in Put(ms, m) ==> x == m || (x in ms && x.index != m.index)
  {
    if ms != [] {
      var rest := ms[1..];
      assert ms == [ms[0]] + rest;
      forall k | 0 <= k < |rest|
        ensures rest[k].index != ms[0].index
      {
        LessIsOrder(ms[0].index, ms[k + 1].index);
      }
      if ms[0].index != m.index && Less(m.index, ms[0].index) {
        forall k | 0 <= k < |ms|
          ensures ms[k].index != m.index
        {
          if k > 0 {
            LessTransitive(m.index, ms[0].index, ms[k].index);
          }
          LessIsOrder(m.index, ms[k].index);
        }
      } else if ms[0].index != m.index {
        PutEntries(rest, m);
      }
    }
  }

  ghost predicate NoneNames(view: seq<Msg>, index: string) { forall i :: 0 <= i < |view| ==> view[i].index != index }

  // Of the entries of one view, the last that names the index counts.
  lemma {:induction false} PutAllEntries(ms: seq<Msg>, view: seq<Msg>, x: Msg)
    requires Ordered(ms) && x in PutAll(ms, view)
    ensures LastIn(view, x) || (x in ms && NoneNames(view, x.index))
  {
    if view != [] {
      var n := |view| - 1;
      PutAllKeys(ms, view[..n]);
      PutEntries(PutAll(ms, view[..n]), view[n]);
      if x == view[n] {
        assert LastAt(view, x, n);
      } else {
        PutAllEntries(ms, view[..n], x);
        OneEntryMore(ms, view, x);
      }
    }
  }

  lemma {:induction false} OneEntryMore(ms: seq<Msg>, view: seq<Msg>, x: Msg)
    requires view != [] && x.index != view[|view| - 1].index
    requires LastIn(view[..|view| - 1], x) || (x in ms && NoneNames(view[..|view| - 1], x.index))
    ensures LastIn(view, x) || (x in ms && NoneNames(view, x.index))
  {
    var n := |view| - 1;
    var front := view[..n];
    assert forall i :: 0 <= i < n ==> view[i] == front[i];
    if LastIn(front, x) {
      var i: nat :| LastAt(front, x, i);
      assert LastAt(view, x, i);
    }
  }

  ghost predicate LastAt(view: seq<Msg>, x: Msg, i: nat) {
    i < |view| && view[i] == x && forall j :: i < j < |view| ==> view[j].index != x.index
  }

  ghost predicate LastIn(view: seq<Msg>, x: Msg) { exists i: nat :: LastAt(view, x, i) }

  lemma {:induction false} LastOfLast(views: seq<seq<Msg>>, x: Msg)
    requires views != [] && LastIn(views[|views| - 1], x)
    ensures SizeOfLast(views, x)
  {
    var n := |views| - 1;
    var i: nat :| LastAt(views[n], x, i);
    assert NamedLast(views, x.index, n, i);
  }

  lemma {:induction false} LastOfFront(views: seq<seq<Msg>>, x: Msg)
    requires views != [] && SizeOfLast(views[..|views| - 1], x)
    requires NoneNames(views[|views| - 1], x.index)
    ensures SizeOfLast(views, x)
  {
    var n := |views| - 1;
    var front := views[..n];
    var v: nat, i: nat :| NamedLast(front, x.index, v, i) && front[v][i].size == x.size;
    assert front[v] == views[v];
    forall w, j | v < w < |views| && 0 <= j < |views[w]|
      ensures views[w][j].index != x.index
    {
      assert w < n ==> front[w] == views[w];
    }
    assert NamedLast(views, x.index, v, i);
  }

  // Every entry of the merged list carries the size of the last entry, in the
  // order of the backends and of their replies, that names its index.
  lemma {:induction false} MergedSizes(views: seq<seq<Msg>>)
    ensures forall x :: x in Merge(views) ==> SizeOfLast(views, x)
  {
    if views != [] {
      var n := |views| - 1;
      var front := views[..n];
      MergedSizes(front);
      MergeListsOnce(front);
      forall x | x in Merge(views)
        ensures SizeOfLast(views, x)
      {
        PutAllEntries(Merge(front), views[n], x);
        if LastIn(views[n], x) {
          LastOfLast(views, x);
        } else {
          LastOfFront(views, x);
        }
      }
    }
  }

  // ------------------------------------------------------ what getMsgs returns

  // A listing shows every file in cur with the length of its text.
  ghost predicate TruthfulSizes(s: Site, mbox: string) {
    && Truthful(s, mbox)
    && forall i :: 0 <= i < |s.view| ==>
         Lookup(s.disk, Path(mbox, Cur, s.view[i].index)).Some? &&
         s.view[i].size == |Lookup(s.disk, Path(mbox, Cur, s.view[i].index)).value|
  }

  lemma {:induction false} LsIsTruthfulInSize(site: Site, mbox: Word, e: Env, files: map<string, nat>)
    requires BackendSpec.Step(BackendSpec.Start(site.disk, None).(mode := BackendSpec.Blank), LsLine(mbox), e).reply ==
             BackendSpec.Listing(files)
    requires Enumerates(site.view, files)
    ensures TruthfulSizes(site, mbox)
  {
    LsIsTruthful(site, mbox, e, files);
  }

  // Backend j has a file for the message, and its length is the size.
  ghost predicate LengthAt(sites: seq<Site>, mbox: string, m: Msg, j: nat) {
    && j < |sites| && sites[j].target.up
    && Lookup(sites[j].disk, Path(mbox, Cur, m.index)).Some?
    && m.size == |Lookup(sites[j].disk, Path(mbox, Cur, m.index)).value|
  }

  // The last backend that is up and has the file.
  ghost predicate LastHolder(sites: seq<Site>, mbox: string, index: string, j: nat) {
    forall k :: j < k < |sites| && sites[k].target.up ==> Path(mbox, Cur, index) !in sites[k].disk.names
  }

  lemma {:induction false} ViewAt(sites: seq<Site>, v: nat) returns (j: nat)
    requires v < |UpViews(sites)|
    ensures j < |sites| && sites[j].target.up && sites[j].view == UpViews(sites)[v]
    ensures forall k :: j < k < |sites| && sites[k].target.up ==> ViewBehind(sites, v, k)
  {
    var n := |sites| - 1;
    var front := sites[..n];
    if v < |UpViews(front)| {
      j := ViewAt(front, v);
      forall k | j < k < |sites| && sites[k].target.up
        ensures ViewBehind(sites, v, k)
      {
        if k < n {
          assert ViewBehind(front, v, k);
          var w :| v < w < |UpViews(front)| && UpViews(front)[w] == front[k].view;
          assert UpViews(sites)[w] == sites[k].view;
        } else {
          assert UpViews(sites)[|UpViews(front)|] == sites[n].view;
        }
      }
    } else {
      j := n;
    }
  }

  ghost predicate ViewBehind(sites: seq<Site>, v: nat, k: nat)
    requires k < |sites|
  {
    exists w :: v < w < |UpViews(sites)| && UpViews(sites)[w] == sites[k].view
  }

  // Every message that getMsgs returns has the size of its text on the last
  // backend that is up and has it.
  lemma {:induction false} GotSizes(sites: seq<Site>, fails: nat -> bool, mbox: string)
    requires forall j :: 0 <= j < |sites| && sites[j].target.up ==> TruthfulSizes(sites[j], mbox)
    ensures var msgs := GetMsgs(sites, fails);
            msgs.Some? ==> forall x :: x in msgs.value ==>
              exists j: nat :: LengthAt(sites, mbox, x, j) && LastHolder(sites, mbox, x.index, j)
  {
    GetMsgsMergesIff(sites, fails);
    var views := UpViews(sites);
    MergedSizes(views);
    if GetMsgs(sites, fails).Some? {
      forall x | x in Merge(views)
        ensures exists j: nat :: LengthAt(sites, mbox, x, j) && LastHolder(sites, mbox, x.index, j)
      {
        var v: nat, i: nat :| NamedLast(views, x.index, v, i) && views[v][i].size == x.size;
        var j := ViewAt(sites, v);
        assert TruthfulSizes(sites[j], mbox) && sites[j].view[i] == views[v][i];
        assert LengthAt(sites, mbox, x, j);
        forall k | j < k < |sites| && sites[k].target.up
          ensures Path(mbox, Cur, x.index) !in sites[k].disk.names
        {
          assert ViewBehind(sites, v, k);
          var w :| v < w < |views| && views[w] == sites[k].view;
          assert x.index !in Keys(views[w]);
          assert Truthful(sites[k], mbox);
        }
      }
    }
  }

  // ------------------------------------------------------- what POP3 reports

  // The message list of a session shows a listing, message by message.
  ghost predicate Shows(msgs: seq<MsgDatum>, got: seq<Msg>) {
    |msgs| == |got| && forall i :: 0 <= i < |msgs| ==> msgs[i].fname == got[i].index && msgs[i].size == got[i].size
  }

  // The list comes from an attempt at listing that this line made.
  ghost predicate FromListing(s: Pop, l: Listing) {
    var got := GetMsgs(l.sites, l.fails);
    got.Some? && Shows(s.msgs, got.value)
  }

  ghost predicate ListedBy(s: Pop, ls: seq<Line>, k: nat) {
    k < |ls| && (FromListing(s, ls[k].e.list1) || FromListing(s, ls[k].e.list2))
  }

  lemma {:induction false} ScanShows(s: Pop, l: Listing)
    requires Sound(s) && !s.scanned
    ensures Scan(s, l).1 ==> FromListing(Scan(s, l).0, l)
  {
  }

  lemma {:induction false} RestShows(s: Pop, args: seq<string>, l: Listing)
    requires Sound(s) && !s.scanned
    ensures var s1 := RestCommands(s, args, l).0; s1.scanned ==> FromListing(s1, l)
  {
    ScanShows(s, l);
  }

  lemma {:induction false} LoginShows(s: Pop, user: string, word: string, e: PopEnv)
    requires Sound(s) && !s.login && !s.scanned
    ensures var s1 := LoginThenRest(s, user, word, e).0; s1.scanned ==> FromListing(s1, e.list1) || FromListing(s1, e.list2)
  {
    var s2 := Login(s, user, e).0;
    if s2.login && Login(s, user, e).1.None? {
      RestShows(s2, [word], e.list2);
    }
  }

  lemma {:induction false} StepShows(s: Pop, l: Line)
    requires Sound(s) && !s.scanned
    ensures var s1 := Step(s, l.text, l.e).0; s1.scanned ==> FromListing(s1, l.e.list1) || FromListing(s1, l.e.list2)
  {
    match Parse(l.text) {
      case Rest(args) => RestShows(s, args, l.e.list1);
      case Control(args) => if !l.e.local { RestShows(s, args, l.e.list1); }
      case Apop(user, digest) => if !s.login && user != "" && digest != "" { LoginShows(s, user, "APOP", l.e); }
      case Pass(_) => if !s.login && s.user != "" { LoginShows(s, s.user, "PASS", l.e); }
      case _ =>
    }
  }

  lemma {:induction false} RunShows(s: Pop, ls: seq<Line>)
    requires Sound(s) && !s.scanned && Run(s, ls).scanned
    ensures exists k: nat :: ListedBy(Run(s, ls), ls, k)
    decreases |ls|
  {
    var s1, end := Step(s, ls[0].text, ls[0].e).0, Run(s, ls);
    StepSound(s, ls[0].text, ls[0].e);
    if s1.scanned {
      StepShows(s, ls[0]);
      RunSound(s1, ls[1..]);
      assert ListedBy(end, ls, 0);
    } else {
      RunShows(s1, ls[1..]);
      var k: nat :| ListedBy(end, ls[1..], k);
      assert ls[1..][k] == ls[k + 1];
      assert ListedBy(end, ls, k + 1);
    }
  }

  // In every session the message list, once it is there, is what one of its
  // attempts at getMsgs returned, name by name and size by size.
  lemma {:induction false} ListIsWhatWasGot(ls: seq<Line>)
    ensures Run(NOBODY, ls).scanned ==> exists k: nat :: ListedBy(Run(NOBODY, ls), ls, k)
  {
    if Run(NOBODY, ls).scanned {
      RunShows(NOBODY, ls);
    }
  }

  function TotalOf(got: seq<Msg>): nat { if got == [] then 0 else TotalOf(got[..|got| - 1]) + got[|got| - 1].size }

  // While nothing is marked, STAT is the number of messages and the sum of
  // their sizes, and LIST shows each under its number, first to last.
  lemma {:induction false} StatOfListing(msgs: seq<MsgDatum>, got: seq<Msg>)
    requires Shows(msgs, got) && forall i :: 0 <= i < |msgs| ==> !msgs[i].deleted
    ensures StatOf(msgs) == (|got|, TotalOf(got))
    ensures |ListLines(msgs)| == |got| && forall i :: 0 <= i < |got| ==> ListLines(msgs)[i] == (i + 1, got[i].size)
    ensures |UidlLines(msgs)| == |got| && forall i :: 0 <= i < |got| ==> UidlLines(msgs)[i] == (i + 1, got[i].index)
  {
    if msgs != [] {
      var n := |msgs| - 1;
      StatOfListing(msgs[..n], got[..n]);
    }
  }
}
