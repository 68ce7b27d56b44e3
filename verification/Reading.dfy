/** The reading half of MegaTalker in the source's own form: listing a mailbox
    on every backend, fetching a message from one of those that listed it, and
    deleting it from all of them. */
module Reading {
  import opened Text
  import opened Disk
  import opened DeliverySpec
  import opened ListingSpec
  import RetrieveSpec
  import ListedSizes

  // What a connection for one message meets at each backend: None when it
  // fails, or the status line is bad; else the stream after the status line.
  type Streams = nat -> Option<string>

  class MailReader {
    var mbox: string
    var views: seq<View> // d_megaData

    constructor ()
      ensures mbox == "" && views == []
    {
      mbox, views := "", [];
    }

    // None is the exception "Unable to list mailbox".
    method GetMsgs(mbox: string, sites: seq<Site>, fails: nat -> bool) returns (data: Option<seq<Msg>>)
      modifies this
      ensures this.mbox == mbox
      ensures views == Collect(sites, FirstFailure(sites, fails, 0)) && data == ListingSpec.GetMsgs(sites, fails)
      ensures data.Some? ==> forall x :: x in data.value ==> ListedSizes.SizeOfLast(UpViews(sites), x)
    {
      this.mbox := mbox;
      views := [];
      for i := 0 to |sites|
        invariant views == Collect(sites, i) && this.mbox == mbox
        invariant FirstFailure(sites, fails, 0) == FirstFailure(sites, fails, i)
      {
        if sites[i].target.up {
          if fails(i) {
            return None;
          }
          views := views + [View(i, sites[i].view)];
        }
      }
      var msgs := MergeViews();
      data := Some(msgs);
      GetMsgsMergesIff(sites, fails);
      ListedSizes.MergedSizes(UpViews(sites));
    }

    method MergeViews() returns (msgs: seq<Msg>)
      ensures msgs == Merge(MsgsOf(views))
    {
      ghost var all := MsgsOf(views);
      msgs := [];
      for i := 0 to |views|
        invariant msgs == Merge(all[..i])
      {
        assert all[..i + 1][..i] == all[..i];
        var view := views[i].msgs;
        for j := 0 to |view|
          invariant msgs == PutAll(Merge(all[..i]), view[..j])
        {
          assert view[..j + 1][..j] == view[..j];
          msgs := Put(msgs, view[j]);
        }
        assert view[..|view|] == view;
      }
      assert all[..|views|] == all;
    }

    method FindCandidates(index: string) returns (c: seq<nat>)
      ensures c == Candidates(views, index)
    {
      c := [];
      for i := 0 to |views|
        invariant c == Candidates(views[..i], index)
      {
        assert views[..i + 1][..i] == views[..i];
        var view := views[i].msgs;
        for j := 0 to |view|
          invariant c == Candidates(views[..i], index) + Hits(view[..j], index, views[i].site)
        {
          assert view[..j + 1][..j] == view[..j];
          if view[j].index == index {
            c := c + [views[i].site];
          }
        }
        assert view[..|view|] == view;
      }
      assert views[..|views|] == views;
    }

    // None is the exception "Index unavailable", before anything is written.
    // The false flag is the exception of a connection that failed or broke off.
    method BlastMessage(index: string, length: nat, limit: int, streams: Streams)
      returns (picked: Option<nat>, out: string, ok: bool)
      ensures picked.None? <==> Candidates(views, index) == []
      ensures picked.None? ==> (out, ok) == ("", false)
      ensures picked.Some? ==>
                && picked.value in Candidates(views, index)
                && (out, ok) == match streams(picked.value)
                                case None => ("", false)
                                case Some(s) => RetrieveSpec.Blast(Split(s), length, limit)
    {
      out, ok := "", false;
      var pptalkers := FindCandidates(index);
      if pptalkers == [] {
        return None, out, ok;
      }
      var k :| 0 <= k < |pptalkers|; // the first after random_shuffle
      picked := Some(pptalkers[k]);
      var stream := streams(pptalkers[k]);
      if stream.Some? {
        out, ok := Blast(Split(stream.value), length, limit);
      }
    }

    // PPTalker::blastMessageFD, after the status line.
    static method Blast(lines: seq<string>, length: nat, limit: int) returns (out: string, ok: bool)
      ensures (out, ok) == RetrieveSpec.Blast(lines, length, limit)
    {
      var greeting := if limit == -1 then "+OK " + Itoa(length) + "\r\n" else "+OK\r\n";
      out := "";
      var inheaders, lineno: nat, i := true, 0, 0;
      while i < |lines|
        invariant 0 <= i <= |lines|
        invariant RetrieveSpec.Emit(lines, true, 0, limit).1 == RetrieveSpec.Emit(lines[i..], inheaders, lineno, limit).1
        invariant RetrieveSpec.Emit(lines, true, 0, limit).0 == out + RetrieveSpec.Emit(lines[i..], inheaders, lineno, limit).0
      {
        var line := lines[i];
        assert lines[i..][1..] == lines[i + 1..];
        if limit >= 0 {
          if inheaders && (At(line, 0) == '\r' || At(line, 1) == '\n') {
            inheaders := false;
          } else if !inheaders {
            lineno := lineno + 1;
          }
        }
        if IsTerminator(line) {
          out := out + ".\r\n";
          return greeting + out, true;
        }
        if limit < 0 || lineno <= limit {
          out := out + line;
        }
        i := i + 1;
      }
      assert lines[i..] == [];
      assert out + "" == out;
      return greeting + out, false;
    }

    // A delete is broadcast; the log gets an entry for every backend that is
    // down or fails.
    method DelMsg(index: string, sites: seq<Site>, ws: nat -> Wire, es: nat -> Env)
      returns (after: seq<Site>, log: seq<nat>)
      ensures (after, log) == Broadcast(sites, mbox, index, ws, es)
    {
      after, log := [], [];
      for i := 0 to |sites|
        invariant (after, log) == Broadcast(sites[..i], mbox, index, ws, es)
      {
        assert sites[..i + 1][..i] == sites[..i];
        var (site, ok) := DeleteAt(sites[i], mbox, index, ws(i), es(i));
        assert log + [] == log;
        if !ok {
          log := log + [i];
        }
        after := after + [site];
      }
      assert sites[..|sites|] == sites;
    }
  }
}
