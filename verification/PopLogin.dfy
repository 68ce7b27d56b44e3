/** Who gets into a POP3 session: told from its lines and what the userbase
    says of the account. */
module PopLogin {
  import opened Text
  import opened Disk
  import opened ListingSpec
  import opened PopSpec
  import opened ListedSizes

  // The account of the address itself, and that of the wildcard of its domain
  // only if the address is not known.
  ghost predicate Grants(e: PopEnv, canonical: string) {
    || e.first == Known(canonical, true)
    || (e.first == Unknown && e.second == Known(canonical, true))
  }

  ghost predicate Granted(e: PopEnv) { exists canonical :: Grants(e, canonical) }

  // The name a refused attempt leaves behind: that of the account, if there
  // is one, and else the address, with its first '%' read as '@'.
  function NameAfter(user: string, e: PopEnv): string {
    match (e.first, e.second)
    case (Known(canonical, _), _) => canonical
    case (Unknown, Known(canonical, _)) => canonical
    case _ => WithAt(user)
  }

  function WithAt(user: string): string {
    if '%' in user then user[..FirstPercent(user)] + "@" + user[FirstPercent(user) + 1..] else user
  }

  function FirstPercent(user: string): (n: nat)
    requires '%' in user
    ensures n < |user| && user[n] == '%' && '%' !in user[..n]
  {
    if user[0] == '%' then 0 else 1 + FirstPercent(user[1..])
  }

  // The user named by the lines of a session that is not logged in yet.
  function UserNamed(ls: seq<Line>): string {
    if ls == [] then ""
    else
      var n := |ls| - 1;
      var before := UserNamed(ls[..n]);
      match Parse(ls[n].text)
      case User(name) => name
      case Apop(user, digest) => if user == "" || digest == "" then user else NameAfter(user, ls[n].e)
      case Pass(_) => if before == "" then before else NameAfter(before, ls[n].e)
      case _ => before
  }

  // The line asks for a login: PASS with a user named, or APOP with a user and
  // a digest.
  predicate Asks(before: seq<Line>, l: Line) {
    match Parse(l.text)
    case Pass(_) => UserNamed(before) != ""
    case Apop(user, digest) => user != "" && digest != ""
    case _ => false
  }

  ghost predicate LogsIn(ls: seq<Line>, k: nat) {
    k < |ls| && Asks(ls[..k], ls[k]) && Granted(ls[k].e)
  }

  // The name of the account of the first line that logs in.
  ghost predicate FirstLogin(ls: seq<Line>, k: nat, canonical: string) {
    LogsIn(ls, k) && Grants(ls[k].e, canonical) && forall j: nat :: j < k ==> !LogsIn(ls, j)
  }

  // -------------------------------------------------------------- one line

  lemma {:induction false} AtSignIs(user: string)
    ensures AtSign(user) == WithAt(user)
  {
    if user != "" && user[0] != '%' {
      AtSignIs(user[1..]);
      assert user == [user[0]] + user[1..];
      if '%' in user {
        assert '%' in user[1..];
        var n := FirstPercent(user[1..]);
        assert user[..n + 1] == [user[0]] + user[1..][..n];
        assert user[n + 2..] == user[1..][n + 1..];
      }
    }
  }

  predicate NotRest(word: string) { word == "PASS" || word == "APOP" }

  lemma {:induction false} AttemptRefused(s: Pop, user: string, word: string, e: PopEnv)
    requires Sound(s) && !s.login && NotRest(word) && !Granted(e)
    ensures var (s1, reply) := LoginThenRest(s, user, word, e);
            reply == Err && s1 == s.(user := NameAfter(user, e))
  {
    AtSignIs(user);
    var canonical := if e.first.Known? then e.first.canonical else if e.second.Known? then e.second.canonical else "";
    assert !Grants(e, canonical);
  }

  lemma {:induction false} AttemptGranted(s: Pop, user: string, word: string, e: PopEnv, canonical: string)
    requires Sound(s) && !s.login && NotRest(word) && Grants(e, canonical)
    ensures var (s1, reply) := LoginThenRest(s, user, word, e);
            && s1.login && s1.user == canonical && s1.mbox == canonical
            && (reply.Stat? <==> AllListed(e.list1.sites, e.list1.fails))
            && (reply.Stat? ==> s1.scanned && FromListing(s1, e.list1))
            && (reply.Stat? ==> reply == Stat(|s1.msgs|, TotalOf(GetMsgs(e.list1.sites, e.list1.fails).value)))
            && (reply.Stat? || reply == Err || reply == NotImplemented)
  {
    GetMsgsMergesIff(e.list1.sites, e.list1.fails);
    var s0 := s.(user := canonical, login := true);
    ScanShows(s0, e.list1);
    ScanFills(s0, e.list1);
    if Scan(s0, e.list1).1 {
      StatOfListing(Scan(s0, e.list1).0.msgs, GetMsgs(e.list1.sites, e.list1.fails).value);
    }
  }

  // An attempt: it logs in exactly when the account grants it; the list is
  // then the listing, if that works, and the answer the count and the total.
  lemma {:induction false} Attempt(s: Pop, user: string, word: string, e: PopEnv)
    requires Sound(s) && !s.login && NotRest(word)
    ensures var (s1, reply) := LoginThenRest(s, user, word, e);
            && (s1.login <==> Granted(e))
            && (!s1.login ==> reply == Err && s1 == s.(user := NameAfter(user, e)))
            && (s1.login ==> Grants(e, s1.user) && s1.mbox == s1.user)
  {
    if Granted(e) {
      var canonical :| Grants(e, canonical);
      AttemptGranted(s, user, word, e, canonical);
    } else {
      AttemptRefused(s, user, word, e);
    }
  }

  ghost predicate Outside(s: Pop, ls: seq<Line>) {
    !s.login && !s.scanned && s.msgs == [] && s.user == UserNamed(ls) && s.mbox == ""
  }

  // A line of a session that is not logged in.
  lemma {:induction false} StepOutside(s: Pop, ls: seq<Line>, l: Line)
    requires Sound(s) && Outside(s, ls)
    ensures var (s1, reply) := Step(s, l.text, l.e);
            && (s1.login <==> Asks(ls, l) && Granted(l.e))
            && (!s1.login ==> Outside(s1, ls + [l]) && RepliesOutside(l, reply))
            && (s1.login ==> Grants(l.e, s1.user) && s1.mbox == s1.user)
  {
    assert (ls + [l])[..|ls|] == ls;
    match Parse(l.text) {
      case Apop(user, digest) => if user != "" && digest != "" { Attempt(s, user, "APOP", l.e); }
      case Pass(_) => if s.user != "" { Attempt(s, s.user, "PASS", l.e); }
      case _ =>
    }
  }

  // What such a line is answered: nothing of a mailbox.
  ghost predicate RepliesOutside(l: Line, reply: Reply) {
    match Parse(l.text)
    case Pass(_) => reply == Err
    case Apop(_, _) => reply == Err
    case User(_) => reply == Ok
    case Noop => reply == Ok
    case Rset => reply == Ok
    case Quit => reply == Bye(l.e.sites, [])
    case Control(_) => reply == Ok || reply == Err || reply == Die || reply == NotImplemented
    case Rest(_) => reply == NotImplemented
  }

  // Once logged in, a session stays that of its user.
  lemma {:induction false} StaysIn(s: Pop, l: Line)
    requires Sound(s) && s.login && s.mbox == s.user
    ensures var s1 := Step(s, l.text, l.e).0; s1.login && s1.user == s.user && s1.mbox == s1.user
  {
  }

  ghost predicate NobodyIn(ls: seq<Line>) { forall k: nat :: !LogsIn(ls, k) }

  ghost predicate InSession(s: Pop, ls: seq<Line>) {
    if s.login then s.mbox == s.user && exists k: nat :: FirstLogin(ls, k, s.user)
    else Outside(s, ls) && NobodyIn(ls)
  }

  lemma {:induction false} StillLogsIn(ls: seq<Line>, l: Line, k: nat)
    ensures LogsIn(ls + [l], k) <==> LogsIn(ls, k) || (k == |ls| && Asks(ls, l) && Granted(l.e))
  {
    if k <= |ls| {
      assert (ls + [l])[..k] == ls[..k];
      assert ls[..|ls|] == ls;
    }
  }

  lemma {:induction false} StepInSession(s: Pop, ls: seq<Line>, l: Line)
    requires Sound(s) && InSession(s, ls)
    ensures InSession(Step(s, l.text, l.e).0, ls + [l])
  {
    var s1 := Step(s, l.text, l.e).0;
    forall k: nat
      ensures LogsIn(ls + [l], k) <==> LogsIn(ls, k) || (k == |ls| && Asks(ls, l) && Granted(l.e))
    {
      StillLogsIn(ls, l, k);
    }
    if s.login {
      StaysIn(s, l);
      var k: nat :| FirstLogin(ls, k, s.user);
      assert (ls + [l])[k] == ls[k];
      assert FirstLogin(ls + [l], k, s1.user);
    } else {
      StepOutside(s, ls, l);
      if s1.login {
        assert (ls + [l])[|ls|] == l;
        assert FirstLogin(ls + [l], |ls|, s1.user);
      }
    }
  }

  lemma {:induction false} RunInSession(s: Pop, ls: seq<Line>, more: seq<Line>)
    requires Sound(s) && InSession(s, ls)
    ensures Sound(Run(s, more)) && InSession(Run(s, more), ls + more)
    decreases |more|
  {
    if more == [] {
      assert ls + more == ls;
    } else {
      StepSound(s, more[0].text, more[0].e);
      StepInSession(s, ls, more[0]);
      RunInSession(Step(s, more[0].text, more[0].e).0, ls + [more[0]], more[1..]);
      OneThenMore(ls, more);
    }
  }

  lemma {:induction false} OneThenMore(ls: seq<Line>, more: seq<Line>)
    requires more != []
    ensures ls + [more[0]] + more[1..] == ls + more
  {
  }

  lemma {:induction false} EveryRunInSession(ls: seq<Line>)
    ensures Sound(Run(NOBODY, ls)) && InSession(Run(NOBODY, ls), ls)
  {
    RunInSession(NOBODY, [], ls);
    assert [] + ls == ls;
  }

  // ----------------------------------------------------------- the promises

  // In every session: it is logged in if and only if some line was a PASS with
  // a user named, or an APOP with user and digest, whose account is known and
  // grants it; and then it is the session of that account, and it is this
  // mailbox that is listed and deleted from.
  lemma {:induction false} LoggedInIff(ls: seq<Line>)
    ensures Run(NOBODY, ls).login <==> exists k: nat :: LogsIn(ls, k)
    ensures var s := Run(NOBODY, ls);
            s.login ==> s.mbox == s.user && exists k: nat :: FirstLogin(ls, k, s.user)
  {
    EveryRunInSession(ls);
    if Run(NOBODY, ls).login {
      var k: nat :| FirstLogin(ls, k, Run(NOBODY, ls).user);
      assert LogsIn(ls, k);
    }
  }

  // Until then every attempt is answered with an error, no list is there, and
  // nothing but an error is answered to the commands that need one.
  lemma {:induction false} NothingBeforeLogin(ls: seq<Line>, l: Line)
    requires NobodyIn(ls + [l])
    ensures var (s1, reply) := Step(Run(NOBODY, ls), l.text, l.e);
            !s1.login && s1.msgs == [] && !s1.scanned && RepliesOutside(l, reply)
  {
    EveryRunInSession(ls);
    forall k: nat
      ensures !LogsIn(ls, k)
    {
      StillLogsIn(ls, l, k);
    }
    StillLogsIn(ls, l, |ls|);
    StepOutside(Run(NOBODY, ls), ls, l);
  }

  // The line that logs in is answered with the number of messages listed and
  // the sum of their sizes, if and only if every backend that is up can be
  // listed.
  lemma {:induction false} LoginShowsTheMailbox(ls: seq<Line>, l: Line)
    requires NobodyIn(ls) && Asks(ls, l) && Granted(l.e)
    ensures var (s1, reply) := Step(Run(NOBODY, ls), l.text, l.e);
            && s1.login && Grants(l.e, s1.user)
            && (reply.Stat? <==> AllListed(l.e.list1.sites, l.e.list1.fails))
            && (reply.Stat? ==>
                  var got := GetMsgs(l.e.list1.sites, l.e.list1.fails).value;
                  reply == Stat(|got|, TotalOf(got)) && Shows(s1.msgs, got))
  {
    EveryRunInSession(ls);
    var s := Run(NOBODY, ls);
    GetMsgsMergesIff(l.e.list1.sites, l.e.list1.fails);
    var canonical :| Grants(l.e, canonical);
    match Parse(l.text) {
      case Apop(user, digest) => AttemptGranted(s, user, "APOP", l.e, canonical);
      case Pass(_) => AttemptGranted(s, s.user, "PASS", l.e, canonical);
      case _ =>
    }
  }
}
