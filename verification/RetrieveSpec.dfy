/** Passing a stored message to a mail reader: what RETR and TOP write to the
    reader's connection, line by line. */
module RetrieveSpec {
  import opened Text
  import opened Disk
  import opened DeliverySpec
  import BackendSpec
  import TalkerSpec
  import MegaSpec
  import SmtpSpec

  // The test that ends the header part when lines are counted.
  predicate EndsHeaders(line: string) { At(line, 0) == '\r' || At(line, 1) == '\n' }

  // What is written for the lines the backend sends, up to the terminator;
  // false when the connection ends before it.  A negative limit is none.
  function Emit(lines: seq<string>, inheaders: bool, lineno: nat, limit: int): (string, bool)
    decreases |lines|
  {
    if lines == [] then ("", false)
    else
      var line := lines[0];
      var ends := limit >= 0 && inheaders && EndsHeaders(line);
      var n := if limit >= 0 && !inheaders then lineno + 1 else lineno;
      if IsTerminator(line) then (".\r\n", true)
      else
        var (out, done) := Emit(lines[1..], inheaders && !ends, n, limit);
        ((if limit < 0 || n <= limit then line else "") + out, done)
  }

  function Greeting(length: nat, limit: int): string {
    if limit == -1 then "+OK " + Itoa(length) + "\r\n" else "+OK\r\n"
  }

  // Everything written for one message, the lines being those of the stream
  // after the backend's own status line.
  function Blast(lines: seq<string>, length: nat, limit: int): (string, bool) {
    var (out, done) := Emit(lines, true, 0, limit);
    (Greeting(length, limit) + out, done)
  }

  ghost predicate DataLines(lines: seq<string>) {
    forall i :: 0 <= i < |lines| ==> IsDataLine(lines[i])
  }

  // -------------------------------------------------------------------- RETR

  lemma {:induction false} Assoc(a: string, b: string, c: string)
    ensures a + (b + c) == (a + b) + c
  {
  }

  lemma {:induction false} EmitAll(lines: seq<string>, rest: seq<string>, inheaders: bool, n: nat)
    requires DataLines(lines)
    ensures Emit(lines + [".\n"] + rest, inheaders, n, -1) == (Concat(lines) + ".\r\n", true)
    decreases |lines|
  {
    var all := lines + [".\n"] + rest;
    if lines == [] {
      assert all[0] == ".\n" && IsTerminator(all[0]);
      assert Concat([]) + ".\r\n" == ".\r\n";
    } else {
      assert all[1..] == lines[1..] + [".\n"] + rest && all[0] == lines[0];
      EmitAll(lines[1..], rest, inheaders, n);
      Assoc(lines[0], Concat(lines[1..]), ".\r\n");
    }
  }

  // The stream the backend's listener sends for an open file.
  function Sent(text: string): string { text + ".\n" }

  lemma {:induction false} SentLines(lines: seq<string>)
    requires DataLines(lines)
    ensures Split(Sent(Concat(lines))) == lines + [".\n"]
  {
    SplitConcat(lines, ".\n");
    assert ".\n" + "" == ".\n";
    SplitFirst(".\n", "");
  }

  // RETR writes the stored lines, all of them, in order and unchanged, then
  // the terminator: the dot-stuffed form is kept from the SMTP client to the
  // reader.
  lemma {:induction false} RetrIsExact(lines: seq<string>, length: nat)
    requires DataLines(lines)
    ensures Blast(Split(Sent(Concat(lines))), length, -1) ==
            ("+OK " + Itoa(length) + "\r\n" + Concat(lines) + ".\r\n", true)
  {
    SentLines(lines);
    EmitAll(lines, [], true, 0);
    assert lines + [".\n"] + [] == lines + [".\n"];
    assert Greeting(length, -1) + (Concat(lines) + ".\r\n") == Greeting(length, -1) + Concat(lines) + ".\r\n";
  }

  // ------------------------------------------------------------- the limits

  // The lines before the first terminator.
  function BeforeEnd(lines: seq<string>): (n: nat)
    ensures n <= |lines|
    decreases |lines|
  {
    if lines == [] || IsTerminator(lines[0]) then 0 else 1 + BeforeEnd(lines[1..])
  }

  // A negative limit is no limit: whatever the backend sends, everything
  // before the terminator is written.
  lemma {:induction false} NegativeLimitWritesAll(lines: seq<string>, inheaders: bool, n: nat, limit: int)
    requires limit < 0
    ensures var k := BeforeEnd(lines);
            Emit(lines, inheaders, n, limit) ==
            (Concat(lines[..k]) + (if k < |lines| then ".\r\n" else ""), k < |lines|)
    decreases |lines|
  {
    var k := BeforeEnd(lines);
    var end := if k < |lines| then ".\r\n" else "";
    if lines == [] || IsTerminator(lines[0]) {
      assert Concat(lines[..0]) + end == end;
    } else {
      NegativeLimitWritesAll(lines[1..], inheaders, n, limit);
      assert lines[..k][1..] == lines[1..][..k - 1];
      Assoc(lines[0], Concat(lines[1..][..k - 1]), end);
    }
  }

  // A limit of 0 is not the absence of one: it writes the whole message if
  // and only if the headers go on to its end.
  lemma {:induction false} ZeroLimitWritesAllIff(lines: seq<string>)
    requires DataLines(lines)
    ensures Blast(Split(Sent(Concat(lines))), 0, 0) == ("+OK\r\n" + Concat(lines) + ".\r\n", true) <==>
            HeaderCount(lines, TheTest()) == |lines|
  {
    TopWrites(lines, 0);
    var h := HeaderCount(lines, TheTest());
    assert lines[..|lines|] == lines;
    if h < |lines| {
      ConcatTake(lines, h, |lines|);
      assert |"+OK\r\n" + Concat(lines[..h]) + ".\r\n"| < |"+OK\r\n" + Concat(lines) + ".\r\n"|;
    }
  }

  // --------------------------------------------------------------------- TOP

  // The number of lines up to and including the one that ends the headers.
  function HeaderCount(lines: seq<string>, ends: string -> bool): (n: nat)
    ensures n <= |lines|
    decreases |lines|
  {
    if lines == [] then 0 else if ends(lines[0]) then 1 else 1 + HeaderCount(lines[1..], ends)
  }

  function Min(a: nat, b: nat): nat { if a < b then a else b }

  // The headers, the line that ends them, and so many lines of the body.
  function TopOf(lines: seq<string>, ends: string -> bool, limit: nat): seq<string> {
    lines[..Min(|lines|, HeaderCount(lines, ends) + limit)]
  }

  function TheTest(): string -> bool { (line: string) => EndsHeaders(line) }

  lemma {:induction false} EmitBody(lines: seq<string>, n: nat, limit: nat)
    requires DataLines(lines)
    ensures Emit(lines + [".\n"], false, n, limit) ==
            (Concat(lines[..Min(|lines|, if n <= limit then limit - n else 0)]) + ".\r\n", true)
    decreases |lines|
  {
    var all := lines + [".\n"];
    var k := Min(|lines|, if n <= limit then limit - n else 0);
    if lines == [] {
      assert all[0] == ".\n" && IsTerminator(all[0]);
      assert Concat([]) + ".\r\n" == ".\r\n";
    } else {
      assert all[1..] == lines[1..] + [".\n"] && all[0] == lines[0];
      EmitBody(lines[1..], n + 1, limit);
      if k > 0 {
        assert lines[..k][1..] == lines[1..][..k - 1];
        Assoc(lines[0], Concat(lines[1..][..k - 1]), ".\r\n");
      } else {
        assert lines[1..][..0] == [] == lines[..0];
        Assoc("", Concat([]), ".\r\n");
      }
    }
  }

  lemma {:induction false} EmitTop(lines: seq<string>, limit: nat)
    requires DataLines(lines)
    ensures Emit(lines + [".\n"], true, 0, limit) == (Concat(TopOf(lines, TheTest(), limit)) + ".\r\n", true)
    decreases |lines|
  {
    var all := lines + [".\n"];
    if lines == [] {
      assert all[0] == ".\n" && IsTerminator(all[0]);
      assert Concat([]) + ".\r\n" == ".\r\n";
    } else {
      assert all[1..] == lines[1..] + [".\n"] && all[0] == lines[0];
      var top := TopOf(lines, TheTest(), limit);
      if EndsHeaders(lines[0]) {
        EmitBody(lines[1..], 0, limit);
        assert top[1..] == lines[1..][..Min(|lines| - 1, limit)];
      } else {
        EmitTop(lines[1..], limit);
        assert top[1..] == TopOf(lines[1..], TheTest(), limit);
      }
      Assoc(lines[0], Concat(top[1..]), ".\r\n");
    }
  }

  // An empty line, ending the header part of a message.
  function Blank(): string -> bool { (line: string) => line == "\r\n" || line == "\n" }

  ghost predicate CrLf(line: string) {
    |line| >= 2 && line[|line| - 2] == '\r' && forall i :: 0 <= i < |line| - 2 ==> line[i] != '\r'
  }

  lemma {:induction false} ConcatTake(lines: seq<string>, a: nat, b: nat)
    requires a < b <= |lines| && forall i :: 0 <= i < |lines| ==> lines[i] != ""
    ensures |Concat(lines[..a])| < |Concat(lines[..b])|
  {
    assert lines[..b] == lines[..a] + lines[a..b];
    ConcatAppend(lines[..a], lines[a..b]);
  }

  ghost predicate TopIsRight(lines: seq<string>, limit: nat) {
    Blast(Split(Sent(Concat(lines))), 0, limit) == ("+OK\r\n" + Concat(TopOf(lines, Blank(), limit)) + ".\r\n", true)
  }

  lemma {:induction false} TopWrites(lines: seq<string>, limit: nat)
    requires DataLines(lines)
    ensures Blast(Split(Sent(Concat(lines))), 0, limit) ==
            ("+OK\r\n" + Concat(TopOf(lines, TheTest(), limit)) + ".\r\n", true)
  {
    SentLines(lines);
    EmitTop(lines, limit);
    var top := Concat(TopOf(lines, TheTest(), limit));
    assert "+OK\r\n" + (top + ".\r\n") == "+OK\r\n" + top + ".\r\n";
  }

  // TOP writes the headers, the empty line and as many body lines as asked
  // for, whatever the limit, exactly when the header test and an empty line
  // first hold at the same place.
  lemma {:induction false} TopIsRightIff(lines: seq<string>)
    requires DataLines(lines)
    ensures (forall limit: nat :: TopIsRight(lines, limit)) <==>
            HeaderCount(lines, TheTest()) == HeaderCount(lines, Blank())
  {
    var h, b := HeaderCount(lines, TheTest()), HeaderCount(lines, Blank());
    forall limit: nat | h == b
      ensures TopIsRight(lines, limit)
    {
      TopWrites(lines, limit);
    }
    if h != b {
      TopWrong(lines);
    }
  }

  lemma {:induction false} TopWrong(lines: seq<string>)
    requires DataLines(lines) && HeaderCount(lines, TheTest()) != HeaderCount(lines, Blank())
    ensures !TopIsRight(lines, 0)
  {
    var h, b := HeaderCount(lines, TheTest()), HeaderCount(lines, Blank());
    TopWrites(lines, 0);
    if h < b {
      ConcatTake(lines, h, b);
    } else {
      ConcatTake(lines, b, h);
    }
    var x, y := Concat(TopOf(lines, TheTest(), 0)), Concat(TopOf(lines, Blank(), 0));
    assert |x| != |y|;
    assert |"+OK\r\n" + x + ".\r\n"| != |"+OK\r\n" + y + ".\r\n"|;
  }

  // That is so for lines that end in CR LF, as SMTP and POP3 require.
  lemma {:induction false} TopIsRightForCrLf(lines: seq<string>)
    requires DataLines(lines) && forall i :: 0 <= i < |lines| ==> CrLf(lines[i])
    ensures HeaderCount(lines, TheTest()) == HeaderCount(lines, Blank())
    decreases |lines|
  {
    if lines != [] {
      TopIsRightForCrLf(lines[1..]);
    }
  }

  // A message with bare LF line ends: the empty line is not recognised, and
  // TOP 0 writes the body as well.
  lemma {:induction false} TopFailsForBareLf(subject: string, body: string)
    requires IsDataLine(subject) && IsDataLine(body) && !EndsHeaders(subject) && subject != "\n"
    ensures !TopIsRight([subject, "\n", body], 0)
  {
    var lines := [subject, "\n", body];
    assert lines[1..] == ["\n", body] && ["\n", body][1..] == [body] && [body][1..] == [];
    assert HeaderCount([body], TheTest()) == 1;
    assert HeaderCount(["\n", body], TheTest()) == 2;
    assert HeaderCount(["\n", body], Blank()) == 1;
    assert subject != "\r\n" by { assert !EndsHeaders(subject); }
    TopWrong(lines);
  }

  // ------------------------------------------------------------- round trip

  function GetLine(mbox: string, index: string): string { "get" + " " + mbox + " " + index + "\n" }

  lemma {:induction false} GetLineIsGet(s: BackendSpec.Session, mbox: string, index: string, e: Env)
    requires IsWord(mbox) && IsWord(index) && s.mode.Blank?
    ensures BackendSpec.Step(s, GetLine(mbox, index), e) ==
            match if e.openErr then None else Lookup(s.store.d, Path(mbox, Cur, index))
            case None => BackendSpec.Answer(s, BackendSpec.Err)
            case Some(text) => BackendSpec.Answer(s, BackendSpec.Message(text))
  {
    ThreeWords("get", mbox, index);
  }

  // The text that a new connection to the backend gets for a message.
  function Fetch(d: Disk, mbox: string, index: string, e: Env): Option<string> {
    var s := BackendSpec.Start(d, None).(mode := BackendSpec.Blank);
    match BackendSpec.Step(s, GetLine(mbox, index), e).reply
    case Message(text) => Some(text)
    case _ => None
  }

  lemma {:induction false} FetchFindsStored(d: Disk, a: TalkerSpec.Announced, tag: Word, text: string, e: Env)
    requires TalkerSpec.Stored(d, a, tag, text) && !e.openErr
    ensures Fetch(d, a.mbox, TalkerSpec.NameOf(tag, a.num), e) == Some(text)
  {
    var s := BackendSpec.Start(d, None).(mode := BackendSpec.Blank);
    GetLineIsGet(s, a.mbox, TalkerSpec.NameOf(tag, a.num), e);
    assert CurOf(TalkerSpec.FileOf(a, tag)) == Path(a.mbox, Cur, TalkerSpec.NameOf(tag, a.num));
  }

  // From the SMTP client to the mail reader: for every run that ends in the
  // acknowledgement of a message without forwards and without a quota cut-off,
  // every recipient, and every one of the redundant backends, at any later
  // time at which the file is still as the storing session left it, RETR
  // writes the Received line, then exactly the lines of the client in their
  // order, then the terminator.
  lemma {:induction false} RoundTrip(cfg: SmtpSpec.Config, xs: seq<SmtpSpec.Input>, x: SmtpSpec.Input,
                                     i: nat, a: TalkerSpec.Announced, later: Disk, e: Env, length: nat)
    requires var s := SmtpSpec.Run(SmtpSpec.INITIAL, cfg, xs);
             var reply := SmtpSpec.Step(s, cfg, x).1;
             && reply.Delivered? && reply.to != [] && MegaSpec.AllStorage(reply.entries)
             && (s.given == [] || !s.quotaneeded || |Concat(s.given[..|s.given| - 1])| / 1000 < s.kbroom)
             && IsDataLine(s.received) && i < cfg.redundancy && a in reply.names
             && (i < |reply.entries| ==>
                   var f := CurOf(TalkerSpec.FileOf(a, s.tag));
                   Lookup(later, f) == Lookup(BackendSpec.End(reply.entries[i].link.t.peer), f))
    requires !e.openErr
    ensures i < |SmtpSpec.Step(SmtpSpec.Run(SmtpSpec.INITIAL, cfg, xs), cfg, x).1.entries|
    ensures var s := SmtpSpec.Run(SmtpSpec.INITIAL, cfg, xs);
            var reply := SmtpSpec.Step(s, cfg, x).1;
            var text := Fetch(later, a.mbox, TalkerSpec.NameOf(s.tag, a.num), e);
            && text == Some(s.received + Concat(s.given))
            && Blast(Split(Sent(text.value)), length, -1) ==
               ("+OK " + Itoa(length) + "\r\n" + (s.received + Concat(s.given)) + ".\r\n", true)
  {
    SmtpSpec.AcknowledgedMessageIsComplete(cfg, xs, x);
    var s := SmtpSpec.Run(SmtpSpec.INITIAL, cfg, xs);
    var reply := SmtpSpec.Step(s, cfg, x).1;
    var text := s.received + Concat(s.given);
    assert TalkerSpec.Stored(BackendSpec.End(reply.entries[i].link.t.peer), a, s.tag, text);
    FetchFindsStored(later, a, s.tag, text, e);
    SmtpSpec.GivenAreData(cfg, xs);
    SmtpSpec.RunInv(SmtpSpec.INITIAL, cfg, xs);
    SmtpSpec.StepInv(s, cfg, x);
    FirstAndRest(s.received, s.given, length);
  }

  lemma {:induction false} FirstAndRest(first: string, given: seq<string>, length: nat)
    requires IsDataLine(first) && DataLines(given)
    ensures Blast(Split(Sent(first + Concat(given))), length, -1) ==
            ("+OK " + Itoa(length) + "\r\n" + (first + Concat(given)) + ".\r\n", true)
  {
    var lines := [first] + given;
    assert lines[1..] == given;
    RetrIsExact(lines, length);
  }
}
