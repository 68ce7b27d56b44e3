/** Session::getLine: lines from a stream that arrives in arbitrary pieces,
    through one fixed buffer that is compacted when it is full. */
module LineReader {
  import opened Text

  const BUFSIZE := 15049 // d_bufsize

  // What one call of getLine comes to; the last three are exceptions.
  datatype Got = Line(text: string) | TooLong | Closed | ReadError

  // The part of a buffer a C string shows: up to the first NUL.
  function CString(s: string): (r: string)
    ensures r <= s
  {
    if s == "" || s[0] == '\0' then "" else [s[0]] + CString(s[1..])
  }

  lemma {:induction false} CStringIsAllIffNulFree(s: string)
    ensures CString(s) == s <==> '\0' !in s
  {
    if s != "" {
      CStringIsAllIffNulFree(s[1..]);
      assert s == [s[0]] + s[1..];
    }
  }

  // The next line of a stream, however it arrives: too long if and only if
  // the next BUFSIZE bytes hold no '\n'.
  function Next(unread: string): Got {
    var n := NewlineAt(unread);
    if n < |unread| && n < BUFSIZE then Line(CString(unread[..n]) + "\n")
    else if |unread| >= BUFSIZE then TooLong
    else Closed
  }

  // The connection: the bytes the peer sends, and how many were read.
  class Connection {
    const input: string
    var pos: nat

    constructor (input: string)
      ensures this.input == input && pos == 0
    {
      this.input, pos := input, 0;
    }

    // timeoutRead: any number of bytes that are asked for and left, 0 at the
    // end of the stream, -1 on an error.
    method Read(buf: array<char>, off: nat, len: nat) returns (bytes: int)
      requires len >= 1 && off + len <= buf.Length && pos <= |input|
      modifies this, buf
      ensures bytes < 0 ==> pos == old(pos) && buf[..] == old(buf[..])
      ensures bytes >= 0 ==>
                && bytes <= len && pos == old(pos) + bytes && pos <= |input|
                && (bytes == 0 ==> pos == |input|)
                && buf[..] == old(buf[..off]) + input[old(pos)..pos] + old(buf[off + bytes..])
    {
      var fails: bool, k: nat := *, *;
      var most := if len <= |input| - pos then len else |input| - pos;
      bytes := if fails then -1 else if 1 <= k <= most then k else most;
      if bytes > 0 {
        forall k | 0 <= k < bytes {
          buf[off + k] := input[pos + k];
        }
        pos := pos + bytes;
      }
    }
  }

  // The position of the first c among the bytes; len if it does not occur.
  method Strnchr(buf: array<char>, off: nat, c: char, len: nat) returns (n: nat)
    requires off + len <= buf.Length
    ensures n <= len && (n < len ==> buf[off + n] == c)
    ensures forall k :: off <= k < off + n ==> buf[k] != c
  {
    n := 0;
    while n < len && buf[off + n] != c
      invariant n <= len && forall k :: off <= k < off + n ==> buf[k] != c
    {
      n := n + 1;
    }
  }

  lemma {:induction false} SliceOfSlice(a: string, i: nat, j: nat, n: nat)
    requires i + n <= j <= |a|
    ensures a[i..j][..n] == a[i..i + n]
  {
  }

  // Bytes written behind those from lo to off.
  lemma {:induction false} Spliced(before: string, after: string, lo: nat, off: nat, data: string)
    requires lo <= off && off + |data| <= |before|
    requires after == before[..off] + data + before[off + |data|..]
    ensures |after| == |before| && after[lo..off + |data|] == before[lo..off] + data
  {
  }

  class Session {
    const conn: Connection
    const rdbuf: array<char>
    var rdoffset: nat
    var wroffset: nat

    // The bytes between the offsets are those read last and not handed out.
    ghost predicate Valid()
      reads this, conn, rdbuf
    {
      && rdbuf.Length == BUFSIZE && rdoffset <= wroffset <= BUFSIZE
      && wroffset - rdoffset <= conn.pos <= |conn.input|
      && rdbuf[rdoffset..wroffset] == conn.input[conn.pos - (wroffset - rdoffset)..conn.pos]
    }

    // What the peer has sent or will send and no call has handed out.
    ghost function Unread(): string
      reads this, conn, rdbuf
      requires Valid()
    {
      conn.input[conn.pos - (wroffset - rdoffset)..]
    }

    constructor (conn: Connection)
      requires conn.pos <= |conn.input|
      ensures Valid() && this.conn == conn && fresh(rdbuf) && Unread() == conn.input[conn.pos..]
    {
      this.conn := conn;
      rdbuf := new char[BUFSIZE];
      rdoffset, wroffset := 0, 0;
    }

    method FindNewline() returns (n: nat)
      requires Valid()
      ensures n <= wroffset - rdoffset
      ensures n < wroffset - rdoffset ==> n < |Unread()| && NewlineAt(Unread()) == n && rdbuf[rdoffset..rdoffset + n] == Unread()[..n]
      ensures n == wroffset - rdoffset ==> NewlineAt(Unread()) >= n
    {
      n := Strnchr(rdbuf, rdoffset, '\n', wroffset - rdoffset);
      ghost var held := rdbuf[rdoffset..wroffset];
      assert held == Unread()[..wroffset - rdoffset];
      forall k | 0 <= k < n
        ensures Unread()[k] != '\n'
      {
        assert held[k] == Unread()[k];
      }
      if n < wroffset - rdoffset {
        assert held[n] == Unread()[n];
        NewlineUnique(Unread(), n);
        SliceOfSlice(rdbuf[..], rdoffset, wroffset, n);
      }
    }

    // memmove to the start of the buffer.
    method Compact()
      requires Valid()
      modifies this, rdbuf
      ensures Valid() && Unread() == old(Unread()) && rdoffset == 0 && wroffset == old(wroffset - rdoffset)
    {
      ghost var held := rdbuf[rdoffset..wroffset];
      forall k | 0 <= k < wroffset - rdoffset {
        rdbuf[k] := rdbuf[rdoffset + k];
      }
      wroffset := wroffset - rdoffset;
      rdoffset := 0;
      assert rdbuf[rdoffset..wroffset] == held;
    }

    // timeoutRead into the free end of the buffer.
    method Fill() returns (bytes: int)
      requires Valid() && wroffset < BUFSIZE
      modifies this, rdbuf, conn
      ensures Valid() && Unread() == old(Unread())
      ensures bytes == 0 ==> Unread() == rdbuf[rdoffset..wroffset] && wroffset == old(wroffset) && rdoffset == old(rdoffset)
      ensures bytes > 0 ==> conn.pos > old(conn.pos)
    {
      ghost var before, pos, start := rdbuf[..], conn.pos, conn.pos - (wroffset - rdoffset);
      bytes := conn.Read(rdbuf, wroffset, BUFSIZE - wroffset);
      if bytes < 0 {
        assert rdbuf[..] == before;
        assert rdbuf[rdoffset..wroffset] == before[rdoffset..wroffset];
      } else {
        Spliced(before, rdbuf[..], rdoffset, wroffset, conn.input[pos..conn.pos]);
        assert rdbuf[rdoffset..wroffset + bytes] == rdbuf[..][rdoffset..wroffset + bytes];
        assert conn.input[start..pos] + conn.input[pos..conn.pos] == conn.input[start..conn.pos];
        wroffset := wroffset + bytes;
      }
    }

    method TakeLine(n: nat) returns (got: Got)
      requires Valid() && n < wroffset - rdoffset && n < |Unread()| && NewlineAt(Unread()) == n
      requires rdbuf[rdoffset..rdoffset + n] == Unread()[..n]
      modifies this, rdbuf
      ensures Valid() && got == Line(CString(old(Unread())[..n]) + "\n") && Unread() == old(Unread())[n + 1..]
    {
      ghost var held := rdbuf[rdoffset..wroffset];
      rdbuf[rdoffset + n] := '\0';
      assert rdbuf[rdoffset..rdoffset + n] == held[..n];
      got := Line(CString(rdbuf[rdoffset..rdoffset + n]) + "\n");
      assert rdbuf[rdoffset + n + 1..wroffset] == held[n + 1..];
      rdoffset := rdoffset + n + 1;
    }

    // Whatever pieces the stream arrives in, a call gives the next line of
    // the stream, or the exception that is due; only an error of the read
    // itself can come instead, and it loses nothing.
    method GetLine() returns (got: Got)
      requires Valid()
      modifies this, rdbuf, conn
      ensures Valid()
      ensures !got.ReadError? ==> got == Next(old(Unread()))
      ensures Unread() == if got.Line? then old(Unread()[NewlineAt(Unread()) + 1..]) else old(Unread())
    {
      while true
        invariant Valid() && Unread() == old(Unread())
        decreases |conn.input| - conn.pos
      {
        if wroffset == rdoffset {
          rdoffset, wroffset := 0, 0;
        }
        var n := FindNewline();
        if n < wroffset - rdoffset {
          got := TakeLine(n);
          return;
        }
        var stop;
        stop, got := More();
        if stop {
          return;
        }
      }
    }

    // More data is needed before a line can be returned.
    method More() returns (stop: bool, got: Got)
      requires Valid() && NewlineAt(Unread()) >= wroffset - rdoffset
      modifies this, rdbuf, conn
      ensures Valid() && Unread() == old(Unread())
      ensures stop ==> !got.Line? && (got.ReadError? || got == Next(old(Unread())))
      ensures !stop ==> conn.pos > old(conn.pos)
    {
      stop, got := true, TooLong;
      if wroffset == BUFSIZE {
        if rdoffset == 0 {
          return;
        }
        Compact();
      }
      var bytes := Fill();
      stop := bytes <= 0;
      got := if bytes < 0 then ReadError else Closed;
    }

    // haveLine: whether a whole line is in the buffer already.
    method HaveLine() returns (b: bool)
      requires Valid()
      ensures b ==> Next(Unread()).Line?
      ensures b <==> '\n' in rdbuf[rdoffset..wroffset]
    {
      var n := FindNewline();
      b := n < wroffset - rdoffset;
      ghost var held := rdbuf[rdoffset..wroffset];
      assert held == Unread()[..wroffset - rdoffset];
      if b {
        assert held[n] == Unread()[n] == '\n';
      } else {
        assert forall k :: 0 <= k < |held| ==> held[k] == Unread()[k] != '\n';
      }
    }

    // The loop of a server: lines until an exception.
    method Serve() returns (lines: seq<string>, last: Got)
      requires Valid()
      modifies this, rdbuf, conn
      ensures Valid() && !last.Line?
      ensures !last.ReadError? ==> (lines, last) == All(old(Unread()))
      ensures lines <= All(old(Unread())).0
    {
      lines := [];
      ghost var whole, left := Unread(), Unread();
      assert [] + All(left).0 == All(left).0;
      while true
        invariant Valid() && left == Unread()
        invariant All(whole).0 == lines + All(left).0 && All(whole).1 == All(left).1
        decreases |left|
      {
        last := GetLine();
        if !last.Line? {
          AllEnds(left, lines);
          return;
        }
        AllStep(left, lines);
        left := left[NewlineAt(left) + 1..];
        lines := lines + [last.text];
      }
    }
  }

  lemma {:induction false} AllEnds(s: string, lines: seq<string>)
    ensures lines <= lines + All(s).0
    ensures !Next(s).Line? ==> lines + All(s).0 == lines && All(s).1 == Next(s)
  {
    assert All(s) == AllFrom(s, Next(s));
  }

  lemma {:induction false} AllStep(s: string, lines: seq<string>)
    requires Next(s).Line?
    ensures NewlineAt(s) < |s|
    ensures var rest := All(s[NewlineAt(s) + 1..]);
            lines + All(s).0 == lines + [Next(s).text] + rest.0 && All(s).1 == rest.1
  {
    var rest := All(s[NewlineAt(s) + 1..]);
    assert All(s) == AllFrom(s, Next(s));
    assert lines + ([Next(s).text] + rest.0) == lines + [Next(s).text] + rest.0;
  }

  // All lines of a stream, and the exception that ends them.
  function All(s: string): (seq<string>, Got)
    decreases |s|, 1
  {
    AllFrom(s, Next(s))
  }

  function AllFrom(s: string, got: Got): (seq<string>, Got)
    requires got == Next(s)
    decreases |s|, 0
  {
    match got
    case Line(text) => var (rest, last) := All(s[NewlineAt(s) + 1..]); ([text] + rest, last)
    case e => ([], e)
  }

  ghost predicate NulFree(s: string) { '\0' !in s }

  // The stream ends without a line or a rest that is longer than the buffer.
  ghost predicate Fits(s: string)
    decreases |s|
  {
    var n := NewlineAt(s);
    n < BUFSIZE && (n < |s| ==> Fits(s[n + 1..]))
  }

  lemma {:induction false} NextIsFirst(s: string)
    requires NulFree(s) && Next(s).Line?
    ensures var n := NewlineAt(s);
            n < |s| && Next(s).text == s[..n + 1] && Split(s) == [s[..n + 1]] + Split(s[n + 1..]) && NulFree(s[n + 1..])
  {
    var n := NewlineAt(s);
    CStringIsAllIffNulFree(s[..n]);
    assert s[..n] + "\n" == s[..n + 1];
  }

  // For a stream without NUL bytes the lines are exactly the stream cut after
  // each '\n', up to the first that is too long, if there is one.
  lemma {:induction false} AllIsSplit(s: string)
    requires NulFree(s)
    ensures All(s).0 <= Split(s)
    ensures Fits(s) <==> All(s).1 == Closed
    ensures Fits(s) ==> All(s).0 == Split(s)
    ensures !Fits(s) <==> All(s).1 == TooLong
    decreases |s|
  {
    assert All(s) == AllFrom(s, Next(s));
    if Next(s).Line? {
      NextIsFirst(s);
      AllIsSplit(s[NewlineAt(s) + 1..]);
    }
  }
}
