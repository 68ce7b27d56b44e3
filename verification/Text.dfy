/** Strings as the C++ code sees them: indexing past the end, tokenising,
    the one-dot terminator test and decimal printing. */
module Text {

  // operator[] of a constant std::string yields NUL at the end position.
  function At(s: string, i: nat): char {
    if i < |s| then s[i] else '\0'
  }

  // The end-of-message test made in three places: by the SMTP session on what
  // a client sends, by the backend on what it receives, and by the POP side
  // on what it reads back.
  predicate IsTerminator(line: string) {
    At(line, 0) == '.' && (At(line, 1) == '\r' || At(line, 1) == '\n')
  }

  // What Session::getLine hands out: one '\n', at the very end.
  predicate IsLine(s: string) {
    s != "" && s[|s| - 1] == '\n' && forall i :: 0 <= i < |s| - 1 ==> s[i] != '\n'
  }

  // A message line as the SMTP session forwards it.
  predicate IsDataLine(s: string) {
    IsLine(s) && !IsTerminator(s)
  }

  function Concat(lines: seq<string>): string {
    if lines == [] then "" else lines[0] + Concat(lines[1..])
  }

  lemma {:induction false} ConcatSnoc(lines: seq<string>, l: string)
    ensures Concat(lines + [l]) == Concat(lines) + l
  {
    if lines != [] {
      assert (lines + [l])[1..] == lines[1..] + [l];
      ConcatSnoc(lines[1..], l);
    } else {
      assert (lines + [l])[1..] == [];
    }
  }

  // How many characters stand before the first '\n'; all, if there is none.
  function NewlineAt(s: string): (n: nat)
    ensures n <= |s| && forall i :: 0 <= i < n ==> s[i] != '\n'
    ensures n < |s| ==> s[n] == '\n'
  {
    if s == "" || s[0] == '\n' then 0 else 1 + NewlineAt(s[1..])
  }

  // A stream cut after each '\n'; what follows the last one is no line yet.
  function Split(s: string): seq<string>
    decreases |s|
  {
    var n := NewlineAt(s);
    if n == |s| then [] else [s[..n + 1]] + Split(s[n + 1..])
  }

  lemma {:induction false} NewlineUnique(s: string, n: nat)
    requires n < |s| && s[n] == '\n' && forall i :: 0 <= i < n ==> s[i] != '\n'
    ensures NewlineAt(s) == n
  {
  }

  lemma {:induction false} SplitFirst(line: string, rest: string)
    requires IsLine(line)
    ensures Split(line + rest) == [line] + Split(rest)
  {
    var s := line + rest;
    NewlineUnique(s, |line| - 1);
    assert s[..|line|] == line && s[|line|..] == rest;
  }

  // Lines put end to end are found again by cutting.
  lemma {:induction false} SplitConcat(lines: seq<string>, rest: string)
    requires forall i :: 0 <= i < |lines| ==> IsLine(lines[i])
    ensures Split(Concat(lines) + rest) == lines + Split(rest)
    decreases |lines|
  {
    if lines == [] {
      assert Concat(lines) + rest == rest;
    } else {
      assert Concat(lines) + rest == lines[0] + (Concat(lines[1..]) + rest);
      SplitFirst(lines[0], Concat(lines[1..]) + rest);
      SplitConcat(lines[1..], rest);
    }
  }

  lemma {:induction false} ConcatAppend(a: seq<string>, b: seq<string>)
    ensures Concat(a + b) == Concat(a) + Concat(b)
    decreases |a|
  {
    if a == [] {
      assert a + b == b;
    } else {
      assert (a + b)[1..] == a[1..] + b;
      ConcatAppend(a[1..], b);
    }
  }

  // ---------------------------------------------------------------- stringtok

  predicate IsBlank(c: char) { c == ' ' || c == '\t' || c == '\n' }

  // A word: what can be one argument of the line protocol between the mail
  // front ends and the backends.
  predicate IsWord(s: string) {
    s != "" && forall i :: 0 <= i < |s| ==> !IsBlank(s[i]) && s[i] != '\r'
  }

  type Word = s: string | IsWord(s) witness "a"

  function WordLength(s: string): (n: nat)
    ensures n <= |s|
    ensures forall i :: 0 <= i < n ==> !IsBlank(s[i])
    ensures n < |s| ==> IsBlank(s[n])
  {
    if s == "" || IsBlank(s[0]) then 0 else 1 + WordLength(s[1..])
  }

  // The words of a string, cut at blanks.
  function Tokens(s: string): seq<string>
    decreases |s|
  {
    if s == "" then []
    else if IsBlank(s[0]) then Tokens(s[1..])
    else
      var n := WordLength(s);
      [s[..n]] + Tokens(s[n..])
  }

  // Everything from the first CR or LF on is dropped.
  function Strip(s: string): string {
    if s == "" || s[0] == '\r' || s[0] == '\n' then "" else [s[0]] + Strip(s[1..])
  }

  lemma {:induction false} WordLengthOfWord(w: string, rest: string)
    requires forall i :: 0 <= i < |w| ==> !IsBlank(w[i])
    requires rest == "" || IsBlank(rest[0])
    ensures WordLength(w + rest) == |w|
  {
    if w == "" {
      assert w + rest == rest;
    } else {
      assert (w + rest)[1..] == w[1..] + rest;
      WordLengthOfWord(w[1..], rest);
    }
  }

  lemma {:induction false} TokensWordFirst(w: string, rest: string)
    requires IsWord(w)
    requires rest == "" || IsBlank(rest[0])
    ensures Tokens(w + rest) == [w] + Tokens(rest)
  {
    WordLengthOfWord(w, rest);
    assert (w + rest)[..|w|] == w;
    assert (w + rest)[|w|..] == rest;
  }

  lemma {:induction false} TokensSingle(w: string)
    requires IsWord(w)
    ensures Tokens(w) == [w]
  {
    TokensWordFirst(w, "");
    assert w + "" == w;
  }

  lemma {:induction false} StripLine(s: string)
    requires forall i :: 0 <= i < |s| ==> s[i] != '\r' && s[i] != '\n'
    ensures Strip(s + "\n") == s
  {
    if s != "" {
      assert (s + "\n")[1..] == s[1..] + "\n";
      StripLine(s[1..]);
    }
  }

  // A three-word command line, as the client writes it, is read back as
  // exactly its three words.
  lemma {:induction false} ThreeWords(a: string, b: string, c: string)
    requires IsWord(a) && IsWord(b) && IsWord(c)
    ensures Tokens(Strip(a + " " + b + " " + c + "\n")) == [a, b, c]
  {
    var body := a + " " + b + " " + c;
    StripLine(body);
    assert body == a + (" " + (b + (" " + c)));
    TokensWordFirst(a, " " + (b + (" " + c)));
    assert (" " + (b + (" " + c)))[1..] == b + (" " + c);
    TokensWordFirst(b, " " + c);
    assert (" " + c)[1..] == c;
    TokensSingle(c);
  }

  lemma {:induction false} TwoWords(a: string, b: string)
    requires IsWord(a) && IsWord(b)
    ensures Tokens(Strip(a + " " + b + "\n")) == [a, b]
  {
    var body := a + " " + b;
    StripLine(body);
    assert body == a + (" " + b);
    TokensWordFirst(a, " " + b);
    assert (" " + b)[1..] == b;
    TokensSingle(b);
  }

  // A one-word command line.
  lemma {:induction false} OneWord(a: string)
    requires IsWord(a)
    ensures Strip(a + "\n") == a && Tokens(Strip(a + "\n")) == [a]
  {
    StripLine(a);
    TokensSingle(a);
  }

  // --------------------------------------------------------------------- itoa

  function Digit(n: nat): char
    requires n < 10
  {
    "0123456789"[n]
  }

  function Itoa(n: nat): (s: string)
    ensures IsWord(s)
  {
    if n < 10 then [Digit(n)] else Itoa(n / 10) + [Digit(n % 10)]
  }

  lemma {:induction false} ItoaInjective(m: nat, n: nat)
    requires Itoa(m) == Itoa(n)
    ensures m == n
  {
    var s, t := Itoa(m), Itoa(n);
    assert s[|s| - 1] == Digit(m % 10) && t[|t| - 1] == Digit(n % 10);
    assert m % 10 == n % 10;
    if m >= 10 && n >= 10 {
      assert s[..|s| - 1] == Itoa(m / 10) && t[..|t| - 1] == Itoa(n / 10);
      ItoaInjective(m / 10, n / 10);
    }
  }
}
