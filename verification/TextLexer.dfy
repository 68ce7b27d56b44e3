/** The scanner object: what flex keeps between calls of yylex. */
module TextLexer {
  import opened TextGrammar
  import opened TextLexerSpec

  class Lexer {
    var rest: string
    var mode: Mode

    constructor ()
      ensures rest == "" && mode == Initial
    {
      rest, mode := "", Initial;
    }

    // yyrestart: a new input; the start condition is kept.
    method Yyrestart(file: string)
      modifies this
      ensures rest == file && mode == old(mode)
    {
      rest := file;
    }

    // No token is the end of the input.
    method Yylex() returns (t: seq<Token>)
      modifies this
      ensures (t, rest, mode) == ReadOne(old(rest), old(mode))
      ensures |t| <= 1 && Lex(old(rest), old(mode)) == if t == [] then [] else t + Lex(rest, mode)
    {
      ReadOneIsLex(rest, mode);
      while rest != ""
        invariant ReadOne(rest, mode) == ReadOne(old(rest), old(mode))
        decreases |rest|
      {
        var m := OneMatch(rest, mode);
        assert ReadOne(rest, mode) == ReadOn(rest, mode);
        rest, mode := m.rest, m.mode;
        if m.end {
          return [];
        }
        if m.token != [] {
          return m.token;
        }
      }
      t := [];
    }
  }
}
