/** The text userbase: reading the file again when it has changed, through the
    one global scanner and the one global entry. */
module TextBase {
  import opened TextGrammar
  import opened TextLexerSpec
  import TextLexer
  import TextParser

  class TextUserBase {
    const lexer: TextLexer.Lexer
    var addr: TextBaseEntry
    var textbase: seq<TextBaseEntry>
    var parsed: bool

    constructor ()
      ensures fresh(lexer) && lexer.mode == Initial && addr == BLANK && textbase == [] && !parsed
    {
      lexer := new TextLexer.Lexer();
      addr, textbase, parsed := BLANK, [], false;
    }

    // A file that is refused leaves the entries as they were.
    method TryParse(file: string)
      modifies this, lexer
      ensures var r := Roots(Lex(file, old(lexer.mode)), old(addr), []);
              && addr == r.addr
              && textbase == (if r.ok then r.called else old(textbase))
              && parsed == (old(parsed) || r.ok)
    {
      lexer.Yyrestart(file);
      var parser := new TextParser.Parser(lexer, addr);
      var verdict := parser.Yyparse();
      addr := parser.addr;
      if verdict == TextParser.Accepted {
        textbase, parsed := parser.called, true;
      }
    }
  }
}
