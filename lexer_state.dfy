/** The lexer state that every parse call receives by exclusive reference,
    and the identifier lexer it is asked for. Their definitions are not part
    of this model: the state is reduced to its cursor `next_position`, and
    `state.lex::<IdentifierExpression>()` to an oracle of that cursor. */
module Lexer {
  import opened Token

  /** Stand-in for `IdentifierExpression`: an identifier with the offsets
      its `start()` and `end()` accessors report. */
  datatype IdentifierExpression = IdentifierExpression(name: string, start: Usize, end: Usize)

  /** What one call of the identifier lexer does: the result it returns and
      the cursor it leaves behind. */
  datatype LexStep = LexStep(result: LexResult<IdentifierExpression>, next: Usize)

  class LexerState {
    /** `state.next_position`: the offset the next lexing call starts at. */
    var nextPosition: Usize

    /** The identifier lexer over the fixed source text, as a function of
        the cursor it starts from. Nothing is assumed about it: it may fail,
        find nothing, or move the cursor anywhere. */
    const identifierLexer: Usize -> LexStep

    constructor (position: Usize, lexer: Usize -> LexStep)
      ensures nextPosition == position
      ensures identifierLexer == lexer
    {
      nextPosition := position;
      identifierLexer := lexer;
    }

    /** `state.lex::<IdentifierExpression>()`: returns what the lexer
        answers at the current cursor and moves the cursor where it says. */
    method LexIdentifier() returns (r: LexResult<IdentifierExpression>)
      modifies this
      ensures r == identifierLexer(old(nextPosition)).result
      ensures nextPosition == identifierLexer(old(nextPosition)).next
    {
      var step := identifierLexer(nextPosition);
      r := step.result;
      nextPosition := step.next;
    }
  }
}
