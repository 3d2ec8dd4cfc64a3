/** Type annotations: the annotation tree and the one implemented parse
    step, which reads a bare name after the `::` marker. */
module TypeAnn {
  import opened Token
  import opened Lexer

  /** The path of a name annotation: a dotted sequence or a bare name. */
  datatype IdentifierAnnotation =
    | Dot(parts: seq<IdentifierExpression>)
    | Name(ident: IdentifierExpression)

  /** The four kinds of annotation. An arrow has exactly one return
      annotation; its generic clause is absent (`None`) or written, possibly
      empty (`Some([])`). */
  datatype AnnotationType =
    | NameAnnotation(path: IdentifierAnnotation,
                     parameters: seq<IdentifierExpression>,
                     pred: Option<IdentifierExpression>)
    | ArrowAnnotation(generics: Option<seq<IdentifierExpression>>,
                      arguments: seq<AnnotationType>,
                      returnAnnotation: AnnotationType)
    | TupleAnnotation(elements: seq<AnnotationType>)
    | RecordAnnotation(fields: map<IdentifierExpression, AnnotationType>)

  /** The leaf anchoring a `::` marker to the annotation after it. */
  datatype TypeAnnotation = TypeAnnotation(span: (Usize, Usize), value: AnnotationType)

  /** How a call of `parse` ends: it returns a `PyretResult`, or it reaches
      the `todo!()` of a branch that has no implementation. */
  datatype Completion<T> = Returns(result: ParseResult<T>) | Unimplemented

  /** What `TypeAnnotation::parse` yields, given its text argument, the
      cursor it captured before lexing, and what the identifier lexer
      answered. */
  function ParseOutcome(input: string, startPosition: Usize,
                        lexed: LexResult<IdentifierExpression>): (c: Completion<TypeAnnotation>)
    // a lexer error is returned unchanged, and nothing is built
    ensures c.Returns? && c.result.Err? <==> lexed.Err?
    ensures lexed.Err? ==> c == Returns(Err(lexed.error))
    // no identifier: the unimplemented branch
    ensures lexed == Ok(None) <==> c.Unimplemented?
    // an identifier: a bare-name annotation spanning from the captured
    // cursor to the identifier's end
    ensures c.Returns? && c.result.Ok? <==> lexed.Ok? && lexed.value.Some?
    ensures c.Returns? && c.result.Ok? ==>
              var ident := lexed.value.value;
              var ann := c.result.value;
              && ann.value.NameAnnotation?
              && ann.value.path == Name(ident)
              && ann.value.parameters == []
              && ann.value.pred == None
              && ann.span.0 == startPosition
              && ann.span.1 == ident.end
  {
    match lexed
    case Err(e) => Returns(Err(e))
    case Ok(None) => Unimplemented
    case Ok(Some(ident)) =>
      Returns(Ok(TypeAnnotation((startPosition, ident.end),
                                NameAnnotation(Name(ident), [], None))))
  }

  /** `TypeAnnotation::parse`: capture the cursor, lex an identifier, and on
      success build a bare name annotation. The text argument is not read. */
  method Parse(input: string, state: LexerState) returns (c: Completion<TypeAnnotation>)
    modifies state
    ensures c == ParseOutcome(input, old(state.nextPosition),
                              state.identifierLexer(old(state.nextPosition)).result)
    ensures state.nextPosition == state.identifierLexer(old(state.nextPosition)).next
  {
    var startPosition := state.nextPosition;
    var end: Usize;
    var lexed := state.LexIdentifier();
    if lexed.Err? {
      return Returns(Err(lexed.error));
    }
    var value: AnnotationType;
    match lexed.value {
      case Some(ident) =>
        end := ident.end;
        value := NameAnnotation(Name(ident), [], None);
      case None =>
        return Unimplemented;
    }
    c := Returns(Ok(TypeAnnotation((startPosition, end), value)));
  }

  /** The text argument plays no part: only the captured cursor and the
      lexer's answer decide the outcome. */
  lemma ParseIgnoresInput(a: string, b: string, startPosition: Usize,
                          lexed: LexResult<IdentifierExpression>)
    ensures ParseOutcome(a, startPosition, lexed) == ParseOutcome(b, startPosition, lexed)
  {
  }

  /** The span starts at the cursor captured before lexing, which need not be
      the identifier's own start: the two can differ. */
  lemma SpanStartNotIdentStart()
    ensures exists input: string, startPosition: Usize, ident: IdentifierExpression ::
              var c := ParseOutcome(input, startPosition, Ok(Some(ident)));
              && startPosition != ident.start
              && c.Returns? && c.result.Ok?
              && c.result.value.span == (startPosition, ident.end)
  {
    var ident := IdentifierExpression("Number", 4, 10);
    var c := ParseOutcome("", 3, Ok(Some(ident)));
    assert c.result.value.span == (3, ident.end);
  }

  /** An arrow's generic clause written empty is a different annotation from
      one with no generic clause; each arrow keeps its one return annotation. */
  lemma ArrowGenericsAbsentVsEmpty(arguments: seq<AnnotationType>, ret: AnnotationType)
    ensures ArrowAnnotation(None, arguments, ret) != ArrowAnnotation(Some([]), arguments, ret)
    ensures ArrowAnnotation(Some([]), arguments, ret).returnAnnotation == ret
  {
  }
}
