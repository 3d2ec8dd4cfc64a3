# Pyret lexer: type annotations and the token surface

A Dafny model of two files of the Pyret lexer crate:

- `crates/lexer/src/token.rs`: the `Token` contract every node implements
  (the type constant `NODE_NAME`, the accessors `leaf_name()`, `start()`,
  `end()`, and the default methods `span()` and `serialize()`), and the
  result shapes of `TokenLexer::lex` (optional match) and
  `TokenParser::parse` (commit).
- `crates/lexer/src/ast/leaf/type_ann.rs`: the annotation tree
  (`IdentifierAnnotation`, `AnnotationType`), the `TypeAnnotation` leaf, and
  its one implemented parse step, which reads a bare name after `::`.

Files:

- `token.dfy` (module `Token`): `Usize`, `PyretResult`, `Range` with its
  half-open meaning, `SerializedToken`, `TokenView` (one implementer's
  accessor values), `Span`, `Serialize`, and the lexer/parser result shapes.
- `lexer_state.dfy` (module `Lexer`): the class `LexerState` with its cursor
  field `nextPosition` (`next_position`) and the identifier lexer as an
  oracle of the cursor; `LexIdentifier` is `state.lex::<IdentifierExpression>()`.
- `type_ann.dfy` (module `TypeAnn`): the datatypes, the pure outcome
  `ParseOutcome` and the method `Parse` proved against it.

Modelling choices:

- Dafny traits are not used, so a `Token` implementer is represented by the
  value `TokenView(nodeName, leafName, start, end)`; `Span` and `Serialize`
  are the two default methods written over it.
- `Box<AnnotationType>` is plain recursion, `HashMap` is `map`, `Vec` is
  `seq`, `Box<str>` is `string`. `usize` is the 64-bit range `Usize`.
- The `todo!()` of the parse step is the explicit outcome
  `Completion.Unimplemented`; `PyretResult` itself keeps its two cases.
- The identifier lexer is a `const` function from the cursor to a
  `LexStep` (its result and the cursor it leaves). Nothing is assumed about
  it: it may fail, find nothing, or move the cursor anywhere.
- The text argument `_input` of `parse` is a parameter that nothing reads.

- The result shapes of `TokenLexer::lex` and `TokenParser::parse` are the
  type synonyms `LexResult<T>` (`PyretResult<Option<T>>`: error, absent or
  present) and `ParseResult<T>` (`PyretResult<T>`: error or value); they
  carry the three-versus-two outcomes by construction. How the parse step
  turns each lexer outcome into its result is stated by `ParseOutcome`.

The Pyret annotation grammar linked from type_ann.rs:10 has four kinds of
annotation, with dotted paths, applied parameters, predicates, arrows,
tuples and records. This code implements only the bare-name branch, and the
model follows it. The Rust types do not require a dotted path or a tuple to
be non-empty, so the datatypes do not either.

## Model

| member | source | states |
|---|---|---|
| Token.Span | crates/lexer/src/token.rs:17-19 | `span()` starts at `start()`, ends at `end()`, and contains exactly the offsets `start() <= i < end()` |
| Token.Positions | crates/lexer/src/token.rs:17-19 | the set of offsets a range `start..end` covers is exactly those `Range::contains` accepts: `start <= i < end` |
| Token.PositionsCount | crates/lexer/src/token.rs:17-19 | a half-open range `start..end` covers exactly `end - start` offsets, none when `start >= end` |
| Token.SpanIsHalfOpen | crates/lexer/src/token.rs:17-19 | `span()` contains `start()` when non-empty, never contains `end()`, and covers `end() - start()` offsets |
| Token.Serialize | crates/lexer/src/token.rs:21-26 | `serialize().span` equals `span()` and `serialize().name` is `leaf_name()` |
| Token.SerializeDeterminedByAccessors | crates/lexer/src/token.rs:21-26 | two tokens serialize identically if and only if they agree on `leaf_name()`, `start()` and `end()` |
| Token.SerializeIgnoresNodeName | crates/lexer/src/token.rs:8-23 | the serialized name does not depend on the type constant `NODE_NAME`, and differs from it whenever `leaf_name()` does |
| Lexer.LexerState.LexIdentifier | crates/lexer/src/ast/leaf/type_ann.rs:47 | returns the identifier lexer's answer at the current cursor and moves the cursor where the lexer leaves it, changing nothing else |
| TypeAnn.ParseOutcome | crates/lexer/src/ast/leaf/type_ann.rs:42-66 | an error from the lexer is returned unchanged and is the only error; no identifier reaches the unimplemented branch; an identifier gives a `NameAnnotation` with path `Name(ident)` (never `Dot`), no parameters, no predicate, and span from the captured cursor to `ident.end()` |
| TypeAnn.Parse | crates/lexer/src/ast/leaf/type_ann.rs:40-67 | captures the cursor before lexing, completes as `ParseOutcome` of that cursor and the lexer's answer, and leaves the cursor where the lexer put it |
| TypeAnn.ParseIgnoresInput | crates/lexer/src/ast/leaf/type_ann.rs:42 | the text argument does not influence the outcome |
| TypeAnn.SpanStartNotIdentStart | crates/lexer/src/ast/leaf/type_ann.rs:43-63 | the span start is the cursor read before lexing, which can differ from the identifier's own `start()` |
| TypeAnn.ArrowGenericsAbsentVsEmpty | crates/lexer/src/ast/leaf/type_ann.rs:22-26 | an arrow with no generic clause differs from one with an empty clause, and an arrow keeps its one return annotation |

## Left out

- Arrow, tuple, record, dotted-path, generic and predicate parsing: the code has only `todo!()` for them (type_ann.rs:57-59), so the model has the datatypes and the `Unimplemented` outcome, not a grammar.
- The internals of `LexerState`, `IdentifierExpression`, `PyretError` and `state.lex` are not part of this model: the state is reduced to its cursor, the lexer to an oracle of the cursor, the identifier to a name and two offsets, the error to an offset and a message.
- Cursor rollback on an absent match and cursor monotonicity: this code does not establish either, so the oracle may move the cursor anywhere.
- The output of `#[derive(Leaf)]` and `#[regex("::")]` (type_ann.rs:33-34) is generated code: how `TypeAnnotation`'s `start()`/`end()` follow from its `span` pair, and how `::` is matched, are not modelled.
- `TokenLexer::lex` and `TokenParser::parse` are signatures only; the model gives their result shapes, not implementations.
- `Debug`, `PartialEq`, `Hash`, `Box` allocation and the `Box<str>` copy in `serialize` are language plumbing, replaced by Dafny's value equality, recursion and `string`.
- Panics other than `todo!()` and overflow of `usize` offsets do not arise in the modelled code.
