/** The token surface shared by every lexical and syntactic node: the three
    accessors every node supplies, the two derived defaults (span and
    serialize), and the result shapes of the optional-match lexer and of the
    commit parser. */
module Token {

  /** Rust's `usize` on a 64-bit target: byte offsets into the source text. */
  type Usize = x: int | 0 <= x < 0x1_0000_0000_0000_0000

  datatype Option<+T> = None | Some(value: T)

  /** Stand-in for the crate's error type, whose definition is not part of
      this model: a positioned error with a description. */
  datatype PyretError = PyretError(offset: Usize, message: string)

  /** `PyretResult<T>`: a recoverable error or a value. */
  datatype PyretResult<+T> = Ok(value: T) | Err(error: PyretError)

  /** `std::ops::Range<usize>`: the half-open range `start..end`. */
  datatype Range = Range(start: Usize, end: Usize)

  /** `Range::contains`: `start` included, `end` excluded. */
  predicate Contains(r: Range, i: int)
  {
    r.start <= i < r.end
  }

  /** The offsets a range covers: exactly those `Range::contains` accepts. */
  ghost function Positions(r: Range): (p: set<int>)
    ensures forall i :: i in p <==> Contains(r, i)
    decreases Len(r)
  {
    if r.start < r.end then Positions(Range(r.start, r.end - 1)) + {r.end - 1} else {}
  }

  /** The number of offsets in a range (zero when `start >= end`). */
  function Len(r: Range): nat
  {
    if r.start <= r.end then r.end - r.start else 0
  }

  /** A half-open range `start..end` covers exactly `end - start` offsets. */
  lemma {:induction false} PositionsCount(r: Range)
    ensures |Positions(r)| == Len(r)
    decreases Len(r)
  {
    if r.start < r.end {
      var shorter := Range(r.start, r.end - 1);
      PositionsCount(shorter);
      assert Positions(r) == Positions(shorter) + {r.end - 1};
    } else {
      assert Positions(r) == {};
    }
  }

  /** `SerializedToken { name, span }`: the kind-independent description of a
      node handed to downstream tooling. */
  datatype SerializedToken = SerializedToken(name: string, span: Range)

  /** What one value of a type implementing `Token` exposes: the type's
      constant `NODE_NAME` and the per-instance accessors `leaf_name()`,
      `start()` and `end()`. */
  datatype TokenView = TokenView(nodeName: string, leafName: string, start: Usize, end: Usize)

  /** The default method `span()`. */
  function Span(t: TokenView): (r: Range)
    ensures r.start == t.start
    ensures r.end == t.end
    ensures forall i :: Contains(r, i) <==> t.start <= i < t.end
  {
    Range(t.start, t.end)
  }

  /** The default method `serialize()`. */
  function Serialize(t: TokenView): (s: SerializedToken)
    ensures s.span == Span(t)
    ensures s.name == t.leafName
  {
    SerializedToken(t.leafName, Range(t.start, t.end))
  }

  /** `span()` is the half-open range from `start()` to `end()`: it contains
      `start()` whenever it is non-empty, never contains `end()`, and covers
      exactly `end() - start()` offsets. */
  lemma SpanIsHalfOpen(t: TokenView)
    ensures t.start < t.end ==> t.start in Positions(Span(t))
    ensures t.end !in Positions(Span(t))
    ensures |Positions(Span(t))| == if t.start <= t.end then t.end - t.start else 0
  {
    PositionsCount(Span(t));
  }

  /** `serialize()` reads only `leaf_name()`, `start()` and `end()`: two
      tokens serialize identically exactly when they agree on those three. */
  lemma SerializeDeterminedByAccessors(a: TokenView, b: TokenView)
    ensures Serialize(a) == Serialize(b) <==>
            a.leafName == b.leafName && a.start == b.start && a.end == b.end
  {
  }

  /** The serialized name is the instance's `leaf_name()`, never the type
      constant `NODE_NAME`: changing the constant does not change the
      serialization. */
  lemma SerializeIgnoresNodeName(t: TokenView, nodeName: string)
    ensures Serialize(t.(nodeName := nodeName)) == Serialize(t)
    ensures t.nodeName != t.leafName ==> Serialize(t).name != t.nodeName
  {
  }

  /** `TokenLexer::lex` answers `PyretResult<Option<Self>>`: an error, an
      absent construct (`Ok(None)`), or a lexed one (`Ok(Some(_))`). */
  type LexResult<T> = PyretResult<Option<T>>

  /** `TokenParser::parse` answers `PyretResult<Self>`: an error or a value;
      it has no case for an absent construct. */
  type ParseResult<T> = PyretResult<T>
}
