/**
 * The recursive-descent grammar as pure functions over a lazy token cursor:
 *
 *   bic  ::= cond ("<->" bic)?      right-associative by recursion
 *   cond ::= disj ("->" cond)?      right-associative by recursion
 *   disj ::= conj ("|" conj)*       left fold
 *   conj ::= neg ("&" neg)*         left fold
 *   neg  ::= "~" neg | unit
 *   unit ::= IDENT | "(" bic ")"
 *
 * A cursor holds the current token (None once the text is exhausted) and the
 * text position just after it; advancing lexes one more token from there.
 */
module Grammar {
  import opened Results
  import opened Core
  import opened Lexer
  import Strings

  datatype Cursor = Cursor(current: Option<Token>, pos: nat)

  type Parsed = Result<(Formula, Cursor), ParseError>

  /** Characters left after the cursor, plus one for a pending current token. */
  function Measure(text: string, c: Cursor): nat
    requires c.pos <= |text|
  {
    |text| - c.pos + (if c.current.Some? then 1 else 0)
  }

  /** A cursor `after` reached from `before` by consuming tokens. */
  ghost predicate Consumed(text: string, before: Cursor, after: Cursor)
    requires before.pos <= |text|
  {
    after.pos <= |text| && before.pos <= after.pos && Measure(text, after) <= Measure(text, before)
  }

  /** The errors the lexer raises: a character it cannot use, or the end of the text inside an arrow. */
  predicate IsLexError(e: ParseError) {
    e.UnexpectedChar? || e.UnexpectedEnd?
  }

  /** The parser's errors come from the lexer or from the grammar, never from an empty text. */
  predicate IsSyntaxError(e: ParseError) {
    e.UnexpectedChar? || e.UnexpectedEnd? || e.UnexpectedToken?
  }

  /**
   * Pull the next token from `pos`; at the end of the text the current token
   * becomes None.
   */
  function Advance(text: string, pos: nat): (r: Result<Cursor, ParseError>)
    requires pos <= |text|
    ensures r.Ok? ==> pos <= r.value.pos <= |text| && Measure(text, r.value) <= |text| - pos
    ensures r.Ok? && r.value.current.Some? ==> WellFormed(r.value.current.value)
    ensures r.Ok? && r.value.current.None? ==> r.value.pos == |text|
    ensures r.Err? ==> IsLexError(r.error)
  {
    match Lex(text, pos)
    case Produced(t, next) => Ok(Cursor(Some(t), next))
    case Finished => Ok(Cursor(None, |text|))
    case Failed(e) => Err(e)
  }

  predicate At(c: Cursor, kind: TokenKind) {
    c.current.Some? && c.current.value.kind == kind
  }

  function Bic(text: string, c: Cursor): (r: Parsed)
    requires c.pos <= |text|
    ensures r.Ok? ==> Consumed(text, c, r.value.1)
    ensures r.Err? ==> IsSyntaxError(r.error)
    decreases Measure(text, c), 7
  {
    var (left, c1) :- Cond(text, c);
    if At(c1, IffOp) then
      var c2 :- Advance(text, c1.pos);
      var (right, c3) :- Bic(text, c2);
      Ok((Iff(left, right), c3))
    else
      Ok((left, c1))
  }

  function Cond(text: string, c: Cursor): (r: Parsed)
    requires c.pos <= |text|
    ensures r.Ok? ==> Consumed(text, c, r.value.1)
    ensures r.Err? ==> IsSyntaxError(r.error)
    decreases Measure(text, c), 6
  {
    var (left, c1) :- Disj(text, c);
    if At(c1, ImpliesOp) then
      var c2 :- Advance(text, c1.pos);
      var (right, c3) :- Cond(text, c2);
      Ok((Implies(left, right), c3))
    else
      Ok((left, c1))
  }

  function Disj(text: string, c: Cursor): (r: Parsed)
    requires c.pos <= |text|
    ensures r.Ok? ==> Consumed(text, c, r.value.1)
    ensures r.Err? ==> IsSyntaxError(r.error)
    decreases Measure(text, c), 5
  {
    var (first, c1) :- Conj(text, c);
    DisjTail(text, first, c1)
  }

  /** The `("|" conj)*` loop, folding each operand onto the accumulated left side. */
  function DisjTail(text: string, acc: Formula, c: Cursor): (r: Parsed)
    requires c.pos <= |text|
    ensures r.Ok? ==> Consumed(text, c, r.value.1)
    ensures r.Err? ==> IsSyntaxError(r.error)
    decreases Measure(text, c), 4
  {
    if At(c, OrOp) then
      var c1 :- Advance(text, c.pos);
      var (next, c2) :- Conj(text, c1);
      DisjTail(text, Or(acc, next), c2)
    else
      Ok((acc, c))
  }

  function Conj(text: string, c: Cursor): (r: Parsed)
    requires c.pos <= |text|
    ensures r.Ok? ==> Consumed(text, c, r.value.1)
    ensures r.Err? ==> IsSyntaxError(r.error)
    decreases Measure(text, c), 3
  {
    var (first, c1) :- Neg(text, c);
    ConjTail(text, first, c1)
  }

  /** The `("&" neg)*` loop, folding each operand onto the accumulated left side. */
  function ConjTail(text: string, acc: Formula, c: Cursor): (r: Parsed)
    requires c.pos <= |text|
    ensures r.Ok? ==> Consumed(text, c, r.value.1)
    ensures r.Err? ==> IsSyntaxError(r.error)
    decreases Measure(text, c), 2
  {
    if At(c, AndOp) then
      var c1 :- Advance(text, c.pos);
      var (next, c2) :- Neg(text, c1);
      ConjTail(text, And(acc, next), c2)
    else
      Ok((acc, c))
  }

  function Neg(text: string, c: Cursor): (r: Parsed)
    requires c.pos <= |text|
    ensures r.Ok? ==> Consumed(text, c, r.value.1)
    ensures r.Err? ==> IsSyntaxError(r.error)
    decreases Measure(text, c), 1
  {
    if At(c, NotOp) then
      var c1 :- Advance(text, c.pos);
      var (operand, c2) :- Neg(text, c1);
      Ok((Not(operand), c2))
    else
      Unit(text, c)
  }

  /** The error for a token the grammar cannot use here, or for running out of tokens. */
  function Unexpected(c: Cursor): ParseError {
    if c.current.None? then UnexpectedEnd else UnexpectedToken(c.current.value.lexeme)
  }

  function Unit(text: string, c: Cursor): (r: Parsed)
    requires c.pos <= |text|
    ensures r.Ok? ==> Consumed(text, c, r.value.1)
    ensures r.Err? ==> IsSyntaxError(r.error)
    decreases Measure(text, c), 0
  {
    if At(c, Ident) then
      var c1 :- Advance(text, c.pos);
      Ok((Atomic(c.current.value.lexeme), c1))
    else if At(c, LParen) then
      var c1 :- Advance(text, c.pos);
      var (inner, c2) :- Bic(text, c1);
      if At(c2, RParen) then
        var c3 :- Advance(text, c2.pos);
        Ok((inner, c3))
      else
        Err(Unexpected(c2))
    else
      Err(Unexpected(c))
  }

  /**
   * `prop(text)`: pull the first token, which must exist, then parse one `bic`
   * and return it; whatever follows is never looked at.
   */
  function Prop(text: string): (r: Result<Formula, ParseError>)
    ensures r == Err(EmptyTokenStream) <==> forall k :: 0 <= k < |text| ==> IsLexWhitespace(text[k])
  {
    var c :- Advance(text, 0);
    if c.current.None? then
      Err(EmptyTokenStream)
    else
      var (f, _) :- Bic(text, c);
      Ok(f)
  }

  /** Parse each piece with `Prop`, left to right, stopping at the first failure. */
  function PropAll(pieces: seq<string>): (r: Result<seq<Formula>, ParseError>)
    ensures r.Ok? ==> |r.value| == |pieces|
    ensures r.Ok? ==> forall i :: 0 <= i < |pieces| ==> Prop(pieces[i]) == Ok(r.value[i])
    ensures r.Err? ==> exists i :: 0 <= i < |pieces| && Prop(pieces[i]) == Err(r.error)
                               && (forall j :: 0 <= j < i ==> Prop(pieces[j]).Ok?)
  {
    if |pieces| == 0 then Ok([])
    else
      var f :- Prop(pieces[0]);
      var fs :- PropAll(pieces[1..]);
      Ok([f] + fs)
  }

  /** `props(text)`: the pieces between commas, each parsed as one formula. */
  function Props(text: string): (r: Result<seq<Formula>, ParseError>)
    ensures r.Ok? ==> |r.value| == |Strings.Split(text, ',')|
    ensures r.Ok? ==> forall i :: 0 <= i < |Strings.Split(text, ',')| ==>
                        Prop(Strings.Split(text, ',')[i]) == Ok(r.value[i])
    ensures r.Err? ==> exists i :: 0 <= i < |Strings.Split(text, ',')|
                        && Prop(Strings.Split(text, ',')[i]) == Err(r.error)
                        && (forall j :: 0 <= j < i ==> Prop(Strings.Split(text, ',')[j]).Ok?)
  {
    PropAll(Strings.Split(text, ','))
  }
}
