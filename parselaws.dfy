/**
 * Laws of the parser over renderings of arbitrary formulas: operator
 * precedence and associativity against a reference grouping, tokens left
 * after a formula, the errors of an unclosed parenthesis, and `props` over a
 * comma-joined list.
 */
module ParseLaws {
  import opened Results
  import opened Core
  import opened Lexer
  import opened Grammar
  import opened RoundTrip
  import Strings

  // ---------------------------------------------------------------- reference grouping

  /** The grammar level that consumes each binary operator: `&` lowest, `<->` highest. */
  function Binds(k: TokenKind): nat
    requires IsBinaryOp(k)
  {
    match k
    case AndOp => 1
    case OrOp => 2
    case ImpliesOp => 3
    case IffOp => 4
  }

  /**
   * The grouping of `a k1 b k2 c` by the usual precedence table, independent
   * of the grammar: the operator that binds tighter takes its neighbours
   * first; for twice the same operator, `&` and `|` group to the left and
   * `->` and `<->` to the right.
   */
  function Group3(a: Formula, k1: TokenKind, b: Formula, k2: TokenKind, c: Formula): Formula
    requires IsBinaryOp(k1) && IsBinaryOp(k2)
  {
    if Binds(k1) < Binds(k2) then Node(k2, Node(k1, a, b), c)
    else if Binds(k1) > Binds(k2) then Node(k1, a, Node(k2, b, c))
    else if k1 == AndOp || k1 == OrOp then Node(k1, Node(k1, a, b), c)
    else Node(k1, a, Node(k1, b, c))
  }

  /** `a k b` with single spaces around the operator and no parentheses. */
  function Infix(l: string, k: TokenKind, r: string): string
    requires IsBinaryOp(k)
  {
    l + " " + Symbol(k) + " " + r
  }

  // ---------------------------------------------------------------- the theorems

  /**
   * `l k r`, unparenthesised, parses as the node of `k`. The operands may be
   * any rendered formulas, so `~x k r` is `Node(k, Not(x), r)`: `~` binds
   * tighter than every binary operator.
   */
  lemma ParsesInfix(l: Formula, k: TokenKind, r: Formula)
    requires IsBinaryOp(k) && IdentAtoms(l) && IdentAtoms(r)
    ensures Prop(Infix(l.Render(), k, r.Render())) == Ok(Node(k, l, r))
  {
    var text := Infix(l.Render(), k, r.Render());
    ScanInfix(text, l, k, r);
    ParsesScannedInfix(text, l, k, r);
  }

  /**
   * Precedence and associativity: `a k1 b k2 c`, unparenthesised, parses as
   * the reference grouping. Among its instances: `a & b & c` is
   * `And(And(a, b), c)`, `a -> b -> c` is `Implies(a, Implies(b, c))`,
   * `a | b & c` is `Or(a, And(b, c))` and `a <-> b -> c` is
   * `Iff(a, Implies(b, c))`.
   */
  lemma Precedence(a: Formula, k1: TokenKind, b: Formula, k2: TokenKind, c: Formula)
    requires IsBinaryOp(k1) && IsBinaryOp(k2) && IdentAtoms(a) && IdentAtoms(b) && IdentAtoms(c)
    ensures Prop(Infix(Infix(a.Render(), k1, b.Render()), k2, c.Render())) == Ok(Group3(a, k1, b, k2, c))
  {
    var text := Infix(Infix(a.Render(), k1, b.Render()), k2, c.Render());
    ScanChain(text, a, k1, b, k2, c);
    ParsesScannedChain(text, a, k1, b, k2, c);
  }

  /** The tokens of `l` and `r` with the operator between them. */
  function InfixToks(l: Formula, k: TokenKind, r: Formula): seq<Token>
    requires IsBinaryOp(k)
  {
    Toks(l) + ([Token(k, Symbol(k))] + Toks(r))
  }

  lemma ScanInfix(text: string, l: Formula, k: TokenKind, r: Formula)
    requires IsBinaryOp(k) && IdentAtoms(l) && IdentAtoms(r) && text == Infix(l.Render(), k, r.Render())
    ensures Scan(text, 0, InfixToks(l, k, r)) == Some(|text|)
  {
    SpellInfix(l, k, r);
    ToksWellSpaced(l);
    ToksWellSpaced(r);
    OperatorJoinWellSpaced(Toks(l), Token(k, Symbol(k)), Toks(r));
    ScanSpelled(text, 0, |text|, InfixToks(l, k, r));
  }

  /** Whatever the text, if the lexer reads exactly the tokens of `l k r` from it, it parses as the node. */
  lemma ParsesScannedInfix(text: string, l: Formula, k: TokenKind, r: Formula)
    requires IsBinaryOp(k) && Scan(text, 0, InfixToks(l, k, r)) == Some(|text|)
    ensures Prop(text) == Ok(Node(k, l, r))
  {
    var m1, n1 := ScanPairFrom(text, 0, Toks(l), Token(k, Symbol(k)), Toks(r));
    var c0, e := InfixCursors(text, l, k, r, m1, n1);
    PropOfBic(text, c0, Node(k, l, r), e);
  }

  /** `bic` reads `l k r` from the cursors at the given positions. */
  lemma InfixCursors(text: string, l: Formula, k: TokenKind, r: Formula, m1: nat, n1: nat)
    returns (c0: Cursor, e: Cursor)
    requires IsBinaryOp(k) && m1 <= |text| && n1 <= |text|
    requires Scan(text, 0, Toks(l)) == Some(m1) && Lex(text, m1) == Produced(Token(k, Symbol(k)), n1)
    requires Scan(text, n1, Toks(r)) == Some(|text|)
    ensures Advance(text, 0) == Ok(c0) && c0.current.Some? && c0.pos <= |text|
    ensures Bic(text, c0) == Ok((Node(k, l, r), e))
  {
    var op := Token(k, Symbol(k));
    OperandThen(text, 0, l, m1, op, n1);
    NegScanned(text, n1, r, |text|);
    c0, e := Advance(text, 0).value, Advance(text, |text|).value;
    BinaryGrammar(text, k, l, r, c0, Cursor(Some(op), n1), Advance(text, n1).value, e);
  }

  /** `prop` returns what `bic` reads from the first cursor. */
  lemma PropOfBic(text: string, c0: Cursor, f: Formula, e: Cursor)
    requires Advance(text, 0) == Ok(c0) && c0.current.Some? && c0.pos <= |text|
    requires Bic(text, c0) == Ok((f, e))
    ensures Prop(text) == Ok(f)
  {
  }

  /** The tokens of `a k1 b k2 c`. */
  function ChainToks(a: Formula, k1: TokenKind, b: Formula, k2: TokenKind, c: Formula): seq<Token>
    requires IsBinaryOp(k1) && IsBinaryOp(k2)
  {
    Toks(a) + ([Token(k1, Symbol(k1))] + InfixToks(b, k2, c))
  }

  lemma ScanChain(text: string, a: Formula, k1: TokenKind, b: Formula, k2: TokenKind, c: Formula)
    requires IsBinaryOp(k1) && IsBinaryOp(k2) && IdentAtoms(a) && IdentAtoms(b) && IdentAtoms(c)
    requires text == Infix(Infix(a.Render(), k1, b.Render()), k2, c.Render())
    ensures Scan(text, 0, ChainToks(a, k1, b, k2, c)) == Some(|text|)
  {
    SpellChain(a, k1, b, k2, c);
    ToksWellSpaced(a);
    ToksWellSpaced(b);
    ToksWellSpaced(c);
    ChainJoinWellSpaced(Toks(a), Token(k1, Symbol(k1)), Toks(b), Token(k2, Symbol(k2)), Toks(c));
    ScanSpelled(text, 0, |text|, ChainToks(a, k1, b, k2, c));
  }

  lemma ChainJoinWellSpaced(ta: seq<Token>, op1: Token, tb: seq<Token>, op2: Token, tc: seq<Token>)
    requires IsBinaryOp(op1.kind) && WellFormed(op1) && IsBinaryOp(op2.kind) && WellFormed(op2)
    requires WellSpaced(ta) && WellSpaced(tb) && WellSpaced(tc)
    requires |tb| > 0 && EndsWell(tb) && |tc| > 0 && EndsWell(tc)
    ensures WellSpaced(ta + ([op1] + (tb + ([op2] + tc))))
    ensures EndsWell(ta + ([op1] + (tb + ([op2] + tc))))
  {
    OperatorJoinWellSpaced(tb, op2, tc);
    OperatorJoinWellSpaced(ta, op1, tb + ([op2] + tc));
  }

  /** Whatever the text, if the lexer reads exactly the tokens of `a k1 b k2 c` from it, it parses as the reference grouping. */
  lemma ParsesScannedChain(text: string, a: Formula, k1: TokenKind, b: Formula, k2: TokenKind, c: Formula)
    requires IsBinaryOp(k1) && IsBinaryOp(k2) && Scan(text, 0, ChainToks(a, k1, b, k2, c)) == Some(|text|)
    ensures Prop(text) == Ok(Group3(a, k1, b, k2, c))
  {
    var m1, n1, m2, n2 := ChainPositions(text, a, k1, b, k2, c);
    var c0, o1, c1, o2, c2, e := ChainCursors(text, a, k1, b, k2, c, m1, n1, m2, n2);
    ChainGrammar(text, a, k1, b, k2, c, c0, o1, c1, o2, c2, e);
    PropOfBic(text, c0, Group3(a, k1, b, k2, c), e);
  }

  /** Where the lexer stands around the two operators of `a k1 b k2 c`. */
  lemma ChainPositions(text: string, a: Formula, k1: TokenKind, b: Formula, k2: TokenKind, c: Formula)
    returns (m1: nat, n1: nat, m2: nat, n2: nat)
    requires IsBinaryOp(k1) && IsBinaryOp(k2) && Scan(text, 0, ChainToks(a, k1, b, k2, c)) == Some(|text|)
    ensures m1 <= |text| && m2 <= |text| && n2 <= |text|
    ensures Scan(text, 0, Toks(a)) == Some(m1) && Lex(text, m1) == Produced(Token(k1, Symbol(k1)), n1)
    ensures Scan(text, n1, Toks(b)) == Some(m2) && Lex(text, m2) == Produced(Token(k2, Symbol(k2)), n2)
    ensures Scan(text, n2, Toks(c)) == Some(|text|)
  {
    m1, n1 := ScanPairFrom(text, 0, Toks(a), Token(k1, Symbol(k1)), InfixToks(b, k2, c));
    m2, n2 := ScanPairFrom(text, n1, Toks(b), Token(k2, Symbol(k2)), Toks(c));
  }

  /** The cursors the parser passes through on the tokens of `a k1 b k2 c`, read at the given positions. */
  lemma ChainCursors(text: string, a: Formula, k1: TokenKind, b: Formula, k2: TokenKind, c: Formula,
                     m1: nat, n1: nat, m2: nat, n2: nat)
    returns (c0: Cursor, o1: Cursor, c1: Cursor, o2: Cursor, c2: Cursor, e: Cursor)
    requires IsBinaryOp(k1) && IsBinaryOp(k2) && m1 <= |text| && m2 <= |text| && n2 <= |text|
    requires Scan(text, 0, Toks(a)) == Some(m1) && Lex(text, m1) == Produced(Token(k1, Symbol(k1)), n1)
    requires Scan(text, n1, Toks(b)) == Some(m2) && Lex(text, m2) == Produced(Token(k2, Symbol(k2)), n2)
    requires Scan(text, n2, Toks(c)) == Some(|text|)
    ensures Advance(text, 0) == Ok(c0) && c0.current.Some?
    ensures Chained(text, a, k1, b, k2, c, c0, o1, c1, o2, c2, e)
  {
    var op1, op2 := Token(k1, Symbol(k1)), Token(k2, Symbol(k2));
    OperandThen(text, 0, a, m1, op1, n1);
    OperandThen(text, n1, b, m2, op2, n2);
    NegScanned(text, n2, c, |text|);
    c0, o1, c1 := Advance(text, 0).value, Cursor(Some(op1), n1), Advance(text, n1).value;
    o2, c2, e := Cursor(Some(op2), n2), Advance(text, n2).value, Advance(text, |text|).value;
  }

  /** `neg` reads an operand and stops at the operator the lexer produces after it. */
  lemma OperandThen(text: string, p: nat, t: Formula, m: nat, op: Token, n: nat)
    requires p <= |text| && Scan(text, p, Toks(t)) == Some(m) && m <= |text| && Lex(text, m) == Produced(op, n)
    ensures Advance(text, p).Ok? && Neg(text, Advance(text, p).value) == Ok((t, Cursor(Some(op), n)))
  {
    NegScanned(text, p, t, m);
    AdvanceLexed(text, m);
  }

  // ---------------------------------------------------------------- what follows a formula

  /**
   * No check for leftover tokens, and lazy lexing: after a rendered formula
   * the parser pulls exactly one more token. If that token is no binary
   * operator the formula is the result, whatever follows it; if lexing it
   * fails, that failure is the result.
   */
  lemma Trailing(t: Formula, s: string)
    requires IdentAtoms(t) && Boundary(t.Render() + s, |t.Render()|)
    ensures var text, q := t.Render() + s, |t.Render()|;
      Advance(text, q).Ok? && AtNoOperator(Advance(text, q).value) ==> Prop(text) == Ok(t)
    ensures var text, q := t.Render() + s, |t.Render()|;
      Advance(text, q).Err? ==> Prop(text) == Err(Advance(text, q).error)
  {
    var text := t.Render() + s;
    assert text[0..|t.Render()|] == t.Render();
    ScanRendered(text, 0, |t.Render()|, t);
    TrailingScanned(text, t, |t.Render()|);
  }

  /** Whatever the text, once the lexer has handed out the tokens of `t`, only the next token matters. */
  lemma TrailingScanned(text: string, t: Formula, q: nat)
    requires Scan(text, 0, Toks(t)) == Some(q)
    ensures Advance(text, q).Ok? && AtNoOperator(Advance(text, q).value) ==> Prop(text) == Ok(t)
    ensures Advance(text, q).Err? ==> Prop(text) == Err(Advance(text, q).error)
  {
    NegScanned(text, 0, t, q);
    ScanStarts(text, 0, Toks(t));
    AdvanceLexed(text, 0);
    var c0 := Advance(text, 0).value;
    match Advance(text, q)
    case Ok(c) =>
      if AtNoOperator(c) {
        BicOfNeg(text, c0);
      }
    case Err(_) =>
      BicOfNeg(text, c0);
  }

  /** A scan of some tokens begins with a produced token. */
  lemma ScanStarts(text: string, p: nat, ts: seq<Token>)
    requires p <= |text| && |ts| > 0 && Scan(text, p, ts).Some?
    ensures Lex(text, p).Produced?
  {
  }

  // ---------------------------------------------------------------- an unclosed parenthesis

  /**
   * `(` and a rendered formula, then no `)`: `unit` fails on whatever the
   * parser holds after the formula, with "unexpected end" when nothing is
   * left.
   */
  lemma Unclosed(t: Formula)
    requires IdentAtoms(t)
    ensures Prop("(" + t.Render()) == Err(UnexpectedEnd)
  {
    var text := "(" + t.Render();
    assert text[1..|text|] == t.Render();
    ScanRendered(text, 1, |text|, t);
    assert Lex(text, 0) == Produced(Token(LParen, "("), 1);
    UnclosedScanned(text, t, |text|);
  }

  /** `(`, a rendered formula, then an identifier where `)` belongs: "unexpected token" naming it. */
  lemma UnclosedThenIdentifier(t: Formula, n: string)
    requires IdentAtoms(t) && IsIdentifier(n)
    ensures Prop("(" + t.Render() + " " + n) == Err(UnexpectedToken(n))
  {
    var text := "(" + t.Render() + " " + n;
    var q := UnclosedLayout(text, t, n);
    UnclosedScanned(text, t, q);
  }

  lemma UnclosedLayout(text: string, t: Formula, n: string) returns (q: nat)
    requires IdentAtoms(t) && IsIdentifier(n) && text == "(" + t.Render() + " " + n
    ensures 0 < |text| && Lex(text, 0) == Produced(Token(LParen, "("), 1)
    ensures Scan(text, 1, Toks(t)) == Some(q)
    ensures Advance(text, q) == Ok(Cursor(Some(Token(Ident, n)), |text|))
  {
    q := 1 + |t.Render()|;
    assert text[1..q] == t.Render() && text[q] == ' ' && text[q..] == " " + n;
    ScanRendered(text, 1, q, t);
    assert Lex(text, 0) == Produced(Token(LParen, "("), 1);
    SpaceThenIdentifier(text, q, n);
  }

  lemma SpaceThenIdentifier(text: string, q: nat, n: string)
    requires q < |text| && text[q..] == " " + n && IsIdentifier(n)
    ensures Advance(text, q) == Ok(Cursor(Some(Token(Ident, n)), |text|))
  {
    assert text[q] == ' ' && text[q + 1..] == n;
    StepIdent(text, q + 1, |text|, n);
    LexSkip(text, q);
  }

  /** Whatever the text: after `(` and the tokens of `t`, a token other than `)` or an operator is an error. */
  lemma UnclosedScanned(text: string, t: Formula, q: nat)
    requires 0 < |text| && Lex(text, 0) == Produced(Token(LParen, "("), 1)
    requires Scan(text, 1, Toks(t)) == Some(q)
    requires Advance(text, q).Ok? && AtNoOperator(Advance(text, q).value) && !At(Advance(text, q).value, RParen)
    ensures Prop(text) == Err(Unexpected(Advance(text, q).value))
  {
    NegScanned(text, 1, t, q);
    var c1 := Advance(text, 1).value;
    BicOfNeg(text, c1);
    AdvanceLexed(text, 0);
    BicOfNeg(text, Advance(text, 0).value);
  }

  // ---------------------------------------------------------------- a missing operand

  /** A cursor at which no operand can begin: it holds no identifier, `(` or `~`. */
  predicate NoOperand(c: Cursor) {
    !At(c, Ident) && !At(c, LParen) && !At(c, NotOp)
  }

  /**
   * Where an operand belongs, `unit` rejects a cursor at which none can
   * begin: "unexpected token" naming the token it holds, or "unexpected end"
   * when no token is left. Every rule above `unit` passes that error up.
   */
  lemma MissingOperandAt(text: string, c: Cursor)
    requires c.pos <= |text| && NoOperand(c)
    ensures Neg(text, c) == Err(Unexpected(c))
    ensures Conj(text, c) == Err(Unexpected(c))
    ensures Disj(text, c) == Err(Unexpected(c))
    ensures Cond(text, c) == Err(Unexpected(c))
    ensures Bic(text, c) == Err(Unexpected(c))
  {
    assert Unit(text, c) == Err(Unexpected(c));
    ConjOfNeg(text, c);
    DisjOfConj(text, c);
    CondOfDisj(text, c);
    BicOfCond(text, c);
  }

  /** A text whose first token is a binary operator or `)` fails with "unexpected token" naming it. */
  lemma OperandExpected(text: string, tok: Token, n: nat)
    requires Lex(text, 0) == Produced(tok, n)
    requires IsBinaryOp(tok.kind) || tok.kind == RParen
    ensures Prop(text) == Err(UnexpectedToken(tok.lexeme))
  {
    AdvanceLexed(text, 0);
    MissingOperandAt(text, Advance(text, 0).value);
  }

  /**
   * Whatever the text: after the tokens of `t` and a binary operator, a
   * cursor at which no right operand can begin is the error of `prop`.
   */
  lemma MissingRightScanned(text: string, t: Formula, k: TokenKind, m: nat, n: nat)
    requires IsBinaryOp(k) && Scan(text, 0, Toks(t)) == Some(m) && m <= |text|
    requires Lex(text, m) == Produced(Token(k, Symbol(k)), n)
    requires Advance(text, n).Ok? && NoOperand(Advance(text, n).value)
    ensures Prop(text) == Err(Unexpected(Advance(text, n).value))
  {
    OperandThen(text, 0, t, m, Token(k, Symbol(k)), n);
    ScanStarts(text, 0, Toks(t));
    AdvanceLexed(text, 0);
    var c0 := Advance(text, 0).value;
    var c := Advance(text, n).value;
    MissingOperandAt(text, c);
    MissingRight(text, c0, t, Cursor(Some(Token(k, Symbol(k))), n), c);
  }

  /** `bic` from `c0`, where `neg` reads `t` and stops at operator `o`, after which no operand begins. */
  lemma MissingRight(text: string, c0: Cursor, t: Formula, o: Cursor, c: Cursor)
    requires c0.pos <= o.pos <= |text| && o.current.Some? && IsBinaryOp(o.current.value.kind)
    requires Neg(text, c0) == Ok((t, o)) && Advance(text, o.pos) == Ok(c)
    requires Neg(text, c) == Err(Unexpected(c)) && Conj(text, c) == Err(Unexpected(c))
    requires Cond(text, c) == Err(Unexpected(c)) && Bic(text, c) == Err(Unexpected(c))
    ensures Bic(text, c0) == Err(Unexpected(c))
  {
    var k := o.current.value.kind;
    if k == AndOp {
      MissingAfterAnd(text, c0, t, o, c);
    } else {
      assert ConjTail(text, t, o) == Ok((t, o));
      if k == OrOp {
        MissingAfterOr(text, c0, t, o, c);
      } else {
        assert DisjTail(text, t, o) == Ok((t, o));
        assert Disj(text, c0) == Ok((t, o));
        if k == ImpliesOp {
          assert Cond(text, c0) == Err(Unexpected(c));
          BicOfCond(text, c0);
        } else {
          assert Cond(text, c0) == Ok((t, o));
        }
      }
    }
  }

  lemma MissingAfterAnd(text: string, c0: Cursor, t: Formula, o: Cursor, c: Cursor)
    requires c0.pos <= o.pos <= |text| && At(o, AndOp)
    requires Neg(text, c0) == Ok((t, o)) && Advance(text, o.pos) == Ok(c)
    requires Neg(text, c) == Err(Unexpected(c))
    ensures Bic(text, c0) == Err(Unexpected(c))
  {
    assert ConjTail(text, t, o) == Err(Unexpected(c));
    assert Conj(text, c0) == Err(Unexpected(c));
    DisjOfConj(text, c0);
    CondOfDisj(text, c0);
    BicOfCond(text, c0);
  }

  lemma MissingAfterOr(text: string, c0: Cursor, t: Formula, o: Cursor, c: Cursor)
    requires c0.pos <= o.pos <= |text| && At(o, OrOp)
    requires Conj(text, c0) == Ok((t, o)) && Advance(text, o.pos) == Ok(c)
    requires Conj(text, c) == Err(Unexpected(c))
    ensures Bic(text, c0) == Err(Unexpected(c))
  {
    assert DisjTail(text, t, o) == Err(Unexpected(c));
    assert Disj(text, c0) == Err(Unexpected(c));
    CondOfDisj(text, c0);
    BicOfCond(text, c0);
  }

  /** A rendered formula, a space and a binary operator, then nothing: "unexpected end". */
  lemma MissingRightOperand(t: Formula, k: TokenKind)
    requires IdentAtoms(t) && IsBinaryOp(k)
    ensures Prop(t.Render() + " " + Symbol(k)) == Err(UnexpectedEnd)
  {
    var text := t.Render() + " " + Symbol(k);
    var m := RightOperandLayout(text, t, k);
    MissingRightScanned(text, t, k, m, |text|);
  }

  lemma RightOperandLayout(text: string, t: Formula, k: TokenKind) returns (m: nat)
    requires IdentAtoms(t) && IsBinaryOp(k) && text == t.Render() + " " + Symbol(k)
    ensures m <= |text| && Scan(text, 0, Toks(t)) == Some(m)
    ensures Lex(text, m) == Produced(Token(k, Symbol(k)), |text|)
  {
    m := |t.Render()|;
    assert text[0..m] == t.Render() && text[m] == ' ';
    assert text[m + 1..m + 1 + |Symbol(k)|] == Symbol(k);
    ScanRendered(text, 0, m, t);
    LexConnective(text, m, k);
  }

  // ---------------------------------------------------------------- props

  function Renders(ts: seq<Formula>): (ss: seq<string>)
    ensures |ss| == |ts| && forall i :: 0 <= i < |ts| ==> ss[i] == ts[i].Render()
  {
    seq(|ts|, i requires 0 <= i < |ts| => ts[i].Render())
  }

  /** A rendering with identifier atoms has no comma, so a comma-joined list splits back into the renderings. */
  lemma {:induction false} RenderNoComma(t: Formula)
    requires IdentAtoms(t)
    ensures ',' !in t.Render()
  {
    match t
    case Atomic(n) =>
      assert forall k :: 0 <= k < |n| ==> n[k] != ',';
    case Not(x) =>
      RenderNoComma(x);
      assert t.Render() == "~" + x.Render();
    case And(l, r) =>
      RenderNoComma(l);
      RenderNoComma(r);
      ParenthesizeNoComma(l.Render(), "&", r.Render());
    case Or(l, r) =>
      RenderNoComma(l);
      RenderNoComma(r);
      ParenthesizeNoComma(l.Render(), "|", r.Render());
    case Implies(l, r) =>
      RenderNoComma(l);
      RenderNoComma(r);
      ParenthesizeNoComma(l.Render(), "->", r.Render());
    case Iff(l, r) =>
      RenderNoComma(l);
      RenderNoComma(r);
      ParenthesizeNoComma(l.Render(), "<->", r.Render());
  }

  lemma ParenthesizeNoComma(l: string, conn: string, r: string)
    requires ',' !in l && ',' !in conn && ',' !in r
    ensures ',' !in Core.Parenthesize(l, conn, r)
  {
  }

  /** `props` of the renderings joined by commas gives the formulas back, in order. */
  lemma PropsRoundTrip(ts: seq<Formula>)
    requires |ts| >= 1 && forall i :: 0 <= i < |ts| ==> IdentAtoms(ts[i])
    ensures Props(Strings.Join(Renders(ts), ",")) == Ok(ts)
  {
    forall i | 0 <= i < |ts|
      ensures ',' !in Renders(ts)[i]
    {
      RenderNoComma(ts[i]);
    }
    Strings.SplitJoin(Renders(ts), ',');
    PropAllRenders(ts);
  }

  lemma {:induction false} PropAllRenders(ts: seq<Formula>)
    requires forall i :: 0 <= i < |ts| ==> IdentAtoms(ts[i])
    ensures PropAll(Renders(ts)) == Ok(ts)
    decreases |ts|
  {
    if |ts| > 0 {
      ParseOfRender(ts[0]);
      assert Renders(ts)[1..] == Renders(ts[1..]);
      PropAllRenders(ts[1..]);
      assert ts == [ts[0]] + ts[1..];
    }
  }

  // ---------------------------------------------------------------- spelling and scanning

  lemma SpellInfix(l: Formula, k: TokenKind, r: Formula)
    requires IsBinaryOp(k)
    ensures Spell(InfixToks(l, k, r)) == Infix(l.Render(), k, r.Render())
  {
    RenderSpell(l);
    RenderSpell(r);
    OperatorJoinSpell(Toks(l), k, Toks(r));
  }

  lemma SpellChain(a: Formula, k1: TokenKind, b: Formula, k2: TokenKind, c: Formula)
    requires IsBinaryOp(k1) && IsBinaryOp(k2)
    ensures Spell(ChainToks(a, k1, b, k2, c)) == Infix(Infix(a.Render(), k1, b.Render()), k2, c.Render())
  {
    SpellInfix(b, k2, c);
    RenderSpell(a);
    OperatorJoinSpell(Toks(a), k1, InfixToks(b, k2, c));
    InfixRegroup(a.Render(), k1, b.Render(), k2, c.Render());
  }

  lemma InfixRegroup(x: string, k1: TokenKind, y: string, k2: TokenKind, z: string)
    requires IsBinaryOp(k1) && IsBinaryOp(k2)
    ensures Infix(x, k1, Infix(y, k2, z)) == Infix(Infix(x, k1, y), k2, z)
  {
  }

  /** Two token sequences joined by a binary operator spell as their spellings joined by it. */
  lemma OperatorJoinSpell(a: seq<Token>, k: TokenKind, b: seq<Token>)
    requires IsBinaryOp(k)
    ensures Spell(a + ([Token(k, Symbol(k))] + b)) == Infix(Spell(a), k, Spell(b))
  {
    SpellOne(Token(k, Symbol(k)), b);
    SpellAppend(a, [Token(k, Symbol(k))] + b);
  }

  /** Reading `a`, then the token `t`, then `b`, one after the other, up to the end of the text. */
  lemma ScanPairFrom(text: string, p: nat, a: seq<Token>, t: Token, b: seq<Token>) returns (m: nat, n: nat)
    requires p <= |text| && Scan(text, p, a + ([t] + b)) == Some(|text|)
    ensures m <= |text| && Scan(text, p, a) == Some(m)
    ensures Lex(text, m) == Produced(t, n) && n <= |text| && Scan(text, n, b) == Some(|text|)
  {
    ScanAppend(text, p, a, [t] + b);
    m := Scan(text, p, a).value;
    ScanOne(text, m, t, b);
    n := Lex(text, m).next;
  }

  // ---------------------------------------------------------------- grammar chains

  /** The cursors of `a k1 b k2 c`: each operand read by `neg`, each operator pulled once. */
  predicate Chained(text: string, a: Formula, k1: TokenKind, b: Formula, k2: TokenKind, c: Formula,
                    c0: Cursor, o1: Cursor, c1: Cursor, o2: Cursor, c2: Cursor, e: Cursor)
  {
    && IsBinaryOp(k1) && IsBinaryOp(k2)
    && c0.pos <= |text| && o1.pos <= |text| && c1.pos <= |text|
    && o2.pos <= |text| && c2.pos <= |text|
    && Neg(text, c0) == Ok((a, o1)) && At(o1, k1) && Advance(text, o1.pos) == Ok(c1)
    && Neg(text, c1) == Ok((b, o2)) && At(o2, k2) && Advance(text, o2.pos) == Ok(c2)
    && Neg(text, c2) == Ok((c, e)) && AtNoOperator(e)
  }

  lemma ChainGrammar(text: string, a: Formula, k1: TokenKind, b: Formula, k2: TokenKind, c: Formula,
                     c0: Cursor, o1: Cursor, c1: Cursor, o2: Cursor, c2: Cursor, e: Cursor)
    requires Chained(text, a, k1, b, k2, c, c0, o1, c1, o2, c2, e)
    ensures Bic(text, c0) == Ok((Group3(a, k1, b, k2, c), e))
  {
    match k1
    case AndOp => ChainAfterAnd(text, a, b, c, k2, c0, o1, c1, o2, c2, e);
    case OrOp => ChainAfterOr(text, a, b, c, k2, c0, o1, c1, o2, c2, e);
    case ImpliesOp => ChainAfterImplies(text, a, b, c, k2, c0, o1, c1, o2, c2, e);
    case IffOp => ChainAfterIff(text, a, b, c, k2, c0, o1, c1, o2, c2, e);
  }

  /** `a And b k2 c` as the grammar reads it. */
  lemma ChainAfterAnd(text: string, a: Formula, b: Formula, c: Formula, k2: TokenKind,
      c0: Cursor, o1: Cursor, c1: Cursor, o2: Cursor, c2: Cursor, e: Cursor)
    requires Chained(text, a, AndOp, b, k2, c, c0, o1, c1, o2, c2, e)
    ensures Bic(text, c0) == Ok((Group3(a, AndOp, b, k2, c), e))
  {
    if k2 == AndOp {
      assert ConjTail(text, And(And(a, b), c), e) == Ok((And(And(a, b), c), e));
      assert ConjTail(text, And(a, b), o2) == Ok((And(And(a, b), c), e));
      assert ConjTail(text, a, o1) == Ok((And(And(a, b), c), e));
      assert Conj(text, c0) == Ok((And(And(a, b), c), e));
      assert DisjTail(text, And(And(a, b), c), e) == Ok((And(And(a, b), c), e));
      assert Disj(text, c0) == Ok((And(And(a, b), c), e));
      assert Cond(text, c0) == Ok((And(And(a, b), c), e));
      assert Bic(text, c0) == Ok((And(And(a, b), c), e));
    } else if k2 == OrOp {
      assert ConjTail(text, And(a, b), o2) == Ok((And(a, b), o2));
      assert ConjTail(text, a, o1) == Ok((And(a, b), o2));
      assert Conj(text, c0) == Ok((And(a, b), o2));
      assert ConjTail(text, c, e) == Ok((c, e));
      assert Conj(text, c2) == Ok((c, e));
      assert DisjTail(text, Or(And(a, b), c), e) == Ok((Or(And(a, b), c), e));
      assert DisjTail(text, And(a, b), o2) == Ok((Or(And(a, b), c), e));
      assert Disj(text, c0) == Ok((Or(And(a, b), c), e));
      assert Cond(text, c0) == Ok((Or(And(a, b), c), e));
      assert Bic(text, c0) == Ok((Or(And(a, b), c), e));
    } else if k2 == ImpliesOp {
      assert ConjTail(text, And(a, b), o2) == Ok((And(a, b), o2));
      assert ConjTail(text, a, o1) == Ok((And(a, b), o2));
      assert Conj(text, c0) == Ok((And(a, b), o2));
      assert DisjTail(text, And(a, b), o2) == Ok((And(a, b), o2));
      assert Disj(text, c0) == Ok((And(a, b), o2));
      assert ConjTail(text, c, e) == Ok((c, e));
      assert Conj(text, c2) == Ok((c, e));
      assert DisjTail(text, c, e) == Ok((c, e));
      assert Disj(text, c2) == Ok((c, e));
      assert Cond(text, c2) == Ok((c, e));
      assert Cond(text, c0) == Ok((Implies(And(a, b), c), e));
      assert Bic(text, c0) == Ok((Implies(And(a, b), c), e));
    } else if k2 == IffOp {
      assert ConjTail(text, And(a, b), o2) == Ok((And(a, b), o2));
      assert ConjTail(text, a, o1) == Ok((And(a, b), o2));
      assert Conj(text, c0) == Ok((And(a, b), o2));
      assert DisjTail(text, And(a, b), o2) == Ok((And(a, b), o2));
      assert Disj(text, c0) == Ok((And(a, b), o2));
      assert Cond(text, c0) == Ok((And(a, b), o2));
      assert ConjTail(text, c, e) == Ok((c, e));
      assert Conj(text, c2) == Ok((c, e));
      assert DisjTail(text, c, e) == Ok((c, e));
      assert Disj(text, c2) == Ok((c, e));
      assert Cond(text, c2) == Ok((c, e));
      assert Bic(text, c2) == Ok((c, e));
      assert Bic(text, c0) == Ok((Iff(And(a, b), c), e));
    }
  }

  /** `a Or b k2 c` as the grammar reads it. */
  lemma ChainAfterOr(text: string, a: Formula, b: Formula, c: Formula, k2: TokenKind,
      c0: Cursor, o1: Cursor, c1: Cursor, o2: Cursor, c2: Cursor, e: Cursor)
    requires Chained(text, a, OrOp, b, k2, c, c0, o1, c1, o2, c2, e)
    ensures Bic(text, c0) == Ok((Group3(a, OrOp, b, k2, c), e))
  {
    if k2 == AndOp {
      assert ConjTail(text, a, o1) == Ok((a, o1));
      assert Conj(text, c0) == Ok((a, o1));
      assert ConjTail(text, And(b, c), e) == Ok((And(b, c), e));
      assert ConjTail(text, b, o2) == Ok((And(b, c), e));
      assert Conj(text, c1) == Ok((And(b, c), e));
      assert DisjTail(text, Or(a, And(b, c)), e) == Ok((Or(a, And(b, c)), e));
      assert DisjTail(text, a, o1) == Ok((Or(a, And(b, c)), e));
      assert Disj(text, c0) == Ok((Or(a, And(b, c)), e));
      assert Cond(text, c0) == Ok((Or(a, And(b, c)), e));
      assert Bic(text, c0) == Ok((Or(a, And(b, c)), e));
    } else if k2 == OrOp {
      assert ConjTail(text, a, o1) == Ok((a, o1));
      assert Conj(text, c0) == Ok((a, o1));
      assert ConjTail(text, b, o2) == Ok((b, o2));
      assert Conj(text, c1) == Ok((b, o2));
      assert ConjTail(text, c, e) == Ok((c, e));
      assert Conj(text, c2) == Ok((c, e));
      assert DisjTail(text, Or(Or(a, b), c), e) == Ok((Or(Or(a, b), c), e));
      assert DisjTail(text, Or(a, b), o2) == Ok((Or(Or(a, b), c), e));
      assert DisjTail(text, a, o1) == Ok((Or(Or(a, b), c), e));
      assert Disj(text, c0) == Ok((Or(Or(a, b), c), e));
      assert Cond(text, c0) == Ok((Or(Or(a, b), c), e));
      assert Bic(text, c0) == Ok((Or(Or(a, b), c), e));
    } else if k2 == ImpliesOp {
      assert ConjTail(text, a, o1) == Ok((a, o1));
      assert Conj(text, c0) == Ok((a, o1));
      assert ConjTail(text, b, o2) == Ok((b, o2));
      assert Conj(text, c1) == Ok((b, o2));
      assert DisjTail(text, Or(a, b), o2) == Ok((Or(a, b), o2));
      assert DisjTail(text, a, o1) == Ok((Or(a, b), o2));
      assert Disj(text, c0) == Ok((Or(a, b), o2));
      assert ConjTail(text, c, e) == Ok((c, e));
      assert Conj(text, c2) == Ok((c, e));
      assert DisjTail(text, c, e) == Ok((c, e));
      assert Disj(text, c2) == Ok((c, e));
      assert Cond(text, c2) == Ok((c, e));
      assert Cond(text, c0) == Ok((Implies(Or(a, b), c), e));
      assert Bic(text, c0) == Ok((Implies(Or(a, b), c), e));
    } else if k2 == IffOp {
      assert ConjTail(text, a, o1) == Ok((a, o1));
      assert Conj(text, c0) == Ok((a, o1));
      assert ConjTail(text, b, o2) == Ok((b, o2));
      assert Conj(text, c1) == Ok((b, o2));
      assert DisjTail(text, Or(a, b), o2) == Ok((Or(a, b), o2));
      assert DisjTail(text, a, o1) == Ok((Or(a, b), o2));
      assert Disj(text, c0) == Ok((Or(a, b), o2));
      assert Cond(text, c0) == Ok((Or(a, b), o2));
      assert ConjTail(text, c, e) == Ok((c, e));
      assert Conj(text, c2) == Ok((c, e));
      assert DisjTail(text, c, e) == Ok((c, e));
      assert Disj(text, c2) == Ok((c, e));
      assert Cond(text, c2) == Ok((c, e));
      assert Bic(text, c2) == Ok((c, e));
      assert Bic(text, c0) == Ok((Iff(Or(a, b), c), e));
    }
  }

  /** `a Implies b k2 c` as the grammar reads it. */
  lemma ChainAfterImplies(text: string, a: Formula, b: Formula, c: Formula, k2: TokenKind,
      c0: Cursor, o1: Cursor, c1: Cursor, o2: Cursor, c2: Cursor, e: Cursor)
    requires Chained(text, a, ImpliesOp, b, k2, c, c0, o1, c1, o2, c2, e)
    ensures Bic(text, c0) == Ok((Group3(a, ImpliesOp, b, k2, c), e))
  {
    if k2 == AndOp {
      assert ConjTail(text, a, o1) == Ok((a, o1));
      assert Conj(text, c0) == Ok((a, o1));
      assert DisjTail(text, a, o1) == Ok((a, o1));
      assert Disj(text, c0) == Ok((a, o1));
      assert ConjTail(text, And(b, c), e) == Ok((And(b, c), e));
      assert ConjTail(text, b, o2) == Ok((And(b, c), e));
      assert Conj(text, c1) == Ok((And(b, c), e));
      assert DisjTail(text, And(b, c), e) == Ok((And(b, c), e));
      assert Disj(text, c1) == Ok((And(b, c), e));
      assert Cond(text, c1) == Ok((And(b, c), e));
      assert Cond(text, c0) == Ok((Implies(a, And(b, c)), e));
      assert Bic(text, c0) == Ok((Implies(a, And(b, c)), e));
    } else if k2 == OrOp {
      assert ConjTail(text, a, o1) == Ok((a, o1));
      assert Conj(text, c0) == Ok((a, o1));
      assert DisjTail(text, a, o1) == Ok((a, o1));
      assert Disj(text, c0) == Ok((a, o1));
      assert ConjTail(text, b, o2) == Ok((b, o2));
      assert Conj(text, c1) == Ok((b, o2));
      assert ConjTail(text, c, e) == Ok((c, e));
      assert Conj(text, c2) == Ok((c, e));
      assert DisjTail(text, Or(b, c), e) == Ok((Or(b, c), e));
      assert DisjTail(text, b, o2) == Ok((Or(b, c), e));
      assert Disj(text, c1) == Ok((Or(b, c), e));
      assert Cond(text, c1) == Ok((Or(b, c), e));
      assert Cond(text, c0) == Ok((Implies(a, Or(b, c)), e));
      assert Bic(text, c0) == Ok((Implies(a, Or(b, c)), e));
    } else if k2 == ImpliesOp {
      assert ConjTail(text, a, o1) == Ok((a, o1));
      assert Conj(text, c0) == Ok((a, o1));
      assert DisjTail(text, a, o1) == Ok((a, o1));
      assert Disj(text, c0) == Ok((a, o1));
      assert ConjTail(text, b, o2) == Ok((b, o2));
      assert Conj(text, c1) == Ok((b, o2));
      assert DisjTail(text, b, o2) == Ok((b, o2));
      assert Disj(text, c1) == Ok((b, o2));
      assert ConjTail(text, c, e) == Ok((c, e));
      assert Conj(text, c2) == Ok((c, e));
      assert DisjTail(text, c, e) == Ok((c, e));
      assert Disj(text, c2) == Ok((c, e));
      assert Cond(text, c2) == Ok((c, e));
      assert Cond(text, c1) == Ok((Implies(b, c), e));
      assert Cond(text, c0) == Ok((Implies(a, Implies(b, c)), e));
      assert Bic(text, c0) == Ok((Implies(a, Implies(b, c)), e));
    } else if k2 == IffOp {
      assert ConjTail(text, a, o1) == Ok((a, o1));
      assert Conj(text, c0) == Ok((a, o1));
      assert DisjTail(text, a, o1) == Ok((a, o1));
      assert Disj(text, c0) == Ok((a, o1));
      assert ConjTail(text, b, o2) == Ok((b, o2));
      assert Conj(text, c1) == Ok((b, o2));
      assert DisjTail(text, b, o2) == Ok((b, o2));
      assert Disj(text, c1) == Ok((b, o2));
      assert Cond(text, c1) == Ok((b, o2));
      assert Cond(text, c0) == Ok((Implies(a, b), o2));
      assert ConjTail(text, c, e) == Ok((c, e));
      assert Conj(text, c2) == Ok((c, e));
      assert DisjTail(text, c, e) == Ok((c, e));
      assert Disj(text, c2) == Ok((c, e));
      assert Cond(text, c2) == Ok((c, e));
      assert Bic(text, c2) == Ok((c, e));
      assert Bic(text, c0) == Ok((Iff(Implies(a, b), c), e));
    }
  }

  /** `a Iff b k2 c` as the grammar reads it. */
  lemma ChainAfterIff(text: string, a: Formula, b: Formula, c: Formula, k2: TokenKind,
      c0: Cursor, o1: Cursor, c1: Cursor, o2: Cursor, c2: Cursor, e: Cursor)
    requires Chained(text, a, IffOp, b, k2, c, c0, o1, c1, o2, c2, e)
    ensures Bic(text, c0) == Ok((Group3(a, IffOp, b, k2, c), e))
  {
    if k2 == AndOp {
      assert ConjTail(text, a, o1) == Ok((a, o1));
      assert Conj(text, c0) == Ok((a, o1));
      assert DisjTail(text, a, o1) == Ok((a, o1));
      assert Disj(text, c0) == Ok((a, o1));
      assert Cond(text, c0) == Ok((a, o1));
      assert ConjTail(text, And(b, c), e) == Ok((And(b, c), e));
      assert ConjTail(text, b, o2) == Ok((And(b, c), e));
      assert Conj(text, c1) == Ok((And(b, c), e));
      assert DisjTail(text, And(b, c), e) == Ok((And(b, c), e));
      assert Disj(text, c1) == Ok((And(b, c), e));
      assert Cond(text, c1) == Ok((And(b, c), e));
      assert Bic(text, c1) == Ok((And(b, c), e));
      assert Bic(text, c0) == Ok((Iff(a, And(b, c)), e));
    } else if k2 == OrOp {
      assert ConjTail(text, a, o1) == Ok((a, o1));
      assert Conj(text, c0) == Ok((a, o1));
      assert DisjTail(text, a, o1) == Ok((a, o1));
      assert Disj(text, c0) == Ok((a, o1));
      assert Cond(text, c0) == Ok((a, o1));
      assert ConjTail(text, b, o2) == Ok((b, o2));
      assert Conj(text, c1) == Ok((b, o2));
      assert ConjTail(text, c, e) == Ok((c, e));
      assert Conj(text, c2) == Ok((c, e));
      assert DisjTail(text, Or(b, c), e) == Ok((Or(b, c), e));
      assert DisjTail(text, b, o2) == Ok((Or(b, c), e));
      assert Disj(text, c1) == Ok((Or(b, c), e));
      assert Cond(text, c1) == Ok((Or(b, c), e));
      assert Bic(text, c1) == Ok((Or(b, c), e));
      assert Bic(text, c0) == Ok((Iff(a, Or(b, c)), e));
    } else if k2 == ImpliesOp {
      assert ConjTail(text, a, o1) == Ok((a, o1));
      assert Conj(text, c0) == Ok((a, o1));
      assert DisjTail(text, a, o1) == Ok((a, o1));
      assert Disj(text, c0) == Ok((a, o1));
      assert Cond(text, c0) == Ok((a, o1));
      assert ConjTail(text, b, o2) == Ok((b, o2));
      assert Conj(text, c1) == Ok((b, o2));
      assert DisjTail(text, b, o2) == Ok((b, o2));
      assert Disj(text, c1) == Ok((b, o2));
      assert ConjTail(text, c, e) == Ok((c, e));
      assert Conj(text, c2) == Ok((c, e));
      assert DisjTail(text, c, e) == Ok((c, e));
      assert Disj(text, c2) == Ok((c, e));
      assert Cond(text, c2) == Ok((c, e));
      assert Cond(text, c1) == Ok((Implies(b, c), e));
      assert Bic(text, c1) == Ok((Implies(b, c), e));
      assert Bic(text, c0) == Ok((Iff(a, Implies(b, c)), e));
    } else if k2 == IffOp {
      assert ConjTail(text, a, o1) == Ok((a, o1));
      assert Conj(text, c0) == Ok((a, o1));
      assert DisjTail(text, a, o1) == Ok((a, o1));
      assert Disj(text, c0) == Ok((a, o1));
      assert Cond(text, c0) == Ok((a, o1));
      assert ConjTail(text, b, o2) == Ok((b, o2));
      assert Conj(text, c1) == Ok((b, o2));
      assert DisjTail(text, b, o2) == Ok((b, o2));
      assert Disj(text, c1) == Ok((b, o2));
      assert Cond(text, c1) == Ok((b, o2));
      assert ConjTail(text, c, e) == Ok((c, e));
      assert Conj(text, c2) == Ok((c, e));
      assert DisjTail(text, c, e) == Ok((c, e));
      assert Disj(text, c2) == Ok((c, e));
      assert Cond(text, c2) == Ok((c, e));
      assert Bic(text, c2) == Ok((c, e));
      assert Bic(text, c1) == Ok((Iff(b, c), e));
      assert Bic(text, c0) == Ok((Iff(a, Iff(b, c)), e));
    }
  }
}
