/**
 * Parsing the canonical rendering of a formula gives the formula back,
 * whenever every atom name is an identifier; together with the laws about
 * precedence, associativity, trailing tokens and laziness this ties the
 * parser to the rendering of the formula model.
 */
module RoundTrip {
  import opened Results
  import opened Core
  import opened Lexer
  import opened Grammar

  /** Every atom name is an identifier, so the lexer reads it back as one token. */
  predicate IdentAtoms(t: Formula) {
    match t
    case Atomic(n) => IsIdentifier(n)
    case Not(x) => IdentAtoms(x)
    case And(u, v) => IdentAtoms(u) && IdentAtoms(v)
    case Or(u, v) => IdentAtoms(u) && IdentAtoms(v)
    case Implies(u, v) => IdentAtoms(u) && IdentAtoms(v)
    case Iff(u, v) => IdentAtoms(u) && IdentAtoms(v)
  }

  predicate IsBinaryOp(k: TokenKind) {
    k == AndOp || k == OrOp || k == ImpliesOp || k == IffOp
  }

  /** The binary node an operator token builds. */
  function Node(k: TokenKind, l: Formula, r: Formula): Formula
    requires IsBinaryOp(k)
  {
    match k
    case AndOp => And(l, r)
    case OrOp => Or(l, r)
    case ImpliesOp => Implies(l, r)
    case IffOp => Iff(l, r)
  }

  predicate IsBinary(t: Formula) {
    t.And? || t.Or? || t.Implies? || t.Iff?
  }

  /** The operator, left operand and right operand of a binary node. */
  function Op(t: Formula): (k: TokenKind)
    requires IsBinary(t)
    ensures IsBinaryOp(k)
  {
    match t
    case And(_, _) => AndOp
    case Or(_, _) => OrOp
    case Implies(_, _) => ImpliesOp
    case Iff(_, _) => IffOp
  }

  function Left(t: Formula): Formula
    requires IsBinary(t)
  {
    match t
    case And(l, _) => l
    case Or(l, _) => l
    case Implies(l, _) => l
    case Iff(l, _) => l
  }

  function Right(t: Formula): Formula
    requires IsBinary(t)
  {
    match t
    case And(_, r) => r
    case Or(_, r) => r
    case Implies(_, r) => r
    case Iff(_, r) => r
  }

  /** No identifier can run on past `j`. */
  predicate Boundary(text: string, j: nat) {
    j == |text| || (j < |text| && !IsIdentPart(text[j]))
  }

  /** A cursor at none of the four binary operators. */
  predicate AtNoOperator(c: Cursor) {
    !At(c, AndOp) && !At(c, OrOp) && !At(c, ImpliesOp) && !At(c, IffOp)
  }

  /** What a rule returns after reading `t` and then pulling the token after `j`. */
  function Then(text: string, t: Formula, j: nat): Parsed
    requires j <= |text|
  {
    match Advance(text, j)
    case Ok(c) => Ok((t, c))
    case Err(e) => Err(e)
  }

  // ---------------------------------------------------------------- lexing

  lemma {:induction false} IdentEndAt(text: string, i: nat, j: nat)
    requires i <= j <= |text|
    requires forall k :: i <= k < j ==> IsIdentPart(text[k])
    requires j == |text| || !IsIdentPart(text[j])
    ensures IdentEnd(text, i) == j
    decreases j - i
  {
    if i < j {
      IdentEndAt(text, i + 1, j);
    }
  }

  lemma LexSkip(text: string, p: nat)
    requires p < |text| && IsLexWhitespace(text[p])
    ensures Lex(text, p) == Lex(text, p + 1)
  {
  }

  /** A space and then a binary operator lex as that operator. */
  lemma LexConnective(text: string, p: nat, k: TokenKind)
    requires IsBinaryOp(k) && p + 1 + |Symbol(k)| <= |text|
    requires text[p] == ' ' && text[p + 1..p + 1 + |Symbol(k)|] == Symbol(k)
    ensures Lex(text, p) == Produced(Token(k, Symbol(k)), p + 1 + |Symbol(k)|)
  {
    LexSkip(text, p);
    var s := Symbol(k);
    assert text[p + 1] == s[0];
    if k == ImpliesOp {
      assert text[p + 2] == s[1];
    } else if k == IffOp {
      assert text[p + 2] == s[1] && text[p + 3] == s[2];
    }
  }

  lemma AdvanceLexed(text: string, p: nat)
    requires p <= |text| && Lex(text, p).Produced?
    ensures Advance(text, p) == Ok(Cursor(Some(Lex(text, p).token), Lex(text, p).next))
  {
  }

  // ---------------------------------------------------------------- tokens of a rendering

  /** The tokens of the canonical rendering, in order. */
  function Toks(t: Formula): (ts: seq<Token>)
    ensures |ts| > 0
  {
    match t
    case Atomic(n) => [Token(Ident, n)]
    case Not(x) => [Token(NotOp, "~")] + Toks(x)
    case And(l, r) => Wrap(Toks(l), AndOp, Toks(r))
    case Or(l, r) => Wrap(Toks(l), OrOp, Toks(r))
    case Implies(l, r) => Wrap(Toks(l), ImpliesOp, Toks(r))
    case Iff(l, r) => Wrap(Toks(l), IffOp, Toks(r))
  }

  /** The tokens of `(a conn b)`. */
  function Wrap(a: seq<Token>, k: TokenKind, b: seq<Token>): seq<Token>
    requires k != Ident
  {
    [Token(LParen, "(")] + (a + ([Token(k, Symbol(k))] + (b + [Token(RParen, ")")])))
  }

  /** A binary node is its operator's node over its operands, and its tokens wrap theirs. */
  lemma Decompose(t: Formula)
    requires IsBinary(t)
    ensures Node(Op(t), Left(t), Right(t)) == t
    ensures Toks(t) == Wrap(Toks(Left(t)), Op(t), Toks(Right(t)))
    ensures Left(t).Size() < t.Size() && Right(t).Size() < t.Size()
  {
  }

  /**
   * Where the lexer is after handing out exactly the tokens `ts`, one at a
   * time from `p`; None when it hands out anything else or fails first.
   */
  function Scan(text: string, p: nat, ts: seq<Token>): (q: Option<nat>)
    requires p <= |text|
    ensures q.Some? ==> p <= q.value <= |text|
    decreases |ts|
  {
    if |ts| == 0 then Some(p)
    else match Lex(text, p)
      case Produced(t, n) => if t == ts[0] then Scan(text, n, ts[1..]) else None
      case _ => None
  }

  lemma {:induction false} ScanAppend(text: string, p: nat, a: seq<Token>, b: seq<Token>)
    requires p <= |text|
    ensures Scan(text, p, a + b) == match Scan(text, p, a) case Some(m) => Scan(text, m, b) case None => None
    decreases |a|
  {
    if |a| == 0 {
      assert a + b == b;
    } else {
      assert (a + b)[0] == a[0] && (a + b)[1..] == a[1..] + b;
      match Lex(text, p)
      case Produced(t, n) =>
        if t == a[0] {
          ScanAppend(text, n, a[1..], b);
        }
      case _ =>
    }
  }

  lemma ScanOne(text: string, p: nat, t: Token, rest: seq<Token>)
    requires p <= |text|
    ensures Scan(text, p, [t] + rest)
         == if Lex(text, p).Produced? && Lex(text, p).token == t then Scan(text, Lex(text, p).next, rest) else None
  {
    assert ([t] + rest)[0] == t && ([t] + rest)[1..] == rest;
  }

  /** A token the lexer produces from `p` starts a scan from `p`. */
  lemma ScanProduced(text: string, p: nat, t: Token, n: nat, rest: seq<Token>)
    requires p <= |text| && Lex(text, p) == Produced(t, n)
    ensures Scan(text, p, [t] + rest) == Scan(text, n, rest)
  {
    assert ([t] + rest)[0] == t && ([t] + rest)[1..] == rest;
  }

  /** Reading `(a conn b)` is reading its five parts one after the other. */
  lemma ScanWrap(text: string, p: nat, a: seq<Token>, k: TokenKind, b: seq<Token>, q: nat)
    returns (p1: nat, m1: nat, m2: nat, m3: nat)
    requires k != Ident && p <= |text| && Scan(text, p, Wrap(a, k, b)) == Some(q)
    ensures Lex(text, p) == Produced(Token(LParen, "("), p1)
    ensures p1 <= |text| && Scan(text, p1, a) == Some(m1)
    ensures m1 <= |text| && Lex(text, m1) == Produced(Token(k, Symbol(k)), m2)
    ensures m2 <= |text| && Scan(text, m2, b) == Some(m3)
    ensures m3 <= |text| && Lex(text, m3) == Produced(Token(RParen, ")"), q)
  {
    var lp, op, rp := Token(LParen, "("), Token(k, Symbol(k)), Token(RParen, ")");
    ScanOne(text, p, lp, a + ([op] + (b + [rp])));
    p1 := Lex(text, p).next;
    ScanAppend(text, p1, a, [op] + (b + [rp]));
    m1 := Scan(text, p1, a).value;
    ScanOne(text, m1, op, b + [rp]);
    m2 := Lex(text, m1).next;
    ScanAppend(text, m2, b, [rp]);
    m3 := Scan(text, m2, b).value;
    ScanOne(text, m3, rp, []);
  }

  /** Whitespace before a token sequence is skipped. */
  lemma ScanSkip(text: string, p: nat, ts: seq<Token>)
    requires p < |text| && IsLexWhitespace(text[p]) && |ts| > 0
    ensures Scan(text, p, ts) == Scan(text, p + 1, ts)
  {
    LexSkip(text, p);
  }

  // ---------------------------------------------------------------- the text yields the tokens

  /** How a token is written in a rendering: binary operators with a space on each side. */
  function Piece(t: Token): string {
    if IsBinaryOp(t.kind) then " " + t.lexeme + " " else t.lexeme
  }

  /** The tokens written one after the other. */
  function Spell(ts: seq<Token>): string {
    if |ts| == 0 then "" else Piece(ts[0]) + Spell(ts[1..])
  }

  lemma {:induction false} SpellAppend(a: seq<Token>, b: seq<Token>)
    ensures Spell(a + b) == Spell(a) + Spell(b)
    decreases |a|
  {
    if |a| == 0 {
      assert a + b == b;
    } else {
      assert (a + b)[0] == a[0] && (a + b)[1..] == a[1..] + b;
      SpellAppend(a[1..], b);
    }
  }

  lemma SpellOne(t: Token, rest: seq<Token>)
    ensures Spell([t] + rest) == Piece(t) + Spell(rest)
  {
    assert ([t] + rest)[0] == t && ([t] + rest)[1..] == rest;
  }

  lemma SpellWrap(a: seq<Token>, k: TokenKind, b: seq<Token>)
    requires IsBinaryOp(k)
    ensures Spell(Wrap(a, k, b)) == Parenthesize(Spell(a), Symbol(k), Spell(b))
  {
    var op, rp := Token(k, Symbol(k)), Token(RParen, ")");
    SpellClose(b);
    SpellOne(op, b + [rp]);
    SpellAppend(a, [op] + (b + [rp]));
    SpellOne(Token(LParen, "("), a + ([op] + (b + [rp])));
    ParenthesizeNested(Spell(a), Symbol(k), Spell(b));
  }

  lemma SpellClose(b: seq<Token>)
    ensures Spell(b + [Token(RParen, ")")]) == Spell(b) + ")"
  {
    SpellOne(Token(RParen, ")"), []);
    SpellAppend(b, [Token(RParen, ")")]);
  }

  lemma ParenthesizeNested(l: string, conn: string, r: string)
    ensures Parenthesize(l, conn, r) == "(" + (l + ((" " + conn + " ") + (r + ")")))
  {
  }

  /** The canonical rendering is the spelling of its tokens. */
  lemma {:induction false} RenderSpell(t: Formula)
    ensures t.Render() == Spell(Toks(t))
  {
    match t
    case Atomic(n) =>
      SpellOne(Token(Ident, n), []);
    case Not(x) =>
      RenderSpell(x);
      SpellOne(Token(NotOp, "~"), Toks(x));
    case And(l, r) =>
      RenderSpell(l);
      RenderSpell(r);
      SpellWrap(Toks(l), AndOp, Toks(r));
    case Or(l, r) =>
      RenderSpell(l);
      RenderSpell(r);
      SpellWrap(Toks(l), OrOp, Toks(r));
    case Implies(l, r) =>
      RenderSpell(l);
      RenderSpell(r);
      SpellWrap(Toks(l), ImpliesOp, Toks(r));
    case Iff(l, r) =>
      RenderSpell(l);
      RenderSpell(r);
      SpellWrap(Toks(l), IffOp, Toks(r));
  }

  /**
   * Token sequences the lexer reads back from their spelling: well-formed
   * tokens, and no identifier directly followed by another.
   */
  predicate WellSpaced(ts: seq<Token>) {
    |ts| == 0 ||
    (&& WellFormed(ts[0])
     && (|ts| > 1 ==> !(ts[0].kind == Ident && ts[1].kind == Ident))
     && WellSpaced(ts[1..]))
  }

  /** The last token is not a binary operator, whose trailing space would be left over. */
  predicate EndsWell(ts: seq<Token>) {
    |ts| > 0 ==> !IsBinaryOp(ts[|ts| - 1].kind)
  }

  lemma {:induction false} WellSpacedAppend(a: seq<Token>, b: seq<Token>)
    requires WellSpaced(a) && WellSpaced(b)
    requires |a| > 0 && |b| > 0 && a[|a| - 1].kind == Ident ==> b[0].kind != Ident
    ensures WellSpaced(a + b)
    decreases |a|
  {
    if |a| == 0 {
      assert a + b == b;
    } else {
      assert (a + b)[0] == a[0] && (a + b)[1..] == a[1..] + b;
      if |a| > 1 {
        assert a[1..][|a[1..]| - 1] == a[|a| - 1];
      }
      WellSpacedAppend(a[1..], b);
    }
  }

  /** Two well-spaced token sequences joined by a binary operator stay well spaced and end well. */
  lemma OperatorJoinWellSpaced(a: seq<Token>, op: Token, b: seq<Token>)
    requires IsBinaryOp(op.kind) && WellFormed(op) && WellSpaced(a) && WellSpaced(b)
    requires |b| > 0 && EndsWell(b)
    ensures WellSpaced(a + ([op] + b)) && EndsWell(a + ([op] + b))
  {
    WellSpacedOne(op, b);
    WellSpacedAppend(a, [op] + b);
    var ts := a + ([op] + b);
    assert ts[|ts| - 1] == b[|b| - 1];
  }

  lemma WellSpacedOne(t: Token, rest: seq<Token>)
    requires WellFormed(t) && WellSpaced(rest) && t.kind != Ident
    ensures WellSpaced([t] + rest)
  {
    assert ([t] + rest)[1..] == rest;
  }

  /** The tokens of a formula with identifier atoms are well spaced and end well. */
  lemma {:induction false} ToksWellSpaced(t: Formula)
    requires IdentAtoms(t)
    ensures WellSpaced(Toks(t)) && EndsWell(Toks(t))
  {
    match t
    case Atomic(n) =>
    case Not(x) =>
      ToksWellSpaced(x);
      WellSpacedOne(Token(NotOp, "~"), Toks(x));
      assert Toks(t)[|Toks(t)| - 1] == Toks(x)[|Toks(x)| - 1];
    case And(l, r) =>
      ToksWellSpaced(l);
      ToksWellSpaced(r);
      WrapWellSpaced(Toks(l), AndOp, Toks(r));
    case Or(l, r) =>
      ToksWellSpaced(l);
      ToksWellSpaced(r);
      WrapWellSpaced(Toks(l), OrOp, Toks(r));
    case Implies(l, r) =>
      ToksWellSpaced(l);
      ToksWellSpaced(r);
      WrapWellSpaced(Toks(l), ImpliesOp, Toks(r));
    case Iff(l, r) =>
      ToksWellSpaced(l);
      ToksWellSpaced(r);
      WrapWellSpaced(Toks(l), IffOp, Toks(r));
  }

  lemma WrapWellSpaced(a: seq<Token>, k: TokenKind, b: seq<Token>)
    requires IsBinaryOp(k) && WellSpaced(a) && WellSpaced(b)
    ensures WellSpaced(Wrap(a, k, b)) && EndsWell(Wrap(a, k, b))
  {
    var op, rp := Token(k, Symbol(k)), Token(RParen, ")");
    WellSpacedOne(rp, []);
    WellSpacedAppend(b, [rp]);
    WellSpacedOne(op, b + [rp]);
    WellSpacedAppend(a, [op] + (b + [rp]));
    WellSpacedOne(Token(LParen, "("), a + ([op] + (b + [rp])));
    var w := Wrap(a, k, b);
    assert w[|w| - 1] == rp;
  }

  /** A spelling that starts with a token other than an identifier starts with no identifier character. */
  lemma SpellStart(ts: seq<Token>)
    requires |ts| > 0 && WellFormed(ts[0]) && ts[0].kind != Ident
    ensures |Spell(ts)| > 0 && !IsIdentPart(Spell(ts)[0])
  {
    SpellOne(ts[0], ts[1..]);
    assert ts == [ts[0]] + ts[1..];
  }

  lemma SplitText(text: string, i: nat, j: nat, a: string, b: string)
    requires i <= j <= |text| && text[i..j] == a + b
    ensures i + |a| <= j && text[i..i + |a|] == a && text[i + |a|..j] == b
  {
    assert text[i..i + |a|] == (a + b)[..|a|];
    assert text[i + |a|..j] == (a + b)[|a|..];
  }

  /**
   * The lexer reads a well-spaced token sequence back from its spelling at
   * `text[i..j]`, and stops at `j`.
   */
  lemma {:induction false} ScanSpelled(text: string, i: nat, j: nat, ts: seq<Token>)
    requires i <= j <= |text| && text[i..j] == Spell(ts) && WellSpaced(ts) && EndsWell(ts)
    requires Boundary(text, j)
    ensures Scan(text, i, ts) == Some(j)
    decreases |ts|
  {
    if |ts| > 0 {
      var t, rest := ts[0], ts[1..];
      assert ts == [t] + rest;
      SpellOne(t, rest);
      if |rest| > 0 {
        assert rest[|rest| - 1] == ts[|ts| - 1];
      }
      var m := StepPiece(text, i, j, t, rest);
      ScanSpelled(text, m, j, rest);
    }
  }

  /** One token read from the front of a spelling: the lexer produces it and the rest follows. */
  lemma StepPiece(text: string, i: nat, j: nat, t: Token, rest: seq<Token>) returns (m: nat)
    requires i <= j <= |text| && text[i..j] == Piece(t) + Spell(rest)
    requires WellFormed(t) && WellSpaced(rest) && !(t.kind == Ident && |rest| > 0 && rest[0].kind == Ident)
    requires IsBinaryOp(t.kind) ==> |rest| > 0
    requires Boundary(text, j)
    ensures i <= m <= j && text[m..j] == Spell(rest)
    ensures Scan(text, i, [t] + rest) == Scan(text, m, rest)
  {
    var n;
    n, m := PieceLexed(text, i, j, t, rest);
    ScanProduced(text, i, t, n, rest);
    if m != n {
      ScanSkip(text, n, rest);
    }
  }

  /** The lexer produces the token at the front of a spelling, then a binary operator's trailing space. */
  lemma PieceLexed(text: string, i: nat, j: nat, t: Token, rest: seq<Token>) returns (n: nat, m: nat)
    requires i <= j <= |text| && text[i..j] == Piece(t) + Spell(rest)
    requires WellFormed(t) && WellSpaced(rest) && !(t.kind == Ident && |rest| > 0 && rest[0].kind == Ident)
    requires IsBinaryOp(t.kind) ==> |rest| > 0
    requires Boundary(text, j)
    ensures i < n <= m <= j && text[m..j] == Spell(rest) && Lex(text, i) == Produced(t, n)
    ensures m == n || (m == n + 1 && IsLexWhitespace(text[n]) && |rest| > 0)
  {
    SplitText(text, i, j, Piece(t), Spell(rest));
    m := i + |Piece(t)|;
    if t.kind == Ident {
      IdentPieceLexed(text, i, j, t, rest);
      n := m;
    } else if IsBinaryOp(t.kind) {
      StepOperator(text, i, t.kind);
      n := m - 1;
    } else {
      StepSymbol(text, i, t);
      n := m;
    }
  }

  lemma IdentPieceLexed(text: string, i: nat, j: nat, t: Token, rest: seq<Token>)
    requires t.kind == Ident && WellFormed(t) && i + |t.lexeme| <= j <= |text|
    requires text[i..i + |t.lexeme|] == t.lexeme && text[i + |t.lexeme|..j] == Spell(rest)
    requires WellSpaced(rest) && !(|rest| > 0 && rest[0].kind == Ident)
    requires Boundary(text, j)
    ensures Lex(text, i) == Produced(t, i + |t.lexeme|)
  {
    var m := i + |t.lexeme|;
    SpelledBoundary(text, m, j, rest);
    StepIdent(text, i, m, t.lexeme);
  }

  /** A spelling that does not start with an identifier ends the identifier before it. */
  lemma SpelledBoundary(text: string, m: nat, j: nat, rest: seq<Token>)
    requires m <= j <= |text| && text[m..j] == Spell(rest) && Boundary(text, j)
    requires WellSpaced(rest) && !(|rest| > 0 && rest[0].kind == Ident)
    ensures Boundary(text, m)
  {
    if |rest| > 0 {
      SpellStart(rest);
      assert text[m] == Spell(rest)[0];
    }
  }

  lemma StepSymbol(text: string, i: nat, t: Token)
    requires WellFormed(t) && t.kind != Ident && !IsBinaryOp(t.kind)
    requires i + 1 <= |text| && text[i..i + 1] == t.lexeme
    ensures Lex(text, i) == Produced(t, i + 1)
  {
    assert text[i] == t.lexeme[0];
  }

  lemma StepIdent(text: string, i: nat, m: nat, n: string)
    requires i <= m <= |text| && text[i..m] == n && IsIdentifier(n) && Boundary(text, m)
    ensures Lex(text, i) == Produced(Token(Ident, n), m)
  {
    assert text[i] == n[0];
    forall k | i + 1 <= k < m
      ensures IsIdentPart(text[k])
    {
      assert text[k] == n[k - i];
    }
    IdentEndAt(text, i + 1, m);
  }

  lemma StepOperator(text: string, i: nat, k: TokenKind)
    requires IsBinaryOp(k) && i + 2 + |Symbol(k)| <= |text|
    requires text[i..i + 2 + |Symbol(k)|] == " " + Symbol(k) + " "
    ensures Lex(text, i) == Produced(Token(k, Symbol(k)), i + 1 + |Symbol(k)|)
    ensures IsLexWhitespace(text[i + 1 + |Symbol(k)|])
  {
    var e := i + 2 + |Symbol(k)|;
    assert " " + Symbol(k) + " " == " " + (Symbol(k) + " ");
    SplitText(text, i, e, " ", Symbol(k) + " ");
    SplitText(text, i + 1, e, Symbol(k), " ");
    assert text[i] == text[i..i + 1][0];
    assert text[e - 1] == text[e - 1..e][0];
    LexConnective(text, i, k);
  }

  /** The lexer reads a rendering at `text[i..j]` as exactly its tokens and stops at `j`. */
  lemma ScanRendered(text: string, i: nat, j: nat, t: Formula)
    requires i <= j <= |text| && text[i..j] == t.Render() && IdentAtoms(t) && Boundary(text, j)
    ensures Scan(text, i, Toks(t)) == Some(j)
  {
    RenderSpell(t);
    ToksWellSpaced(t);
    ScanSpelled(text, i, j, Toks(t));
  }

  // ---------------------------------------------------------------- the tokens parse back

  /**
   * Whatever the text, if the lexer hands out the tokens of `t` from `p` and
   * stops at `q`, then `neg`, from the cursor after the first of them, reads
   * `t` and then holds the token after `q`.
   */
  lemma {:induction false} NegScanned(text: string, p: nat, t: Formula, q: nat)
    requires p <= |text| && Scan(text, p, Toks(t)) == Some(q)
    ensures Advance(text, p).Ok? && Neg(text, Advance(text, p).value) == Then(text, t, q)
    decreases t.Size(), 2
  {
    if t.Atomic? {
      NegOfAtom(text, p, t.name, q);
    } else if t.Not? {
      NegOfNotScanned(text, p, t.operand, q);
    } else {
      NegOfBinary(text, p, t, q);
    }
  }

  lemma NegOfAtom(text: string, p: nat, n: string, q: nat)
    requires p <= |text| && Scan(text, p, [Token(Ident, n)]) == Some(q)
    ensures Advance(text, p).Ok? && Neg(text, Advance(text, p).value) == Then(text, Atomic(n), q)
  {
    ScanOne(text, p, Token(Ident, n), []);
    AdvanceLexed(text, p);
  }

  lemma {:induction false} NegOfNotScanned(text: string, p: nat, x: Formula, q: nat)
    requires p <= |text| && Scan(text, p, [Token(NotOp, "~")] + Toks(x)) == Some(q)
    ensures Advance(text, p).Ok? && Neg(text, Advance(text, p).value) == Then(text, Not(x), q)
    decreases x.Size() + 1, 0
  {
    ScanOne(text, p, Token(NotOp, "~"), Toks(x));
    NegScanned(text, Lex(text, p).next, x, q);
    NegOfNot(text, p, x, q);
  }

  lemma NegOfNot(text: string, p: nat, x: Formula, q: nat)
    requires p <= |text| && q <= |text| && Lex(text, p).Produced? && Lex(text, p).token == Token(NotOp, "~")
    requires Advance(text, Lex(text, p).next).Ok?
    requires Neg(text, Advance(text, Lex(text, p).next).value) == Then(text, x, q)
    ensures Advance(text, p).Ok? && Neg(text, Advance(text, p).value) == Then(text, Not(x), q)
  {
    AdvanceLexed(text, p);
    var c := Advance(text, p).value;
    var inner := Neg(text, Advance(text, Lex(text, p).next).value);
    assert Neg(text, c) == (if inner.Ok? then Ok((Not(inner.value.0), inner.value.1)) else Err(inner.error));
  }

  lemma {:induction false} NegOfBinary(text: string, p: nat, t: Formula, q: nat)
    requires IsBinary(t) && p <= |text| && Scan(text, p, Toks(t)) == Some(q)
    ensures Advance(text, p).Ok? && Neg(text, Advance(text, p).value) == Then(text, t, q)
    decreases t.Size(), 1
  {
    var l, k, r := Left(t), Op(t), Right(t);
    Decompose(t);
    var p1, m1, m2, m3 := ScanWrap(text, p, Toks(l), k, Toks(r), q);
    NegScanned(text, p1, l, m1);
    NegScanned(text, m2, r, m3);
    var op := Cursor(Some(Token(k, Symbol(k))), m2);
    var closer := Cursor(Some(Token(RParen, ")")), q);
    AdvanceLexed(text, m1);
    AdvanceLexed(text, m3);
    AdvanceLexed(text, p);
    BinaryGrammar(text, k, l, r, Advance(text, p1).value, op, Advance(text, m2).value, closer);
    NegParenthesized(text, p, p1, q, t, Advance(text, p1).value, closer);
  }

  /** `unit` on an opening parenthesis whose `bic` stops at the closing one. */
  lemma NegParenthesized(text: string, p: nat, p1: nat, q: nat, t: Formula, inner: Cursor, closer: Cursor)
    requires p <= |text| && p1 <= inner.pos <= |text| && q <= |text|
    requires Advance(text, p) == Ok(Cursor(Some(Token(LParen, "(")), p1))
    requires Advance(text, p1) == Ok(inner)
    requires Bic(text, inner) == Ok((t, closer))
    requires closer == Cursor(Some(Token(RParen, ")")), q)
    ensures Neg(text, Advance(text, p).value) == Then(text, t, q)
  {
  }

  // ---------------------------------------------------------------- pass-up

  /** A `neg` result followed by no `&` is also the `conj` result. */
  lemma ConjOfNeg(text: string, c: Cursor)
    requires c.pos <= |text|
    requires Neg(text, c).Ok? ==> !At(Neg(text, c).value.1, AndOp)
    ensures Conj(text, c) == Neg(text, c)
  {
  }

  lemma DisjOfConj(text: string, c: Cursor)
    requires c.pos <= |text|
    requires Conj(text, c).Ok? ==> !At(Conj(text, c).value.1, OrOp)
    ensures Disj(text, c) == Conj(text, c)
  {
  }

  lemma CondOfDisj(text: string, c: Cursor)
    requires c.pos <= |text|
    requires Disj(text, c).Ok? ==> !At(Disj(text, c).value.1, ImpliesOp)
    ensures Cond(text, c) == Disj(text, c)
  {
  }

  lemma BicOfCond(text: string, c: Cursor)
    requires c.pos <= |text|
    requires Cond(text, c).Ok? ==> !At(Cond(text, c).value.1, IffOp)
    ensures Bic(text, c) == Cond(text, c)
  {
  }

  /** A `neg` result followed by no binary operator is the result of every rule above it. */
  lemma BicOfNeg(text: string, c: Cursor)
    requires c.pos <= |text|
    requires Neg(text, c).Ok? ==> AtNoOperator(Neg(text, c).value.1)
    ensures Bic(text, c) == Neg(text, c)
  {
    ConjOfNeg(text, c);
    DisjOfConj(text, c);
    CondOfDisj(text, c);
    BicOfCond(text, c);
  }

  /**
   * `l conn r` as the grammar sees it: `neg` reads `l` and stops at an
   * operator, after which `neg` reads `r` and stops at a cursor holding no
   * operator; then `bic` builds the node.
   */
  lemma BinaryGrammar(text: string, k: TokenKind, l: Formula, r: Formula,
                      cl: Cursor, op: Cursor, cr: Cursor, closer: Cursor)
    requires IsBinaryOp(k) && cl.pos <= |text| && op.pos <= |text| && cr.pos <= |text|
    requires Neg(text, cl) == Ok((l, op)) && At(op, k)
    requires Advance(text, op.pos) == Ok(cr) && Neg(text, cr) == Ok((r, closer))
    requires AtNoOperator(closer)
    ensures Bic(text, cl) == Ok((Node(k, l, r), closer))
  {
    match k
    case AndOp => AndGrammar(text, l, r, cl, op, cr, closer);
    case OrOp => OrGrammar(text, l, r, cl, op, cr, closer);
    case ImpliesOp => ImpliesGrammar(text, l, r, cl, op, cr, closer);
    case IffOp => IffGrammar(text, l, r, cl, op, cr, closer);
  }

  lemma AndGrammar(text: string, l: Formula, r: Formula, cl: Cursor, op: Cursor, cr: Cursor, closer: Cursor)
    requires cl.pos <= |text| && op.pos <= |text| && cr.pos <= |text|
    requires Neg(text, cl) == Ok((l, op)) && At(op, AndOp)
    requires Advance(text, op.pos) == Ok(cr) && Neg(text, cr) == Ok((r, closer))
    requires AtNoOperator(closer)
    ensures Bic(text, cl) == Ok((And(l, r), closer))
  {
    assert ConjTail(text, And(l, r), closer) == Ok((And(l, r), closer));
    assert ConjTail(text, l, op) == Ok((And(l, r), closer));
    assert Conj(text, cl) == Ok((And(l, r), closer));
    DisjOfConj(text, cl);
    CondOfDisj(text, cl);
    BicOfCond(text, cl);
  }

  lemma OrGrammar(text: string, l: Formula, r: Formula, cl: Cursor, op: Cursor, cr: Cursor, closer: Cursor)
    requires cl.pos <= |text| && op.pos <= |text| && cr.pos <= |text|
    requires Neg(text, cl) == Ok((l, op)) && At(op, OrOp)
    requires Advance(text, op.pos) == Ok(cr) && Neg(text, cr) == Ok((r, closer))
    requires AtNoOperator(closer)
    ensures Bic(text, cl) == Ok((Or(l, r), closer))
  {
    ConjOfNeg(text, cl);
    ConjOfNeg(text, cr);
    assert DisjTail(text, Or(l, r), closer) == Ok((Or(l, r), closer));
    assert DisjTail(text, l, op) == Ok((Or(l, r), closer));
    assert Disj(text, cl) == Ok((Or(l, r), closer));
    CondOfDisj(text, cl);
    BicOfCond(text, cl);
  }

  lemma ImpliesGrammar(text: string, l: Formula, r: Formula, cl: Cursor, op: Cursor, cr: Cursor, closer: Cursor)
    requires cl.pos <= |text| && op.pos <= |text| && cr.pos <= |text|
    requires Neg(text, cl) == Ok((l, op)) && At(op, ImpliesOp)
    requires Advance(text, op.pos) == Ok(cr) && Neg(text, cr) == Ok((r, closer))
    requires AtNoOperator(closer)
    ensures Bic(text, cl) == Ok((Implies(l, r), closer))
  {
    ConjOfNeg(text, cl);
    DisjOfConj(text, cl);
    ConjOfNeg(text, cr);
    DisjOfConj(text, cr);
    CondOfDisj(text, cr);
    assert Cond(text, cl) == Ok((Implies(l, r), closer));
    BicOfCond(text, cl);
  }

  lemma IffGrammar(text: string, l: Formula, r: Formula, cl: Cursor, op: Cursor, cr: Cursor, closer: Cursor)
    requires cl.pos <= |text| && op.pos <= |text| && cr.pos <= |text|
    requires Neg(text, cl) == Ok((l, op)) && At(op, IffOp)
    requires Advance(text, op.pos) == Ok(cr) && Neg(text, cr) == Ok((r, closer))
    requires AtNoOperator(closer)
    ensures Bic(text, cl) == Ok((Iff(l, r), closer))
  {
    ConjOfNeg(text, cl);
    DisjOfConj(text, cl);
    CondOfDisj(text, cl);
    BicOfNeg(text, cr);
    assert Bic(text, cl) == Ok((Iff(l, r), closer));
  }

  // ---------------------------------------------------------------- round trip

  /**
   * The round trip: parsing the canonical rendering of a formula whose atom
   * names are identifiers gives the formula back.
   */
  lemma ParseOfRender(t: Formula)
    requires IdentAtoms(t)
    ensures Prop(t.Render()) == Ok(t)
  {
    var text := t.Render();
    ScanRendered(text, 0, |text|, t);
    ParsesScanned(text, t);
  }

  /** A text that the lexer reads as exactly the tokens of `t` parses as `t`. */
  lemma ParsesScanned(text: string, t: Formula)
    requires Scan(text, 0, Toks(t)) == Some(|text|)
    ensures Prop(text) == Ok(t)
  {
    NegScanned(text, 0, t, |text|);
    assert Lex(text, |text|) == Finished;
    BicOfNeg(text, Advance(text, 0).value);
  }

  /** Distinct formulas with identifier atoms render differently. */
  lemma RenderInjective(a: Formula, b: Formula)
    requires IdentAtoms(a) && IdentAtoms(b) && a.Render() == b.Render()
    ensures a == b
  {
    ParseOfRender(a);
    ParseOfRender(b);
  }
}
