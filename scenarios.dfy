/**
 * Concrete inputs and what the model does with them, each an instance of the
 * lexer's contract or of one of the general parsing laws.
 */
module Scenarios {
  import opened Results
  import opened Core
  import opened Lexer
  import opened Grammar
  import opened RoundTrip
  import opened ParseLaws
  import CoreLaws

  // ---------------------------------------------------------------- the lexer

  /** Space, tab, form feed, carriage return and newline yield no token. */
  lemma WhitespaceYieldsNothing()
    ensures Lex(" \t\U{000C}\r\n", 0) == Finished
  {
  }

  /** Each of `~ & | ( )` is one token whose lexeme is that character. */
  lemma SingleCharacterTokens(text: string, pos: nat)
    requires pos < |text| && text[pos] in "~&|()"
    ensures Lex(text, pos).Produced? && Lex(text, pos).token.lexeme == [text[pos]]
    ensures Lex(text, pos).next == pos + 1
  {
  }

  /** `-` needs `>`; `<` needs `-` and then `>`: the end of the text or another character fails. */
  lemma ArrowErrors()
    ensures Lex("-", 0) == Failed(UnexpectedEnd)
    ensures Lex("-x", 0) == Failed(UnexpectedChar('x'))
    ensures Lex("<", 0) == Failed(UnexpectedEnd)
    ensures Lex("<x", 0) == Failed(UnexpectedChar('x'))
    ensures Lex("<-", 0) == Failed(UnexpectedEnd)
    ensures Lex("<-x", 0) == Failed(UnexpectedChar('x'))
  {
  }

  /** A digit cannot start an identifier. */
  lemma LeadingDigit()
    ensures Lex("1p", 0) == Failed(UnexpectedChar('1'))
  {
  }

  /** The character that ends an identifier is read again as the start of the next token. */
  lemma IdentifierEndReread()
    ensures Tokens("p&q", 0) == ([Token(Ident, "p"), Token(AndOp, "&"), Token(Ident, "q")], None)
  {
    var text := "p&q";
    var p, and, q := Token(Ident, "p"), Token(AndOp, "&"), Token(Ident, "q");
    assert text[0..1] == "p" && text[2..3] == "q";
    assert Lex(text, 0) == Produced(p, 1);
    assert Lex(text, 1) == Produced(and, 2);
    assert Lex(text, 2) == Produced(q, 3);
    assert Lex(text, 3) == Finished;
    assert Tokens(text, 3) == ([], None);
    assert [q] + [] == [q];
    assert Tokens(text, 2) == ([q], None);
    assert Tokens(text, 1) == ([and] + [q], None);
    assert [p] + ([and] + [q]) == [p, and, q];
  }

  // ---------------------------------------------------------------- the parser

  /** A text without tokens fails before any rule runs, with its own error. */
  lemma NoTokens()
    ensures Prop("") == Err(EmptyTokenStream)
    ensures Prop(" \n") == Err(EmptyTokenStream)
  {
  }

  lemma LeftFold()
    ensures Prop("p & q & r") == Ok(And(And(Atomic("p"), Atomic("q")), Atomic("r")))
  {
    assert Infix(Infix("p", AndOp, "q"), AndOp, "r") == "p & q & r";
    Precedence(Atomic("p"), AndOp, Atomic("q"), AndOp, Atomic("r"));
  }

  lemma RightNesting()
    ensures Prop("p -> q -> r") == Ok(Implies(Atomic("p"), Implies(Atomic("q"), Atomic("r"))))
  {
    assert Infix(Infix("p", ImpliesOp, "q"), ImpliesOp, "r") == "p -> q -> r";
    Precedence(Atomic("p"), ImpliesOp, Atomic("q"), ImpliesOp, Atomic("r"));
  }

  lemma AndBeforeOr()
    ensures Prop("p | q & r") == Ok(Or(Atomic("p"), And(Atomic("q"), Atomic("r"))))
  {
    assert Infix(Infix("p", OrOp, "q"), AndOp, "r") == "p | q & r";
    Precedence(Atomic("p"), OrOp, Atomic("q"), AndOp, Atomic("r"));
  }

  lemma NotBeforeAnd()
    ensures Prop("~p & q") == Ok(And(Not(Atomic("p")), Atomic("q")))
  {
    assert Infix(Not(Atomic("p")).Render(), AndOp, "q") == "~p & q";
    ParsesInfix(Not(Atomic("p")), AndOp, Atomic("q"));
  }

  /** Tokens after the formula are never checked. */
  lemma TrailingTokensIgnored()
    ensures Prop("p q $") == Ok(Atomic("p"))
  {
    assert "p" + " q $" == "p q $";
    Trailing(Atomic("p"), " q $");
    SecondIdentifier();
  }

  lemma SecondIdentifier()
    ensures Lex("p q $", 1) == Produced(Token(Ident, "q"), 3)
  {
    assert "p q $"[2..3] == "q";
  }

  /** The token just after the formula is lexed, and its failure is the result. */
  lemma NextTokenLexed()
    ensures Prop("p $") == Err(UnexpectedChar('$'))
  {
    assert "p" + " $" == "p $";
    Trailing(Atomic("p"), " $");
    assert Lex("p $", 1) == Failed(UnexpectedChar('$'));
  }

  lemma MissingCloserAtEnd()
    ensures Prop("(p") == Err(UnexpectedEnd)
  {
    assert "(" + "p" == "(p";
    Unclosed(Atomic("p"));
  }

  lemma MissingCloserBeforeToken()
    ensures Prop("(p q") == Err(UnexpectedToken("q"))
  {
    assert "(" + "p" + " " + "q" == "(p q";
    UnclosedThenIdentifier(Atomic("p"), "q");
  }

  /** `unit` names the token it cannot use, or reports the end of the text. */
  lemma StrayCloser()
    ensures Prop(")") == Err(UnexpectedToken(")"))
  {
  }

  lemma MissingOperand()
    ensures Prop("p &") == Err(UnexpectedEnd)
  {
  }

  /** The nested example rendering parses back to its formula. */
  lemma NestedRoundTrip()
    ensures var p, q := Atomic("p"), Atomic("q");
      Prop("((p <-> q) <-> ((p & q) | (~p & ~q)))")
        == Ok(Iff(Iff(p, q), Or(And(p, q), And(Not(p), Not(q)))))
  {
    var p, q := Atomic("p"), Atomic("q");
    CoreLaws.RenderIffByCases();
    ParseOfRender(Iff(Iff(p, q), Or(And(p, q), And(Not(p), Not(q)))));
  }

  lemma CommaList()
    ensures Props("p,q") == Ok([Atomic("p"), Atomic("q")])
  {
    var ts := [Atomic("p"), Atomic("q")];
    assert Strings.Join(Renders(ts), ",") == "p,q";
    PropsRoundTrip(ts);
  }
}
