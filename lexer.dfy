/**
 * Lexical analysis of the formula notation. The lexer is a cursor over the
 * text: `Lex(text, pos)` is what one resumption of the token generator does
 * from position `pos` (skip whitespace, then produce one token, stop at the
 * end, or fail). Nothing beyond the produced token is looked at, which is
 * what makes lexing lazy.
 */
module Lexer {
  import opened Results

  datatype TokenKind = Ident | NotOp | AndOp | OrOp | ImpliesOp | IffOp | LParen | RParen

  datatype Token = Token(kind: TokenKind, lexeme: string)

  /** The failures of lexing and parsing a formula. */
  datatype ParseError =
    | UnexpectedChar(c: char)          // a character no token rule accepts
    | UnexpectedEnd                    // the text or the tokens ran out too early
    | UnexpectedToken(lexeme: string)  // a token the grammar does not allow here
    | EmptyTokenStream                 // the text holds no token at all

  /** The whitespace that separates tokens: space, tab, form feed, CR, LF. */
  predicate IsLexWhitespace(c: char) {
    c == ' ' || c == '\t' || c == '\U{000C}' || c == '\r' || c == '\n'
  }

  predicate IsLetter(c: char) {
    ('a' <= c <= 'z') || ('A' <= c <= 'Z')
  }

  predicate IsIdentStart(c: char) {
    IsLetter(c) || c == '_'
  }

  predicate IsIdentPart(c: char) {
    IsLetter(c) || ('0' <= c <= '9') || c == '_'
  }

  /** `[A-Za-z_][A-Za-z0-9_]*` */
  predicate IsIdentifier(s: string) {
    |s| > 0 && IsIdentStart(s[0]) && forall k :: 0 < k < |s| ==> IsIdentPart(s[k])
  }

  /** The fixed lexeme of each operator and separator kind. */
  function Symbol(kind: TokenKind): string
    requires kind != Ident
  {
    match kind
    case NotOp => "~"
    case AndOp => "&"
    case OrOp => "|"
    case ImpliesOp => "->"
    case IffOp => "<->"
    case LParen => "("
    case RParen => ")"
  }

  /** A token as the lexer produces it: its lexeme matches its kind. */
  predicate WellFormed(t: Token) {
    if t.kind == Ident then IsIdentifier(t.lexeme) else t.lexeme == Symbol(t.kind)
  }

  /** The result of one resumption of the lexer. */
  datatype Step = Produced(token: Token, next: nat) | Finished | Failed(error: ParseError)

  /**
   * Reads the character at `i`, which must be `expected`: the end of the text
   * and a different character are the two failures.
   */
  function Accept(text: string, i: nat, expected: char): (r: Option<ParseError>)
    requires i <= |text|
    ensures r == None <==> i < |text| && text[i] == expected
    ensures r == Some(UnexpectedEnd) <==> i == |text|
    ensures r.Some? && i < |text| ==> r == Some(UnexpectedChar(text[i]))
  {
    if i == |text| then Some(UnexpectedEnd)
    else if text[i] != expected then Some(UnexpectedChar(text[i]))
    else None
  }

  /** The end of the run of identifier characters that starts at `i`. */
  function IdentEnd(text: string, i: nat): (j: nat)
    requires i <= |text|
    ensures i <= j <= |text|
    ensures forall k :: i <= k < j ==> IsIdentPart(text[k])
    ensures j == |text| || !IsIdentPart(text[j])
    decreases |text| - i
  {
    if i == |text| || !IsIdentPart(text[i]) then i else IdentEnd(text, i + 1)
  }

  /**
   * One token from `pos`: whitespace is skipped; a produced token is
   * well-formed, only whitespace lies between `pos` and it, and an identifier
   * is the longest run available; the lexer finishes exactly when nothing but
   * whitespace remains; it fails only with a character or end-of-text error.
   * `LexReadsLexeme` adds that the lexeme is the text just before `next`.
   */
  function Lex(text: string, pos: nat): (r: Step)
    requires pos <= |text|
    ensures r.Produced? ==>
      && pos < r.next <= |text|
      && WellFormed(r.token)
      && pos <= r.next - |r.token.lexeme|
      && forall k :: pos <= k < r.next - |r.token.lexeme| ==> IsLexWhitespace(text[k])
    ensures r.Produced? && r.token.kind == Ident ==> r.next == |text| || !IsIdentPart(text[r.next])
    ensures r.Finished? <==> forall k :: pos <= k < |text| ==> IsLexWhitespace(text[k])
    ensures r.Failed? ==> r.error.UnexpectedChar? || r.error.UnexpectedEnd?
    decreases |text| - pos
  {
    if pos == |text| then Finished
    else
      var c := text[pos];
      if c == '~' then Produced(Token(NotOp, "~"), pos + 1)
      else if c == '&' then Produced(Token(AndOp, "&"), pos + 1)
      else if c == '|' then Produced(Token(OrOp, "|"), pos + 1)
      else if c == '-' then
        match Accept(text, pos + 1, '>')
        case Some(e) => Failed(e)
        case None => Produced(Token(ImpliesOp, "->"), pos + 2)
      else if c == '<' then
        match Accept(text, pos + 1, '-')
        case Some(e) => Failed(e)
        case None =>
          match Accept(text, pos + 2, '>')
          case Some(e) => Failed(e)
          case None => Produced(Token(IffOp, "<->"), pos + 3)
      else if c == '(' then Produced(Token(LParen, "("), pos + 1)
      else if c == ')' then Produced(Token(RParen, ")"), pos + 1)
      else if IsLexWhitespace(c) then Lex(text, pos + 1)
      else if IsIdentStart(c) then
        var j := IdentEnd(text, pos + 1);
        Produced(Token(Ident, text[pos..j]), j)
      else Failed(UnexpectedChar(c))
  }

  /** The first position at or after `pos` that does not hold whitespace, or the end of the text. */
  function FirstNonSpace(text: string, pos: nat): (s: nat)
    requires pos <= |text|
    ensures pos <= s <= |text|
    ensures forall k :: pos <= k < s ==> IsLexWhitespace(text[k])
    ensures s == |text| || !IsLexWhitespace(text[s])
    decreases |text| - pos
  {
    if pos == |text| || !IsLexWhitespace(text[pos]) then pos else FirstNonSpace(text, pos + 1)
  }

  /** A character with which some token begins. */
  predicate StartsToken(c: char) {
    c == '~' || c == '&' || c == '|' || c == '-' || c == '<' || c == '(' || c == ')' || IsIdentStart(c)
  }

  /** Skipping whitespace changes nothing: the lexer reads from the first other character. */
  lemma {:induction false} LexSkipsWhitespace(text: string, pos: nat)
    requires pos <= |text|
    ensures Lex(text, pos) == Lex(text, FirstNonSpace(text, pos))
    decreases |text| - pos
  {
    if pos < |text| && IsLexWhitespace(text[pos]) {
      LexSkipsWhitespace(text, pos + 1);
    }
  }

  /**
   * When lexing fails, and with which error. Let `s` be the first character
   * after the whitespace. The lexer fails exactly in two cases. In the first,
   * `s` is `-` or `<` and the arrow is not completed; the error is the first
   * failed `Accept` check, in order. In the second, `s` starts no token; the
   * error names that character. Every other non-whitespace character yields a
   * token: an operator or parenthesis is that one character, or the first one
   * of its arrow.
   */
  lemma LexOutcome(text: string, pos: nat)
    requires pos <= |text|
    ensures var s := FirstNonSpace(text, pos);
      s < |text| && text[s] in "~&|()" ==>
        && Lex(text, pos).Produced?
        && Lex(text, pos).token.lexeme == [text[s]]
        && Lex(text, pos).next == s + 1
    ensures var s := FirstNonSpace(text, pos);
      s < |text| && IsIdentStart(text[s]) ==>
        Lex(text, pos).Produced? && Lex(text, pos).token.kind == Ident
    ensures var s := FirstNonSpace(text, pos);
      s < |text| && text[s] == '-' ==>
        && (Lex(text, pos).Failed? <==> Accept(text, s + 1, '>').Some?)
        && (Lex(text, pos).Failed? ==> Lex(text, pos).error == Accept(text, s + 1, '>').value)
    ensures var s := FirstNonSpace(text, pos);
      s < |text| && text[s] == '<' ==>
        && (Lex(text, pos).Failed? <==>
              Accept(text, s + 1, '-').Some? || (s + 2 <= |text| && Accept(text, s + 2, '>').Some?))
        && (Accept(text, s + 1, '-').Some? ==> Lex(text, pos) == Failed(Accept(text, s + 1, '-').value))
        && (Accept(text, s + 1, '-').None? && Accept(text, s + 2, '>').Some? ==>
              Lex(text, pos) == Failed(Accept(text, s + 2, '>').value))
    ensures var s := FirstNonSpace(text, pos);
      s < |text| && !StartsToken(text[s]) ==> Lex(text, pos) == Failed(UnexpectedChar(text[s]))
    ensures Lex(text, pos).Failed? ==> FirstNonSpace(text, pos) < |text|
  {
    LexSkipsWhitespace(text, pos);
  }

  /** A produced token is exactly the text just before the position the lexer stops at. */
  lemma {:induction false} LexReadsLexeme(text: string, pos: nat)
    requires pos <= |text| && Lex(text, pos).Produced?
    ensures var r := Lex(text, pos); text[r.next - |r.token.lexeme|..r.next] == r.token.lexeme
    decreases |text| - pos
  {
    var c := text[pos];
    if c == '-' {
      assert text[pos..pos + 2] == "->";
    } else if c == '<' {
      assert text[pos..pos + 3] == "<->";
    } else if IsLexWhitespace(c) {
      LexReadsLexeme(text, pos + 1);
    }
  }

  /**
   * The whole token stream from `pos`, with the error that ends it, if any:
   * the tokens a parser would see if it read to the end.
   */
  function Tokens(text: string, pos: nat): (r: (seq<Token>, Option<ParseError>))
    requires pos <= |text|
    ensures forall i :: 0 <= i < |r.0| ==> WellFormed(r.0[i])
    ensures r.1.None? ==> Lexemes(r.0) == StripWhitespace(text[pos..])
    decreases |text| - pos
  {
    match Lex(text, pos)
    case Finished =>
      StripAllWhitespace(text[pos..]);
      ([], None)
    case Failed(e) => ([], Some(e))
    case Produced(t, next) =>
      var rest := Tokens(text, next);
      var r := ([t] + rest.0, rest.1);
      assert r.0[1..] == rest.0;
      LexReadsLexeme(text, pos);
      SkippedThenLexeme(text, pos, t, next);
      r
  }

  /** Whitespace followed by a lexeme is that lexeme once whitespace is removed. */
  lemma SkippedThenLexeme(text: string, pos: nat, t: Token, next: nat)
    requires pos + |t.lexeme| <= next <= |text| && WellFormed(t)
    requires text[next - |t.lexeme|..next] == t.lexeme
    requires forall k :: pos <= k < next - |t.lexeme| ==> IsLexWhitespace(text[k])
    ensures StripWhitespace(text[pos..]) == t.lexeme + StripWhitespace(text[next..])
  {
    var start := next - |t.lexeme|;
    assert text[pos..] == text[pos..start] + t.lexeme + text[next..];
    StripAppend(text[pos..start] + t.lexeme, text[next..]);
    StripAppend(text[pos..start], t.lexeme);
    StripAllWhitespace(text[pos..start]);
    WellFormedHasNoWhitespace(t);
    StripNoWhitespace(t.lexeme);
  }

  /** The lexemes of the tokens, concatenated. */
  function Lexemes(ts: seq<Token>): string {
    if |ts| == 0 then "" else ts[0].lexeme + Lexemes(ts[1..])
  }

  /** `s` without its token-separating whitespace. */
  function StripWhitespace(s: string): string {
    if |s| == 0 then ""
    else (if IsLexWhitespace(s[0]) then "" else [s[0]]) + StripWhitespace(s[1..])
  }

  lemma {:induction false} StripAppend(a: string, b: string)
    ensures StripWhitespace(a + b) == StripWhitespace(a) + StripWhitespace(b)
    decreases |a|
  {
    if |a| == 0 {
      assert a + b == b;
    } else {
      assert (a + b)[1..] == a[1..] + b;
      StripAppend(a[1..], b);
    }
  }

  lemma {:induction false} StripAllWhitespace(s: string)
    requires forall k :: 0 <= k < |s| ==> IsLexWhitespace(s[k])
    ensures StripWhitespace(s) == ""
    decreases |s|
  {
    if |s| > 0 {
      StripAllWhitespace(s[1..]);
    }
  }

  lemma {:induction false} StripNoWhitespace(s: string)
    requires forall k :: 0 <= k < |s| ==> !IsLexWhitespace(s[k])
    ensures StripWhitespace(s) == s
    decreases |s|
  {
    if |s| > 0 {
      StripNoWhitespace(s[1..]);
      assert s == [s[0]] + s[1..];
    }
  }

  lemma WellFormedHasNoWhitespace(t: Token)
    requires WellFormed(t)
    ensures forall k :: 0 <= k < |t.lexeme| ==> !IsLexWhitespace(t.lexeme[k])
  {
  }
}
