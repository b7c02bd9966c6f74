/**
 * The parser as the system runs it: one object holding the lexer's place in
 * the text and the current token, with one method per grammar rule. Every
 * method is proved to return what the corresponding `Grammar` function
 * computes and to leave the object at the cursor that function reaches.
 */
module Parsing {
  import opened Results
  import opened Core
  import opened Lexer
  import G = Grammar
  import Strings

  /** A rule method's outcome and final cursor are those of the grammar function. */
  ghost predicate Agrees(r: Result<Formula, ParseError>, now: G.Cursor, spec: G.Parsed) {
    match spec
    case Ok((f, c)) => r == Ok(f) && now == c
    case Err(e) => r == Err(e)
  }

  class Parser {
    const text: string
    /** Where the token generator resumes: just after the current token. */
    var pos: nat
    /** The current token; None once the text has no more tokens. */
    var current: Option<Token>

    ghost predicate Valid()
      reads this
    {
      pos <= |text|
    }

    function Cursor(): G.Cursor
      reads this
    {
      G.Cursor(current, pos)
    }

    constructor (text: string)
      ensures this.text == text && Valid() && Cursor() == G.Cursor(None, 0)
    {
      this.text := text;
      pos := 0;
      current := None;
    }

    /**
     * Creating a parser pulls the first token with no default: a text without
     * tokens fails with EmptyTokenStream, a lexical error in the first token
     * with that error.
     */
    static method Open(text: string) returns (r: Result<Parser, ParseError>)
      ensures r.Ok? ==> fresh(r.value) && r.value.Valid() && r.value.text == text
      ensures r.Ok? ==> G.Advance(text, 0) == Ok(r.value.Cursor()) && r.value.current.Some?
      ensures r.Err? ==> match G.Advance(text, 0)
                         case Ok(c) => c.current.None? && r.error == EmptyTokenStream
                         case Err(e) => r.error == e
    {
      var p := new Parser(text);
      var s := p.NextToken();
      match s
      case Finished =>
        return Err(EmptyTokenStream);
      case Failed(e) =>
        return Err(e);
      case Produced(t, _) =>
        p.current := Some(t);
        return Ok(p);
    }

    /** One resumption of the token generator from `pos`. */
    method NextToken() returns (s: Step)
      requires Valid()
      modifies this`pos
      ensures Valid()
      ensures s == Lex(text, old(pos))
      ensures s.Produced? ==> pos == s.next
      ensures s.Finished? ==> pos == |text|
    {
      while pos < |text| && IsLexWhitespace(text[pos])
        invariant pos <= |text|
        invariant Lex(text, pos) == Lex(text, old(pos))
        decreases |text| - pos
      {
        pos := pos + 1;
      }
      if pos == |text| {
        return Finished;
      }
      if IsIdentStart(text[pos]) {
        s := ScanIdentifier();
      } else {
        s := ScanSymbol();
      }
      if s.Produced? {
        pos := s.next;
      }
    }

    /** The identifier starting at `pos`, read one character at a time. */
    method ScanIdentifier() returns (s: Step)
      requires pos < |text| && IsIdentStart(text[pos])
      ensures s == Lex(text, pos)
    {
      var parts := [text[pos]];
      var j := pos + 1;
      while j < |text| && IsIdentPart(text[j])
        invariant pos < j <= |text|
        invariant parts == text[pos..j]
        invariant IdentEnd(text, j) == IdentEnd(text, pos + 1)
      {
        parts := parts + [text[j]];
        j := j + 1;
      }
      s := Produced(Token(Ident, parts), j);
    }

    /** An operator or parenthesis starting at `pos`, or the lexical error there. */
    method ScanSymbol() returns (s: Step)
      requires pos < |text| && !IsLexWhitespace(text[pos]) && !IsIdentStart(text[pos])
      ensures s == Lex(text, pos)
    {
      var c := text[pos];
      if c == '~' {
        s := Produced(Token(NotOp, "~"), pos + 1);
      } else if c == '&' {
        s := Produced(Token(AndOp, "&"), pos + 1);
      } else if c == '|' {
        s := Produced(Token(OrOp, "|"), pos + 1);
      } else if c == '-' {
        var e := Accept(text, pos + 1, '>');
        if e.Some? {
          return Failed(e.value);
        }
        s := Produced(Token(ImpliesOp, "->"), pos + 2);
      } else if c == '<' {
        var e := Accept(text, pos + 1, '-');
        if e.Some? {
          return Failed(e.value);
        }
        e := Accept(text, pos + 2, '>');
        if e.Some? {
          return Failed(e.value);
        }
        s := Produced(Token(IffOp, "<->"), pos + 3);
      } else if c == '(' {
        s := Produced(Token(LParen, "("), pos + 1);
      } else if c == ')' {
        s := Produced(Token(RParen, ")"), pos + 1);
      } else {
        s := Failed(UnexpectedChar(c));
      }
    }

    /** Move to the next token; at the end of the text the current token becomes None. */
    method Advance() returns (r: Result<(), ParseError>)
      requires Valid()
      modifies this
      ensures Valid()
      ensures G.Advance(text, old(pos)).Ok? ==> r.Ok? && Cursor() == G.Advance(text, old(pos)).value
      ensures G.Advance(text, old(pos)).Err? ==> r == Err(G.Advance(text, old(pos)).error)
    {
      var s := NextToken();
      match s
      case Produced(t, _) =>
        current := Some(t);
        r := Ok(());
      case Finished =>
        current := None;
        r := Ok(());
      case Failed(e) =>
        r := Err(e);
    }

    method Bic() returns (r: Result<Formula, ParseError>)
      requires Valid()
      modifies this
      ensures Valid()
      ensures Agrees(r, Cursor(), G.Bic(text, old(Cursor())))
      decreases G.Measure(text, Cursor()), 7
    {
      var left := Cond();
      if left.Err? {
        return left;
      }
      if current.Some? && current.value.kind == IffOp {
        var a := Advance();
        if a.Err? {
          return Err(a.error);
        }
        var right := Bic();
        if right.Err? {
          return right;
        }
        return Ok(Iff(left.value, right.value));
      }
      return left;
    }

    method Cond() returns (r: Result<Formula, ParseError>)
      requires Valid()
      modifies this
      ensures Valid()
      ensures Agrees(r, Cursor(), G.Cond(text, old(Cursor())))
      decreases G.Measure(text, Cursor()), 6
    {
      var left := Disj();
      if left.Err? {
        return left;
      }
      if current.Some? && current.value.kind == ImpliesOp {
        var a := Advance();
        if a.Err? {
          return Err(a.error);
        }
        var right := Cond();
        if right.Err? {
          return right;
        }
        return Ok(Implies(left.value, right.value));
      }
      return left;
    }

    method Disj() returns (r: Result<Formula, ParseError>)
      requires Valid()
      modifies this
      ensures Valid()
      ensures Agrees(r, Cursor(), G.Disj(text, old(Cursor())))
      decreases G.Measure(text, Cursor()), 5
    {
      ghost var start := Cursor();
      var first := Conj();
      if first.Err? {
        return first;
      }
      var acc := first.value;
      while current.Some? && current.value.kind == OrOp
        invariant Valid()
        invariant G.Measure(text, Cursor()) <= G.Measure(text, start)
        invariant G.Disj(text, start) == G.DisjTail(text, acc, Cursor())
        decreases G.Measure(text, Cursor())
      {
        var a := Advance();
        if a.Err? {
          return Err(a.error);
        }
        var next := Conj();
        if next.Err? {
          return next;
        }
        acc := Or(acc, next.value);
      }
      return Ok(acc);
    }

    method Conj() returns (r: Result<Formula, ParseError>)
      requires Valid()
      modifies this
      ensures Valid()
      ensures Agrees(r, Cursor(), G.Conj(text, old(Cursor())))
      decreases G.Measure(text, Cursor()), 3
    {
      ghost var start := Cursor();
      var first := Neg();
      if first.Err? {
        return first;
      }
      var acc := first.value;
      while current.Some? && current.value.kind == AndOp
        invariant Valid()
        invariant G.Measure(text, Cursor()) <= G.Measure(text, start)
        invariant G.Conj(text, start) == G.ConjTail(text, acc, Cursor())
        decreases G.Measure(text, Cursor())
      {
        var a := Advance();
        if a.Err? {
          return Err(a.error);
        }
        var next := Neg();
        if next.Err? {
          return next;
        }
        acc := And(acc, next.value);
      }
      return Ok(acc);
    }

    method Neg() returns (r: Result<Formula, ParseError>)
      requires Valid()
      modifies this
      ensures Valid()
      ensures Agrees(r, Cursor(), G.Neg(text, old(Cursor())))
      decreases G.Measure(text, Cursor()), 1
    {
      if current.Some? && current.value.kind == NotOp {
        var a := Advance();
        if a.Err? {
          return Err(a.error);
        }
        var operand := Neg();
        if operand.Err? {
          return operand;
        }
        return Ok(Not(operand.value));
      }
      r := Unit();
    }

    method Unit() returns (r: Result<Formula, ParseError>)
      requires Valid()
      modifies this
      ensures Valid()
      ensures Agrees(r, Cursor(), G.Unit(text, old(Cursor())))
      decreases G.Measure(text, Cursor()), 0
    {
      if current.Some? && current.value.kind == Ident {
        var atomic := Atomic(current.value.lexeme);
        var a := Advance();
        if a.Err? {
          return Err(a.error);
        }
        return Ok(atomic);
      } else if current.Some? && current.value.kind == LParen {
        var a := Advance();
        if a.Err? {
          return Err(a.error);
        }
        var inner := Bic();
        if inner.Err? {
          return inner;
        }
        if current.Some? && current.value.kind == RParen {
          a := Advance();
          if a.Err? {
            return Err(a.error);
          }
          return inner;
        }
      }
      if current.None? {
        return Err(UnexpectedEnd);
      } else {
        return Err(UnexpectedToken(current.value.lexeme));
      }
    }
  }

  /** `prop(text)`: one formula from the start of the text; trailing tokens are ignored. */
  method Prop(text: string) returns (r: Result<Formula, ParseError>)
    ensures r == G.Prop(text)
  {
    var started := Parser.Open(text);
    if started.Err? {
      return Err(started.error);
    }
    var p := started.value;
    r := p.Bic();
  }

  /** `props(text)`: every comma-separated piece parsed in order; the first failure aborts. */
  method Props(text: string) returns (r: Result<seq<Formula>, ParseError>)
    ensures r == G.Props(text)
  {
    var pieces := Strings.Split(text, ',');
    var fs: seq<Formula> := [];
    PrependNothing(pieces);
    for i := 0 to |pieces|
      invariant G.PropAll(pieces) == Prepend(fs, G.PropAll(pieces[i..]))
    {
      var f := Prop(pieces[i]);
      PropAllStep(pieces, i, fs, f);
      if f.Err? {
        return Err(f.error);
      }
      fs := fs + [f.value];
    }
    PrependAll(pieces, fs);
    return Ok(fs);
  }

  lemma PrependNothing(pieces: seq<string>)
    ensures G.PropAll(pieces) == Prepend([], G.PropAll(pieces[0..]))
  {
    assert pieces[0..] == pieces;
    if G.PropAll(pieces).Ok? {
      assert [] + G.PropAll(pieces).value == G.PropAll(pieces).value;
    }
  }

  /** Parsing piece `i` either extends the formulas in front or ends everything with its error. */
  lemma PropAllStep(pieces: seq<string>, i: nat, fs: seq<Formula>, f: Result<Formula, ParseError>)
    requires i < |pieces| && f == G.Prop(pieces[i])
    ensures f.Ok? ==> Prepend(fs, G.PropAll(pieces[i..])) == Prepend(fs + [f.value], G.PropAll(pieces[i + 1..]))
    ensures f.Err? ==> Prepend(fs, G.PropAll(pieces[i..])) == Err(f.error)
  {
    var rest := pieces[i..];
    assert rest[0] == pieces[i] && rest[1..] == pieces[i + 1..];
    if f.Ok? && G.PropAll(rest[1..]).Ok? {
      var tail := G.PropAll(rest[1..]).value;
      assert G.PropAll(rest) == Ok([f.value] + tail);
      assert fs + ([f.value] + tail) == (fs + [f.value]) + tail;
    }
  }

  lemma PrependAll(pieces: seq<string>, fs: seq<Formula>)
    ensures Prepend(fs, G.PropAll(pieces[|pieces|..])) == Ok(fs)
  {
    assert pieces[|pieces|..] == [];
    assert fs + [] == fs;
  }

  /** `r` with `fs` put in front of its formulas. */
  function Prepend(fs: seq<Formula>, r: Result<seq<Formula>, ParseError>): Result<seq<Formula>, ParseError> {
    match r
    case Ok(rest) => Ok(fs + rest)
    case Err(e) => Err(e)
  }
}
