/**
 * Laws of the formula model: how short-circuit interpretation relates to the
 * classical truth tables, which variables an evaluation needs, the classical
 * tautologies, and what canonical rendering looks like.
 */
module CoreLaws {
  import opened Results
  import opened Core
  import Strings

  const P := Atomic("p")
  const Q := Atomic("q")

  /** `big` agrees with `small` on every variable `small` assigns. */
  ghost predicate Extends(big: Interpretation, small: Interpretation) {
    forall k :: k in small ==> k in big && big[k] == small[k]
  }

  /** A successful interpretation stays the same when more variables are assigned. */
  lemma {:induction false} InterpretMonotone(f: Formula, m: Interpretation, big: Interpretation)
    requires Extends(big, m)
    requires f.Interpret(m).Ok?
    ensures f.Interpret(big) == f.Interpret(m)
  {
    match f
    case Atomic(_) =>
    case Not(x) => InterpretMonotone(x, m, big);
    case And(u, v) =>
      InterpretMonotone(u, m, big);
      if u.Interpret(m).value { InterpretMonotone(v, m, big); }
    case Or(u, v) =>
      InterpretMonotone(u, m, big);
      if !u.Interpret(m).value { InterpretMonotone(v, m, big); }
    case Implies(u, v) =>
      InterpretMonotone(u, m, big);
      if u.Interpret(m).value { InterpretMonotone(v, m, big); }
    case Iff(u, v) =>
      InterpretMonotone(u, m, big);
      InterpretMonotone(v, m, big);
  }

  /**
   * Short-circuiting never changes the answer: a value computed from a partial
   * assignment is the classical truth value under every completion of it.
   */
  lemma InterpretSound(f: Formula, m: Interpretation, big: Interpretation)
    requires Extends(big, m) && f.Atoms() <= big.Keys
    requires f.Interpret(m).Ok?
    ensures f.Truth(big) == f.Interpret(m).value
  {
    InterpretMonotone(f, m, big);
  }

  /** The connectives that evaluate every operand: no And, Or or Implies inside. */
  predicate EvaluatesAll(f: Formula) {
    match f
    case Atomic(_) => true
    case Not(x) => EvaluatesAll(x)
    case Iff(u, v) => EvaluatesAll(u) && EvaluatesAll(v)
    case _ => false
  }

  /** Without a short-circuiting connective every variable is needed: one missing fails. */
  lemma {:induction false} EvaluatesAllNeedsEveryVariable(f: Formula, m: Interpretation)
    requires EvaluatesAll(f)
    ensures f.Interpret(m).Ok? <==> f.Atoms() <= m.Keys
  {
    match f
    case Atomic(_) =>
    case Not(x) => EvaluatesAllNeedsEveryVariable(x, m);
    case Iff(u, v) =>
      EvaluatesAllNeedsEveryVariable(u, m);
      EvaluatesAllNeedsEveryVariable(v, m);
  }

  /** An atom yields its mapped value when present and names itself when absent. */
  lemma AtomicLookup(n: string, m: Interpretation)
    ensures n in m ==> Atomic(n).Interpret(m) == Ok(m[n])
    ensures n !in m ==> Atomic(n).Interpret(m) == Err(MissingVariable(n))
  {
  }

  /** The left operand is evaluated first, and decides alone when it can. */
  lemma LeftFirst(u: Formula, v: Formula, m: Interpretation)
    ensures u.Interpret(m).Err? ==>
      && And(u, v).Interpret(m) == u.Interpret(m)
      && Or(u, v).Interpret(m) == u.Interpret(m)
      && Implies(u, v).Interpret(m) == u.Interpret(m)
      && Iff(u, v).Interpret(m) == u.Interpret(m)
    ensures u.Interpret(m) == Ok(false) ==>
      && And(u, v).Interpret(m) == Ok(false)
      && Implies(u, v).Interpret(m) == Ok(true)
      && Or(u, v).Interpret(m) == v.Interpret(m)
    ensures u.Interpret(m) == Ok(true) ==>
      && Or(u, v).Interpret(m) == Ok(true)
      && And(u, v).Interpret(m) == v.Interpret(m)
      && Implies(u, v).Interpret(m) == v.Interpret(m)
  {
  }

  /** Iff evaluates both operands, so either one failing makes it fail. */
  lemma IffNeedsBoth(u: Formula, v: Formula, m: Interpretation)
    ensures Iff(u, v).Interpret(m).Ok? <==> u.Interpret(m).Ok? && v.Interpret(m).Ok?
    ensures Not(u).Interpret(m).Ok? <==> u.Interpret(m).Ok?
  {
  }

  /** The truth tables of the five connectives over two variables. */
  lemma TruthTables(a: bool, b: bool)
    ensures Not(P).Interpret(map["p" := a]) == Ok(!a)
    ensures And(P, Q).Interpret(map["p" := a, "q" := b]) == Ok(a && b)
    ensures Or(P, Q).Interpret(map["p" := a, "q" := b]) == Ok(a || b)
    ensures Implies(P, Q).Interpret(map["p" := a, "q" := b]) == Ok(!a || b)
    ensures Iff(P, Q).Interpret(map["p" := a, "q" := b]) == Ok(a == b)
  {
  }

  /** Four negations change nothing, failures included. */
  lemma QuadrupleNegation(f: Formula, m: Interpretation)
    ensures Not(Not(Not(Not(f)))).Interpret(m) == f.Interpret(m)
  {
    match f.Interpret(m)
    case Err(e) =>
      assert Not(f).Interpret(m) == Err(e);
      assert Not(Not(f)).Interpret(m) == Err(e);
      assert Not(Not(Not(f))).Interpret(m) == Err(e);
    case Ok(b) =>
      assert Not(f).Interpret(m) == Ok(!b);
      assert Not(Not(f)).Interpret(m) == Ok(b);
      assert Not(Not(Not(f))).Interpret(m) == Ok(!b);
  }

  /** `f | ~f` is true and `f & ~f` false whenever `f` can be evaluated. */
  lemma ExcludedMiddle(f: Formula, m: Interpretation)
    requires f.Interpret(m).Ok?
    ensures Or(f, Not(f)).Interpret(m) == Ok(true)
    ensures And(f, Not(f)).Interpret(m) == Ok(false)
  {
  }

  /** Modus ponens `((f -> g) & f) -> g` is true whenever `f` and `g` can be evaluated. */
  lemma ModusPonens(f: Formula, g: Formula, m: Interpretation)
    requires f.Interpret(m).Ok? && g.Interpret(m).Ok?
    ensures Implies(And(Implies(f, g), f), g).Interpret(m) == Ok(true)
  {
    var a, b := f.Interpret(m).value, g.Interpret(m).value;
    assert Implies(f, g).Interpret(m) == Ok(!a || b);
    assert And(Implies(f, g), f).Interpret(m) == Ok((!a || b) && a);
  }

  /** The two characterisations of `<->` are tautologies. */
  lemma IffEquivalences(f: Formula, g: Formula, m: Interpretation)
    requires f.Interpret(m).Ok? && g.Interpret(m).Ok?
    ensures Iff(Iff(f, g), And(Implies(f, g), Implies(g, f))).Interpret(m) == Ok(true)
    ensures Iff(Iff(f, g), Or(And(f, g), And(Not(f), Not(g)))).Interpret(m) == Ok(true)
  {
    var a, b := f.Interpret(m).value, g.Interpret(m).value;
    assert Iff(f, g).Interpret(m) == Ok(a == b);
    assert Implies(f, g).Interpret(m) == Ok(!a || b);
    assert Implies(g, f).Interpret(m) == Ok(!b || a);
    assert And(Implies(f, g), Implies(g, f)).Interpret(m) == Ok((!a || b) && (!b || a));
    assert And(f, g).Interpret(m) == Ok(a && b);
    assert Not(f).Interpret(m) == Ok(!a);
    assert Not(g).Interpret(m) == Ok(!b);
    assert And(Not(f), Not(g)).Interpret(m) == Ok(!a && !b);
    assert Or(And(f, g), And(Not(f), Not(g))).Interpret(m) == Ok((a && b) || (!a && !b));
  }

  /** The number of occurrences of `c` in `s`. */
  function Occurrences(c: char, s: string): nat {
    if |s| == 0 then 0 else (if s[0] == c then 1 else 0) + Occurrences(c, s[1..])
  }

  lemma {:induction false} OccurrencesAppend(c: char, a: string, b: string)
    ensures Occurrences(c, a + b) == Occurrences(c, a) + Occurrences(c, b)
    decreases |a|
  {
    if |a| == 0 {
      assert a + b == b;
    } else {
      assert (a + b)[1..] == a[1..] + b;
      OccurrencesAppend(c, a[1..], b);
    }
  }

  /** The number of And, Or, Implies and Iff nodes. */
  function BinaryNodes(f: Formula): nat {
    match f
    case Atomic(_) => 0
    case Not(x) => BinaryNodes(x)
    case And(u, v) => 1 + BinaryNodes(u) + BinaryNodes(v)
    case Or(u, v) => 1 + BinaryNodes(u) + BinaryNodes(v)
    case Implies(u, v) => 1 + BinaryNodes(u) + BinaryNodes(v)
    case Iff(u, v) => 1 + BinaryNodes(u) + BinaryNodes(v)
  }

  lemma ParenthesizeCounts(l: string, conn: string, r: string, c: char)
    requires c !in conn && c != ' '
    ensures Occurrences(c, Parenthesize(l, conn, r))
         == (if c == '(' || c == ')' then 1 else 0) + Occurrences(c, l) + Occurrences(c, r)
  {
    var s1 := "(" + l;
    var s2 := s1 + " ";
    var s3 := s2 + conn;
    var s4 := s3 + " ";
    var s5 := s4 + r;
    assert Parenthesize(l, conn, r) == s5 + ")";
    OccurrencesAppend(c, "(", l);
    OccurrencesAppend(c, s1, " ");
    OccurrencesAppend(c, s2, conn);
    OccurrencesAppend(c, s3, " ");
    OccurrencesAppend(c, s4, r);
    OccurrencesAppend(c, s5, ")");
    NoOccurrences(c, conn);
    NoOccurrences(c, " ");
    assert Occurrences(c, "(") == if c == '(' then 1 else 0;
    assert Occurrences(c, ")") == if c == ')' then 1 else 0;
  }

  /**
   * Rendering wraps every binary node in exactly one pair of parentheses and
   * adds none around atoms or negations: with parenthesis-free names, the text
   * has one `(` and one `)` per binary node.
   */
  lemma {:induction false} RenderParenthesizesBinaryNodes(f: Formula)
    requires forall n :: n in f.Atoms() ==> '(' !in n && ')' !in n
    ensures Occurrences('(', f.Render()) == BinaryNodes(f)
    ensures Occurrences(')', f.Render()) == BinaryNodes(f)
  {
    match f
    case Atomic(n) =>
      NoOccurrences('(', n);
      NoOccurrences(')', n);
    case Not(x) =>
      RenderParenthesizesBinaryNodes(x);
      OccurrencesAppend('(', "~", x.Render());
      OccurrencesAppend(')', "~", x.Render());
    case And(u, v) =>
      RenderParenthesizesBinaryNodes(u);
      RenderParenthesizesBinaryNodes(v);
      BinaryCase(u.Render(), "&", v.Render());
    case Or(u, v) =>
      RenderParenthesizesBinaryNodes(u);
      RenderParenthesizesBinaryNodes(v);
      BinaryCase(u.Render(), "|", v.Render());
    case Implies(u, v) =>
      RenderParenthesizesBinaryNodes(u);
      RenderParenthesizesBinaryNodes(v);
      BinaryCase(u.Render(), "->", v.Render());
    case Iff(u, v) =>
      RenderParenthesizesBinaryNodes(u);
      RenderParenthesizesBinaryNodes(v);
      BinaryCase(u.Render(), "<->", v.Render());
  }

  lemma BinaryCase(l: string, conn: string, r: string)
    requires '(' !in conn && ')' !in conn
    ensures Occurrences('(', Parenthesize(l, conn, r)) == 1 + Occurrences('(', l) + Occurrences('(', r)
    ensures Occurrences(')', Parenthesize(l, conn, r)) == 1 + Occurrences(')', l) + Occurrences(')', r)
  {
    ParenthesizeCounts(l, conn, r, '(');
    ParenthesizeCounts(l, conn, r, ')');
  }

  lemma {:induction false} NoOccurrences(c: char, s: string)
    requires c !in s
    ensures Occurrences(c, s) == 0
    decreases |s|
  {
    if |s| > 0 {
      assert s[0] != c;
      NoOccurrences(c, s[1..]);
    }
  }

  /**
   * Atoms render as their names verbatim, whatever the names hold; a negated
   * atom gets `~` in front; a connective between two atoms is written `(a conn b)`
   * with one space on each side of the connective.
   */
  lemma RenderAtomVerbatim(a: string, b: string)
    ensures Atomic(a).Render() == a
    ensures Not(Atomic(a)).Render() == "~" + a
    ensures And(Atomic(a), Atomic(b)).Render() == "(" + a + " & " + b + ")"
    ensures Or(Atomic(a), Atomic(b)).Render() == "(" + a + " | " + b + ")"
    ensures Implies(Atomic(a), Atomic(b)).Render() == "(" + a + " -> " + b + ")"
    ensures Iff(Atomic(a), Atomic(b)).Render() == "(" + a + " <-> " + b + ")"
  {
  }

  /** Canonical renderings of the nested formulas the system documents. */
  lemma RenderQuadrupleNegation()
    ensures Not(Not(Not(Not(P)))).Render() == "~~~~p"
  {
  }

  lemma RenderModusPonens()
    ensures Implies(And(Implies(P, Q), P), Q).Render() == "(((p -> q) & p) -> q)"
  {
    RenderPImpliesQAndP();
    ModusPonensText();
  }

  lemma RenderPImpliesQAndP()
    ensures And(Implies(P, Q), P).Render() == "((p -> q) & p)"
  {
    RenderPImpliesQ();
    RenderJoin("(p -> q)", "&", "p", "((p -> q) & p)");
  }

  lemma RenderIffByImplications()
    ensures Iff(Iff(P, Q), And(Implies(P, Q), Implies(Q, P))).Render()
         == "((p <-> q) <-> ((p -> q) & (q -> p)))"
  {
    RenderPIffQ();
    RenderBothImplications();
    IffByImplicationsText();
  }

  lemma RenderBothImplications()
    ensures And(Implies(P, Q), Implies(Q, P)).Render() == "((p -> q) & (q -> p))"
  {
    RenderPImpliesQ();
    RenderQImpliesP();
    BothImplicationsText();
  }

  lemma RenderIffByCases()
    ensures Iff(Iff(P, Q), Or(And(P, Q), And(Not(P), Not(Q)))).Render()
         == "((p <-> q) <-> ((p & q) | (~p & ~q)))"
  {
    RenderPIffQ();
    RenderBothCases();
    IffByCasesText();
  }

  lemma RenderBothCases()
    ensures Or(And(P, Q), And(Not(P), Not(Q))).Render() == "((p & q) | (~p & ~q))"
  {
    RenderPAndQ();
    RenderNeitherPNorQ();
    BothCasesText();
  }

  lemma RenderNeitherPNorQ()
    ensures And(Not(P), Not(Q)).Render() == "(~p & ~q)"
  {
    RenderJoin("~p", "&", "~q", "(~p & ~q)");
  }

  lemma RenderPAndQ()
    ensures And(P, Q).Render() == "(p & q)"
  {
    RenderJoin("p", "&", "q", "(p & q)");
  }

  lemma RenderPIffQ()
    ensures Iff(P, Q).Render() == "(p <-> q)"
  {
    RenderJoin("p", "<->", "q", "(p <-> q)");
  }

  lemma RenderPImpliesQ()
    ensures Implies(P, Q).Render() == "(p -> q)"
  {
    RenderJoin("p", "->", "q", "(p -> q)");
  }

  lemma RenderQImpliesP()
    ensures Implies(Q, P).Render() == "(q -> p)"
  {
    RenderJoin("q", "->", "p", "(q -> p)");
  }

  lemma RenderJoin(l: string, conn: string, r: string, whole: string)
    requires whole == "(" + l + " " + conn + " " + r + ")"
    ensures Parenthesize(l, conn, r) == whole
  {
  }

  // The longer joins, each a character-level fact on its own.

  lemma ModusPonensText()
    ensures Parenthesize("((p -> q) & p)", "->", "q") == "(((p -> q) & p) -> q)"
  {
  }

  lemma BothImplicationsText()
    ensures Parenthesize("(p -> q)", "&", "(q -> p)") == "((p -> q) & (q -> p))"
  {
  }

  lemma IffByImplicationsText()
    ensures Parenthesize("(p <-> q)", "<->", "((p -> q) & (q -> p))") == "((p <-> q) <-> ((p -> q) & (q -> p)))"
  {
  }

  lemma BothCasesText()
    ensures Parenthesize("(p & q)", "|", "(~p & ~q)") == "((p & q) | (~p & ~q))"
  {
  }

  lemma IffByCasesText()
    ensures Parenthesize("(p <-> q)", "<->", "((p & q) | (~p & ~q))") == "((p <-> q) <-> ((p & q) | (~p & ~q)))"
  {
  }

  /** `atomics` on whitespace-only texts and on names used verbatim. */
  lemma AtomicsOfBlankText()
    ensures AtomicsOfText("") == [] && AtomicsOfText(" \t\U{000C}\r\n") == []
    ensures AtomicsOfNames(["apple", " \t\U{000C}\r\n"]) == [Atomic("apple"), Atomic(" \t\U{000C}\r\n")]
  {
  }

  /** `atomics` splits at whitespace runs and keeps chunks that are not identifiers. */
  lemma AtomicsOfWords()
    ensures AtomicsOfText("P Q R") == [Atomic("P"), Atomic("Q"), Atomic("R")]
  {
    AtomicsOfJoin(["P", "Q", "R"], "P Q R");
  }

  lemma AtomicsOfSymbols()
    ensures AtomicsOfText("1234 %()$&") == [Atomic("1234"), Atomic("%()$&")]
  {
    VisibleAsciiWord("1234");
    VisibleAsciiWord("%()$&");
    assert Strings.Join(["1234", "%()$&"], " ") == "1234" + " " + "%()$&";
    AtomicsOfJoin(["1234", "%()$&"], "1234 %()$&");
  }

  lemma VisibleAsciiWord(w: string)
    requires |w| > 0 && forall k :: 0 <= k < |w| ==> '!' <= w[k] <= '~'
    ensures Strings.IsWord(w)
  {
  }

  lemma AtomicsOfJoin(ws: seq<string>, text: string)
    requires forall i :: 0 <= i < |ws| ==> Strings.IsWord(ws[i])
    requires text == Strings.Join(ws, " ")
    ensures AtomicsOfText(text) == AtomicsOfNames(ws)
  {
    Strings.WordsJoin(ws);
  }
}
