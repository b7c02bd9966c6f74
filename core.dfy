/**
 * The propositional formula model: six immutable node kinds, the composition
 * operators that build new nodes, left-first short-circuit interpretation
 * against a partial assignment, canonical rendering, and `atomics`.
 */
module Core {
  import opened Results
  import Strings

  /** Interpretation fails only because a variable it needed has no value. */
  datatype EvalError = MissingVariable(name: string)

  /** A partial assignment of truth values to variable names. */
  type Interpretation = map<string, bool>

  datatype Formula =
    | Atomic(name: string)
    | Not(operand: Formula)
    | And(left: Formula, right: Formula)
    | Or(left: Formula, right: Formula)
    | Implies(antecedent: Formula, consequent: Formula)
    | Iff(left: Formula, right: Formula)
  {
    /** `~u`: a new negation node over this formula. */
    function Invert(): (r: Formula)
      ensures r.Not? && r.operand == this
      ensures r != this && r.Atoms() == Atoms()
    {
      assert Not(this).Size() > Size();
      Not(this)
    }

    /** `u & v`: a new conjunction node, this formula on the left. */
    function AndWith(other: Formula): (r: Formula)
      ensures r.And? && r.left == this && r.right == other
      ensures r != this && r != other && r.Atoms() == Atoms() + other.Atoms()
    {
      assert And(this, other).Size() > Size() + other.Size();
      And(this, other)
    }

    /** `u | v`: a new disjunction node, this formula on the left. */
    function OrWith(other: Formula): (r: Formula)
      ensures r.Or? && r.left == this && r.right == other
      ensures r != this && r != other && r.Atoms() == Atoms() + other.Atoms()
    {
      assert Or(this, other).Size() > Size() + other.Size();
      Or(this, other)
    }

    /** `u.implies(v)`: a new implication node with this formula as antecedent. */
    function ImpliesWith(other: Formula): (r: Formula)
      ensures r.Implies? && r.antecedent == this && r.consequent == other
      ensures r != this && r != other && r.Atoms() == Atoms() + other.Atoms()
    {
      assert Implies(this, other).Size() > Size() + other.Size();
      Implies(this, other)
    }

    /** `u.iff(v)`: a new biconditional node, this formula on the left. */
    function IffWith(other: Formula): (r: Formula)
      ensures r.Iff? && r.left == this && r.right == other
      ensures r != this && r != other && r.Atoms() == Atoms() + other.Atoms()
    {
      assert Iff(this, other).Size() > Size() + other.Size();
      Iff(this, other)
    }

    /** The number of nodes in the tree. */
    function Size(): nat {
      match this
      case Atomic(_) => 1
      case Not(x) => 1 + x.Size()
      case And(u, v) => 1 + u.Size() + v.Size()
      case Or(u, v) => 1 + u.Size() + v.Size()
      case Implies(u, v) => 1 + u.Size() + v.Size()
      case Iff(u, v) => 1 + u.Size() + v.Size()
    }

    /** The variable names occurring in the formula. */
    function Atoms(): set<string> {
      match this
      case Atomic(n) => {n}
      case Not(x) => x.Atoms()
      case And(u, v) => u.Atoms() + v.Atoms()
      case Or(u, v) => u.Atoms() + v.Atoms()
      case Implies(u, v) => u.Atoms() + v.Atoms()
      case Iff(u, v) => u.Atoms() + v.Atoms()
    }

    /** Classical truth value under an assignment that covers every variable. */
    function Truth(m: Interpretation): bool
      requires Atoms() <= m.Keys
    {
      match this
      case Atomic(n) => m[n]
      case Not(x) => !x.Truth(m)
      case And(u, v) => u.Truth(m) && v.Truth(m)
      case Or(u, v) => u.Truth(m) || v.Truth(m)
      case Implies(u, v) => !u.Truth(m) || v.Truth(m)
      case Iff(u, v) => u.Truth(m) == v.Truth(m)
    }

    /**
     * Interpretation: left operand first; And stops at false, Or at true and
     * Implies at a false antecedent without looking at the right operand; Not
     * and Iff evaluate everything. A failure names a variable of the formula
     * that the assignment lacks; when the assignment covers every variable the
     * result is the classical truth value.
     */
    function Interpret(m: Interpretation): (r: Result<bool, EvalError>)
      ensures r.Err? ==> r.error.name in Atoms() && r.error.name !in m
      ensures Atoms() <= m.Keys ==> r == Ok(Truth(m))
    {
      match this
      case Atomic(n) =>
        if n in m then Ok(m[n]) else Err(MissingVariable(n))
      case Not(x) =>
        var a :- x.Interpret(m);
        Ok(!a)
      case And(u, v) =>
        var a :- u.Interpret(m);
        if !a then Ok(false) else v.Interpret(m)
      case Or(u, v) =>
        var a :- u.Interpret(m);
        if a then Ok(true) else v.Interpret(m)
      case Implies(u, v) =>
        var a :- u.Interpret(m);
        if !a then Ok(true) else v.Interpret(m)
      case Iff(u, v) =>
        var a :- u.Interpret(m);
        var b :- v.Interpret(m);
        Ok(a == b)
    }

    /**
     * Canonical text: an atom is its name verbatim, a negation is `~` before its
     * operand, and every binary node is `(l conn r)` with single spaces.
     */
    function Render(): (r: string)
      ensures Not? ==> |r| > 0 && r[0] == '~'
      ensures !Atomic? && !Not? ==> |r| >= 2 && r[0] == '(' && r[|r| - 1] == ')'
    {
      match this
      case Atomic(n) => n
      case Not(x) => "~" + x.Render()
      case And(u, v) => Parenthesize(u.Render(), "&", v.Render())
      case Or(u, v) => Parenthesize(u.Render(), "|", v.Render())
      case Implies(u, v) => Parenthesize(u.Render(), "->", v.Render())
      case Iff(u, v) => Parenthesize(u.Render(), "<->", v.Render())
    }
  }

  function Parenthesize(l: string, conn: string, r: string): string {
    "(" + l + " " + conn + " " + r + ")"
  }

  /**
   * `atomics(text)`: one atom per whitespace-separated chunk of `text`, in
   * order; chunks need not be identifiers.
   */
  function AtomicsOfText(text: string): (fs: seq<Formula>)
    ensures |fs| == |Strings.Words(text)|
    ensures forall i :: 0 <= i < |fs| ==> fs[i] == Atomic(Strings.Words(text)[i])
    ensures forall i :: 0 <= i < |fs| ==> Strings.IsWord(fs[i].name)
    ensures fs == [] <==> forall k :: 0 <= k < |text| ==> Strings.IsSpace(text[k])
  {
    Strings.WordsEmpty(text);
    AtomicsOfNames(Strings.Words(text))
  }

  /** `atomics(names)`: one atom per name, the names used verbatim. */
  function AtomicsOfNames(names: seq<string>): (fs: seq<Formula>)
    ensures |fs| == |names|
    ensures forall i :: 0 <= i < |fs| ==> fs[i] == Atomic(names[i])
  {
    seq(|names|, i requires 0 <= i < |names| => Atomic(names[i]))
  }
}
