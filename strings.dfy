/**
 * The two string-splitting builtins the system relies on: splitting at every
 * occurrence of one separator character (`str.split(",")`) and splitting at runs
 * of whitespace (`str.split()`), each with the join that inverts it.
 */
module Strings {

  /** The characters the host language's `str.isspace` accepts. */
  predicate IsSpace(c: char) {
    || c == ' ' || c == '\t' || c == '\n' || c == '\r'
    || c == '\U{000B}' || c == '\U{000C}'
    || ('\U{001C}' <= c <= '\U{001F}')
    || c == '\U{0085}' || c == '\U{00A0}' || c == '\U{1680}'
    || ('\U{2000}' <= c <= '\U{200A}')
    || c == '\U{2028}' || c == '\U{2029}' || c == '\U{202F}' || c == '\U{205F}'
    || c == '\U{3000}'
  }

  /** A piece of `Words`: nonempty and free of whitespace. */
  predicate IsWord(w: string) {
    |w| > 0 && forall k :: 0 <= k < |w| ==> !IsSpace(w[k])
  }

  /** The pieces joined with `sep` between each pair of neighbours. */
  function Join(ps: seq<string>, sep: string): string {
    if |ps| == 0 then ""
    else if |ps| == 1 then ps[0]
    else ps[0] + sep + Join(ps[1..], sep)
  }

  /** The pieces joined with nothing between them. */
  function Concat(ps: seq<string>): string {
    if |ps| == 0 then "" else ps[0] + Concat(ps[1..])
  }

  /** `s` with every whitespace character removed. */
  function NonSpace(s: string): string {
    if |s| == 0 then ""
    else (if IsSpace(s[0]) then "" else [s[0]]) + NonSpace(s[1..])
  }

  /**
   * `s.split(sep)`: the text between consecutive separators, so there is always
   * one more piece than there are separators, and `Join` gives `s` back.
   */
  function Split(s: string, sep: char): (ps: seq<string>)
    ensures |ps| >= 1
    ensures forall i :: 0 <= i < |ps| ==> sep !in ps[i]
    ensures Join(ps, [sep]) == s
  {
    if |s| == 0 then [""]
    else
      var rest := Split(s[1..], sep);
      if s[0] == sep then
        assert s == [sep] + s[1..];
        [""] + rest
      else
        var ps := [[s[0]] + rest[0]] + rest[1..];
        assert ps[1..] == rest[1..];
        assert s == [s[0]] + s[1..];
        ps
  }

  /** The end of the run of non-whitespace characters that starts at `i`. */
  function WordEnd(s: string, i: nat): (j: nat)
    requires i <= |s|
    ensures i <= j <= |s|
    ensures forall k :: i <= k < j ==> !IsSpace(s[k])
    ensures j == |s| || IsSpace(s[j])
    decreases |s| - i
  {
    if i == |s| || IsSpace(s[i]) then i else WordEnd(s, i + 1)
  }

  /**
   * `s.split()`: the maximal runs of non-whitespace characters, in order; every
   * piece is a word and together they hold exactly the non-whitespace of `s`.
   */
  function Words(s: string): (ws: seq<string>)
    ensures forall i :: 0 <= i < |ws| ==> IsWord(ws[i])
    ensures Concat(ws) == NonSpace(s)
    decreases |s|
  {
    if |s| == 0 then []
    else if IsSpace(s[0]) then
      assert NonSpace(s) == NonSpace(s[1..]);
      Words(s[1..])
    else
      var k := WordEnd(s, 0);
      var ws := [s[..k]] + Words(s[k..]);
      assert ws[1..] == Words(s[k..]);
      assert s == s[..k] + s[k..];
      NonSpaceAppend(s[..k], s[k..]);
      NonSpaceOfWord(s[..k]);
      ws
  }

  lemma {:induction false} NonSpaceAppend(a: string, b: string)
    ensures NonSpace(a + b) == NonSpace(a) + NonSpace(b)
    decreases |a|
  {
    if |a| > 0 {
      assert (a + b)[1..] == a[1..] + b;
      NonSpaceAppend(a[1..], b);
    } else {
      assert a + b == b;
    }
  }

  lemma {:induction false} NonSpaceOfWord(w: string)
    requires forall k :: 0 <= k < |w| ==> !IsSpace(w[k])
    ensures NonSpace(w) == w
    decreases |w|
  {
    if |w| > 0 {
      NonSpaceOfWord(w[1..]);
      assert w == [w[0]] + w[1..];
    }
  }

  /** Splitting the join of separator-free pieces gives the pieces back. */
  lemma {:induction false} SplitJoin(ps: seq<string>, sep: char)
    requires |ps| >= 1
    requires forall i :: 0 <= i < |ps| ==> sep !in ps[i]
    ensures Split(Join(ps, [sep]), sep) == ps
    decreases |ps|
  {
    if |ps| == 1 {
      SplitNoSep(ps[0], sep);
    } else {
      var tail := Join(ps[1..], [sep]);
      assert Join(ps, [sep]) == ps[0] + [sep] + tail;
      SplitPiece(ps[0], tail, sep);
      SplitJoin(ps[1..], sep);
      assert ps == [ps[0]] + ps[1..];
    }
  }

  /** A separator-free piece followed by the separator is the first piece. */
  lemma SplitPiece(w: string, tail: string, sep: char)
    requires sep !in w
    ensures Split(w + [sep] + tail, sep) == [w] + Split(tail, sep)
  {
    var t := [sep] + tail;
    assert w + [sep] + tail == w + t;
    SplitLeadingSep(tail, sep);
    SplitPrefix(w, t, sep);
    assert w + "" == w;
  }

  /** A leading separator ends an empty first piece. */
  lemma SplitLeadingSep(t: string, sep: char)
    ensures Split([sep] + t, sep) == [""] + Split(t, sep)
  {
    assert ([sep] + t)[1..] == t;
  }

  lemma {:induction false} SplitNoSep(w: string, sep: char)
    requires sep !in w
    ensures Split(w, sep) == [w]
    decreases |w|
  {
    if |w| > 0 {
      SplitNoSep(w[1..], sep);
      assert w == [w[0]] + w[1..];
    }
  }

  /** A separator-free prefix is glued onto the first piece of what follows. */
  lemma {:induction false} SplitPrefix(w: string, t: string, sep: char)
    requires sep !in w
    ensures Split(w + t, sep) == [w + Split(t, sep)[0]] + Split(t, sep)[1..]
    decreases |w|
  {
    if |w| > 0 {
      var ps := Split(t, sep);
      assert (w + t)[1..] == w[1..] + t;
      assert (w + t)[0] == w[0] && w[0] != sep;
      SplitPrefix(w[1..], t, sep);
      var rest := Split(w[1..] + t, sep);
      assert rest[0] == w[1..] + ps[0] && rest[1..] == ps[1..];
      assert Split(w + t, sep) == [[w[0]] + rest[0]] + rest[1..];
      assert [w[0]] + (w[1..] + ps[0]) == w + ps[0];
    } else {
      assert w + t == t;
      var ps := Split(t, sep);
      assert w == [];
      assert w + ps[0] == ps[0];
      assert ps == [ps[0]] + ps[1..];
    }
  }

  /** Splitting words joined by single spaces gives the words back. */
  lemma {:induction false} WordsJoin(ws: seq<string>)
    requires forall i :: 0 <= i < |ws| ==> IsWord(ws[i])
    ensures Words(Join(ws, " ")) == ws
    decreases |ws|
  {
    if |ws| == 1 {
      WordsPrefix(ws[0], "");
      assert ws[0] + "" == ws[0];
    } else if |ws| > 1 {
      var tail := Join(ws[1..], " ");
      WordsJoin(ws[1..]);
      var t := " " + tail;
      assert t[1..] == tail;
      assert Words(t) == ws[1..];
      WordsPrefix(ws[0], t);
      assert Join(ws, " ") == ws[0] + t;
    }
  }

  lemma WordsPrefix(w: string, t: string)
    requires IsWord(w)
    requires t == [] || IsSpace(t[0])
    ensures Words(w + t) == [w] + Words(t)
  {
    var s := w + t;
    assert s[0] == w[0];
    WordEndAt(s, 0, |w|);
    assert s[..|w|] == w;
    assert s[|w|..] == t;
  }

  /** Leading whitespace of any length is dropped: it never starts or extends a word. */
  lemma {:induction false} WordsSkipSpace(g: string, s: string)
    requires forall k :: 0 <= k < |g| ==> IsSpace(g[k])
    ensures Words(g + s) == Words(s)
    decreases |g|
  {
    if |g| > 0 {
      var t := g + s;
      assert t[0] == g[0];
      assert t[1..] == g[1..] + s;
      assert IsSpace(t[0]);
      WordsSkipSpace(g[1..], s);
    } else {
      assert g + s == s;
    }
  }

  /**
   * A word is a maximal run: a word followed by whitespace, or standing at the
   * end of the text, is taken whole as the first piece, and splitting resumes
   * after the whitespace. With `WordsSkipSpace` and `WordsEmpty` this
   * determines `Words` on every input.
   */
  lemma WordsThenSpace(w: string, g: string, s: string)
    requires IsWord(w)
    requires forall k :: 0 <= k < |g| ==> IsSpace(g[k])
    requires |g| > 0 || s == []
    ensures Words(w + g + s) == [w] + Words(s)
  {
    assert w + g + s == w + (g + s);
    if |g| > 0 {
      assert (g + s)[0] == g[0];
    } else {
      assert g + s == [];
    }
    WordsPrefix(w, g + s);
    WordsSkipSpace(g, s);
  }

  lemma {:induction false} WordEndAt(s: string, i: nat, j: nat)
    requires i <= j <= |s|
    requires forall k :: i <= k < j ==> !IsSpace(s[k])
    requires j == |s| || IsSpace(s[j])
    ensures WordEnd(s, i) == j
    decreases j - i
  {
    if i < j {
      WordEndAt(s, i + 1, j);
    }
  }

  /** `s.split()` is empty exactly when `s` is empty or all whitespace. */
  lemma WordsEmpty(s: string)
    ensures Words(s) == [] <==> forall k :: 0 <= k < |s| ==> IsSpace(s[k])
  {
    var ws := Words(s);
    if ws != [] {
      assert |ws[0]| > 0;
      assert |Concat(ws)| > 0;
      NonSpaceEmpty(s);
    } else {
      NonSpaceEmpty(s);
    }
  }

  lemma {:induction false} NonSpaceEmpty(s: string)
    ensures NonSpace(s) == [] <==> forall k :: 0 <= k < |s| ==> IsSpace(s[k])
    decreases |s|
  {
    if |s| > 0 {
      NonSpaceEmpty(s[1..]);
      assert forall k :: 1 <= k < |s| ==> s[k] == s[1..][k - 1];
    }
  }
}
