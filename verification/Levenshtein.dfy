/** levenshtein of contrib/fuzzystrmatch: a dynamic program over two rows, and what it is for. */
module Levenshtein {
  import opened Basics

  const MAX_LEVENSHTEIN_STRLEN := 255

  // ---------------------------------------------------------------- scripts

  /** One insertion, deletion or substitution: at most one character is replaced by at most one. */
  ghost predicate Edit(s: string, t: string) {
    exists p: string, u: string, v: string, q: string ::
      |u| <= 1 && |v| <= 1 && u != v && s == p + u + q && t == p + v + q
  }

  /** Some script of n edits turns s into t. */
  ghost predicate Script(s: string, t: string, n: nat)
    decreases n
  {
    if n == 0 then s == t else exists w :: Edit(s, w) && Script(w, t, n - 1)
  }

  lemma EditBack(s: string, t: string)
    requires Edit(s, t)
    ensures Edit(t, s)
  {
    var p, u, v, q :| |u| <= 1 && |v| <= 1 && u != v && s == p + u + q && t == p + v + q;
    assert t == p + v + q;
  }

  lemma EditBefore(s: string, t: string, x: string)
    requires Edit(s, t)
    ensures Edit(s + x, t + x)
  {
    var p, u, v, q :| |u| <= 1 && |v| <= 1 && u != v && s == p + u + q && t == p + v + q;
    assert s + x == p + u + (q + x) && t + x == p + v + (q + x);
  }

  lemma EditLast(s: string, u: string, v: string)
    requires |u| <= 1 && |v| <= 1 && u != v
    ensures Edit(s + u, s + v)
  {
    assert s + u == s + u + [] && s + v == s + v + [];
  }

  lemma {:induction false} ScriptJoin(s: string, t: string, u: string, m: nat, n: nat)
    requires Script(s, t, m) && Script(t, u, n)
    ensures Script(s, u, m + n)
    decreases m
  {
    if m > 0 {
      var w :| Edit(s, w) && Script(w, t, m - 1);
      ScriptJoin(w, t, u, m - 1, n);
    }
  }

  lemma ScriptOne(s: string, t: string)
    requires Edit(s, t)
    ensures Script(s, t, 1)
  {
    assert Script(t, t, 0);
  }

  lemma {:induction false} ScriptBack(s: string, t: string, n: nat)
    requires Script(s, t, n)
    ensures Script(t, s, n)
    decreases n
  {
    if n > 0 {
      var w :| Edit(s, w) && Script(w, t, n - 1);
      ScriptBack(w, t, n - 1);
      EditBack(s, w);
      ScriptOne(w, s);
      ScriptJoin(t, w, s, n - 1, 1);
    }
  }

  lemma {:induction false} ScriptBefore(s: string, t: string, x: string, n: nat)
    requires Script(s, t, n)
    ensures Script(s + x, t + x, n)
    decreases n
  {
    if n > 0 {
      var w :| Edit(s, w) && Script(w, t, n - 1);
      EditBefore(s, w, x);
      ScriptBefore(w, t, x, n - 1);
    }
  }

  // ---------------------------------------------------------------- the recurrence

  function Front(s: string): string
    requires s != []
  {
    s[..|s| - 1]
  }

  function End(s: string): char
    requires s != []
  {
    s[|s| - 1]
  }

  /** The value of the cell for two prefixes. */
  function Cell(s: string, t: string): nat {
    if |s| == 0 then |t| else if |t| == 0 then |s| else
      Least(Cell(s, Front(t)), Cell(Front(s), t), Cell(Front(s), Front(t)), End(s) != End(t))
  }

  /** The cheapest of an insertion, a deletion, and a substitution or match. */
  function Least(upper: nat, left: nat, diagonal: nat, differ: bool): nat {
    Min(Min(upper + 1, left + 1), diagonal + if differ then 1 else 0)
  }

  lemma CellNone(s: string, t: string)
    requires s == [] || t == []
    ensures Cell(s, t) == |s| + |t|
  {
  }

  lemma CellAt(s: string, t: string)
    requires s != [] && t != []
    ensures Cell(s, t) == Least(Cell(s, Front(t)), Cell(Front(s), t), Cell(Front(s), Front(t)), End(s) != End(t))
  {
    hide Least, Front, End;
  }

  lemma FrontOf(s: string, a: char)
    ensures Front(s + [a]) == s && End(s + [a]) == a
  {
  }

  lemma CellEnds(s: string, t: string, a: char, b: char)
    ensures Cell([], t) == |t| && Cell(s, []) == |s|
    ensures Cell(s + [a], t + [b]) == Least(Cell(s + [a], t), Cell(s, t + [b]), Cell(s, t), a != b)
  {
    hide *;
    CellNone([], t);
    CellNone(s, []);
    FrontOf(s, a);
    FrontOf(t, b);
    CellAt(s + [a], t + [b]);
  }

  lemma AsEnds(s: string)
    requires s != []
    ensures s == Front(s) + [End(s)]
  {
  }

  /** Some script has the length the recurrence gives. */
  lemma {:induction false} ScriptOfCell(s: string, t: string)
    ensures Script(s, t, Cell(s, t))
    decreases |s| + |t|
  {
    hide Cell, Script;
    if s == [] || t == [] { CellNone(s, t); } else { CellAt(s, t); }
    if s == [] && t == [] {
      NoEdit(s);
    } else if s == [] {
      CellNone(s, Front(t));
      ScriptOfCell(s, Front(t));
      AppendEdit(s, t, Cell(s, Front(t)));
    } else if t == [] {
      CellNone(Front(s), t);
      ScriptOfCell(Front(s), t);
      DropEdit(s, t, Cell(Front(s), t));
    } else {
      ScriptOfCell(s, Front(t));
      ScriptOfCell(Front(s), t);
      ScriptOfCell(Front(s), Front(t));
      AppendEdit(s, t, Cell(s, Front(t)));
      DropEdit(s, t, Cell(Front(s), t));
      ChangeEdit(s, t, Cell(Front(s), Front(t)));
    }
  }

  lemma NoEdit(s: string)
    ensures Script(s, s, 0)
  {
  }

  lemma AppendEdit(s: string, t: string, n: nat)
    requires t != [] && Script(s, Front(t), n)
    ensures Script(s, t, n + 1)
  {
    AsEnds(t);
    assert Front(t) + [] == Front(t);
    EditLast(Front(t), [], [End(t)]);
    ScriptOne(Front(t), t);
    ScriptJoin(s, Front(t), t, n, 1);
  }

  lemma DropEdit(s: string, t: string, n: nat)
    requires s != [] && Script(Front(s), t, n)
    ensures Script(s, t, n + 1)
  {
    AsEnds(s);
    assert Front(s) + [] == Front(s);
    EditLast(Front(s), [End(s)], []);
  }

  lemma ChangeEdit(s: string, t: string, n: nat)
    requires s != [] && t != [] && Script(Front(s), Front(t), n)
    ensures Script(s, t, n + if End(s) != End(t) then 1 else 0)
  {
    AsEnds(s);
    AsEnds(t);
    ScriptBefore(Front(s), Front(t), [End(t)], n);
    if End(s) != End(t) {
      EditLast(Front(s), [End(s)], [End(t)]);
    }
  }

  /** One more character in front costs at most one, and so does one fewer. */
  lemma {:induction false} OneCharacter(s: string, a: char, t: string)
    ensures Cell(s + [a], t) <= Cell(s, t) + 1
    ensures Cell(s, t) <= Cell(s + [a], t) + 1
    ensures t != [] ==> Cell(s, t) <= Cell(s, Front(t)) + 1
    decreases |s| + |t|
  {
    hide Cell;
    if t == [] {
      CellEnds(s, t, a, a);
      CellEnds(s + [a], t, a, a);
    } else {
      var t', b := Front(t), End(t);
      AsEnds(t);
      CellEnds(s, t', a, b);
      OneCharacter(s, a, t');
      if s == [] {
        CellEnds(s, t', a, a);
        CellEnds([], t, a, a);
      } else {
        AsEnds(s);
        CellEnds(Front(s), t', End(s), b);
      }
    }
  }

  /** Cells whose three neighbours are near each other are near each other. */
  lemma NearNeighbours(s: string, s': string, x: char, y: char, t: string, b: char)
    requires Cell(s, t + [b]) <= Cell(s', t + [b]) + 1 && Cell(s + [x], t) <= Cell(s' + [y], t) + 1
    requires Cell(s, t) + (if x != b then 1 else 0) <= Cell(s', t) + (if y != b then 1 else 0) + 1
    ensures Cell(s + [x], t + [b]) <= Cell(s' + [y], t + [b]) + 1
  {
    hide Cell;
    CellEnds(s, t, x, b);
    CellEnds(s', t, y, b);
  }

  /** Changing one character inside changes the value by at most one. */
  lemma {:induction false} OneEdit(p: string, u: string, v: string, q: string, t: string)
    requires |u| <= 1 && |v| <= 1
    ensures Cell(p + u + q, t) <= Cell(p + v + q, t) + 1
    decreases |q| + |t|
  {
    hide Cell;
    if t == [] {
      LongerBy(p, u, v, q);
    } else if q != [] {
      var t', b, q', x := Front(t), End(t), Front(q), End(q);
      AsEnds(t);
      AsEnds(q);
      assert p + u + q == (p + u + q') + [x] && p + v + q == (p + v + q') + [x];
      OneEdit(p, u, v, q', t);
      OneEdit(p, u, v, q, t');
      OneEdit(p, u, v, q', t');
      NearNeighbours(p + u + q', p + v + q', x, x, t', b);
    } else {
      assert p + u + q == p + u && p + v + q == p + v;
      if u != [] && v != [] {
        var t', b := Front(t), End(t);
        AsEnds(t);
        OneEdit(p, u, v, q, t');
        assert u == [u[0]] && v == [v[0]];
        NearNeighbours(p, p, u[0], v[0], t', b);
      } else {
        assert p + [] == p;
        if u != [] { assert u == [u[0]]; OneCharacter(p, u[0], t); }
        if v != [] { assert v == [v[0]]; OneCharacter(p, v[0], t); }
      }
    }
  }

  lemma LongerBy(p: string, u: string, v: string, q: string)
    requires |u| <= 1 && |v| <= 1
    ensures Cell(p + u + q, []) <= Cell(p + v + q, []) + 1
  {
    CellEnds(p + u + q, [], 'a', 'a');
    CellEnds(p + v + q, [], 'a', 'a');
  }

  /** No script is shorter than the value of the recurrence. */
  lemma {:induction false} NoScriptShorter(s: string, t: string, n: nat)
    requires Script(s, t, n)
    ensures Cell(s, t) <= n
    decreases n
  {
    if n == 0 {
      SameCell(s);
    } else {
      var w :| Edit(s, w) && Script(w, t, n - 1);
      NoScriptShorter(w, t, n - 1);
      var p, u, v, q :| |u| <= 1 && |v| <= 1 && u != v && s == p + u + q && w == p + v + q;
      OneEdit(p, u, v, q, t);
    }
  }

  lemma {:induction false} SameCell(s: string)
    ensures Cell(s, s) == 0
    decreases |s|
  {
    if s != [] {
      SameCell(Front(s));
    }
  }

  /** The cell is the length of the cheapest script. */
  ghost predicate Cheapest(s: string, t: string, n: nat) {
    Script(s, t, n) && forall m: nat :: Script(s, t, m) ==> n <= m
  }

  lemma CellIsCheapest(s: string, t: string)
    ensures forall n :: Cheapest(s, t, n) <==> n == Cell(s, t)
  {
    hide Script, Cell;
    ScriptOfCell(s, t);
    forall m: nat | Script(s, t, m) ensures Cell(s, t) <= m { NoScriptShorter(s, t, m); }
  }

  /** The distance is a metric. */
  lemma DistanceIsMetric(s: string, t: string, u: string)
    ensures Cell(s, t) == 0 <==> s == t
    ensures Cell(s, t) == Cell(t, s)
    ensures Cell(s, u) <= Cell(s, t) + Cell(t, u)
  {
    ScriptOfCell(s, t);
    ScriptOfCell(t, s);
    ScriptOfCell(t, u);
    ScriptBack(s, t, Cell(s, t));
    ScriptBack(t, s, Cell(t, s));
    NoScriptShorter(t, s, Cell(s, t));
    NoScriptShorter(s, t, Cell(t, s));
    ScriptJoin(s, t, u, Cell(s, t), Cell(t, u));
    NoScriptShorter(s, u, Cell(s, t) + Cell(t, u));
    SameCell(s);
  }

  // ---------------------------------------------------------------- the program

  datatype Result = Distance(d: int) | TooLong

  /** levenshtein */
  method Levenshtein(s: string, t: string) returns (r: Result)
    ensures r.TooLong? <==> |s| > MAX_LEVENSHTEIN_STRLEN || |t| > MAX_LEVENSHTEIN_STRLEN
    ensures r.Distance? ==> r.d >= 0 && Cheapest(s, t, r.d)
  {
    hide Cheapest, Cell;
    var cols, rows := |s| + 1, |t| + 1;
    if cols > MAX_LEVENSHTEIN_STRLEN + 1 || rows > MAX_LEVENSHTEIN_STRLEN + 1 {
      return TooLong;
    }
    CellIsCheapest(s, t);
    var u_cells := new int[cols];
    for i := 0 to cols
      invariant forall k :: 0 <= k < i ==> u_cells[k] == Cell(s[..k], [])
    {
      u_cells[i] := i;
      CellEnds(s[..i], [], 'a', 'a');
    }
    var l_cells := new int[cols];
    assert t[..0] == [];
    var j := 1;
    while j < rows
      invariant 1 <= j <= rows && u_cells.Length == l_cells.Length == cols && u_cells != l_cells
      invariant fresh(u_cells) && fresh(l_cells)
      invariant RowIs(u_cells[..], cols, s, t[..j - 1])
    {
      l_cells[0] := j;
      CellEnds([], t[..j], 'a', 'a');
      var i := 1;
      while i < cols
        invariant 1 <= i <= cols && u_cells != l_cells
        invariant RowIs(u_cells[..], cols, s, t[..j - 1]) && RowIs(l_cells[..], i, s, t[..j])
      {
        var c := if s[i - 1] != t[j - 1] then 1 else 0;
        var c1 := u_cells[i] + 1;
        var c2 := l_cells[i - 1] + 1;
        var c3 := u_cells[i - 1] + c;
        NextCell(s, i, t, j);
        l_cells[i] := if (if c1 < c2 then c1 else c2) < c3 then (if c1 < c2 then c1 else c2) else c3;
        i := i + 1;
      }
      u_cells, l_cells := l_cells, u_cells;
      j := j + 1;
    }
    assert s[..cols - 1] == s && t[..j - 1] == t;
    return Distance(u_cells[cols - 1]);
  }

  /** The first n cells of the row for the prefix t. */
  ghost predicate RowIs(row: seq<int>, n: nat, s: string, t: string) {
    n <= |row| && n <= |s| + 1 && forall k :: 0 <= k < n ==> row[k] == Cell(s[..k], t)
  }

  lemma NextCell(s: string, i: nat, t: string, j: nat)
    requires 1 <= i <= |s| && 1 <= j <= |t|
    ensures Cell(s[..i], t[..j]) ==
      Least(Cell(s[..i], t[..j - 1]), Cell(s[..i - 1], t[..j]), Cell(s[..i - 1], t[..j - 1]), s[i - 1] != t[j - 1])
  {
    assert s[..i] == s[..i - 1] + [s[i - 1]] && t[..j] == t[..j - 1] + [t[j - 1]];
    CellEnds(s[..i - 1], t[..j - 1], s[i - 1], t[j - 1]);
  }
}
