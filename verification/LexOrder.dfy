/** Lexicographic order, and strncmp. */
module LexOrder {
  import opened Basics

  function Sign(x: int): int {
    if x < 0 then -1 else if x > 0 then 1 else 0
  }

  /** Lexicographic order over an order of the elements: negative, zero or positive. */
  function Lex<T>(a: seq<T>, b: seq<T>, cmp: (T, T) -> int): int {
    if a == [] || b == [] then Sign(|a| - |b|)
    else if cmp(a[0], b[0]) != 0 then cmp(a[0], b[0])
    else Lex(a[1..], b[1..], cmp)
  }

  /** cmp is a total order whose zero is equality. */
  ghost predicate IsOrder<T(!new)>(cmp: (T, T) -> int) {
    && (forall x, y :: cmp(x, y) == -cmp(y, x))
    && (forall x, y :: cmp(x, y) == 0 <==> x == y)
    && (forall x, y, z :: cmp(x, y) <= 0 && cmp(y, z) <= 0 ==> cmp(x, z) <= 0)
  }

  lemma {:induction false} LexFlips<T(!new)>(a: seq<T>, b: seq<T>, cmp: (T, T) -> int)
    requires IsOrder(cmp)
    ensures Lex(a, b, cmp) == -Lex(b, a, cmp)
  {
    if a != [] && b != [] { LexFlips(a[1..], b[1..], cmp); }
  }

  lemma {:induction false} LexZero<T(!new)>(a: seq<T>, b: seq<T>, cmp: (T, T) -> int)
    requires IsOrder(cmp)
    ensures Lex(a, b, cmp) == 0 <==> a == b
  {
    if a != [] && b != [] {
      LexZero(a[1..], b[1..], cmp);
      assert a == [a[0]] + a[1..] && b == [b[0]] + b[1..];
    }
  }

  lemma {:induction false} LexTransitive<T(!new)>(a: seq<T>, b: seq<T>, c: seq<T>, cmp: (T, T) -> int)
    requires IsOrder(cmp) && Lex(a, b, cmp) <= 0 && Lex(b, c, cmp) <= 0
    ensures Lex(a, c, cmp) <= 0
  {
    if a != [] && b != [] && c != [] {
      assert cmp(a[0], b[0]) <= 0 && cmp(b[0], c[0]) <= 0;
      if cmp(a[0], c[0]) == 0 {
        assert cmp(c[0], b[0]) <= 0;
        LexTransitive(a[1..], b[1..], c[1..], cmp);
      }
    }
  }

  /** The first n elements, or all. */
  function Cut<T>(a: seq<T>, n: nat): seq<T> {
    if n < |a| then a[..n] else a
  }

  lemma {:induction false} LexCut<T(!new)>(a: seq<T>, b: seq<T>, n: nat, cmp: (T, T) -> int)
    requires Lex(a, b, cmp) <= 0
    ensures Lex(Cut(a, n), Cut(b, n), cmp) <= 0
    decreases n
  {
    if n > 0 && a != [] && b != [] && cmp(a[0], b[0]) == 0 {
      LexCut(a[1..], b[1..], n - 1, cmp);
      assert Cut(a, n)[1..] == Cut(a[1..], n - 1) && Cut(b, n)[1..] == Cut(b[1..], n - 1);
    }
  }

  lemma LexIsOrder<T(!new)>(cmp: (T, T) -> int)
    requires IsOrder(cmp)
    ensures IsOrder((a: seq<T>, b: seq<T>) => Lex(a, b, cmp))
  {
    hide Lex;
    var o := (a: seq<T>, b: seq<T>) => Lex(a, b, cmp);
    forall a, b ensures o(a, b) == -o(b, a) { LexFlips(a, b, cmp); }
    forall a, b ensures o(a, b) == 0 <==> a == b { LexZero(a, b, cmp); }
    forall a, b, c | o(a, b) <= 0 && o(b, c) <= 0 ensures o(a, c) <= 0 { LexTransitive(a, b, c, cmp); }
  }

  /** The first place where the sequences differ has the lesser element in a, or only b goes on. */
  ghost predicate Precedes<T(!new)>(a: seq<T>, b: seq<T>, less: (T, T) -> bool) {
    exists k: nat :: k <= |a| && k <= |b| && a[..k] == b[..k] && DecidedAt(a, b, k, less)
  }

  predicate DecidedAt<T(!new)>(a: seq<T>, b: seq<T>, k: nat, less: (T, T) -> bool)
    requires k <= |a| && k <= |b|
  {
    (k == |a| && k < |b|) || (k < |a| && k < |b| && less(a[k], b[k]))
  }

  lemma PrecedesStep<T(!new)>(a: seq<T>, b: seq<T>, less: (T, T) -> bool)
    requires a != [] && b != [] && a[0] == b[0] && !less(a[0], b[0])
    ensures Precedes(a, b, less) <==> Precedes(a[1..], b[1..], less)
  {
    var a', b' := a[1..], b[1..];
    if Precedes(a, b, less) {
      var k: nat :| k <= |a| && k <= |b| && a[..k] == b[..k] && DecidedAt(a, b, k, less);
      assert a'[..k - 1] == a[..k][1..] == b[..k][1..] == b'[..k - 1];
      assert DecidedAt(a', b', k - 1, less);
    }
    if Precedes(a', b', less) {
      var k: nat :| k <= |a'| && k <= |b'| && a'[..k] == b'[..k] && DecidedAt(a', b', k, less);
      assert a[..k + 1] == [a[0]] + a'[..k] == [b[0]] + b'[..k] == b[..k + 1];
      assert DecidedAt(a, b, k + 1, less);
    }
  }

  /** What the lexicographic comparison means. */
  lemma {:induction false} LexPrecedes<T(!new)>(a: seq<T>, b: seq<T>, cmp: (T, T) -> int, less: (T, T) -> bool)
    requires IsOrder(cmp) && forall x, y :: cmp(x, y) < 0 <==> less(x, y)
    ensures Lex(a, b, cmp) < 0 <==> Precedes(a, b, less)
  {
    if a == [] || b == [] {
      assert a[..0] == b[..0];
      assert DecidedAt(a, b, 0, less) <==> |a| < |b|;
    } else if a[0] == b[0] {
      PrecedesStep(a, b, less);
      LexPrecedes(a[1..], b[1..], cmp, less);
    } else {
      assert a[..0] == b[..0];
      assert DecidedAt(a, b, 0, less) <==> less(a[0], b[0]);
      forall k: nat | 0 < k <= |a| && k <= |b| ensures a[..k] != b[..k] { assert a[..k][0] != b[..k][0]; }
    }
  }

  // ---------------------------------------------------------------- strings

  function CharOrder(x: char, y: char): int {
    if x < y then -1 else if x > y then 1 else 0
  }

  function StringOrder(a: string, b: string): int {
    Lex(a, b, CharOrder)
  }

  lemma StringsOrdered()
    ensures IsOrder(StringOrder)
  {
    assert IsOrder(CharOrder);
    LexIsOrder(CharOrder);
    var o := (a: seq<char>, b: seq<char>) => Lex(a, b, CharOrder);
    assert forall a, b :: StringOrder(a, b) == o(a, b);
  }

  ghost predicate Before(a: string, b: string) {
    Precedes(a, b, (x: char, y: char) => x < y)
  }

  /** Strings are in order when at the first difference the lesser one has the lesser character, or ends. */
  lemma StringOrderMeans(a: string, b: string)
    ensures StringOrder(a, b) < 0 <==> Before(a, b)
    ensures StringOrder(a, b) > 0 <==> Before(b, a)
    ensures StringOrder(a, b) == 0 <==> a == b
  {
    assert IsOrder(CharOrder);
    LexPrecedes(a, b, CharOrder, (x: char, y: char) => x < y);
    LexPrecedes(b, a, CharOrder, (x: char, y: char) => x < y);
    LexFlips(a, b, CharOrder);
    LexZero(a, b, CharOrder);
  }

  /** strncmp over the first n characters, its value reduced to a sign. */
  function StrNCmp(a: string, b: string, n: nat): int
    requires n <= |a| && n <= |b|
  {
    if n == 0 then 0
    else if a[0] != b[0] then CharOrder(a[0], b[0])
    else StrNCmp(a[1..], b[1..], n - 1)
  }

  lemma {:induction false} StrNCmpOrders(a: string, b: string)
    ensures var res := StrNCmp(a, b, Min(|a|, |b|));
      StringOrder(a, b) == if res != 0 then res else Sign(|a| - |b|)
    ensures StrNCmp(a, b, Min(|a|, |b|)) == 0 && |a| == |b| <==> a == b
    ensures -1 <= StrNCmp(a, b, Min(|a|, |b|)) <= 1
  {
    if a != [] && b != [] {
      StrNCmpOrders(a[1..], b[1..]);
      assert a == [a[0]] + a[1..] && b == [b[0]] + b[1..];
    }
  }
}
