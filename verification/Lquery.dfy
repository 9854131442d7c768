/**
 * The `!`-free matcher of contrib/ltree/lquery_op.c: a label path is matched against a
 * query of levels, each of which is either a list of name variants (one path level) or
 * a wildcard `*{low,high}` (between low and high path levels).
 */
module Lquery {

  /** One alternative of a query level, with the flags `*`, `@` and `%`. */
  datatype Variant = Variant(name: string, anyEnd: bool, inCase: bool, subLexeme: bool)

  /** A query level; without variants it is a wildcard, and only then low and high matter. */
  datatype QLevel = QLevel(variants: seq<Variant>, low: nat, high: nat)
  {
    predicate IsStar() { |variants| == 0 }
  }

  type Level = string

  // ---------------------------------------------------------------- one path level

  function Fold(c: char, inCase: bool): char {
    if inCase && 'A' <= c <= 'Z' then c + ('a' - 'A') else c
  }

  /** Zero of strncmp, or of pg_strncasecmp when inCase, over the first |q| characters. */
  predicate SameHead(q: string, t: string, inCase: bool) {
    |q| <= |t| && forall k :: 0 <= k < |q| ==> Fold(q[k], inCase) == Fold(t[k], inCase)
  }

  predicate WordMatches(q: string, t: string, inCase: bool, anyEnd: bool) {
    (|t| == |q| || (|t| > |q| && anyEnd)) && SameHead(q, t, inCase)
  }

  /** s[b..e] is a maximal non-empty run without underscores. */
  predicate IsLexeme(s: string, b: int, e: int) {
    && 0 <= b < e <= |s|
    && (forall k :: b <= k < e ==> s[k] != '_')
    && (b == 0 || s[b - 1] == '_')
    && (e == |s| || s[e] == '_')
  }

  ghost predicate HasWord(t: string, word: string, inCase: bool, anyEnd: bool) {
    exists b, e :: IsLexeme(t, b, e) && WordMatches(word, t[b..e], inCase, anyEnd)
  }

  /** Every word of the variant occurs among the words of the level. */
  ghost predicate AllWordsIn(q: string, t: string, inCase: bool, anyEnd: bool) {
    forall b, e :: IsLexeme(q, b, e) ==> HasWord(t, q[b..e], inCase, anyEnd)
  }

  ghost predicate VariantAccepts(v: Variant, t: Level) {
    if v.subLexeme then AllWordsIn(v.name, t, v.inCase, v.anyEnd)
    else WordMatches(v.name, t, v.inCase, v.anyEnd)
  }

  ghost predicate Accepts(q: QLevel, t: Level) {
    exists i :: 0 <= i < |q.variants| && VariantAccepts(q.variants[i], t)
  }

  /** A position that is not strictly inside a lexeme. */
  predicate AtBoundary(s: string, p: int) {
    0 <= p <= |s| && (p == 0 || p == |s| || s[p - 1] == '_' || s[p] == '_')
  }

  /** The next lexeme at or after `start`. */
  method GetLexeme(s: string, start: nat) returns (found: bool, b: nat, e: nat)
    requires AtBoundary(s, start)
    ensures found ==> IsLexeme(s, b, e) && start <= b && AtBoundary(s, e)
    ensures found ==> forall i, j :: IsLexeme(s, i, j) && start <= i ==> (i == b && j == e) || e <= i
    ensures !found ==> forall i, j :: IsLexeme(s, i, j) ==> i < start
  {
    b := start;
    while b < |s| && s[b] == '_'
      invariant start <= b <= |s|
      invariant forall k :: start <= k < b ==> s[k] == '_'
      invariant b > start ==> s[b - 1] == '_'
    {
      b := b + 1;
    }
    e := b;
    found := b != |s|;
    if !found {
      forall i, j | IsLexeme(s, i, j) ensures i < start { assert s[i] != '_'; }
      return;
    }
    while e < |s| && s[e] != '_'
      invariant b <= e <= |s|
      invariant forall k :: b <= k < e ==> s[k] != '_'
    {
      e := e + 1;
    }
    forall i, j | IsLexeme(s, i, j) && start <= i
      ensures (i == b && j == e) || e <= i
    {
      assert s[i] != '_';
    }
  }

  method CompareSubnode(t: Level, q: string, inCase: bool, anyEnd: bool) returns (ok: bool)
    ensures ok <==> AllWordsIn(q, t, inCase, anyEnd)
  {
    var qn: nat := 0;
    while true
      invariant AtBoundary(q, qn)
      invariant forall i, j :: IsLexeme(q, i, j) && i < qn ==> HasWord(t, q[i..j], inCase, anyEnd)
      decreases |q| - qn
    {
      var found, qb, qe := GetLexeme(q, qn);
      if !found { return true; }
      var word := q[qb..qe];
      var tn: nat := 0;
      var isOk := false;
      while true
        invariant AtBoundary(t, tn)
        invariant !isOk
        invariant forall i, j :: IsLexeme(t, i, j) && i < tn ==> !WordMatches(word, t[i..j], inCase, anyEnd)
        decreases |t| - tn
      {
        var tfound, tb, te := GetLexeme(t, tn);
        if !tfound { break; }
        if WordMatches(word, t[tb..te], inCase, anyEnd) {
          isOk := true;
          break;
        }
        tn := te;
      }
      if !isOk { return false; }
      qn := qe;
    }
  }

  method CheckLevel(curq: QLevel, curt: Level) returns (ok: bool)
    ensures ok <==> Accepts(curq, curt)
    ensures ok <==> LevelMeans(curq, curt)
  {
    hide LevelMeans;
    AcceptsMeans(curq, curt);
    for i := 0 to |curq.variants|
      invariant forall k :: 0 <= k < i ==> !VariantAccepts(curq.variants[k], curt)
    {
      var v := curq.variants[i];
      if v.subLexeme {
        var m := CompareSubnode(curt, v.name, v.inCase, v.anyEnd);
        if m { return true; }
      } else if WordMatches(v.name, curt, v.inCase, v.anyEnd) {
        return true;
      }
    }
    return false;
  }

  // ---------------------------------------------------------------- what a variant means

  /** The two forms of one ASCII letter. */
  predicate CaseForms(x: char, y: char) {
    ('A' <= x <= 'Z' && y as int == x as int + 32) || ('A' <= y <= 'Z' && x as int == y as int + 32)
  }

  /** The same characters, or with anyCase the same up to letter case. */
  predicate SameText(w: string, t: string, anyCase: bool) {
    |w| == |t| && forall k :: 0 <= k < |w| ==> w[k] == t[k] || (anyCase && CaseForms(w[k], t[k]))
  }

  /** The text is the word, or with anyEnd begins with it. */
  ghost predicate Fits(w: string, t: string, anyCase: bool, anyEnd: bool) {
    if anyEnd then exists head, tail :: t == head + tail && SameText(w, head, anyCase) else SameText(w, t, anyCase)
  }

  predicate StandsBetween(s: string, pre: string, w: string, post: string) {
    s == pre + w + post && (pre == "" || pre[|pre| - 1] == '_') && (post == "" || post[0] == '_')
  }

  /** A piece between underscores, not empty. */
  ghost predicate IsPiece(s: string, w: string) {
    w != "" && '_' !in w && exists pre, post :: StandsBetween(s, pre, w, post)
  }

  ghost predicate VariantMeans(v: Variant, t: Level) {
    if v.subLexeme then
      forall w :: IsPiece(v.name, w) ==> exists u :: IsPiece(t, u) && Fits(w, u, v.inCase, v.anyEnd)
    else Fits(v.name, t, v.inCase, v.anyEnd)
  }

  /** Some variant accepts the level. */
  ghost predicate LevelMeans(q: QLevel, t: Level) {
    exists i :: 0 <= i < |q.variants| && VariantMeans(q.variants[i], t)
  }

  lemma FoldMeans(x: char, y: char, inCase: bool)
    ensures Fold(x, inCase) == Fold(y, inCase) <==> x == y || (inCase && CaseForms(x, y))
  {
  }

  lemma HeadMeans(w: string, t: string, inCase: bool)
    ensures SameHead(w, t, inCase) <==> |w| <= |t| && SameText(w, t[..|w|], inCase)
  {
    if |w| <= |t| {
      forall k | 0 <= k < |w|
        ensures Fold(w[k], inCase) == Fold(t[k], inCase) <==> w[k] == t[..|w|][k] || (inCase && CaseForms(w[k], t[..|w|][k]))
      {
        FoldMeans(w[k], t[k], inCase);
      }
    }
  }

  lemma WordMeans(w: string, t: string, inCase: bool, anyEnd: bool)
    ensures WordMatches(w, t, inCase, anyEnd) <==> Fits(w, t, inCase, anyEnd)
  {
    hide SameHead;
    HeadMeans(w, t, inCase);
    if anyEnd {
      if |w| <= |t| && SameText(w, t[..|w|], inCase) { assert t == t[..|w|] + t[|w|..]; }
      if head, tail :| t == head + tail && SameText(w, head, inCase) { assert t[..|w|] == head; }
    } else if |w| == |t| {
      assert t[..|w|] == t;
    }
  }

  lemma LexemeIsPiece(s: string, b: int, e: int)
    requires IsLexeme(s, b, e)
    ensures IsPiece(s, s[b..e])
  {
    SliceThree(s, b, e);
    forall k | 0 <= k < e - b ensures s[b..e][k] != '_' { assert s[b..e][k] == s[b + k]; }
    assert StandsBetween(s, s[..b], s[b..e], s[e..]);
  }

  lemma SliceThree(s: string, b: int, e: int)
    requires 0 <= b <= e <= |s|
    ensures s == s[..b] + s[b..e] + s[e..]
    ensures (b > 0 ==> s[..b][b - 1] == s[b - 1]) && (e < |s| ==> s[e..][0] == s[e])
  {
  }

  lemma PieceIsLexeme(s: string, w: string) returns (b: int, e: int)
    requires IsPiece(s, w)
    ensures IsLexeme(s, b, e) && s[b..e] == w
  {
    var pre, post :| StandsBetween(s, pre, w, post);
    b, e := |pre|, |pre| + |w|;
    assert s[b..e] == w;
    forall k | b <= k < e ensures s[k] != '_' { assert s[k] == w[k - b]; }
  }

  lemma HasWordMeans(t: string, w: string, inCase: bool, anyEnd: bool)
    ensures HasWord(t, w, inCase, anyEnd) <==> exists u :: IsPiece(t, u) && Fits(w, u, inCase, anyEnd)
  {
    hide WordMatches, Fits, IsPiece;
    if HasWord(t, w, inCase, anyEnd) {
      var b, e :| IsLexeme(t, b, e) && WordMatches(w, t[b..e], inCase, anyEnd);
      LexemeIsPiece(t, b, e);
      WordMeans(w, t[b..e], inCase, anyEnd);
    }
    if u :| IsPiece(t, u) && Fits(w, u, inCase, anyEnd) {
      var b, e := PieceIsLexeme(t, u);
      WordMeans(w, u, inCase, anyEnd);
    }
  }

  lemma VariantMeaning(v: Variant, t: Level)
    ensures VariantAccepts(v, t) <==> VariantMeans(v, t)
  {
    hide WordMatches, Fits, IsPiece, HasWord;
    WordMeans(v.name, t, v.inCase, v.anyEnd);
    if v.subLexeme {
      if AllWordsIn(v.name, t, v.inCase, v.anyEnd) {
        forall w | IsPiece(v.name, w) ensures exists u :: IsPiece(t, u) && Fits(w, u, v.inCase, v.anyEnd) {
          var b, e := PieceIsLexeme(v.name, w);
          HasWordMeans(t, w, v.inCase, v.anyEnd);
        }
      }
      if VariantMeans(v, t) {
        forall b, e | IsLexeme(v.name, b, e) ensures HasWord(t, v.name[b..e], v.inCase, v.anyEnd) {
          LexemeIsPiece(v.name, b, e);
          HasWordMeans(t, v.name[b..e], v.inCase, v.anyEnd);
        }
      }
    }
  }

  /** A level accepts a label when for some variant the label, or each word in some word of it, is what the flags say. */
  lemma AcceptsMeans(q: QLevel, t: Level)
    ensures Accepts(q, t) <==> LevelMeans(q, t)
  {
    hide VariantAccepts, VariantMeans;
    forall i | 0 <= i < |q.variants| ensures VariantAccepts(q.variants[i], t) <==> VariantMeans(q.variants[i], t) {
      VariantMeaning(q.variants[i], t);
    }
  }

  // ---------------------------------------------------------------- the plain meaning

  /** Level k of the query takes the path levels cuts[k] .. cuts[k+1]. */
  ghost predicate TakesPiece(q: QLevel, t: seq<Level>, b: nat, e: nat) {
    && b <= e <= |t|
    && if q.IsStar() then q.low <= e - b <= q.high
       else e == b + 1 && Accepts(q, t[b])
  }

  ghost predicate IsSplit(q: seq<QLevel>, t: seq<Level>, cuts: seq<nat>) {
    && |cuts| == |q| + 1
    && cuts[0] == 0
    && cuts[|q|] == |t|
    && forall k :: 0 <= k < |q| ==> TakesPiece(q[k], t, cuts[k], cuts[k + 1])
  }

  /** The path can be cut among the query's levels. */
  ghost predicate Splits(q: seq<QLevel>, t: seq<Level>) {
    exists cuts :: IsSplit(q, t, cuts)
  }

  // ---------------------------------------------------------------- what the code decides

  /**
   * The meaning the matcher's window variables carry: between lo and hi levels may be
   * skipped before the remaining query q is matched against the remaining path t.  A
   * wildcard REPLACES the pending window, it does not add to it.
   */
  ghost predicate Window(lo: int, hi: int, q: seq<QLevel>, t: seq<Level>)
    decreases |q|
  {
    if q == [] then lo <= |t| <= hi
    else if q[0].IsStar() then Window(q[0].low, q[0].high, q[1..], t)
    else exists p ::
      lo <= p <= hi && 0 <= p < |t| && Accepts(q[0], t[p]) && Window(0, 0, q[1..], t[p + 1..])
  }

  /** The static variable through which a window is handed to the recursive call. */
  class SomeStack {
    var muse: bool
    var highPos: nat

    constructor ()
      ensures !muse
    {
      muse := false;
      highPos := 0;
    }
  }

  method CheckCond(stack: SomeStack, query: seq<QLevel>, tree: seq<Level>) returns (res: bool)
    requires stack.muse ==> |query| > 0 && query[0].IsStar() && |tree| > 0
    modifies stack
    ensures !stack.muse
    ensures res <==> if old(stack.muse) then Window(0, old(stack.highPos), query[1..], tree)
                     else Window(0, 0, query, tree)
    decreases |tree|
  {
    hide Window;
    var lowPos: nat, highPos: nat, curTpos: nat := 0, 0, 0;
    var qi: nat := 0;                         // curq; prevq is the level before it, if any
    if stack.muse {
      highPos := stack.highPos;
      qi := 1;
      stack.muse := false;
    }
    ghost var goal := Pending(query, tree, qi, 0, 0, highPos);
    assert query[0..] == query && tree[0..] == tree;

    while curTpos < |tree| && qi < |query|
      invariant !stack.muse
      invariant curTpos <= |tree| && qi <= |query| && curTpos <= lowPos
      invariant qi == 0 || !query[qi - 1].IsStar() ==> lowPos == highPos == curTpos
      invariant curTpos == |tree| ==> qi == 0 || !query[qi - 1].IsStar()
      invariant goal == Pending(query, tree, qi, curTpos, lowPos, highPos)
      decreases |query| - qi
    {
      if !query[qi].IsStar() {
        while curTpos < lowPos
          invariant !stack.muse
          invariant curTpos <= lowPos && curTpos < |tree|
          invariant goal == Pending(query, tree, qi, curTpos, lowPos, highPos)
        {
          SkipOne(query, tree, qi, curTpos, lowPos, highPos);
          curTpos := curTpos + 1;
          if curTpos == |tree| {
            NothingLeft(query, tree, qi, lowPos, highPos);
            return false;
          }
        }
        var isOk := false;
        while curTpos <= highPos && curTpos < |tree| && !isOk
          invariant !stack.muse
          invariant lowPos <= curTpos <= |tree|
          invariant !isOk ==> goal == Pending(query, tree, qi, curTpos, curTpos, highPos)
          invariant isOk ==> goal == Pending(query, tree, qi + 1, curTpos, curTpos, curTpos)
          invariant isOk ==> lowPos < curTpos
          decreases |tree| - curTpos
        {
          isOk := CheckLevel(query[qi], tree[curTpos]);
          TryHere(query, tree, qi, curTpos, highPos);
          curTpos := curTpos + 1;
          if isOk && qi > 0 && query[qi - 1].IsStar() && curTpos < |tree| && curTpos <= highPos {
            stack.highPos := highPos - curTpos;
            stack.muse := true;
            assert query[qi - 1..][1..] == query[qi..];
            var r := CheckCond(stack, query[qi - 1..], tree[curTpos..]);
            if r { return true; }
          } else if isOk {
            NoneBehind(query, tree, qi, curTpos, highPos);
          }
        }
        if !isOk {
          NoneBehind(query, tree, qi, curTpos, highPos);
          return false;
        }
        lowPos := curTpos;
        highPos := curTpos;
      } else {
        TakeStar(query, tree, qi, curTpos, lowPos, highPos);
        lowPos := curTpos + query[qi].low;
        highPos := curTpos + query[qi].high;
      }
      qi := qi + 1;
    }

    if lowPos > |tree| || |tree| > highPos {
      AtEnd(query, tree, qi, curTpos, lowPos, highPos);
      return false;
    }

    while qi < |query|
      invariant !stack.muse
      invariant qi <= |query| && curTpos <= lowPos && curTpos <= |tree|
      invariant curTpos == |tree| || qi == |query|
      invariant goal == Pending(query, tree, qi, curTpos, lowPos, highPos)
    {
      if !query[qi].IsStar() {
        NothingLeft(query, tree, qi, lowPos, highPos);
        return false;
      }
      TakeStar(query, tree, qi, curTpos, lowPos, highPos);
      lowPos := curTpos + query[qi].low;
      highPos := curTpos + query[qi].high;
      qi := qi + 1;
    }
    AtEnd(query, tree, qi, curTpos, lowPos, highPos);
    return lowPos <= |tree| <= highPos;
  }

  /** The window [lo, hi] of path positions is open before level qi; the path is at cur. */
  ghost predicate Pending(query: seq<QLevel>, tree: seq<Level>, qi: nat, cur: nat, lo: int, hi: int)
    requires qi <= |query| && cur <= |tree|
  {
    Window(lo - cur, hi - cur, query[qi..], tree[cur..])
  }

  lemma AtEnd(query: seq<QLevel>, tree: seq<Level>, qi: nat, cur: nat, lo: int, hi: int)
    requires qi == |query| && cur <= |tree|
    ensures Pending(query, tree, qi, cur, lo, hi) <==> lo <= |tree| <= hi
  {
    assert query[qi..] == [];
  }

  lemma TakeStar(query: seq<QLevel>, tree: seq<Level>, qi: nat, cur: nat, lo: int, hi: int)
    requires qi < |query| && query[qi].IsStar() && cur <= |tree|
    ensures Pending(query, tree, qi, cur, lo, hi) <==>
              Pending(query, tree, qi + 1, cur, cur + query[qi].low, cur + query[qi].high)
  {
    assert query[qi..][1..] == query[qi + 1..];
  }

  /** A named level finds no place at the end of the path. */
  lemma NothingLeft(query: seq<QLevel>, tree: seq<Level>, qi: nat, lo: int, hi: int)
    requires qi < |query| && !query[qi].IsStar()
    ensures !Pending(query, tree, qi, |tree|, lo, hi)
  {
  }

  /** Nor in a window that is already closed. */
  lemma NoneBehind(query: seq<QLevel>, tree: seq<Level>, qi: nat, cur: nat, hi: int)
    requires qi < |query| && !query[qi].IsStar() && cur <= |tree|
    ensures cur > hi || cur == |tree| ==> !Pending(query, tree, qi, cur, cur, hi)
  {
  }

  /** A path level before the window is skipped. */
  lemma SkipOne(query: seq<QLevel>, tree: seq<Level>, qi: nat, cur: nat, lo: int, hi: int)
    requires qi < |query| && !query[qi].IsStar() && cur < |tree| && cur < lo
    ensures Pending(query, tree, qi, cur, lo, hi) <==> Pending(query, tree, qi, cur + 1, lo, hi)
  {
  }

  /** The first position of the window is taken, or the search goes on behind it. */
  lemma TryHere(query: seq<QLevel>, tree: seq<Level>, qi: nat, cur: nat, hi: int)
    requires qi < |query| && !query[qi].IsStar() && cur < |tree| && cur <= hi
    ensures Pending(query, tree, qi, cur, cur, hi) <==>
              || (Accepts(query[qi], tree[cur]) && Pending(query, tree, qi + 1, cur + 1, cur + 1, cur + 1))
              || Pending(query, tree, qi, cur + 1, cur + 1, hi)
  {
  }

  // ---------------------------------------------------------------- decision = meaning

  /** A match of a query without NOT levels, as ltq_regex starts it. */
  method LtqRegex(stack: SomeStack, tree: seq<Level>, query: seq<QLevel>) returns (res: bool)
    requires !stack.muse
    modifies stack
    ensures !stack.muse
    ensures res <==> Splits(LastStars(query), tree)
    ensures IdleStars(query) || (|tree| <= MAXLEVELS && HarmlessStars(query)) ==> (res <==> Splits(query, tree))
  {
    res := CheckCond(stack, query, tree);
    WindowIsSplit(query, tree);
    if IdleStars(query) {
      IdleStarsAgree(query, tree);
    } else if |tree| <= MAXLEVELS && HarmlessStars(query) {
      HarmlessAgree(query, tree, MAXLEVELS - MinLevels(query));
    }
  }

  /** The query with every run of adjacent wildcards reduced to its last one. */
  function LastStars(q: seq<QLevel>): seq<QLevel> {
    if q == [] then []
    else if |q| > 1 && q[0].IsStar() && q[1].IsStar() then LastStars(q[1..])
    else [q[0]] + LastStars(q[1..])
  }

  /** Every wildcard directly before another wildcard takes no level at all. */
  ghost predicate IdleStars(q: seq<QLevel>) {
    forall i :: 0 <= i && i + 1 < |q| && q[i].IsStar() && q[i + 1].IsStar() ==> q[i].low == 0 && q[i].high == 0
  }

  /** A split is a first piece and a split of what follows. */
  lemma SplitCons(q: seq<QLevel>, t: seq<Level>)
    requires |q| > 0
    ensures Splits(q, t) <==> exists b: nat :: TakesPiece(q[0], t, 0, b) && Splits(q[1..], t[b..])
  {
    if Splits(q, t) {
      var cuts :| IsSplit(q, t, cuts);
      SplitMonotone(q, t, cuts, 1);
      var b := cuts[1];
      var rest := seq(|q|, k requires 0 <= k < |q| => if cuts[k + 1] >= b then cuts[k + 1] - b else 0);
      forall k | 0 <= k < |q[1..]| ensures TakesPiece(q[1..][k], t[b..], rest[k], rest[k + 1]) {
        SplitMonotone(q, t, cuts, k + 1);
        assert TakesPiece(q[k + 1], t, cuts[k + 1], cuts[k + 2]);
      }
      assert IsSplit(q[1..], t[b..], rest);
    }
    if b: nat :| TakesPiece(q[0], t, 0, b) && Splits(q[1..], t[b..]) {
      var rest :| IsSplit(q[1..], t[b..], rest);
      var cuts: seq<nat> := [0] + seq(|q|, k requires 0 <= k < |q| => rest[k] + b);
      forall k | 0 <= k < |q| ensures TakesPiece(q[k], t, cuts[k], cuts[k + 1]) {
        if k > 0 { assert TakesPiece(q[1..][k - 1], t[b..], rest[k - 1], rest[k]); }
      }
      assert IsSplit(q, t, cuts);
    }
  }

  lemma SplitMonotone(q: seq<QLevel>, t: seq<Level>, cuts: seq<nat>, from: nat)
    requires IsSplit(q, t, cuts) && from <= |q|
    ensures forall k :: from <= k <= |q| ==> cuts[from] <= cuts[k] <= |t|
    decreases |q| - from
  {
    if from < |q| {
      assert TakesPiece(q[from], t, cuts[from], cuts[from + 1]);
      SplitMonotone(q, t, cuts, from + 1);
    }
  }

  ghost predicate NoAdjacentStars(q: seq<QLevel>) {
    forall i :: 0 <= i && i + 1 < |q| ==> !(q[i].IsStar() && q[i + 1].IsStar())
  }

  /** Without adjacent wildcards the window search finds exactly the splits. */
  lemma {:induction false} WindowFindsSplits(lo: nat, hi: nat, q: seq<QLevel>, t: seq<Level>)
    requires NoAdjacentStars(q) && (q == [] || !q[0].IsStar())
    ensures Window(lo, hi, q, t) <==> exists c :: lo <= c <= hi && c <= |t| && Splits(q, t[c..])
    decreases |q|, 1
  {
    if q == [] {
      forall c: nat | c <= |t| ensures Splits(q, t[c..]) <==> c == |t| { EmptySplit(t[c..]); }
      if lo <= |t| <= hi { assert Splits(q, t[|t|..]); }
    } else {
      forall p: nat | p < |t| && Accepts(q[0], t[p])
        ensures Splits(q, t[p..]) <==> Window(0, 0, q[1..], t[p + 1..])
      {
        NameThenRest(q, t[p..]);
        assert t[p..][1..] == t[p + 1..] && t[p..][0] == t[p];
      }
      forall p: nat | p <= |t| && Splits(q, t[p..]) ensures p < |t| && Accepts(q[0], t[p]) {
        SplitCons(q, t[p..]);
      }
      if p: int :| lo <= p <= hi && 0 <= p < |t| && Accepts(q[0], t[p]) && Window(0, 0, q[1..], t[p + 1..]) {
        assert Splits(q, t[p..]);
      }
      if c: nat :| lo <= c <= hi && c <= |t| && Splits(q, t[c..]) {
        assert Accepts(q[0], t[c]) && Window(0, 0, q[1..], t[c + 1..]);
      }
    }
  }

  lemma EmptySplit(t: seq<Level>)
    ensures Splits([], t) <==> t == []
  {
    if t == [] { assert IsSplit([], t, [0]); }
  }

  lemma {:induction false} NameThenRest(q: seq<QLevel>, t: seq<Level>)
    requires NoAdjacentStars(q) && |q| > 0 && !q[0].IsStar() && |t| > 0 && Accepts(q[0], t[0])
    ensures Splits(q, t) <==> Window(0, 0, q[1..], t[1..])
    decreases |q|, 0
  {
    SplitCons(q, t);
    assert Splits(q, t) <==> Splits(q[1..], t[1..]) by {
      if Splits(q[1..], t[1..]) { assert TakesPiece(q[0], t, 0, 1); }
    }
    WindowStart(q[1..], t[1..]);
  }

  lemma {:induction false} WindowStart(q: seq<QLevel>, t: seq<Level>)
    requires NoAdjacentStars(q)
    ensures Window(0, 0, q, t) <==> Splits(q, t)
    decreases |q|, 2
  {
    if q == [] || !q[0].IsStar() {
      WindowFindsSplits(0, 0, q, t);
      assert t[0..] == t;
    } else {
      assert q[0].IsStar() && |q| > 1 ==> !q[1].IsStar();
      WindowFindsSplits(q[0].low, q[0].high, q[1..], t);
      SplitCons(q, t);
      if c: nat :| q[0].low <= c <= q[0].high && c <= |t| && Splits(q[1..], t[c..]) {
        assert TakesPiece(q[0], t, 0, c);
      }
    }
  }

  lemma {:induction false} LastStarsKeepWindow(lo: int, hi: int, q: seq<QLevel>, t: seq<Level>)
    ensures NoAdjacentStars(LastStars(q))
    ensures q != [] ==> LastStars(q) != [] && LastStars(q)[0].IsStar() == q[0].IsStar()
    ensures Window(lo, hi, q, t) == Window(lo, hi, LastStars(q), t)
    decreases |q|
  {
    if q == [] {
    } else if |q| > 1 && q[0].IsStar() && q[1].IsStar() {
      LastStarsKeepWindow(q[0].low, q[0].high, q[1..], t);
      var r := LastStars(q[1..]);
      assert Window(lo, hi, r, t) == Window(q[0].low, q[0].high, r, t);
    } else {
      LastStarsKeepWindow(q[0].low, q[0].high, q[1..], t);
      assert LastStars(q)[1..] == LastStars(q[1..]);
      forall tail ensures Window(0, 0, q[1..], tail) == Window(0, 0, LastStars(q[1..]), tail) {
        LastStarsKeepWindow(0, 0, q[1..], tail);
      }
    }
  }

  /** The matcher decides the plain meaning of the query with adjacent wildcards reduced. */
  lemma WindowIsSplit(q: seq<QLevel>, t: seq<Level>)
    ensures Window(0, 0, q, t) <==> Splits(LastStars(q), t)
  {
    LastStarsKeepWindow(0, 0, q, t);
    WindowStart(LastStars(q), t);
  }

  lemma IdleStarsCons(q: seq<QLevel>)
    requires |q| > 0
    ensures IdleStars(q) <==>
              IdleStars(q[1..]) && (|q| > 1 && q[0].IsStar() && q[1].IsStar() ==> q[0].low == q[0].high == 0)
  {
    assert forall i :: 0 <= i < |q| - 1 ==> q[1..][i] == q[i + 1];
    if IdleStars(q) {
      forall i | 0 <= i && i + 1 < |q[1..]| && q[1..][i].IsStar() && q[1..][i + 1].IsStar()
        ensures q[1..][i].low == 0 && q[1..][i].high == 0
      {
        assert q[i + 1].IsStar() && q[i + 1 + 1].IsStar();
      }
    }
    if IdleStars(q[1..]) {
      forall i | 0 < i && i + 1 < |q| && q[i].IsStar() && q[i + 1].IsStar() ensures q[i].low == 0 && q[i].high == 0 {
        assert q[1..][i - 1].IsStar() && q[1..][i - 1 + 1].IsStar();
      }
    }
  }

  // ---------------------------------------------------------------- exactly when they agree

  /** The most levels of a path, and the most that a wildcard counts: both are kept in 16 bits. */
  const MAXLEVELS := 0xffff

  predicate IsAlnum(c: char) {
    '0' <= c <= '9' || 'A' <= c <= 'Z' || 'a' <= c <= 'z' || c == '_'
  }

  predicate IsLabel(l: Level) {
    0 < |l| <= 255 && forall k :: 0 <= k < |l| ==> IsAlnum(l[k])
  }

  predicate AllLabels(t: seq<Level>) {
    forall k :: 0 <= k < |t| ==> IsLabel(t[k])
  }

  /** A path that ltree_in can build. */
  predicate Storable(t: seq<Level>) {
    |t| <= MAXLEVELS && AllLabels(t)
  }

  /** What the query parser guarantees of wildcards. */
  predicate BoundedStars(q: seq<QLevel>) {
    forall i :: 0 <= i < |q| && q[i].IsStar() ==> q[i].low <= q[i].high <= MAXLEVELS
  }

  /** Some label for each list of names. */
  ghost predicate Satisfiable(q: seq<QLevel>) {
    forall i :: 0 <= i < |q| && !q[i].IsStar() ==> HasLabel(q[i])
  }

  /** A label that no name of the query accepts. */
  ghost predicate Foreign(q: seq<QLevel>, x: Level) {
    IsLabel(x) && forall i :: 0 <= i < |q| ==> !Accepts(q[i], x)
  }

  function MinLevels(q: seq<QLevel>): nat {
    if q == [] then 0 else (if q[0].IsStar() then q[0].low else 1) + MinLevels(q[1..])
  }

  function MaxLevels(q: seq<QLevel>): nat {
    if q == [] then 0 else (if q[0].IsStar() then q[0].high else 1) + MaxLevels(q[1..])
  }

  /** The last wildcard of the run that begins the query, and what stands behind the run. */
  function LastOfRun(q: seq<QLevel>): QLevel
    requires q != []
  {
    if |q| > 1 && q[1].IsStar() then LastOfRun(q[1..]) else q[0]
  }

  function AfterRun(q: seq<QLevel>): seq<QLevel>
    requires q != []
  {
    if |q| > 1 && q[1].IsStar() then AfterRun(q[1..]) else q[1..]
  }

  /**
   * Every wildcard directly before another one takes no level, or it needs none and the last one
   * of the run can take slack more than its least number.
   */
  predicate Harmless(q: seq<QLevel>, slack: int) {
    q != [] ==>
      && Harmless(q[1..], slack)
      && (|q| > 1 && q[0].IsStar() && q[1].IsStar() ==>
            q[0].low == 0 && (q[0].high == 0 || LastOfRun(q).high - LastOfRun(q).low >= slack))
  }

  /** Slack is what a path has beyond the least number of levels. */
  predicate HarmlessStars(q: seq<QLevel>) {
    Harmless(q, MAXLEVELS - MinLevels(q))
  }

  lemma {:induction false} SplitLength(q: seq<QLevel>, t: seq<Level>)
    requires Splits(q, t)
    ensures MinLevels(q) <= |t| <= MaxLevels(q)
    decreases |q|
  {
    if q == [] {
      EmptySplit(t);
    } else {
      SplitCons(q, t);
      var b: nat :| TakesPiece(q[0], t, 0, b) && Splits(q[1..], t[b..]);
      SplitLength(q[1..], t[b..]);
    }
  }

  /** The run that begins q takes b levels more, if its last wildcard leaves room for them. */
  lemma {:induction false} RunTakesMore(q: seq<QLevel>, t: seq<Level>, b: nat)
    requires q != [] && q[0].IsStar() && b <= |t| && Splits(q, t[b..])
    requires |t| - MinLevels(q) <= LastOfRun(q).high - LastOfRun(q).low
    ensures Splits(q, t)
    decreases |q|
  {
    SplitCons(q, t);
    SplitCons(q, t[b..]);
    var c: nat :| TakesPiece(q[0], t[b..], 0, c) && Splits(q[1..], t[b..][c..]);
    assert t[b..][c..] == t[b + c..] == t[c..][b..];
    if |q| > 1 && q[1].IsStar() {
      RunTakesMore(q[1..], t[c..], b);
      assert TakesPiece(q[0], t, 0, c);
    } else {
      SplitLength(q[1..], t[b + c..]);
      assert TakesPiece(q[0], t, 0, b + c);
    }
  }

  /** On paths with no more slack the matcher decides the plain meaning. */
  lemma {:induction false} HarmlessAgree(q: seq<QLevel>, t: seq<Level>, slack: int)
    requires Harmless(q, slack) && |t| - MinLevels(q) <= slack
    ensures Splits(LastStars(q), t) <==> Splits(q, t)
    decreases |q|
  {
    if q != [] {
      SplitCons(q, t);
      if |q| > 1 && q[0].IsStar() && q[1].IsStar() {
        HarmlessAgree(q[1..], t, slack);
        assert t[0..] == t;
        assert TakesPiece(q[0], t, 0, 0);
        if b: nat :| TakesPiece(q[0], t, 0, b) && Splits(q[1..], t[b..]) {
          if q[0].high > 0 { RunTakesMore(q[1..], t, b); }
        }
      } else {
        SplitCons(LastStars(q), t);
        assert LastStars(q)[1..] == LastStars(q[1..]);
        forall b: nat | TakesPiece(q[0], t, 0, b)
          ensures Splits(LastStars(q[1..]), t[b..]) <==> Splits(q[1..], t[b..])
        {
          HarmlessAgree(q[1..], t[b..], slack);
        }
      }
    }
  }

  lemma {:induction false} IdleStarsHarmless(q: seq<QLevel>, slack: int)
    ensures IdleStars(q) ==> Harmless(q, slack)
    decreases |q|
  {
    if q != [] {
      IdleStarsCons(q);
      IdleStarsHarmless(q[1..], slack);
    }
  }

  lemma IdleStarsAgree(q: seq<QLevel>, t: seq<Level>)
    requires IdleStars(q)
    ensures Splits(LastStars(q), t) <==> Splits(q, t)
  {
    IdleStarsHarmless(q, |t|);
    HarmlessAgree(q, t, |t|);
  }

  lemma {:induction false} LeastIsLess(q: seq<QLevel>)
    requires BoundedStars(q)
    ensures MinLevels(q) <= MaxLevels(q)
  {
    if q != [] { LeastIsLess(q[1..]); }
  }

  /** A query that some label satisfies everywhere accepts a path of each length from the least to the most. */
  lemma {:induction false} PathOfLength(q: seq<QLevel>, n: nat) returns (t: seq<Level>)
    requires BoundedStars(q) && Satisfiable(q) && MinLevels(q) <= n <= MaxLevels(q)
    ensures |t| == n && AllLabels(t)
    ensures Splits(q, t)
    decreases |q|
  {
    t := [];
    if q == [] {
      EmptySplit([]);
    } else {
      LeastIsLess(q[1..]);
      var piece: seq<Level>;
      if q[0].IsStar() {
        var k := n - MinLevels(q[1..]);
        piece := Fill(if k < q[0].high then k else q[0].high, "a");
      } else {
        var l :| IsLabel(l) && Accepts(q[0], l);
        piece := [l];
      }
      var rest := PathOfLength(q[1..], n - |piece|);
      t := piece + rest;
      assert t[|piece|..] == rest && TakesPiece(q[0], t, 0, |piece|);
      SplitCons(q, t);
    }
  }

  function Fill(n: nat, x: Level): (t: seq<Level>)
    ensures |t| == n && forall k :: 0 <= k < n ==> t[k] == x
  {
    seq(n, i => x)
  }

  lemma {:induction false} LastStarsLengths(q: seq<QLevel>)
    requires BoundedStars(q)
    ensures BoundedStars(LastStars(q))
    ensures MinLevels(LastStars(q)) <= MinLevels(q) && MaxLevels(LastStars(q)) <= MaxLevels(q)
    ensures MinLevels(LastStars(q)) == MinLevels(q) && MaxLevels(LastStars(q)) == MaxLevels(q) <==> IdleStars(q)
    decreases |q|
  {
    if q != [] {
      hide IdleStars;
      BoundedCons(q);
      LastStarsLengths(q[1..]);
      IdleStarsCons(q);
      if !(|q| > 1 && q[0].IsStar() && q[1].IsStar()) {
        BoundedCons(LastStars(q));
        assert LastStars(q)[1..] == LastStars(q[1..]);
      }
    }
  }

  lemma BoundedCons(q: seq<QLevel>)
    requires q != []
    ensures BoundedStars(q) <==> (q[0].IsStar() ==> q[0].low <= q[0].high <= MAXLEVELS) && BoundedStars(q[1..])
  {
    assert forall i :: 0 < i < |q| ==> q[i] == q[1..][i - 1];
  }

  ghost predicate HasLabel(l: QLevel) {
    exists x :: IsLabel(x) && Accepts(l, x)
  }

  lemma SatisfiableCons(q: seq<QLevel>)
    requires q != []
    ensures Satisfiable(q) <==> (!q[0].IsStar() ==> HasLabel(q[0])) && Satisfiable(q[1..])
  {
    hide HasLabel;
    assert forall i :: 0 < i < |q| ==> q[i] == q[1..][i - 1];
  }

  lemma {:induction false} LastStarsSatisfied(q: seq<QLevel>)
    ensures Satisfiable(LastStars(q)) <==> Satisfiable(q)
    decreases |q|
  {
    if q != [] {
      hide Satisfiable, HasLabel;
      SatisfiableCons(q);
      LastStarsSatisfied(q[1..]);
      if !(|q| > 1 && q[0].IsStar() && q[1].IsStar()) {
        SatisfiableCons(LastStars(q));
        assert LastStars(q)[1..] == LastStars(q[1..]);
      }
    }
  }

  // ---------------------------------------------------------------- a path that tells them apart

  /** The named levels of a query, and the levels of a path that are not x. */
  function Names(q: seq<QLevel>): nat {
    if q == [] then 0 else (if q[0].IsStar() then 0 else 1) + Names(q[1..])
  }

  function Others(t: seq<Level>, x: Level): nat {
    if t == [] then 0 else (if t[0] == x then 0 else 1) + Others(t[1..], x)
  }

  lemma {:induction false} OthersAdd(a: seq<Level>, b: seq<Level>, x: Level)
    ensures Others(a + b, x) == Others(a, x) + Others(b, x)
  {
    if a == [] {
      assert a + b == b;
    } else {
      assert (a + b)[1..] == a[1..] + b;
      OthersAdd(a[1..], b, x);
    }
  }

  lemma {:induction false} OthersOfFill(n: nat, x: Level)
    ensures Others(Fill(n, x), x) == 0
  {
    if n > 0 {
      assert Fill(n, x)[1..] == Fill(n - 1, x);
      OthersOfFill(n - 1, x);
    }
  }

  /** Each name takes a level that is not foreign. */
  lemma {:induction false} NamesTakeOthers(q: seq<QLevel>, t: seq<Level>, x: Level)
    requires Splits(q, t) && Foreign(q, x)
    ensures Names(q) <= Others(t, x)
    decreases |q|
  {
    if q != [] {
      SplitCons(q, t);
      var b: nat :| TakesPiece(q[0], t, 0, b) && Splits(q[1..], t[b..]);
      NamesTakeOthers(q[1..], t[b..], x);
      OthersAdd(t[..b], t[b..], x);
      assert t[..b] + t[b..] == t;
      if !q[0].IsStar() { assert t[..b] == [t[0]]; }
    }
  }

  lemma {:induction false} LastStarsNames(q: seq<QLevel>, x: Level)
    requires Foreign(q, x)
    ensures Names(LastStars(q)) == Names(q) && Foreign(LastStars(q), x)
    decreases |q|
  {
    if q != [] {
      LastStarsNames(q[1..], x);
      if !(|q| > 1 && q[0].IsStar() && q[1].IsStar()) {
        assert LastStars(q)[1..] == LastStars(q[1..]);
      }
    }
  }

  /** A path of q with x in all wildcards and nowhere else. */
  ghost predicate Sparse(q: seq<QLevel>, t: seq<Level>, x: Level) {
    && AllLabels(t) && Splits(q, t)
    && Others(t, x) == Names(q)
    && (q != [] && !q[0].IsStar() ==> t != [] && t[0] != x)
  }

  lemma {:induction false} NameThenSparse(q: seq<QLevel>, rest: seq<Level>, x: Level) returns (t: seq<Level>)
    requires q != [] && !q[0].IsStar() && Satisfiable(q) && Foreign(q, x) && Sparse(q[1..], rest, x)
    ensures t != [] && t[1..] == rest && Sparse(q, t, x)
  {
    var l :| IsLabel(l) && Accepts(q[0], l);
    t := [l] + rest;
    assert t[1..] == rest && TakesPiece(q[0], t, 0, 1);
    SplitCons(q, t);
  }

  lemma {:induction false} StarThenSparse(q: seq<QLevel>, n: nat, rest: seq<Level>, x: Level) returns (t: seq<Level>)
    requires q != [] && q[0].IsStar() && q[0].low <= n <= q[0].high && Foreign(q, x) && Sparse(q[1..], rest, x)
    ensures t == Fill(n, x) + rest && t[n..] == rest && Sparse(q, t, x)
  {
    t := Fill(n, x) + rest;
    assert t[n..] == rest && TakesPiece(q[0], t, 0, n);
    SplitCons(q, t);
    OthersAdd(Fill(n, x), rest, x);
    OthersOfFill(n, x);
  }

  lemma {:induction false} ShortPath(q: seq<QLevel>, x: Level) returns (t: seq<Level>)
    requires BoundedStars(q) && Satisfiable(q) && Foreign(q, x)
    ensures Sparse(q, t, x) && |t| == MinLevels(q)
    decreases |q|
  {
    t := [];
    if q == [] {
      EmptySplit([]);
    } else {
      var rest := ShortPath(q[1..], x);
      if q[0].IsStar() {
        t := StarThenSparse(q, q[0].low, rest, x);
      } else {
        t := NameThenSparse(q, rest, x);
      }
    }
  }

  /** A run whose wildcards need nothing but for the last one. */
  lemma {:induction false} RunIs(q: seq<QLevel>)
    requires BoundedStars(q) && q != [] && q[0].IsStar() && MinLevels(LastStars(q)) == MinLevels(q)
    ensures LastStars(q) == [LastOfRun(q)] + LastStars(AfterRun(q)) && LastOfRun(q).IsStar()
    ensures MinLevels(q) == LastOfRun(q).low + MinLevels(AfterRun(q))
    ensures LastOfRun(q) in q && |AfterRun(q)| < |q| && AfterRun(q) == q[|q| - |AfterRun(q)|..]
    ensures AfterRun(q) != [] ==> !AfterRun(q)[0].IsStar()
    decreases |q|
  {
    if |q| > 1 && q[1].IsStar() {
      LastStarsLengths(q[1..]);
      RunIs(q[1..]);
    }
  }

  /** The last wildcard of the run takes n levels. */
  lemma {:induction false} RunTakes(q: seq<QLevel>, n: nat, rest: seq<Level>, x: Level)
    requires BoundedStars(q) && q != [] && q[0].IsStar() && MinLevels(LastStars(q)) == MinLevels(q)
    requires LastOfRun(q).low <= n <= LastOfRun(q).high && Foreign(q, x) && Sparse(AfterRun(q), rest, x)
    ensures Sparse(q, Fill(n, x) + rest, x)
    decreases |q|
  {
    if |q| > 1 && q[1].IsStar() {
      LastStarsLengths(q[1..]);
      RunTakes(q[1..], n, rest, x);
      var t := StarThenSparse(q, 0, Fill(n, x) + rest, x);
      assert Fill(0, x) == [];
      assert t == Fill(n, x) + rest;
    } else {
      var t := StarThenSparse(q, n, rest, x);
    }
  }

  /** With x in one place more than the last wildcard of the run takes, only the plain meaning accepts. */
  lemma {:induction false} OverfullRun(q: seq<QLevel>, x: Level) returns (t: seq<Level>)
    requires BoundedStars(q) && Satisfiable(q) && Foreign(q, x) && MinLevels(LastStars(q)) == MinLevels(q)
    requires |q| > 1 && q[0].IsStar() && q[1].IsStar() && q[0].low == 0 < q[0].high
    ensures Sparse(q, t, x) && !Splits(LastStars(q), t)
    ensures |t| == MinLevels(q) + LastOfRun(q).high - LastOfRun(q).low + 1
  {
    hide *;
    RunStarts(q);
    RunIs(q[1..]);
    var last, after := LastOfRun(q), AfterRun(q);
    assert after == q[1..][|q| - 1 - |after|..] == q[|q| - |after|..];
    StarsBehind(q, |q| - |after|, x);
    StarsBehind(q, 1, x);
    StarInOrder(q[1..], last);
    var rest := ShortPath(after, x);
    RunTakes(q[1..], last.high, rest, x);
    t := StarThenSparse(q, 1, Fill(last.high, x) + rest, x);
    assert Fill(1, x) + Fill(last.high, x) == Fill(last.high + 1, x);
    assert t == Fill(last.high + 1, x) + rest;
    Overfull(LastStars(q), last, after, last.high + 1, rest, x);
  }

  lemma RunStarts(q: seq<QLevel>)
    requires BoundedStars(q) && MinLevels(LastStars(q)) == MinLevels(q)
    requires |q| > 1 && q[0].IsStar() && q[1].IsStar() && q[0].low == 0
    ensures LastStars(q) == LastStars(q[1..]) && LastOfRun(q) == LastOfRun(q[1..]) && AfterRun(q) == AfterRun(q[1..])
    ensures BoundedStars(q[1..]) && MinLevels(q) == MinLevels(q[1..])
  {
  }

  lemma StarsBehind(q: seq<QLevel>, k: nat, x: Level)
    requires BoundedStars(q) && Satisfiable(q) && Foreign(q, x) && k <= |q|
    ensures BoundedStars(q[k..]) && Satisfiable(q[k..]) && Foreign(q[k..], x)
  {
    hide Accepts, IsLabel, HasLabel;
    assert forall i :: 0 <= i < |q[k..]| ==> q[k..][i] == q[k + i];
  }

  lemma StarInOrder(q: seq<QLevel>, s: QLevel)
    requires BoundedStars(q) && s in q && s.IsStar()
    ensures s.low <= s.high
  {
  }

  lemma Overfull(r: seq<QLevel>, last: QLevel, after: seq<QLevel>, n: nat, rest: seq<Level>, x: Level)
    requires r == [last] + LastStars(after) && last.IsStar() && last.high < n
    requires (after != [] ==> !after[0].IsStar()) && Foreign(after, x)
    ensures !Splits(r, Fill(n, x) + rest)
  {
    var t := Fill(n, x) + rest;
    if Splits(r, t) {
      SplitCons(r, t);
      var b: nat :| TakesPiece(last, t, 0, b) && Splits(r[1..], t[b..]);
      assert r[1..] == LastStars(after) && t[b] == x;
      ForeignFirst(after, t[b..], x);
    }
  }

  lemma ForeignFirst(q: seq<QLevel>, t: seq<Level>, x: Level)
    requires (q != [] ==> !q[0].IsStar()) && Foreign(q, x) && t != [] && t[0] == x
    ensures !Splits(LastStars(q), t)
  {
    if Splits(LastStars(q), t) {
      if q == [] {
        EmptySplit(t);
      } else {
        SplitCons(LastStars(q), t);
      }
    }
  }

  lemma {:induction false} TellsApart(q: seq<QLevel>, slack: int, x: Level) returns (t: seq<Level>)
    requires BoundedStars(q) && Satisfiable(q) && Foreign(q, x)
    requires MinLevels(LastStars(q)) == MinLevels(q) && !Harmless(q, slack)
    ensures Sparse(q, t, x) && !Splits(LastStars(q), t) && |t| <= MinLevels(q) + slack
    decreases |q|
  {
    LastStarsLengths(q[1..]);
    if |q| > 1 && q[0].IsStar() && q[1].IsStar() {
      if Harmless(q[1..], slack) {
        t := OverfullRun(q, x);
      } else {
        var rest := TellsApart(q[1..], slack, x);
        t := StarThenSparse(q, 0, rest, x);
        assert t == rest;
      }
    } else {
      assert LastStars(q)[1..] == LastStars(q[1..]);
      var rest := TellsApart(q[1..], slack, x);
      if q[0].IsStar() {
        t := StarThenSparse(q, q[0].low, rest, x);
        StarThenApart(q, rest, t, x);
      } else {
        t := NameThenSparse(q, rest, x);
        SplitCons(LastStars(q), t);
      }
    }
  }

  /** A lone wildcard cannot take more, because the name behind it would be missing. */
  lemma {:induction false} StarThenApart(q: seq<QLevel>, rest: seq<Level>, t: seq<Level>, x: Level)
    requires |q| > 1 && q[0].IsStar() && !q[1].IsStar() && Foreign(q, x) && Sparse(q[1..], rest, x)
    requires t == Fill(q[0].low, x) + rest && !Splits(LastStars(q[1..]), rest)
    ensures !Splits(LastStars(q), t)
  {
    assert rest[0..] == rest;
    if Splits(LastStars(q), t) {
      SplitCons(LastStars(q), t);
      assert LastStars(q)[1..] == LastStars(q[1..]);
      var b: nat :| TakesPiece(q[0], t, 0, b) && Splits(LastStars(q[1..]), t[b..]);
      var k := b - q[0].low;
      assert t[b..] == rest[k..];
      if k > 0 {
        LastStarsNames(q[1..], x);
        NamesTakeOthers(LastStars(q[1..]), rest[k..], x);
        assert rest == [rest[0]] + (rest[1..k] + rest[k..]);
        OthersAdd(rest[1..k], rest[k..], x);
        OthersAdd([rest[0]], rest[1..k] + rest[k..], x);
      }
    }
  }

  /** The reduced query accepts some path that can be stored. */
  ghost predicate Possible(q: seq<QLevel>) {
    Satisfiable(q) && MinLevels(LastStars(q)) <= MAXLEVELS
  }

  lemma {:induction false} AcceptedSatisfies(q: seq<QLevel>, t: seq<Level>)
    requires Splits(q, t) && AllLabels(t)
    ensures Satisfiable(q)
  {
    var cuts :| IsSplit(q, t, cuts);
    forall i | 0 <= i < |q| && !q[i].IsStar() ensures HasLabel(q[i]) {
      assert TakesPiece(q[i], t, cuts[i], cuts[i + 1]);
      assert IsLabel(t[cuts[i]]);
    }
  }

  /** The query has a greatest length of paths to match, within what a path can have. */
  predicate BoundsLength(q: seq<QLevel>) {
    MaxLevels(LastStars(q)) < MAXLEVELS || MaxLevels(q) <= MAXLEVELS
  }

  /** The matcher agrees with the plain meaning on every path that can be stored. */
  ghost predicate Agrees(q: seq<QLevel>) {
    forall t :: Storable(t) ==> (Window(0, 0, q, t) <==> Splits(q, t))
  }

  /** A query that cannot match anything is not matched by the reduced one either. */
  lemma NeverMatches(q: seq<QLevel>, t: seq<Level>)
    requires BoundedStars(q) && !Possible(q) && Storable(t)
    ensures !Splits(q, t) && !Splits(LastStars(q), t)
  {
    hide Splits, Satisfiable, LastStars, MinLevels, MaxLevels, BoundedStars;
    LastStarsLengths(q);
    if Splits(q, t) {
      AcceptedSatisfies(q, t);
      SplitLength(q, t);
    }
    if Splits(LastStars(q), t) {
      AcceptedSatisfies(LastStars(q), t);
      LastStarsSatisfied(q);
      SplitLength(LastStars(q), t);
    }
  }

  lemma HarmlessAgrees(q: seq<QLevel>)
    requires BoundedStars(q) && (Possible(q) ==> HarmlessStars(q))
    ensures Agrees(q)
  {
    hide Window, Splits, Possible, Harmless, LastStars, MinLevels, BoundedStars;
    forall t | Storable(t) ensures Window(0, 0, q, t) <==> Splits(q, t) {
      WindowIsSplit(q, t);
      if Possible(q) {
        HarmlessAgree(q, t, MAXLEVELS - MinLevels(q));
      } else {
        NeverMatches(q, t);
      }
    }
  }

  lemma Disagree(q: seq<QLevel>, t: seq<Level>)
    requires Storable(t) && !(Splits(LastStars(q), t) <==> Splits(q, t))
    ensures !Agrees(q)
  {
    hide Window, Splits;
    WindowIsSplit(q, t);
  }

  lemma HarmfulDisagrees(q: seq<QLevel>)
    requires BoundedStars(q) && Possible(q) && !HarmlessStars(q)
    requires BoundsLength(q) || exists x :: Foreign(q, x)
    ensures !Agrees(q)
  {
    hide Splits, Agrees, Satisfiable, Foreign, LastStars, MinLevels, MaxLevels, BoundedStars, IdleStars, Harmless;
    var r := LastStars(q);
    var t;
    LastStarsLengths(q);
    LastStarsSatisfied(q);
    LeastIsLess(r);
    if MinLevels(r) < MinLevels(q) {
      t := PathOfLength(r, MinLevels(r));
      if Splits(q, t) { SplitLength(q, t); }
    } else if BoundsLength(q) {
      IdleStarsHarmless(q, MAXLEVELS - MinLevels(q));
      t := PathOfLength(q, MaxLevels(r) + 1);
      if Splits(r, t) { SplitLength(r, t); }
    } else {
      var x :| Foreign(q, x);
      t := TellsApart(q, MAXLEVELS - MinLevels(q), x);
    }
    Disagree(q, t);
  }

  /**
   * The matcher agrees with the plain meaning on every path that can be stored exactly when each
   * wildcard directly before another one takes no level, or needs none while the last one of the
   * run takes all that a path can spare.
   */
  lemma AgreesIffHarmless(q: seq<QLevel>)
    requires BoundedStars(q)
    requires BoundsLength(q) || exists x :: Foreign(q, x)
    ensures Agrees(q) <==> (Possible(q) ==> HarmlessStars(q))
  {
    if Possible(q) ==> HarmlessStars(q) {
      HarmlessAgrees(q);
    } else {
      HarmfulDisagrees(q);
    }
  }

  /** For queries that bound the length of a path: exactly when each such wildcard is `*{0}`. */
  lemma AgreesIffIdleStars(q: seq<QLevel>)
    requires BoundedStars(q) && Satisfiable(q) && BoundsLength(q)
    ensures Agrees(q) <==> IdleStars(q)
  {
    hide Agrees, Satisfiable, LastStars, MinLevels, MaxLevels, BoundedStars, IdleStars, Harmless;
    LastStarsLengths(q);
    LeastIsLess(LastStars(q));
    AgreesIffHarmless(q);
    if HarmlessStars(q) {
      HarmlessNeedsNone(q, MAXLEVELS - MinLevels(q));
      if MaxLevels(LastStars(q)) < MAXLEVELS { BoundedIsIdle(q, MAXLEVELS - MinLevels(q)); }
    }
    IdleStarsHarmless(q, MAXLEVELS - MinLevels(q));
  }

  lemma {:induction false} HarmlessNeedsNone(q: seq<QLevel>, slack: int)
    requires Harmless(q, slack)
    ensures MinLevels(LastStars(q)) == MinLevels(q)
    decreases |q|
  {
    if q != [] {
      HarmlessNeedsNone(q[1..], slack);
      if !(|q| > 1 && q[0].IsStar() && q[1].IsStar()) { assert LastStars(q)[1..] == LastStars(q[1..]); }
    }
  }

  lemma {:induction false} BoundedIsIdle(q: seq<QLevel>, slack: int)
    requires BoundedStars(q) && Harmless(q, slack) && MaxLevels(LastStars(q)) - MinLevels(LastStars(q)) < slack
    ensures IdleStars(q)
    decreases |q|
  {
    if q != [] {
      IdleStarsCons(q);
      LastStarsLengths(q[1..]);
      LeastIsLess(LastStars(q[1..]));
      if |q| > 1 && q[0].IsStar() && q[1].IsStar() {
        RunSpan(q);
      } else {
        assert LastStars(q)[1..] == LastStars(q[1..]);
      }
      BoundedIsIdle(q[1..], slack);
    }
  }

  lemma {:induction false} RunSpan(q: seq<QLevel>)
    requires BoundedStars(q) && q != [] && q[0].IsStar()
    ensures LastOfRun(q).high - LastOfRun(q).low <= MaxLevels(LastStars(q)) - MinLevels(LastStars(q))
    decreases |q|
  {
    if |q| > 1 && q[1].IsStar() {
      RunSpan(q[1..]);
    } else {
      assert LastStars(q)[1..] == LastStars(q[1..]);
      LastStarsLengths(q[1..]);
      LeastIsLess(LastStars(q[1..]));
    }
  }

  /** A character that begins no name of the query makes a foreign label. */
  lemma NewFirstCharacter(q: seq<QLevel>, c: char)
    requires IsAlnum(c)
    requires forall i, j :: 0 <= i < |q| && 0 <= j < |q[i].variants| ==> BeginsOtherwise(q[i].variants[j], c)
    ensures Foreign(q, [c])
  {
  }

  predicate BeginsOtherwise(v: Variant, c: char) {
    !v.subLexeme && v.name != "" && Fold(v.name[0], v.inCase) != Fold(c, v.inCase)
  }

  /** The query `*.*` is one of those that come out right. */
  lemma OpenStarsAgree()
    ensures var open := QLevel([], 0, MAXLEVELS); Agrees([open, open]) && !IdleStars([open, open])
  {
    var open := QLevel([], 0, MAXLEVELS);
    var q := [open, open];
    assert q[1..] == [open] && [open][1..] == [];
    assert MinLevels([]) == 0;
    assert MinLevels([open]) == 0;
    assert LastOfRun(q) == open && MinLevels(q) == 0;
    assert Harmless([], MAXLEVELS);
    assert Harmless([open], MAXLEVELS);
    assert Harmless(q, MAXLEVELS);
    HarmlessAgrees(q);
    assert q[0].IsStar() && q[0 + 1].IsStar() && q[0].high != 0;
  }

  /** The smallest disagreement: `*{1}.*{1}` matches a path of a single level. */
  lemma AdjacentStarsCounterexample(l: Level)
    ensures var one := QLevel([], 1, 1); Window(0, 0, [one, one], [l]) && !Splits([one, one], [l])
  {
    var one := QLevel([], 1, 1);
    assert [one, one][1..] == [one] && [one][1..] == [];
    if Splits([one, one], [l]) { SplitLength([one, one], [l]); }
  }
}
