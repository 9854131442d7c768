/** Reading and printing of values of contrib/hstore (hstore_io.c), and the round trip through text. */
module HstoreIO {
  import opened Basics
  import opened CString
  import opened LexOrder
  import opened Hstore
  import opened HstoreParse
  import opened HstoreText

  // ---------------------------------------------------------------- printing

  function EscapedChar(c: char): string {
    if c == '"' || c == '\\' then ['\\', c] else [c]
  }

  function Escaped(w: string): string {
    if w == "" then "" else EscapedChar(w[0]) + Escaped(w[1..])
  }

  function Quoted(w: string): string {
    "\"" + Escaped(w) + "\""
  }

  function PrintedVal(val: Option<string>): string {
    if val.None? then "NULL" else Quoted(val.value)
  }

  function Printed(ps: seq<Pair>): string {
    if ps == [] then "" else
      PrintedPair(ps[0], |ps| == 1) + Printed(ps[1..])
  }

  lemma EscapedStep(w: string, i: nat, dst: string)
    requires i < |w|
    ensures dst + Escaped(w[i..]) == (dst + EscapedChar(w[i])) + Escaped(w[i + 1..])
  {
    var rest := w[i..];
    assert rest[0] == w[i] && rest[1..] == w[i + 1..];
    Append(dst, EscapedChar(w[i]), Escaped(w[i + 1..]));
  }

  /** cpw */
  method Cpw(src: string, pos: nat, len: nat) returns (dst: string)
    requires pos + len <= |src|
    ensures dst == Escaped(src[pos..pos + len])
  {
    hide *;
    ghost var w := src[pos..pos + len];
    dst := "";
    WholeEscaped(w);
    for i := 0 to len
      invariant dst + Escaped(w[i..]) == Escaped(w)
    {
      var c := src[pos + i];
      assert c == w[i];
      EscapedStep(w, i, dst);
      OneChar(dst, c);
      if c == '"' || c == '\\' { dst := dst + ['\\']; }
      dst := dst + [c];
    }
    WholeEscaped(w);
  }

  lemma WholeEscaped(w: string)
    ensures "" + Escaped(w[0..]) == Escaped(w)
    ensures forall dst: string :: dst + Escaped(w[|w|..]) == dst
  {
    assert w[0..] == w && w[|w|..] == "";
  }

  lemma OneChar(dst: string, c: char)
    ensures dst + EscapedChar(c) == if c == '"' || c == '\\' then dst + ['\\'] + [c] else dst + [c]
  {
  }

  function PrintedBody(p: Pair): string {
    Quoted(p.key) + "=>" + PrintedVal(p.val)
  }

  /** A printed pair, and the separator behind it unless it is the last. */
  function PrintedPair(p: Pair, last: bool): string {
    PrintedBody(p) + if last then "" else ", "
  }

  lemma PrintedStep(ps: seq<Pair>, i: nat)
    requires i < |ps|
    ensures Printed(ps[i..]) == PrintedPair(ps[i], i + 1 == |ps|) + Printed(ps[i + 1..])
  {
    assert ps[i..][0] == ps[i] && ps[i..][1..] == ps[i + 1..];
  }

  lemma PrintedNone()
    ensures Printed([]) == ""
  {
  }

  /** The format of printed pairs. */
  lemma PrintedFormat(p: Pair, q: Pair)
    ensures Printed([p, q]) == PrintedBody(p) + ", " + PrintedBody(q)
    ensures PrintedBody(Pair("k", None)) == "\"k\"=>NULL"
    ensures Quoted("a\"") == "\"a\\\"\""
  {
    assert [p, q][1..] == [q] && [q][1..] == [];
    hide PrintedBody, Quoted;
    assert Printed([]) == "";
    assert Printed([q]) == PrintedBody(q);
    PrintedNames();
  }

  lemma PrintedNames()
    ensures PrintedBody(Pair("k", None)) == "\"k\"=>NULL"
    ensures Quoted("a\"") == "\"a\\\"\""
  {
    assert Escaped("") == "";
    assert Escaped("k") == "k" && Escaped("\"") == "\\\"";
    assert "a\""[1..] == "\"";
    assert Escaped("a\"") == "a\\\"";
  }

  /** hstore_out */
  method HstoreOut(hs: HStore, ghost ps: seq<Pair>) returns (out: string)
    requires IsPacked(hs, ps)
    ensures out == Printed(ps)
  {
    hide IsPacked, Escaped, Chunk, Printed;
    PackedSize(hs, ps);
    out := "";
    var n := |hs.entries|;
    assert ps[0..] == ps;
    for i := 0 to n
      invariant out + Printed(ps[i..]) == Printed(ps)
    {
      ghost var was := out;
      out := PrintEntry(hs, i, out, ps);
      PrintedStep(ps, i);
      Append(was, PrintedPair(ps[i], i + 1 == n), Printed(ps[i + 1..]));
    }
    PrintedNone();
    assert ps[n..] == [];
  }

  /** The body of its loop. */
  method PrintEntry(hs: HStore, i: nat, out0: string, ghost ps: seq<Pair>) returns (out: string)
    requires IsPacked(hs, ps) && i < |hs.entries| == |ps|
    ensures out == out0 + PrintedPair(ps[i], i + 1 == |ps|)
  {
    hide IsPacked, Escaped, Chunk;
    KeyAt(hs, ps, i);
    ValueAt(hs, ps, i);
    var e := hs.entries[i];
    var key := Cpw(hs.str, e.pos, e.keylen);
    out := "\"" + key + "\"" + "=>";
    if e.valisnull {
      out := out + "NULL";
    } else {
      var val := Cpw(hs.str, e.pos + e.keylen, e.vallen);
      out := out + ("\"" + val + "\"");
    }
    if i + 1 != |hs.entries| {
      out := out + ", ";
    }
    out := out0 + out;
  }

  // ---------------------------------------------------------------- the round trip

  lemma ScanChar(s: string, i: nat, c: char, acc: string, ignoreeq: bool)
    requires Has(s, i, EscapedChar(c)) && c != '\0'
    ensures i + |EscapedChar(c)| <= |s|
    ensures Scanned(s, i, InEscVal, acc, true, ignoreeq) == Scanned(s, i + |EscapedChar(c)|, InEscVal, acc + [c], true, ignoreeq)
  {
    HasChar(s, i, EscapedChar(c));
    if |EscapedChar(c)| == 2 {
      HasChar(s, i + 1, EscapedChar(c)[1..]);
      assert At(s, i + 1) == c;
    }
  }

  /** Within quotes the scanner takes an escaped text back. */
  lemma {:induction false} ScanEscaped(s: string, i: nat, w: string, acc: string, ignoreeq: bool)
    requires Has(s, i, Escaped(w)) && NoZero(w)
    ensures i + |Escaped(w)| <= |s|
    ensures Scanned(s, i, InEscVal, acc, true, ignoreeq) == Scanned(s, i + |Escaped(w)|, InEscVal, acc + w, true, ignoreeq)
    decreases |w|
  {
    hide Scanned, Has, EscapedChar;
    if w == "" {
      assert acc + w == acc;
      HasRoom(s, i, "");
    } else {
      var c := w[0];
      HasParts(s, i, EscapedChar(c), Escaped(w[1..]));
      ScanChar(s, i, c, acc, ignoreeq);
      ScanEscaped(s, i + |EscapedChar(c)|, w[1..], acc + [c], ignoreeq);
      assert acc + [c] + w[1..] == acc + w;
    }
  }

  lemma ScanQuoted(s: string, i: nat, w: string, ignoreeq: bool)
    requires Has(s, i, Quoted(w)) && NoZero(w)
    ensures Scanned(s, i, WaitVal, "", false, ignoreeq) == Word(w, true, i + |Quoted(w)| - 1)
  {
    hide Escaped;
    var e := Escaped(w);
    assert Quoted(w) == "\"" + (e + "\"");
    HasParts(s, i, "\"", e + "\"");
    HasParts(s, i + 1, e, "\"");
    HasChar(s, i, "\"");
    HasChar(s, i + 1 + |e|, "\"");
    ScanEscaped(s, i + 1, w, "", ignoreeq);
    assert "" + w == w;
  }

  /** An unquoted NULL before a comma or the end. */
  lemma ScanNull(s: string, i: nat)
    requires Has(s, i, "NULL") && (At(s, i + 4) == ',' || At(s, i + 4) == '\0')
    ensures Scanned(s, i, WaitVal, "", false, true) == Word("NULL", false, i + 3)
  {
    assert "NULL"[1..] == "ULL" && "ULL"[1..] == "LL" && "LL"[1..] == "L";
    HasChar(s, i, "NULL");
    HasChar(s, i + 1, "ULL");
    HasChar(s, i + 2, "LL");
    HasChar(s, i + 3, "L");
    ScanLetter(s, i, WaitVal, "");
    ScanLetter(s, i + 1, InVal, "N");
    ScanLetter(s, i + 2, InVal, "NU");
    ScanLetter(s, i + 3, InVal, "NUL");
    hide Scanned;
    assert "" + ['N'] == "N" && "N" + ['U'] == "NU" && "NU" + ['L'] == "NUL" && "NUL" + ['L'] == "NULL";
    WordEnds(s, i + 4, "NULL");
  }

  lemma ScanLetter(s: string, i: nat, st: ValState, word: string)
    requires i < |s| && 'A' <= At(s, i) <= 'Z' && (st == WaitVal || (st == InVal && i >= 1))
    ensures Scanned(s, i, st, word, false, true) == Scanned(s, i + 1, InVal, word + [At(s, i)], false, true)
  {
  }

  lemma WordEnds(s: string, i: nat, word: string)
    requires 1 <= i <= |s| && (At(s, i) == ',' || At(s, i) == '\0')
    ensures Scanned(s, i, InVal, word, false, true) == Word(word, false, i - 1)
  {
  }

  /** Texts that a value can hold: no zero byte, a length that fits 16 bits. */
  predicate Storable(p: Pair) {
    && NoZero(p.key) && |p.key| <= 0xffff
    && (p.val.Some? ==> NoZero(p.val.value) && |p.val.value| <= 0xffff)
  }

  /** One printed pair is parsed back, and parsing goes on behind it. */
  lemma ParsePair(s: string, i: nat, p: Pair, acc: seq<Pair>)
    requires Has(s, i, Quoted(p.key) + "=>" + PrintedVal(p.val)) && Storable(p)
    requires var end := i + |Quoted(p.key)| + 2 + |PrintedVal(p.val)|; At(s, end) == ',' || At(s, end) == '\0'
    ensures var end := i + |Quoted(p.key)| + 2 + |PrintedVal(p.val)|;
      end <= |s| && Parsed(s, i, WKey, acc, "") == Parsed(s, end, WDel, acc + [p], "")
  {
    hide *;
    StorableParts(p);
    QuotedSize(p.key);
    var k, v := Quoted(p.key), PrintedVal(p.val);
    HasParts(s, i, k + "=>", v);
    HasParts(s, i, k, "=>");
    var j := i + |k|;
    HasArrow(s, j);
    ScanQuoted(s, i, p.key, false);
    KeyStep(s, i, acc, p.key, j - 1);
    ArrowSteps(s, j, acc, p.key);
    ValueIs(p.val);
    HasRoom(s, j + 2, v);
    if p.val.Some? {
      QuotedSize(p.val.value);
      ScanQuoted(s, j + 2, p.val.value, true);
      PairBack(p.key, p.val.value, true);
      ValStep(s, j + 2, acc, p.key, p.val.value, true, j + 2 + |v| - 1);
    } else {
      ScanNull(s, j + 2);
      PairBack(p.key, "NULL", false);
      ValStep(s, j + 2, acc, p.key, "NULL", false, j + 2 + |v| - 1);
    }
  }

  lemma StorableParts(p: Pair)
    requires Storable(p)
    ensures NoZero(p.key) && |p.key| <= 0xffff && (p.val.Some? ==> NoZero(p.val.value) && |p.val.value| <= 0xffff)
  {
  }

  lemma ValueIs(val: Option<string>)
    ensures PrintedVal(val) == if val.None? then "NULL" else Quoted(val.value)
  {
  }

  lemma HasArrow(s: string, j: nat)
    requires Has(s, j, "=>")
    ensures j + 1 < |s| && At(s, j) == '=' && At(s, j + 1) == '>'
  {
    HasChar(s, j, "=>");
    HasChar(s, j + 1, ">");
  }

  lemma KeyStep(s: string, i: nat, acc: seq<Pair>, word: string, p: nat)
    requires i <= |s| && Scanned(s, i, WaitVal, "", false, false) == Word(word, true, p)
    ensures p < |s| && Parsed(s, i, WKey, acc, "") == Parsed(s, p + 1, WEq, acc, word)
  {
  }

  lemma ArrowSteps(s: string, j: nat, acc: seq<Pair>, key: string)
    requires j + 1 < |s| && At(s, j) == '=' && At(s, j + 1) == '>'
    ensures Parsed(s, j, WEq, acc, key) == Parsed(s, j + 2, WVal, acc, key)
  {
    assert Parsed(s, j, WEq, acc, key) == Parsed(s, j + 1, WGt, acc, key);
  }

  lemma ValStep(s: string, i: nat, acc: seq<Pair>, key: string, word: string, escaped: bool, p: nat)
    requires i <= |s| && Scanned(s, i, WaitVal, "", false, true) == Word(word, escaped, p)
    ensures p < |s| && Parsed(s, i, WVal, acc, key) == Parsed(s, p + 1, WDel, acc + [PairOf(key, word, escaped)], "")
  {
  }

  lemma PairBack(key: string, word: string, escaped: bool)
    requires |key| <= 0xffff && |word| <= 0xffff && (escaped || word == "NULL")
    ensures PairOf(key, word, escaped) == Pair(key, if escaped then Some(word) else None)
  {
    assert key[..|key|] == key && word[..|word|] == word;
  }

  lemma QuotedSize(w: string)
    ensures |Quoted(w)| >= 2
  {
  }

  /** Printing a list of pairs and parsing it again gives the list, nulls and quotes included. */
  lemma {:induction false} ParsePrinted(s: string, i: nat, ps: seq<Pair>, acc: seq<Pair>)
    requires Has(s, i, Printed(ps)) && i + |Printed(ps)| == |s| && forall k :: 0 <= k < |ps| ==> Storable(ps[k])
    ensures Parsed(s, i, WKey, acc, "") == Ok(acc + ps)
    decreases |ps|
  {
    hide *;
    if ps == [] {
      PrintedNone();
      KeyAtEnd(s, acc);
      assert acc + ps == acc;
    } else {
      var p, rest := ps[0], ps[1..];
      PrintedFirst(ps);
      BodyIs(p);
      var pair, sep := PrintedBody(p), if |ps| == 1 then "" else ", ";
      HasParts(s, i, pair, sep + Printed(rest));
      var end := i + |pair|;
      HasParts(s, end, sep, Printed(rest));
      if |ps| > 1 {
        HasChar(s, end, ", ");
        assert ", "[1..] == " ";
        HasChar(s, end + 1, " ");
        ParsePair(s, i, p, acc);
        CommaNext(s, end, acc + [p]);
        SkipSpace(s, end + 1, acc + [p]);
        ParsePrinted(s, end + 2, rest, acc + [p]);
        assert acc + [p] + rest == acc + ps;
      } else {
        PrintedNone();
        AtEnd(s);
        ParsePair(s, i, p, acc);
        PairsDone(s, acc + [p]);
        assert acc + [p] == acc + ps;
      }
    }
  }

  lemma PrintedFirst(ps: seq<Pair>)
    requires ps != []
    ensures Printed(ps) == PrintedBody(ps[0]) + ((if |ps| == 1 then "" else ", ") + Printed(ps[1..]))
  {
    hide PrintedBody;
    Append(PrintedBody(ps[0]), if |ps| == 1 then "" else ", ", Printed(ps[1..]));
  }

  lemma BodyIs(p: Pair)
    ensures PrintedBody(p) == Quoted(p.key) + "=>" + PrintedVal(p.val)
    ensures |PrintedBody(p)| == |Quoted(p.key)| + 2 + |PrintedVal(p.val)|
  {
    hide Quoted, PrintedVal;
  }

  lemma AtEnd(s: string)
    ensures At(s, |s|) == '\0'
  {
  }

  lemma KeyAtEnd(s: string, acc: seq<Pair>)
    ensures Parsed(s, |s|, WKey, acc, "") == Ok(acc)
  {
  }

  lemma PairsDone(s: string, acc: seq<Pair>)
    ensures Parsed(s, |s|, WDel, acc, "") == Ok(acc)
  {
  }

  lemma CommaNext(s: string, i: nat, acc: seq<Pair>)
    requires i < |s| && At(s, i) == ','
    ensures Parsed(s, i, WDel, acc, "") == Parsed(s, i + 1, WKey, acc, "")
  {
  }

  /** A space before a key is skipped. */
  lemma SkipSpace(s: string, i: nat, acc: seq<Pair>)
    requires i < |s| && At(s, i) == ' '
    ensures Parsed(s, i, WKey, acc, "") == Parsed(s, i + 1, WKey, acc, "")
  {
    assert Scanned(s, i, WaitVal, "", false, false) == Scanned(s, i + 1, WaitVal, "", false, false);
  }

  // ---------------------------------------------------------------- input

  /** Sorted as comparePairs sorts: equal keys may stand in any order. */
  ghost predicate KeysSorted(ps: seq<Pair>) {
    forall i, j :: 0 <= i < j < |ps| ==> KeyOrder(ps[i].key, ps[j].key) <= 0
  }

  /** A sorted permutation of the pairs, standing for qsort. */
  method QSort(a: seq<Pair>) returns (b: seq<Pair>)
    ensures multiset(b) == multiset(a) && KeysSorted(b)
  {
    hide KeyOrder;
    b := [];
    for n := 0 to |a|
      invariant multiset(b) == multiset(a[..n]) && KeysSorted(b)
    {
      var i := |b|;
      while i > 0 && KeyOrder(b[i - 1].key, a[n].key) > 0
        invariant 0 <= i <= |b|
        invariant forall k :: i <= k < |b| ==> KeyOrder(b[k].key, a[n].key) > 0
      {
        i := i - 1;
      }
      assert a[..n + 1] == a[..n] + [a[n]];
      InsertSorted(b, i, a[n]);
      b := b[..i] + [a[n]] + b[i..];
    }
    assert a[..|a|] == a;
  }

  lemma InsertSorted(b: seq<Pair>, i: nat, p: Pair)
    requires KeysSorted(b) && i <= |b| && (i > 0 ==> KeyOrder(b[i - 1].key, p.key) <= 0)
    requires forall k :: i <= k < |b| ==> KeyOrder(b[k].key, p.key) > 0
    ensures KeysSorted(b[..i] + [p] + b[i..]) && multiset(b[..i] + [p] + b[i..]) == multiset(b) + multiset{p}
  {
    hide KeyOrder;
    forall k | 0 <= k < i ensures KeyOrder(b[k].key, p.key) <= 0 {
      if k < i - 1 { assert KeyOrder(b[k].key, b[i - 1].key) <= 0; }
      KeysWeak(b[k].key, b[i - 1].key, p.key);
    }
    forall k | i <= k < |b| ensures KeyOrder(p.key, b[k].key) <= 0 { KeysOrdered(p.key, b[k].key, p.key); }
    PlacedSorted(b, i, p);
    PlacedSame(b, i, p);
  }

  lemma PlacedSame(b: seq<Pair>, i: nat, p: Pair)
    requires i <= |b|
    ensures multiset(b[..i] + [p] + b[i..]) == multiset(b) + multiset{p}
  {
    assert b == b[..i] + b[i..];
  }

  lemma PlacedSorted(b: seq<Pair>, i: nat, p: Pair)
    requires KeysSorted(b) && i <= |b|
    requires forall k :: 0 <= k < i ==> KeyOrder(b[k].key, p.key) <= 0
    requires forall k :: i <= k < |b| ==> KeyOrder(p.key, b[k].key) <= 0
    ensures KeysSorted(b[..i] + [p] + b[i..])
  {
    hide KeyOrder;
    var c := b[..i] + [p] + b[i..];
    forall j, k | 0 <= j < k < |c| ensures KeyOrder(c[j].key, c[k].key) <= 0 {
      assert c[j] == (if j < i then b[j] else if j == i then p else b[j - 1]);
      assert c[k] == (if k < i then b[k] else if k == i then p else b[k - 1]);
    }
  }

  lemma KeysWeak(a: string, b: string, c: string)
    ensures KeyOrder(a, b) <= 0 && KeyOrder(b, c) <= 0 ==> KeyOrder(a, c) <= 0
  {
    hide KeyOrder;
    KeysOrdered(a, b, c);
    KeysOrdered(b, c, c);
  }

  ghost predicate HasKey(qs: seq<Pair>, key: string) {
    exists i :: 0 <= i < |qs| && qs[i].key == key
  }

  lemma HasKeyMore(qs: seq<Pair>, p: Pair, key: string)
    ensures HasKey(qs + [p], key) <==> HasKey(qs, key) || p.key == key
  {
    var rs := qs + [p];
    if HasKey(qs, key) {
      var i :| 0 <= i < |qs| && qs[i].key == key;
      assert rs[i].key == key;
    }
    if p.key == key { assert rs[|qs|].key == key; }
    if HasKey(rs, key) {
      var i :| 0 <= i < |rs| && rs[i].key == key;
      if i < |qs| { assert qs[i].key == key; }
    }
  }

  /** One value of each key: the pairs are among those given, and no key is lost. */
  ghost predicate OneEach(qs: seq<Pair>, ps: seq<Pair>) {
    && (forall q :: q in qs ==> q in ps)
    && (forall p :: p in ps ==> HasKey(qs, p.key))
  }

  /** uniquePairs on what qsort leaves: of pairs with the same key the first stays. */
  method Compact(a: array<Pair>) returns (n: nat)
    requires KeysSorted(a[..]) && a.Length > 0
    modifies a
    ensures n <= a.Length && Ordered(a[..n]) && OneEach(a[..n], old(a[..]))
    ensures Ordered(old(a[..])) ==> a[..n] == old(a[..])
  {
    hide *;
    ghost var s := a[..];
    var ptr, res := 1, 0;
    CompactStart(s);
    assert a[..1] == s[..1];
    while ptr < a.Length
      invariant 0 <= res < ptr <= a.Length && a[ptr..] == s[ptr..]
      invariant Compacted(a[..res + 1], s[..ptr])
      invariant Ordered(s) ==> a[..res + 1] == s[..ptr]
    {
      ghost var was := a[..res + 1];
      assert a[ptr] == a[ptr..][0] == s[ptr];
      assert was[|was| - 1] == a[res];
      StrNCmpAll(a[ptr].key, a[res].key);
      CompactStep(was, s, ptr);
      if Ordered(s) { NextDiffers(s, ptr); }
      if !(|a[ptr].key| == |a[res].key| && StrNCmp(a[ptr].key, a[res].key, |a[res].key|) == 0) {
        res := res + 1;
        a[res] := a[ptr];
        assert a[..res + 1] == was + [s[ptr]];
      }
      assert a[ptr + 1..] == s[ptr..][1..];
      ptr := ptr + 1;
    }
    assert s[..ptr] == s;
    CompactedIs(a[..res + 1], s);
    n := res + 1;
  }

  ghost predicate Compacted(qs: seq<Pair>, ps: seq<Pair>) {
    && qs != [] && ps != [] && Ordered(qs) && OneEach(qs, ps) && qs[|qs| - 1].key == ps[|ps| - 1].key
  }

  lemma NextDiffers(s: seq<Pair>, ptr: nat)
    requires Ordered(s) && 0 < ptr < |s|
    ensures s[ptr - 1].key != s[ptr].key && s[..ptr + 1] == s[..ptr] + [s[ptr]] && s[..ptr][ptr - 1] == s[ptr - 1]
  {
    KeysOrdered(s[ptr - 1].key, s[ptr].key, s[ptr].key);
  }

  lemma CompactedIs(qs: seq<Pair>, ps: seq<Pair>)
    requires Compacted(qs, ps)
    ensures Ordered(qs) && OneEach(qs, ps)
  {
  }

  lemma CompactStart(s: seq<Pair>)
    requires s != []
    ensures Compacted(s[..1], s[..1])
  {
    forall p | p in s[..1] ensures HasKey(s[..1], p.key) { assert s[..1][0].key == p.key; }
  }

  lemma CompactStep(qs: seq<Pair>, s: seq<Pair>, ptr: nat)
    requires 0 < ptr < |s| && KeysSorted(s) && Compacted(qs, s[..ptr])
    ensures s[ptr].key == qs[|qs| - 1].key ==> Compacted(qs, s[..ptr + 1])
    ensures s[ptr].key != qs[|qs| - 1].key ==> Compacted(qs + [s[ptr]], s[..ptr + 1])
  {
    assert qs != [];
    hide *;
    assert s[..ptr + 1] == s[..ptr] + [s[ptr]];
    if s[ptr].key == qs[|qs| - 1].key {
      CompactSame(qs, s[..ptr], s[ptr]);
    } else {
      NotBefore(s, ptr);
      CompactNew(qs, s[..ptr], s[ptr]);
    }
  }

  lemma NotBefore(s: seq<Pair>, ptr: nat)
    requires 0 < ptr < |s| && KeysSorted(s)
    ensures s[..ptr] != [] && KeyOrder(s[..ptr][|s[..ptr]| - 1].key, s[ptr].key) <= 0
  {
  }

  lemma CompactSame(qs: seq<Pair>, ps: seq<Pair>, p: Pair)
    requires Compacted(qs, ps) && p.key == qs[|qs| - 1].key
    ensures Compacted(qs, ps + [p])
  {
    hide HasKey, Ordered;
    LastKey(qs);
  }

  lemma CompactNew(qs: seq<Pair>, ps: seq<Pair>, p: Pair)
    requires Compacted(qs, ps) && p.key != qs[|qs| - 1].key && KeyOrder(ps[|ps| - 1].key, p.key) <= 0
    ensures Compacted(qs + [p], ps + [p])
  {
    hide HasKey, KeyOrder;
    var last := qs[|qs| - 1];
    KeysOrdered(last.key, p.key, p.key);
    OrderedMore(qs, p);
    hide Ordered;
    forall q | q in ps + [p] ensures HasKey(qs + [p], q.key) { HasKeyMore(qs, p, q.key); }
  }

  lemma LastKey(qs: seq<Pair>)
    requires qs != []
    ensures HasKey(qs, qs[|qs| - 1].key)
  {
  }

  /** What is sorted already, without repetition, stays as it is. */
  lemma {:induction false} SortedOnce(a: seq<Pair>, b: seq<Pair>)
    requires Ordered(a) && KeysSorted(b) && multiset(a) == multiset(b)
    ensures a == b
    decreases |a|
  {
    hide KeyOrder;
    assert |a| == |multiset(a)| == |multiset(b)| == |b|;
    if a != [] {
      var n := |a| - 1;
      LastOfSorted(a, b);
      FrontsSame(a, b);
      SortedOnce(a[..n], b[..n]);
      assert a == a[..n] + [a[n]] && b == b[..n] + [b[n]];
    }
  }

  lemma FrontsSame(a: seq<Pair>, b: seq<Pair>)
    requires multiset(a) == multiset(b) && |a| == |b| > 0 && a[|a| - 1] == b[|b| - 1]
    ensures multiset(a[..|a| - 1]) == multiset(b[..|a| - 1])
  {
    var n := |a| - 1;
    assert a == a[..n] + [a[n]] && b == b[..n] + [b[n]];
    assert multiset(a) == multiset(a[..n]) + multiset{a[n]} && multiset(b) == multiset(b[..n]) + multiset{b[n]};
    forall x ensures multiset(a[..n])[x] == multiset(b[..n])[x] {
      assert multiset(a)[x] == multiset(a[..n])[x] + multiset{a[n]}[x];
      assert multiset(b)[x] == multiset(b[..n])[x] + multiset{b[n]}[x];
    }
  }

  lemma LastOfSorted(a: seq<Pair>, b: seq<Pair>)
    requires Ordered(a) && KeysSorted(b) && multiset(a) == multiset(b) && |a| == |b| > 0
    ensures a[|a| - 1] == b[|b| - 1]
  {
    hide KeyOrder;
    var n := |a| - 1;
    var x, y := a[n], b[n];
    assert x in multiset(a) && y in multiset(b);
    assert x in b && y in a;
    var i :| 0 <= i < |b| && b[i] == x;
    var j :| 0 <= j < |a| && a[j] == y;
    KeysOrdered(x.key, y.key, x.key);
    KeysOrdered(y.key, x.key, y.key);
  }

  /** uniquePairs */
  method UniquePairs(a: seq<Pair>) returns (b: seq<Pair>)
    ensures Ordered(b) && OneEach(b, a) && (Ordered(a) ==> b == a)
  {
    if |a| < 2 {
      if a != [] { assert HasKey(a, a[0].key); }
      return a;
    }
    hide *;
    var sorted := QSort(a);
    if Ordered(a) { SortedOnce(a, sorted); }
    var pairs := new Pair[|sorted|](i requires 0 <= i < |sorted| => sorted[i]);
    assert pairs[..] == sorted;
    SameSize(a, sorted);
    var n := Compact(pairs);
    b := pairs[..n];
    OneEachPermuted(b, sorted, a);
  }

  lemma SameSize(a: seq<Pair>, b: seq<Pair>)
    requires multiset(a) == multiset(b)
    ensures |a| == |b|
  {
    assert |a| == |multiset(a)| && |b| == |multiset(b)|;
  }

  lemma OneEachPermuted(qs: seq<Pair>, ps: seq<Pair>, rs: seq<Pair>)
    requires OneEach(qs, ps) && multiset(ps) == multiset(rs)
    ensures OneEach(qs, rs)
  {
    hide HasKey;
    forall q | q in qs ensures q in rs { assert q in ps && q in multiset(ps) && q in multiset(rs); }
    forall p | p in rs ensures HasKey(qs, p.key) { assert p in multiset(rs) && p in multiset(ps) && p in ps; }
  }

  /** The loop of hstore_in that packs the pairs. */
  method PackPairs(ps: seq<Pair>) returns (out: HStore)
    ensures IsPacked(out, ps)
  {
    hide *;
    var entries: seq<HEntry>, str := [], "";
    NothingPacked();
    assert ps[..0] == [];
    for i := 0 to |ps|
      invariant IsPacked(HStore(entries, str), ps[..i])
    {
      var p := ps[i];
      assert ps[..i + 1] == ps[..i] + [p];
      var e := HEntry(|p.key|, if p.val.None? then 4 else |p.val.value|, p.val.None?, |str|);
      EntryFor(e, p, |str|);
      PackedMore(HStore(entries, str), ps[..i], e, p);
      ChunkParts(str, p);
      str := str + p.key;
      if p.val.Some? { str := str + p.val.value; }
      entries := entries + [e];
    }
    assert ps[..|ps|] == ps;
    out := HStore(entries, str);
  }

  lemma NothingPacked()
    ensures IsPacked(HStore([], ""), [])
  {
  }

  lemma EntryFor(e: HEntry, p: Pair, pos: nat)
    requires e.keylen == |p.key| && e.pos == pos && (e.valisnull <==> p.val.None?) && (p.val.Some? ==> e.vallen == |p.val.value|)
    ensures EntryIs(e, p, pos)
  {
  }

  lemma ChunkParts(str: string, p: Pair)
    ensures str + Chunk(p) == if p.val.Some? then str + p.key + p.val.value else str + p.key
  {
  }

  /** hstore_in: one value of each key parsed, in key order; sorted input is kept as it is. */
  method HstoreIn(s: string) returns (r: Result<HStore>, ghost ps: seq<Pair>)
    ensures r.Ok? <==> Parsed(s, 0, WKey, [], "").Ok?
    ensures r.Ok? ==> IsPacked(r.value, ps) && Ordered(ps) && OneEach(ps, Parsed(s, 0, WKey, [], "").value)
    ensures r.Ok? && Ordered(Parsed(s, 0, WKey, [], "").value) ==> ps == Parsed(s, 0, WKey, [], "").value
    ensures NoZero(s) ==> (r.Ok? <==> exists f :: Spells(f, s))
    ensures NoZero(s) ==> forall f :: Spells(f, s) ==>
      IsPacked(r.value, ps) && Ordered(ps) && OneEach(ps, PairsOf(f)) && (Ordered(PairsOf(f)) ==> ps == PairsOf(f))
  {
    hide *;
    if NoZero(s) { ReadAsSpelled(s); }
    var parsed := ParseHstore(s);
    ps := [];
    if parsed.Err? { return Err, ps; }
    var pairs := UniquePairs(parsed.value);
    ps := pairs;
    var out := PackPairs(pairs);
    r := Ok(out);
  }

  lemma ReadAsSpelled(s: string)
    requires NoZero(s)
    ensures Parsed(s, 0, WKey, [], "").Ok? <==> exists f :: Spells(f, s)
    ensures forall f :: Spells(f, s) ==> Parsed(s, 0, WKey, [], "") == Ok(PairsOf(f))
  {
    hide *;
    var r := Parsed(s, 0, WKey, [], "");
    if r.Ok? {
      ParsedIffSpelled(s, r.value);
      var f :| Spells(f, s) && PairsOf(f) == r.value;
    }
    forall f | Spells(f, s) ensures Parsed(s, 0, WKey, [], "") == Ok(PairsOf(f)) { ParsedIffSpelled(s, PairsOf(f)); }
  }

  /** Printing a value and reading it again gives a value with the same pairs. */
  method RoundTrip(hs: HStore, ghost ps: seq<Pair>) returns (back: Result<HStore>)
    requires IsPacked(hs, ps) && Ordered(ps) && forall k :: 0 <= k < |ps| ==> Storable(ps[k])
    ensures back.Ok? && IsPacked(back.value, ps)
  {
    var text := HstoreOut(hs, ps);
    hide *;
    HasAll(text);
    ParsePrinted(text, 0, ps, []);
    assert [] + ps == ps;
    ghost var qs;
    back, qs := HstoreIn(text);
  }

  lemma HasAll(s: string)
    ensures Has(s, 0, s)
  {
    assert s[0..|s|] == s;
  }
}
