/**
 * The packed key/value store of contrib/hstore: entries in key order whose texts follow one
 * another, and the operations of hstore_op.c on it.
 */
module Hstore {
  import opened Basics
  import opened LexOrder

  datatype HEntry = HEntry(keylen: int, vallen: int, valisnull: bool, pos: int)

  /** ARRPTR and STRPTR of a value. */
  datatype HStore = HStore(entries: seq<HEntry>, str: string)

  /** What an entry stands for; None is the SQL null. */
  datatype Pair = Pair(key: string, val: Option<string>)

  // ---------------------------------------------------------------- layout

  function Chunk(p: Pair): string {
    p.key + if p.val.Some? then p.val.value else ""
  }

  /** The texts of the pairs, one after the other. */
  function Text(ps: seq<Pair>): string {
    if ps == [] then "" else Text(ps[..|ps| - 1]) + Chunk(ps[|ps| - 1])
  }

  ghost predicate EntryIs(e: HEntry, p: Pair, pos: nat) {
    && e.keylen == |p.key| && e.pos == pos && (e.valisnull <==> p.val.None?)
    && (p.val.Some? ==> e.vallen == |p.val.value|)
  }

  /** The value holds these pairs: each position is the length of all texts before it. */
  ghost predicate IsPacked(hs: HStore, ps: seq<Pair>) {
    && |hs.entries| == |ps| && hs.str == Text(ps)
    && forall i :: 0 <= i < |ps| ==> EntryIs(hs.entries[i], ps[i], |Text(ps[..i])|)
  }

  lemma TextMore(ps: seq<Pair>, p: Pair)
    ensures Text(ps + [p]) == Text(ps) + Chunk(p)
  {
    assert (ps + [p])[..|ps|] == ps;
  }

  lemma {:induction false} TextAt(ps: seq<Pair>, i: nat)
    requires i < |ps|
    ensures var pos := |Text(ps[..i])|;
      && |Text(ps[..i + 1])| == pos + |Chunk(ps[i])| <= |Text(ps)|
      && Text(ps)[pos..pos + |Chunk(ps[i])|] == Chunk(ps[i])
    decreases |ps|
  {
    hide Chunk;
    var n := |ps| - 1;
    var whole := Text(ps[..n]);
    assert Text(ps) == whole + Chunk(ps[n]);
    if i == n {
      assert ps[..n + 1] == ps;
    } else {
      TextAt(ps[..n], i);
      assert ps[..n][..i] == ps[..i] && ps[..n][..i + 1] == ps[..i + 1];
      assert Text(ps)[..|whole|] == whole;
    }
  }

  lemma PackedMore(hs: HStore, ps: seq<Pair>, e: HEntry, p: Pair)
    requires IsPacked(hs, ps) && EntryIs(e, p, |hs.str|)
    ensures IsPacked(HStore(hs.entries + [e], hs.str + Chunk(p)), ps + [p])
  {
    TextMore(ps, p);
    forall i | 0 <= i < |ps| + 1 ensures EntryIs((hs.entries + [e])[i], (ps + [p])[i], |Text((ps + [p])[..i])|) {
      assert (ps + [p])[..i] == ps[..i];
      if i == |ps| { assert ps[..i] == ps; }
    }
  }

  // ---------------------------------------------------------------- order and meaning

  /** Keys are ordered by length first. */
  function KeyOrder(a: string, b: string): int {
    if |a| == |b| then StringOrder(a, b) else Sign(|a| - |b|)
  }

  lemma KeysOrdered(a: string, b: string, c: string)
    ensures KeyOrder(a, b) == -KeyOrder(b, a)
    ensures KeyOrder(a, b) == 0 <==> a == b
    ensures KeyOrder(a, b) < 0 && KeyOrder(b, c) < 0 ==> KeyOrder(a, c) < 0
  {
    StringsOrdered();
  }

  /** Shorter keys come first, and keys of one length are compared byte by byte. */
  lemma KeyOrderMeans(a: string, b: string)
    ensures KeyOrder(a, b) < 0 <==> |a| < |b| || (|a| == |b| && Before(a, b))
    ensures KeyOrder(a, b) > 0 <==> |b| < |a| || (|b| == |a| && Before(b, a))
    ensures KeyOrder(a, b) == 0 <==> a == b
  {
    StringOrderMeans(a, b);
  }

  ghost predicate Ordered(ps: seq<Pair>) {
    forall i, j :: 0 <= i < j < |ps| ==> KeyOrder(ps[i].key, ps[j].key) < 0
  }

  ghost predicate AllBelow(ps: seq<Pair>, key: string) {
    forall i :: 0 <= i < |ps| ==> KeyOrder(ps[i].key, key) < 0
  }

  ghost function MapOf(ps: seq<Pair>): map<string, Option<string>> {
    if ps == [] then map[] else
      var last := ps[|ps| - 1];
      MapOf(ps[..|ps| - 1])[last.key := last.val]
  }

  lemma MapMore(ps: seq<Pair>, p: Pair)
    ensures MapOf(ps + [p]) == MapOf(ps)[p.key := p.val]
  {
    assert (ps + [p])[..|ps|] == ps;
  }

  lemma {:induction false} MapKeys(ps: seq<Pair>, key: string)
    ensures key in MapOf(ps) <==> exists i :: 0 <= i < |ps| && ps[i].key == key
    decreases |ps|
  {
    if ps != [] {
      var n := |ps| - 1;
      MapKeys(ps[..n], key);
      if i :| 0 <= i < n && ps[..n][i].key == key { assert ps[i].key == key; }
      if i :| 0 <= i < |ps| && ps[i].key == key && i < n { assert ps[..n][i].key == key; }
    }
  }

  lemma OrderedMore(ps: seq<Pair>, p: Pair)
    requires Ordered(ps) && (ps != [] ==> KeyOrder(ps[|ps| - 1].key, p.key) < 0)
    ensures Ordered(ps + [p]) && AllBelow(ps, p.key)
  {
    hide KeyOrder;
    forall i | 0 <= i < |ps| ensures KeyOrder(ps[i].key, p.key) < 0 {
      KeysOrdered(ps[i].key, ps[|ps| - 1].key, p.key);
    }
  }

  lemma NotBelowItself(ps: seq<Pair>, key: string)
    requires AllBelow(ps, key)
    ensures key !in MapOf(ps)
  {
    hide KeyOrder;
    MapKeys(ps, key);
    KeysOrdered(key, key, key);
  }

  // ---------------------------------------------------------------- search

  /** The comparison that findkey and hs_concat both spell out. */
  method Difference(a: string, b: string) returns (difference: int)
    ensures Sign(difference) == KeyOrder(a, b)
  {
    StrNCmpOrders(a, b);
    if |a| == |b| {
      difference := StrNCmp(a, b, |a|);
    } else {
      difference := if |a| > |b| then 1 else -1;
    }
  }

  /** The key of an entry. */
  lemma KeyAt(hs: HStore, ps: seq<Pair>, i: nat)
    requires IsPacked(hs, ps) && i < |ps|
    ensures var e := hs.entries[i];
      && 0 <= e.pos && e.pos + |Chunk(ps[i])| <= |hs.str| && e.keylen == |ps[i].key| <= |Chunk(ps[i])|
      && hs.str[e.pos..e.pos + |Chunk(ps[i])|] == Chunk(ps[i])
      && hs.str[e.pos..e.pos + e.keylen] == ps[i].key
  {
    hide *;
    TextAt(ps, i);
    PackedAt(hs, ps, i);
    ChunkKey(ps[i]);
    SliceFront(hs.str, hs.entries[i].pos, Chunk(ps[i]), hs.entries[i].keylen);
  }

  lemma PackedAt(hs: HStore, ps: seq<Pair>, i: nat)
    requires IsPacked(hs, ps) && i < |ps|
    ensures |hs.entries| == |ps| && hs.str == Text(ps)
    ensures hs.entries[i].keylen == |ps[i].key| && hs.entries[i].pos == |Text(ps[..i])|
  {
    hide Text;
    assert EntryIs(hs.entries[i], ps[i], |Text(ps[..i])|);
  }

  lemma SliceFront(s: string, pos: int, t: string, n: int)
    requires 0 <= pos && pos + |t| <= |s| && s[pos..pos + |t|] == t && 0 <= n <= |t|
    ensures s[pos..pos + n] == t[..n]
  {
    assert s[pos..pos + n] == s[pos..pos + |t|][..n];
  }

  lemma ChunkKey(p: Pair)
    ensures |p.key| <= |Chunk(p)| && Chunk(p)[..|p.key|] == p.key
  {
  }

  /** findkey: the entry with the key, if the value has it. */
  method FindKey(hs: HStore, key: string, ghost ps: seq<Pair>) returns (found: int)
    requires IsPacked(hs, ps) && Ordered(ps)
    ensures found >= 0 ==> found < |ps| && ps[found].key == key
    ensures found >= 0 <==> key in MapOf(ps)
  {
    hide IsPacked, MapOf, KeyOrder, StringOrder, Chunk;
    PackedSize(hs, ps);
    MapKeys(ps, key);
    var low, high := 0, |hs.entries|;
    while low < high
      invariant 0 <= low <= high <= |ps|
      invariant forall i :: 0 <= i < low ==> ps[i].key != key
      invariant forall i :: high <= i < |ps| ==> ps[i].key != key
    {
      var middle := low + (high - low) / 2;
      KeyAt(hs, ps, middle);
      var e := hs.entries[middle];
      var difference := Difference(hs.str[e.pos..e.pos + e.keylen], key);
      KeysOrdered(ps[middle].key, key, key);
      if difference == 0 {
        return middle;
      } else if difference < 0 {
        forall i | 0 <= i < middle ensures ps[i].key != key { KeysOrdered(ps[i].key, ps[middle].key, key); KeysOrdered(key, key, key); }
        low := middle + 1;
      } else {
        KeysOrdered(key, ps[middle].key, key);
        forall i | middle < i < |ps| ensures ps[i].key != key { KeysOrdered(key, ps[middle].key, ps[i].key); KeysOrdered(key, key, key); }
        high := middle;
      }
    }
    return -1;
  }

  lemma PackedSize(hs: HStore, ps: seq<Pair>)
    requires IsPacked(hs, ps)
    ensures |hs.entries| == |ps| && |hs.str| == |Text(ps)|
  {
  }

  /** fetchval */
  method FetchVal(hs: HStore, key: string, ghost ps: seq<Pair>) returns (val: Option<string>)
    requires IsPacked(hs, ps) && Ordered(ps)
    ensures val == if key in MapOf(ps) then MapOf(ps)[key] else None
  {
    hide IsPacked, KeyOrder, MapOf, Text;
    PackedSize(hs, ps);
    var found := FindKey(hs, key, ps);
    if found < 0 { return None; }
    KeyAt(hs, ps, found);
    ValueAt(hs, ps, found);
    MapAt(ps, found);
    var e := hs.entries[found];
    if e.valisnull { return None; }
    return Some(hs.str[e.pos + e.keylen..e.pos + e.keylen + e.vallen]);
  }

  lemma ValueAt(hs: HStore, ps: seq<Pair>, i: nat)
    requires IsPacked(hs, ps) && i < |ps|
    ensures hs.entries[i].valisnull <==> ps[i].val.None?
    ensures var e := hs.entries[i]; ps[i].val.Some? ==>
      0 <= e.pos + e.keylen <= e.pos + e.keylen + e.vallen <= |hs.str|
      && hs.str[e.pos + e.keylen..e.pos + e.keylen + e.vallen] == ps[i].val.value
  {
    KeyAt(hs, ps, i);
    var e := hs.entries[i];
    assert EntryIs(e, ps[i], |Text(ps[..i])|);
    if ps[i].val.Some? {
      assert Chunk(ps[i])[e.keylen..] == ps[i].val.value;
      assert hs.str[e.pos + e.keylen..e.pos + e.keylen + e.vallen] == hs.str[e.pos..e.pos + |Chunk(ps[i])|][e.keylen..];
    }
  }

  lemma {:induction false} MapAt(ps: seq<Pair>, i: nat)
    requires Ordered(ps) && i < |ps|
    ensures ps[i].key in MapOf(ps) && MapOf(ps)[ps[i].key] == ps[i].val
    decreases |ps|
  {
    var n := |ps| - 1;
    if i < n {
      MapAt(ps[..n], i);
      KeysOrdered(ps[i].key, ps[n].key, ps[i].key);
    }
  }

  // ---------------------------------------------------------------- copying entries

  /** The value being written: entries up to ed, text up to pd. */
  ghost predicate Written(entries: seq<HEntry>, str: string, ps: seq<Pair>) {
    IsPacked(HStore(entries, str), ps)
  }

  function ChunkSize(e: HEntry): int {
    e.keylen + if e.valisnull then 0 else e.vallen
  }

  lemma ChunkSizeIs(hs: HStore, ps: seq<Pair>, i: nat)
    requires IsPacked(hs, ps) && i < |ps|
    ensures ChunkSize(hs.entries[i]) == |Chunk(ps[i])| && hs.entries[i].pos == |Text(ps[..i])|
    ensures EntryIs(hs.entries[i], ps[i], |Text(ps[..i])|)
    ensures |Text(ps[..i + 1])| == |Text(ps[..i])| + |Chunk(ps[i])| <= |hs.str|
    ensures hs.str[|Text(ps[..i])|..|Text(ps[..i + 1])|] == Chunk(ps[i])
  {
    TextAt(ps, i);
    assert EntryIs(hs.entries[i], ps[i], |Text(ps[..i])|);
  }

  /** The group of statements that copies one entry and its text, and moves the destination on. */
  method CopyEntry(outE: array<HEntry>, outS: array<char>, ed: nat, pd: nat, hs: HStore, es: nat, ps: nat,
      ghost from: seq<Pair>, ghost to: seq<Pair>) returns (pd': nat)
    requires IsPacked(hs, from) && es < |from| && ps == |Text(from[..es])|
    requires ed < outE.Length && ed == |to| && pd + |Chunk(from[es])| <= outS.Length
    requires Written(outE[..ed], outS[..pd], to)
    modifies outE, outS
    ensures pd' == pd + |Chunk(from[es])|
    ensures Written(outE[..ed + 1], outS[..pd'], to + [from[es]])
  {
    hide IsPacked, Text, Chunk, Written;
    PackedSize(hs, from);
    ChunkSizeIs(hs, from, es);
    var e := hs.entries[es];
    var n := ChunkSize(e);
    ghost var entries, str := outE[..ed], outS[..pd];
    outE[ed] := e.(pos := pd);
    for i := 0 to n
      invariant outE[..ed + 1] == entries + [e.(pos := pd)]
      invariant outS[..pd + i] == str + hs.str[ps..ps + i]
    {
      ghost var was := outS[..pd + i];
      outS[pd + i] := hs.str[ps + i];
      assert outS[..pd + i + 1] == was + [hs.str[ps + i]];
      assert hs.str[ps..ps + i + 1] == hs.str[ps..ps + i] + [hs.str[ps + i]];
    }
    WrittenMore(entries, str, to, e.(pos := pd), from[es]);
    pd' := pd + n;
  }

  lemma WrittenMore(entries: seq<HEntry>, str: string, to: seq<Pair>, e: HEntry, p: Pair)
    requires Written(entries, str, to) && EntryIs(e, p, |str|)
    ensures Written(entries + [e], str + Chunk(p), to + [p])
  {
    PackedMore(HStore(entries, str), to, e, p);
  }

  lemma NothingWritten()
    ensures Written([], "", []) && Ordered([]) && MapOf([]) == map[]
  {
  }

  // ---------------------------------------------------------------- delete

  lemma WrittenIs(entries: seq<HEntry>, str: string, to: seq<Pair>)
    ensures Written(entries, str, to) <==> IsPacked(HStore(entries, str), to)
  {
  }

  /** delete: the map without the key; layout and order are kept. */
  method Delete(hs: HStore, key: string, ghost ps: seq<Pair>) returns (out: HStore)
    requires IsPacked(hs, ps) && Ordered(ps)
    ensures exists qs :: IsPacked(out, qs) && Ordered(qs) && MapOf(qs) == MapOf(ps) - {key}
  {
    hide *;
    PackedSize(hs, ps);
    var size := |hs.entries|;
    var outE := new HEntry[size](_ => HEntry(0, 0, true, 0));
    var outS := new char[|hs.str|](_ => ' ');
    var es, ptrs, ed, ptrd := 0, 0, 0, 0;
    ghost var qs: seq<Pair> := [];
    NothingWritten();
    TextNone();
    assert ps[..0] == [] && outE[..0] == [] && outS[..0] == [];
    while es < size
      invariant 0 <= ed <= es <= size && 0 <= ptrd <= ptrs == |Text(ps[..es])| && ed == |qs|
      invariant ed <= outE.Length && ptrd <= outS.Length
      invariant Written(outE[..ed], outS[..ptrd], qs)
      invariant Ordered(qs) && MapOf(qs) == MapOf(ps[..es]) - {key}
      invariant Behind(qs, ps, es)
    {
      KeyAt(hs, ps, es);
      ChunkSizeIs(hs, ps, es);
      Size(hs.entries[es], ps[es], ptrs);
      var e := hs.entries[es];
      StrNCmpOrders(ps[es].key, key);
      StrNCmpAll(hs.str[ptrs..ptrs + e.keylen], key);
      DeleteStep(qs, ps, es, key);
      if !(e.keylen == |key| && StrNCmp(hs.str[ptrs..ptrs + e.keylen], key, e.keylen) == 0) {
        ptrd := CopyEntry(outE, outS, ed, ptrd, hs, es, ptrs, ps, qs);
        qs := qs + [ps[es]];
        ed := ed + 1;
      }
      ptrs := ptrs + ChunkSize(e);
      es := es + 1;
    }
    assert ps[..es] == ps;
    WrittenIs(outE[..ed], outS[..ptrd], qs);
    out := HStore(outE[..ed], outS[..ptrd]);
  }

  lemma TextNone()
    ensures Text([]) == "" && Ordered([]) && MapOf([]) == map[]
    ensures forall ps: seq<Pair> :: Behind([], ps, 0)
  {
  }

  /** What was kept comes before entry es. */
  ghost predicate Behind(qs: seq<Pair>, ps: seq<Pair>, es: nat) {
    es < |ps| && qs != [] ==> KeyOrder(qs[|qs| - 1].key, ps[es].key) < 0
  }

  lemma Size(e: HEntry, p: Pair, pos: nat)
    requires EntryIs(e, p, pos)
    ensures e.keylen == |p.key| && ChunkSize(e) == |Chunk(p)|
  {
  }

  lemma StrNCmpAll(a: string, b: string)
    ensures |a| == |b| ==> (StrNCmp(a, b, |a|) == 0 <==> a == b)
  {
    StrNCmpOrders(a, b);
  }

  lemma DeleteStep(qs: seq<Pair>, ps: seq<Pair>, es: nat, key: string)
    requires Ordered(ps) && es < |ps| && Ordered(qs) && Behind(qs, ps, es) && MapOf(qs) == MapOf(ps[..es]) - {key}
    ensures ps[es].key != key ==> Ordered(qs + [ps[es]]) && MapOf(qs + [ps[es]]) == MapOf(ps[..es + 1]) - {key}
    ensures ps[es].key != key ==> Behind(qs + [ps[es]], ps, es + 1)
    ensures ps[es].key == key ==> MapOf(qs) == MapOf(ps[..es + 1]) - {key}
    ensures Behind(qs, ps, es + 1)
  {
    hide KeyOrder, MapOf;
    assert ps[..es + 1] == ps[..es] + [ps[es]];
    MapMore(ps[..es], ps[es]);
    if ps[es].key != key {
      OrderedMore(qs, ps[es]);
      MapMore(qs, ps[es]);
    }
    if es + 1 < |ps| {
      assert KeyOrder(ps[es].key, ps[es + 1].key) < 0;
      if qs != [] { KeysOrdered(qs[|qs| - 1].key, ps[es].key, ps[es + 1].key); }
    }
  }

  // ---------------------------------------------------------------- concatenation

  /** qs is the merge of the first i pairs of ps with the first j pairs of rs, which win. */
  ghost predicate Merging(qs: seq<Pair>, ps: seq<Pair>, i: nat, rs: seq<Pair>, j: nat) {
    && i <= |ps| && j <= |rs| && Ordered(qs)
    && MapOf(qs) == MapOf(ps[..i]) + MapOf(rs[..j])
    && Behind(qs, ps, i) && Behind(qs, rs, j)
    && |qs| <= i + j && |Text(qs)| <= |Text(ps[..i])| + |Text(rs[..j])|
  }

  lemma NothingMerged(ps: seq<Pair>, rs: seq<Pair>)
    ensures Merging([], ps, 0, rs, 0)
  {
    assert ps[..0] == [] && rs[..0] == [];
  }

  lemma PrefixMore(ps: seq<Pair>, i: nat)
    requires i < |ps|
    ensures MapOf(ps[..i + 1]) == MapOf(ps[..i])[ps[i].key := ps[i].val]
    ensures |Text(ps[..i + 1])| == |Text(ps[..i])| + |Chunk(ps[i])|
  {
    assert ps[..i + 1] == ps[..i] + [ps[i]];
    MapMore(ps[..i], ps[i]);
    TextMore(ps[..i], ps[i]);
  }

  lemma BehindMore(qs: seq<Pair>, p: Pair, ps: seq<Pair>, i: nat)
    requires i < |ps| ==> KeyOrder(p.key, ps[i].key) < 0
    ensures Behind(qs + [p], ps, i)
  {
  }

  /** The next pair of rs comes first, or replaces the next pair of ps. */
  lemma MergeRight(qs: seq<Pair>, ps: seq<Pair>, i: nat, i': nat, rs: seq<Pair>, j: nat)
    requires Ordered(ps) && Ordered(rs) && Merging(qs, ps, i, rs, j) && j < |rs|
    requires if i' == i then (i < |ps| ==> KeyOrder(rs[j].key, ps[i].key) < 0)
      else i' == i + 1 && i < |ps| && ps[i].key == rs[j].key
    ensures Merging(qs + [rs[j]], ps, i', rs, j + 1)
  {
    hide KeyOrder, MapOf, Text, Chunk;
    var p := rs[j];
    OrderedMore(qs, p);
    MapMore(qs, p);
    TextMore(qs, p);
    PrefixMore(rs, j);
    if i < |ps| { PrefixMore(ps, i); }
    if i' < |ps| {
      if i' == i + 1 { assert KeyOrder(ps[i].key, ps[i'].key) < 0; }
    }
    BehindMore(qs, p, ps, i');
    BehindMore(qs, p, rs, j + 1);
  }

  /** The next pair of ps comes first. */
  lemma MergeLeft(qs: seq<Pair>, ps: seq<Pair>, i: nat, rs: seq<Pair>, j: nat)
    requires Ordered(ps) && Merging(qs, ps, i, rs, j) && i < |ps|
    requires j < |rs| ==> KeyOrder(ps[i].key, rs[j].key) < 0
    ensures Merging(qs + [ps[i]], ps, i + 1, rs, j)
  {
    hide KeyOrder, MapOf, Text, Chunk;
    var p := ps[i];
    OrderedMore(qs, p);
    MapMore(qs, p);
    TextMore(qs, p);
    PrefixMore(ps, i);
    NotBelowItself(qs, p.key);
    assert p.key !in MapOf(rs[..j]);
    BehindMore(qs, p, ps, i + 1);
    BehindMore(qs, p, rs, j);
  }

  lemma MergeRoom(qs: seq<Pair>, ps: seq<Pair>, i: nat, rs: seq<Pair>, j: nat)
    requires Merging(qs, ps, i, rs, j)
    ensures |qs| <= i + j && i <= |ps| && j <= |rs|
    ensures i < |ps| ==> |Text(qs)| + |Chunk(ps[i])| <= |Text(ps)| + |Text(rs)|
    ensures j < |rs| ==> |Text(qs)| + |Chunk(rs[j])| <= |Text(ps)| + |Text(rs)|
    ensures |Text(qs)| <= |Text(ps)| + |Text(rs)|
  {
    hide MapOf, Chunk, KeyOrder;
    TextGrows(ps, i);
    TextGrows(rs, j);
    if i < |ps| { TextAt(ps, i); }
    if j < |rs| { TextAt(rs, j); }
  }

  lemma TextGrows(ps: seq<Pair>, i: nat)
    requires i <= |ps|
    ensures |Text(ps[..i])| <= |Text(ps)|
  {
    if i < |ps| { TextAt(ps, i); } else { assert ps[..i] == ps; }
  }

  lemma WrittenSize(entries: seq<HEntry>, str: string, qs: seq<Pair>)
    requires Written(entries, str, qs)
    ensures |entries| == |qs| && |str| == |Text(qs)|
  {
  }

  lemma MergeDone(qs: seq<Pair>, ps: seq<Pair>, rs: seq<Pair>)
    requires Merging(qs, ps, |ps|, rs, |rs|)
    ensures Ordered(qs) && MapOf(qs) == MapOf(ps) + MapOf(rs)
  {
    assert ps[..|ps|] == ps && rs[..|rs|] == rs;
  }

  /** Where the merge has got to: what is written, and the two sources' pointers. */
  ghost predicate Reached(entries: seq<HEntry>, str: string, qs: seq<Pair>, p1: seq<Pair>, es1: nat, ps1: nat, p2: seq<Pair>, es2: nat, ps2: nat) {
    && Written(entries, str, qs) && Merging(qs, p1, es1, p2, es2)
    && es1 <= |p1| && es2 <= |p2| && ps1 == |Text(p1[..es1])| && ps2 == |Text(p2[..es2])|
  }

  /** One entry of s1 or s2 is copied; room is left for the rest. */
  method TakeEntry(outE: array<HEntry>, outS: array<char>, ed: nat, pd: nat, hs: HStore, es: nat, ps: nat, right: bool,
      ghost p1: seq<Pair>, ghost es1: nat, ghost p2: seq<Pair>, ghost es2: nat, ghost qs: seq<Pair>)
    returns (ed': nat, pd': nat, ghost qs': seq<Pair>)
    requires var from := if right then p2 else p1;
      && IsPacked(hs, from) && es < |from| && es == (if right then es2 else es1) && ps == |Text(from[..es])|
    requires outE.Length == |p1| + |p2| && outS.Length == |Text(p1)| + |Text(p2)| && ed <= outE.Length && pd <= outS.Length
    requires Written(outE[..ed], outS[..pd], qs) && Merging(qs, p1, es1, p2, es2)
    modifies outE, outS
    ensures qs' == qs + [(if right then p2 else p1)[es]] && ed' <= outE.Length && pd' <= outS.Length
    ensures Written(outE[..ed'], outS[..pd'], qs')
  {
    hide *;
    ghost var from := if right then p2 else p1;
    WrittenSize(outE[..ed], outS[..pd], qs);
    MergeRoom(qs, p1, es1, p2, es2);
    pd' := CopyEntry(outE, outS, ed, pd, hs, es, ps, from, qs);
    qs' := qs + [from[es]];
    ed' := ed + 1;
  }

  /** One round of the first loop. */
  method MergeNext(outE: array<HEntry>, outS: array<char>, s1: HStore, s2: HStore, es1: nat, ps1: nat, es2: nat, ps2: nat,
      ed: nat, pd: nat, ghost p1: seq<Pair>, ghost p2: seq<Pair>, ghost qs: seq<Pair>)
    returns (es1': nat, ps1': nat, es2': nat, ps2': nat, ed': nat, pd': nat, ghost qs': seq<Pair>)
    requires IsPacked(s1, p1) && Ordered(p1) && IsPacked(s2, p2) && Ordered(p2) && es1 < |p1| && es2 < |p2|
    requires outE.Length == |p1| + |p2| && outS.Length == |Text(p1)| + |Text(p2)| && ed <= outE.Length && pd <= outS.Length
    requires Reached(outE[..ed], outS[..pd], qs, p1, es1, ps1, p2, es2, ps2)
    modifies outE, outS
    ensures es1 <= es1' <= |p1| && es2 <= es2' <= |p2| && es1' + es2' > es1 + es2 && ed' <= outE.Length && pd' <= outS.Length
    ensures Reached(outE[..ed'], outS[..pd'], qs', p1, es1', ps1', p2, es2', ps2')
  {
    hide *;
    ReachedIs(outE[..ed], outS[..pd], qs, p1, es1, ps1, p2, es2, ps2);
    PackedSize(s1, p1);
    PackedSize(s2, p2);
    ChunkSizeIs(s1, p1, es1);
    ChunkSizeIs(s2, p2, es2);
    KeyAt(s1, p1, es1);
    KeyAt(s2, p2, es2);
    es1', ps1', es2', ps2' := es1, ps1, es2, ps2;
    var e1, e2 := s1.entries[es1], s2.entries[es2];
    var difference := Difference(s1.str[ps1..ps1 + e1.keylen], s2.str[ps2..ps2 + e2.keylen]);
    SignIs(difference);
    KeysOrdered(p1[es1].key, p2[es2].key, p2[es2].key);
    if difference >= 0 {
      MergeRight(qs, p1, es1, if difference == 0 then es1 + 1 else es1, p2, es2);
      ed', pd', qs' := TakeEntry(outE, outS, ed, pd, s2, es2, ps2, true, p1, es1, p2, es2, qs);
      if difference == 0 {
        ps1' := ps1 + ChunkSize(e1);
        es1' := es1 + 1;
      }
      ps2' := ps2 + ChunkSize(e2);
      es2' := es2 + 1;
    } else {
      MergeLeft(qs, p1, es1, p2, es2);
      ed', pd', qs' := TakeEntry(outE, outS, ed, pd, s1, es1, ps1, false, p1, es1, p2, es2, qs);
      ps1' := ps1 + ChunkSize(e1);
      es1' := es1 + 1;
    }
    IsReached(outE[..ed'], outS[..pd'], qs', p1, es1', ps1', p2, es2', ps2');
  }

  lemma ReachedIs(entries: seq<HEntry>, str: string, qs: seq<Pair>, p1: seq<Pair>, es1: nat, ps1: nat, p2: seq<Pair>, es2: nat, ps2: nat)
    requires Reached(entries, str, qs, p1, es1, ps1, p2, es2, ps2)
    ensures Written(entries, str, qs) && Merging(qs, p1, es1, p2, es2)
    ensures es1 <= |p1| && es2 <= |p2| && ps1 == |Text(p1[..es1])| && ps2 == |Text(p2[..es2])|
  {
  }

  lemma IsReached(entries: seq<HEntry>, str: string, qs: seq<Pair>, p1: seq<Pair>, es1: nat, ps1: nat, p2: seq<Pair>, es2: nat, ps2: nat)
    requires Written(entries, str, qs) && Merging(qs, p1, es1, p2, es2)
    requires es1 <= |p1| && es2 <= |p2| && ps1 == |Text(p1[..es1])| && ps2 == |Text(p2[..es2])|
    ensures Reached(entries, str, qs, p1, es1, ps1, p2, es2, ps2)
  {
  }

  /** hs_concat: both maps together, the right one wins; layout and order are kept. */
  method HsConcat(s1: HStore, s2: HStore, ghost p1: seq<Pair>, ghost p2: seq<Pair>) returns (out: HStore)
    requires IsPacked(s1, p1) && Ordered(p1) && IsPacked(s2, p2) && Ordered(p2)
    ensures exists qs :: IsPacked(out, qs) && Ordered(qs) && MapOf(qs) == MapOf(p1) + MapOf(p2)
  {
    hide *;
    PackedSize(s1, p1);
    PackedSize(s2, p2);
    var n1, n2 := |s1.entries|, |s2.entries|;
    var outE := new HEntry[n1 + n2](_ => HEntry(0, 0, true, 0));
    var outS := new char[|s1.str| + |s2.str|](_ => ' ');
    var es1: nat, es2: nat, ps1: nat, ps2: nat, ed: nat, pd: nat := 0, 0, 0, 0, 0, 0;
    ghost var qs: seq<Pair> := [];
    NothingWritten();
    TextNone();
    NothingMerged(p1, p2);
    assert p1[..0] == [] && p2[..0] == [] && outE[..0] == [] && outS[..0] == [];
    IsReached(outE[..0], outS[..0], qs, p1, es1, ps1, p2, es2, ps2);
    while es1 < n1 && es2 < n2
      invariant es1 <= n1 && es2 <= n2 && ed <= outE.Length && pd <= outS.Length
      invariant Reached(outE[..ed], outS[..pd], qs, p1, es1, ps1, p2, es2, ps2)
      decreases n1 - es1 + n2 - es2
    {
      es1, ps1, es2, ps2, ed, pd, qs := MergeNext(outE, outS, s1, s2, es1, ps1, es2, ps2, ed, pd, p1, p2, qs);
    }
    while es1 < n1
      invariant es1 <= n1 && es2 <= n2 && (es1 == n1 || es2 == n2) && ed <= outE.Length && pd <= outS.Length
      invariant Reached(outE[..ed], outS[..pd], qs, p1, es1, ps1, p2, es2, ps2)
    {
      ReachedIs(outE[..ed], outS[..pd], qs, p1, es1, ps1, p2, es2, ps2);
      ChunkSizeIs(s1, p1, es1);
      MergeLeft(qs, p1, es1, p2, es2);
      ed, pd, qs := TakeEntry(outE, outS, ed, pd, s1, es1, ps1, false, p1, es1, p2, es2, qs);
      ps1 := ps1 + ChunkSize(s1.entries[es1]);
      es1 := es1 + 1;
      IsReached(outE[..ed], outS[..pd], qs, p1, es1, ps1, p2, es2, ps2);
    }
    while es2 < n2
      invariant es1 == n1 && es2 <= n2 && ed <= outE.Length && pd <= outS.Length
      invariant Reached(outE[..ed], outS[..pd], qs, p1, es1, ps1, p2, es2, ps2)
    {
      ReachedIs(outE[..ed], outS[..pd], qs, p1, es1, ps1, p2, es2, ps2);
      ChunkSizeIs(s2, p2, es2);
      MergeRight(qs, p1, es1, es1, p2, es2);
      ed, pd, qs := TakeEntry(outE, outS, ed, pd, s2, es2, ps2, true, p1, es1, p2, es2, qs);
      ps2 := ps2 + ChunkSize(s2.entries[es2]);
      es2 := es2 + 1;
      IsReached(outE[..ed], outS[..pd], qs, p1, es1, ps1, p2, es2, ps2);
    }
    ReachedIs(outE[..ed], outS[..pd], qs, p1, es1, ps1, p2, es2, ps2);
    MergeDone(qs, p1, p2);
    WrittenIs(outE[..ed], outS[..pd], qs);
    out := HStore(outE[..ed], outS[..pd]);
  }

  lemma SignIs(x: int)
    ensures Sign(x) == 0 <==> x == 0
    ensures Sign(x) < 0 <==> x < 0
  {
  }

  // ---------------------------------------------------------------- containment

  /** The loop's body: whether val has the pair of one entry. */
  method ContainsEntry(val: HStore, tmpl: HStore, i: nat, ghost vs: seq<Pair>, ghost ts: seq<Pair>) returns (res: bool)
    requires IsPacked(val, vs) && Ordered(vs) && IsPacked(tmpl, ts) && i < |ts|
    ensures res <==> HasPair(vs, ts[i])
  {
    hide IsPacked, Ordered, MapOf, KeyOrder, Chunk, StringOrder, StrNCmp;
    PackedSize(tmpl, ts);
    PackedSize(val, vs);
    KeyAt(tmpl, ts, i);
    ValueAt(tmpl, ts, i);
    var te := tmpl.entries[i];
    var found := FindKey(val, tmpl.str[te.pos..te.pos + te.keylen], vs);
    if found < 0 { return false; }
    ValueAt(val, vs, found);
    MapAt(vs, found);
    KeyAt(val, vs, found);
    var entry := val.entries[found];
    if te.valisnull || entry.valisnull {
      return te.valisnull && entry.valisnull;
    }
    var v := val.str[entry.pos + entry.keylen..entry.pos + entry.keylen + entry.vallen];
    var w := tmpl.str[te.pos + te.keylen..te.pos + te.keylen + te.vallen];
    StrNCmpAll(v, w);
    return te.vallen == entry.vallen && StrNCmp(v, w, te.vallen) == 0;
  }

  /** hs_contains: every pair of tmpl is one of val, nulls being equal to each other only. */
  method HsContains(val: HStore, tmpl: HStore, ghost vs: seq<Pair>, ghost ts: seq<Pair>) returns (res: bool)
    requires IsPacked(val, vs) && Ordered(vs) && IsPacked(tmpl, ts) && Ordered(ts)
    ensures res <==> forall key :: key in MapOf(ts) ==> key in MapOf(vs) && MapOf(vs)[key] == MapOf(ts)[key]
  {
    hide IsPacked, Ordered, MapOf, HasPair;
    PackedSize(tmpl, ts);
    res := true;
    var i := 0;
    while res && i < |tmpl.entries|
      invariant 0 <= i <= |ts|
      invariant res <==> forall k :: 0 <= k < i ==> HasPair(vs, ts[k])
    {
      res := ContainsEntry(val, tmpl, i, vs, ts);
      i := i + 1;
    }
    PairsHeld(vs, ts, i);
  }

  ghost predicate HasPair(vs: seq<Pair>, p: Pair) {
    p.key in MapOf(vs) && MapOf(vs)[p.key] == p.val
  }

  lemma PairsHeld(vs: seq<Pair>, ts: seq<Pair>, n: nat)
    requires Ordered(ts) && n <= |ts| && (n == |ts| || exists k :: 0 <= k < n && !HasPair(vs, ts[k]))
    ensures (forall k :: 0 <= k < n ==> HasPair(vs, ts[k])) <==>
      forall key :: key in MapOf(ts) ==> key in MapOf(vs) && MapOf(vs)[key] == MapOf(ts)[key]
  {
    hide Ordered, MapOf;
    if k :| 0 <= k < n && !HasPair(vs, ts[k]) {
      MapAt(ts, k);
    } else {
      forall key | key in MapOf(ts) ensures key in MapOf(vs) && MapOf(vs)[key] == MapOf(ts)[key] {
        MapKeys(ts, key);
        var k :| 0 <= k < |ts| && ts[k].key == key;
        MapAt(ts, k);
        assert HasPair(vs, ts[k]);
      }
    }
  }
}
