/**
 * The flattened equations of pip_plugin/src/type/eqn.c: trees kept in one buffer, whose links
 * are 16-bit offsets from the buffer's start.  A component is written at its first byte.
 */
module Eqn {
  import opened Machine
  import opened CsetModel

  /** sizeof(pip_eqn_component), and the size of an atom before its data. */
  const CMPNT := 40
  const ATOMHDR := 8

  datatype Op = Mult | Add

  /** What stands at one byte of a buffer: the start of a component or of an atom, or anything else. */
  datatype Unit =
    | Const(c: real) | Var(v: VarId) | Branch(op: Op, left: int, right: int)
    | Nega(ptr: int) | Cnstrt(left: int, right: int) | AtomHead(left: int, right: int) | Pad

  // ---------------------------------------------------------------- meaning

  datatype Expr =
    | Number(c: real) | Variable(v: VarId) | Join(op: Op, l: Expr, r: Expr)
    | Minus(e: Expr) | Given(e: Expr, a: Atom)

  /** l > r */
  datatype Atom = Atom(l: Expr, r: Expr)

  function Apply(op: Op, a: real, b: real): real {
    match op
    case Mult => a * b
    case Add => a + b
  }

  function Value(e: Expr, v: VarId -> real): real {
    match e
    case Number(c) => c
    case Variable(x) => v(x)
    case Join(op, l, r) => Apply(op, Value(l, v), Value(r, v))
    case Minus(f) => 0.0 - Value(f, v)
    case Given(f, a) => if Holds(a, v) then Value(f, v) else 0.0
  }

  predicate Holds(a: Atom, v: VarId -> real) {
    Value(a.l, v) > Value(a.r, v)
  }

  predicate AllHold(atoms: seq<Atom>, v: VarId -> real) {
    forall i :: 0 <= i < |atoms| ==> Holds(atoms[i], v)
  }

  // ---------------------------------------------------------------- trees in a buffer

  /** A tree with the place of each component, and of each atom and its data. */
  datatype Node =
    | NConst(pos: int, c: real) | NVar(pos: int, v: VarId)
    | NJoin(pos: int, op: Op, l: Node, r: Node) | NNega(pos: int, e: Node)
    | NCnstrt(pos: int, e: Node, a: NAtom)

  datatype NAtom = NAtom(pos: int, l: Node, r: Node)

  function Erase(n: Node): Expr {
    match n
    case NConst(_, c) => Number(c)
    case NVar(_, v) => Variable(v)
    case NJoin(_, op, l, r) => Join(op, Erase(l), Erase(r))
    case NNega(_, e) => Minus(Erase(e))
    case NCnstrt(_, e, a) => Given(Erase(e), EraseAtom(a))
  }

  function EraseAtom(a: NAtom): Atom {
    Atom(Erase(a.l), Erase(a.r))
  }

  /** The places of the components outside atoms: those whose offsets count from the buffer's start. */
  ghost function Heads(n: Node): set<int> {
    match n
    case NConst(p, _) => {p}
    case NVar(p, _) => {p}
    case NJoin(p, _, l, r) => {p} + Heads(l) + Heads(r)
    case NNega(p, e) => {p} + Heads(e)
    case NCnstrt(p, e, _) => {p} + Heads(e)
  }

  /** All places, those inside atoms included. */
  ghost function Places(n: Node): set<int> {
    match n
    case NConst(p, _) => {p}
    case NVar(p, _) => {p}
    case NJoin(p, _, l, r) => {p} + Places(l) + Places(r)
    case NNega(p, e) => {p} + Places(e)
    case NCnstrt(p, e, a) => {p} + Places(e) + AtomPlaces(a)
  }

  ghost function AtomPlaces(a: NAtom): set<int> {
    {a.pos} + Places(a.l) + Places(a.r)
  }

  /** No two components share a place. */
  ghost predicate Apart(n: Node) {
    match n
    case NConst(_, _) => true
    case NVar(_, _) => true
    case NJoin(p, _, l, r) => p !in Places(l) && p !in Places(r) && Places(l) !! Places(r) && Apart(l) && Apart(r)
    case NNega(p, e) => p !in Places(e) && Apart(e)
    case NCnstrt(p, e, a) => p !in Places(e) && p !in AtomPlaces(a) && Places(e) !! AtomPlaces(a) && Apart(e)
  }

  /** The buffer holds the tree, with offsets counted from base. */
  ghost predicate Is(buf: seq<Unit>, base: int, n: Node)
    decreases n
  {
    && 0 <= n.pos < |buf|
    && match n
      case NConst(p, c) => buf[p] == Const(c)
      case NVar(p, v) => buf[p] == Var(v)
      case NJoin(p, op, l, r) => buf[p] == Branch(op, l.pos - base, r.pos - base) && Is(buf, base, l) && Is(buf, base, r)
      case NNega(p, e) => buf[p] == Nega(e.pos - base) && Is(buf, base, e)
      case NCnstrt(p, e, a) => buf[p] == Cnstrt(e.pos - base, a.pos - base) && Is(buf, base, e) && IsAtom(buf, a)
  }

  /** An atom's offsets count from its own data. */
  ghost predicate IsAtom(buf: seq<Unit>, a: NAtom)
    decreases a
  {
    var data := a.pos + ATOMHDR;
    && 0 <= a.pos < |buf| && buf[a.pos] == AtomHead(a.l.pos - data, a.r.pos - data)
    && Is(buf, data, a.l) && Is(buf, data, a.r)
  }

  lemma {:induction false} HeadsArePlaces(n: Node)
    ensures Heads(n) <= Places(n) && n.pos in Heads(n)
  {
    match n
    case NConst(_, _) =>
    case NVar(_, _) =>
    case NJoin(_, _, l, r) => HeadsArePlaces(l); HeadsArePlaces(r);
    case NNega(_, e) => HeadsArePlaces(e);
    case NCnstrt(_, e, _) => HeadsArePlaces(e);
  }

  lemma {:induction false} PlacesInside(buf: seq<Unit>, base: int, n: Node)
    requires Is(buf, base, n)
    ensures forall p :: p in Places(n) ==> 0 <= p < |buf|
    decreases n
  {
    match n
    case NConst(_, _) =>
    case NVar(_, _) =>
    case NJoin(_, _, l, r) => PlacesInside(buf, base, l); PlacesInside(buf, base, r);
    case NNega(_, e) => PlacesInside(buf, base, e);
    case NCnstrt(_, e, a) => PlacesInside(buf, base, e); AtomInside(buf, a);
  }

  lemma {:induction false} AtomInside(buf: seq<Unit>, a: NAtom)
    requires IsAtom(buf, a)
    ensures forall p :: p in AtomPlaces(a) ==> 0 <= p < |buf|
    decreases a
  {
    PlacesInside(buf, a.pos + ATOMHDR, a.l);
    PlacesInside(buf, a.pos + ATOMHDR, a.r);
  }

  ghost predicate SameOn(buf: seq<Unit>, buf': seq<Unit>, s: set<int>) {
    |buf| <= |buf'| && forall p :: p in s && 0 <= p < |buf| ==> buf'[p] == buf[p]
  }

  /** A tree is not affected by what changes elsewhere. */
  lemma {:induction false} Unaffected(buf: seq<Unit>, buf': seq<Unit>, base: int, n: Node)
    requires Is(buf, base, n) && SameOn(buf, buf', Places(n))
    ensures Is(buf', base, n)
    decreases n
  {
    HeadsArePlaces(n);
    match n
    case NConst(_, _) =>
    case NVar(_, _) =>
    case NJoin(_, _, l, r) => Unaffected(buf, buf', base, l); Unaffected(buf, buf', base, r);
    case NNega(_, e) => Unaffected(buf, buf', base, e);
    case NCnstrt(_, e, a) => Unaffected(buf, buf', base, e); AtomUnaffected(buf, buf', a);
  }

  lemma {:induction false} AtomUnaffected(buf: seq<Unit>, buf': seq<Unit>, a: NAtom)
    requires IsAtom(buf, a) && SameOn(buf, buf', AtomPlaces(a))
    ensures IsAtom(buf', a)
    decreases a
  {
    Unaffected(buf, buf', a.pos + ATOMHDR, a.l);
    Unaffected(buf, buf', a.pos + ATOMHDR, a.r);
  }

  // ---------------------------------------------------------------- moving a tree

  function Moved(n: Node, d: int): Node {
    match n
    case NConst(p, c) => NConst(p + d, c)
    case NVar(p, v) => NVar(p + d, v)
    case NJoin(p, op, l, r) => NJoin(p + d, op, Moved(l, d), Moved(r, d))
    case NNega(p, e) => NNega(p + d, Moved(e, d))
    case NCnstrt(p, e, a) => NCnstrt(p + d, Moved(e, d), MovedAtom(a, d))
  }

  function MovedAtom(a: NAtom, d: int): NAtom {
    NAtom(a.pos + d, Moved(a.l, d), Moved(a.r, d))
  }

  /** dst holds a copy of src at the distance d. */
  ghost predicate Copied(src: seq<Unit>, dst: seq<Unit>, d: int) {
    0 <= d && d + |src| <= |dst| && forall p :: 0 <= p < |src| ==> dst[p + d] == src[p]
  }

  /** A copy holds the moved tree, its offsets counted from the moved base. */
  lemma {:induction false} CopyHolds(src: seq<Unit>, dst: seq<Unit>, base: int, n: Node, d: int)
    requires Is(src, base, n) && Copied(src, dst, d)
    ensures Is(dst, base + d, Moved(n, d)) && Moved(n, d).pos == n.pos + d
    decreases n
  {
    match n
    case NConst(_, _) =>
    case NVar(_, _) =>
    case NJoin(_, _, l, r) => CopyHolds(src, dst, base, l, d); CopyHolds(src, dst, base, r, d);
    case NNega(_, e) => CopyHolds(src, dst, base, e, d);
    case NCnstrt(_, e, a) => CopyHolds(src, dst, base, e, d); AtomCopyHolds(src, dst, a, d);
  }

  lemma {:induction false} AtomCopyHolds(src: seq<Unit>, dst: seq<Unit>, a: NAtom, d: int)
    requires IsAtom(src, a) && Copied(src, dst, d)
    ensures IsAtom(dst, MovedAtom(a, d))
    decreases a
  {
    CopyHolds(src, dst, a.pos + ATOMHDR, a.l, d);
    CopyHolds(src, dst, a.pos + ATOMHDR, a.r, d);
  }

  /** The places s moved by d. */
  ghost predicate IsShift(s: set<int>, t: set<int>, d: int) {
    (forall p :: p in s ==> p + d in t) && (forall p :: p in t ==> p - d in s)
  }

  lemma ShiftBoth(s: set<int>, t: set<int>, u: set<int>, v: set<int>, d: int)
    requires IsShift(s, t, d) && IsShift(u, v, d)
    ensures IsShift(s + u, t + v, d)
    ensures s !! u ==> t !! v
  {
    forall x | x in t && x in v ensures x - d in s && x - d in u {}
  }

  lemma ShiftOne(p: int, s: set<int>, t: set<int>, d: int)
    requires IsShift(s, t, d)
    ensures IsShift({p} + s, {p + d} + t, d)
    ensures p !in s ==> p + d !in t
  {
    if p + d in t { assert p + d - d in s; }
  }

  lemma PlacesAre(n: Node)
    ensures n.NConst? || n.NVar? ==> Places(n) == {n.pos}
    ensures n.NJoin? ==> Places(n) == {n.pos} + Places(n.l) + Places(n.r)
    ensures n.NNega? ==> Places(n) == {n.pos} + Places(n.e)
    ensures n.NCnstrt? ==> Places(n) == {n.pos} + Places(n.e) + AtomPlaces(n.a)
  {
    hide AtomPlaces;
  }

  lemma {:induction false} MovedPlaces(n: Node, d: int)
    ensures IsShift(Places(n), Places(Moved(n, d)), d)
    decreases n
  {
    hide IsShift, Places, AtomPlaces, MovedAtom;
    PlacesAre(n);
    PlacesAre(Moved(n, d));
    match n
    case NConst(p, _) => ShiftNone(p, d);
    case NVar(p, _) => ShiftNone(p, d);
    case NJoin(p, _, l, r) =>
      MovedPlaces(l, d);
      MovedPlaces(r, d);
      ShiftOne(p, Places(l), Places(Moved(l, d)), d);
      ShiftBoth({p} + Places(l), {p + d} + Places(Moved(l, d)), Places(r), Places(Moved(r, d)), d);
    case NNega(p, e) =>
      MovedPlaces(e, d);
      ShiftOne(p, Places(e), Places(Moved(e, d)), d);
    case NCnstrt(p, e, a) =>
      MovedPlaces(e, d);
      MovedAtomPlaces(a, d);
      ShiftOne(p, Places(e), Places(Moved(e, d)), d);
      ShiftBoth({p} + Places(e), {p + d} + Places(Moved(e, d)), AtomPlaces(a), AtomPlaces(MovedAtom(a, d)), d);
  }

  lemma ShiftNone(p: int, d: int)
    ensures IsShift({p}, {p + d}, d)
  {
  }

  lemma {:induction false} MovedAtomPlaces(a: NAtom, d: int)
    ensures IsShift(AtomPlaces(a), AtomPlaces(MovedAtom(a, d)), d)
    decreases a
  {
    hide IsShift, Places;
    MovedPlaces(a.l, d);
    MovedPlaces(a.r, d);
    ShiftOne(a.pos, Places(a.l), Places(Moved(a.l, d)), d);
    ShiftBoth({a.pos} + Places(a.l), {a.pos + d} + Places(Moved(a.l, d)), Places(a.r), Places(Moved(a.r, d)), d);
  }

  lemma {:induction false} MovedApart(n: Node, d: int)
    requires Apart(n)
    ensures Apart(Moved(n, d))
    decreases n
  {
    hide Places, AtomPlaces, IsShift;
    match n
    case NConst(_, _) =>
    case NVar(_, _) =>
    case NJoin(p, _, l, r) =>
      MovedApart(l, d);
      MovedApart(r, d);
      MovedPlaces(l, d);
      MovedPlaces(r, d);
      ShiftOne(p, Places(l), Places(Moved(l, d)), d);
      ShiftOne(p, Places(r), Places(Moved(r, d)), d);
      ShiftBoth(Places(l), Places(Moved(l, d)), Places(r), Places(Moved(r, d)), d);
    case NNega(p, e) =>
      MovedApart(e, d);
      MovedPlaces(e, d);
      ShiftOne(p, Places(e), Places(Moved(e, d)), d);
    case NCnstrt(p, e, a) =>
      MovedApart(e, d);
      MovedPlaces(e, d);
      MovedAtomPlaces(a, d);
      ShiftOne(p, Places(e), Places(Moved(e, d)), d);
      ShiftOne(p, AtomPlaces(a), AtomPlaces(MovedAtom(a, d)), d);
      ShiftBoth(Places(e), Places(Moved(e, d)), AtomPlaces(a), AtomPlaces(MovedAtom(a, d)), d);
  }

  lemma {:induction false} MovedSame(n: Node, d: int)
    ensures Erase(Moved(n, d)) == Erase(n)
    decreases n
  {
    match n
    case NConst(_, _) =>
    case NVar(_, _) =>
    case NJoin(_, _, l, r) => MovedSame(l, d); MovedSame(r, d);
    case NNega(_, e) => MovedSame(e, d);
    case NCnstrt(_, e, a) => MovedSame(e, d); MovedSame(a.l, d); MovedSame(a.r, d);
  }

  // ---------------------------------------------------------------- relocation

  predicate Fits16(x: int) {
    -0x8000 <= x <= 0x7fff
  }

  /** All offsets outside atoms fit their 16 bits. */
  ghost predicate LinksFit(n: Node, base: int) {
    match n
    case NConst(_, _) => true
    case NVar(_, _) => true
    case NJoin(_, _, l, r) => Fits16(l.pos - base) && Fits16(r.pos - base) && LinksFit(l, base) && LinksFit(r, base)
    case NNega(_, e) => Fits16(e.pos - base) && LinksFit(e, base)
    case NCnstrt(_, e, a) => Fits16(e.pos - base) && Fits16(a.pos - base) && LinksFit(e, base)
  }

  /** The buffer holds the tree, but for what 16 bits keep of its offsets. */
  ghost predicate Wrapped(buf: seq<Unit>, base: int, n: Node)
    decreases n
  {
    && 0 <= n.pos < |buf|
    && match n
      case NConst(p, c) => buf[p] == Const(c)
      case NVar(p, v) => buf[p] == Var(v)
      case NJoin(p, op, l, r) =>
        && buf[p] == Branch(op, Wrap16(l.pos - base), Wrap16(r.pos - base))
        && Wrapped(buf, base, l) && Wrapped(buf, base, r)
      case NNega(p, e) => buf[p] == Nega(Wrap16(e.pos - base)) && Wrapped(buf, base, e)
      case NCnstrt(p, e, a) =>
        && buf[p] == Cnstrt(Wrap16(e.pos - base), Wrap16(a.pos - base))
        && Wrapped(buf, base, e) && IsAtom(buf, a)
  }

  lemma WrapKeeps(x: int)
    ensures Wrap16(x) == x <==> Fits16(x)
  {
  }

  /** The tree is what is read exactly when all offsets fit. */
  lemma {:induction false} HeldIffLinksFit(buf: seq<Unit>, base: int, n: Node)
    requires Wrapped(buf, base, n)
    ensures Is(buf, base, n) <==> LinksFit(n, base)
    decreases n
  {
    hide Wrap16, Fits16, IsAtom;
    match n
    case NConst(_, _) =>
    case NVar(_, _) =>
    case NJoin(_, _, l, r) =>
      WrapKeeps(l.pos - base);
      WrapKeeps(r.pos - base);
      HeldIffLinksFit(buf, base, l);
      HeldIffLinksFit(buf, base, r);
    case NNega(_, e) =>
      WrapKeeps(e.pos - base);
      HeldIffLinksFit(buf, base, e);
    case NCnstrt(_, e, a) =>
      WrapKeeps(e.pos - base);
      WrapKeeps(a.pos - base);
      HeldIffLinksFit(buf, base, e);
  }

  lemma {:induction false} WrappedUnaffected(buf: seq<Unit>, buf': seq<Unit>, base: int, n: Node)
    requires Wrapped(buf, base, n) && SameOn(buf, buf', Places(n))
    ensures Wrapped(buf', base, n)
    decreases n
  {
    hide Wrap16;
    HeadsArePlaces(n);
    match n
    case NConst(_, _) =>
    case NVar(_, _) =>
    case NJoin(_, _, l, r) => WrappedUnaffected(buf, buf', base, l); WrappedUnaffected(buf, buf', base, r);
    case NNega(_, e) => WrappedUnaffected(buf, buf', base, e);
    case NCnstrt(_, e, a) => WrappedUnaffected(buf, buf', base, e); AtomUnaffected(buf, buf', a);
  }

  /** pip_eqn_cmpnt_update_pointers: offsets that counted from base count from base - shift afterwards. */
  method UpdatePointers(buf: array<Unit>, base: int, offset: int, shift: int, ghost n: Node)
    requires Is(buf[..], base, n) && Apart(n) && n.pos == base + offset
    modifies buf
    ensures Wrapped(buf[..], base - shift, n)
    ensures Is(buf[..], base - shift, n) <==> LinksFit(n, base - shift)
    ensures forall p :: 0 <= p < buf.Length && p !in Heads(n) ==> buf[p] == old(buf[p])
    decreases n
  {
    hide *;
    ghost var s := buf[..];
    IsOf(s, base, n);
    PlacesOf(n);
    ApartParts(n);
    var cmp := base + offset;
    match buf[cmp] {
    case Const(_) =>
      LeafRebased(s, base - shift, n);
    case Var(_) =>
      LeafRebased(s, base - shift, n);
    case Branch(op, _, _) =>
      UpdatePointers(buf, base, buf[cmp].left, shift, n.l);
      Elsewhere(s, buf[..], base, n.l, n.r);
      assert buf[cmp] == s[cmp];
      ghost var t := buf[..];
      UpdatePointers(buf, base, buf[cmp].right, shift, n.r);
      WrappedElsewhere(t, buf[..], base - shift, n.r, n.l);
      assert buf[cmp] == t[cmp];
      ghost var u := buf[..];
      buf[cmp] := Branch(op, Wrap16(buf[cmp].left + shift), Wrap16(buf[cmp].right + shift));
      JoinRebased(u, buf[..], base - shift, n);
    case Nega(_) =>
      UpdatePointers(buf, base, buf[cmp].ptr, shift, n.e);
      assert buf[cmp] == s[cmp];
      ghost var u := buf[..];
      buf[cmp] := Nega(Wrap16(buf[cmp].ptr + shift));
      NegaRebased(u, buf[..], base - shift, n);
    case Cnstrt(_, _) =>
      UpdatePointers(buf, base, buf[cmp].left, shift, n.e);
      assert buf[cmp] == s[cmp];
      ghost var u := buf[..];
      AtomElsewhere(s, u, n.e, n.a);
      buf[cmp] := Cnstrt(Wrap16(buf[cmp].left + shift), Wrap16(buf[cmp].right + shift));
      CnstrtRebased(u, buf[..], base - shift, n);
    case _ =>
      assert false;
    }
    HeldIffLinksFit(buf[..], base - shift, n);
  }

  lemma IsOf(buf: seq<Unit>, base: int, n: Node)
    requires Is(buf, base, n)
    ensures 0 <= n.pos < |buf|
    ensures n.NConst? ==> buf[n.pos] == Const(n.c)
    ensures n.NVar? ==> buf[n.pos] == Var(n.v)
    ensures n.NJoin? ==>
      buf[n.pos] == Branch(n.op, n.l.pos - base, n.r.pos - base) && Is(buf, base, n.l) && Is(buf, base, n.r)
    ensures n.NNega? ==> buf[n.pos] == Nega(n.e.pos - base) && Is(buf, base, n.e)
    ensures n.NCnstrt? ==>
      buf[n.pos] == Cnstrt(n.e.pos - base, n.a.pos - base) && Is(buf, base, n.e) && IsAtom(buf, n.a)
  {
  }

  lemma PlacesOf(n: Node)
    ensures Heads(n) <= Places(n) && n.pos in Heads(n)
    ensures n.NJoin? ==>
      Heads(n) == {n.pos} + Heads(n.l) + Heads(n.r) && Heads(n.l) <= Places(n.l) && Heads(n.r) <= Places(n.r)
    ensures n.NNega? || n.NCnstrt? ==> Heads(n) == {n.pos} + Heads(n.e) && Heads(n.e) <= Places(n.e)
  {
    HeadsArePlaces(n);
    if n.NJoin? {
      HeadsArePlaces(n.l);
      HeadsArePlaces(n.r);
    } else if n.NNega? || n.NCnstrt? {
      HeadsArePlaces(n.e);
    }
  }

  lemma ApartParts(n: Node)
    requires Apart(n)
    ensures n.NJoin? ==>
      Apart(n.l) && Apart(n.r) && Places(n.l) !! Places(n.r) && n.pos !in Places(n.l) && n.pos !in Places(n.r)
    ensures n.NNega? || n.NCnstrt? ==> Apart(n.e) && n.pos !in Places(n.e)
    ensures n.NCnstrt? ==> n.pos !in AtomPlaces(n.a) && Places(n.e) !! AtomPlaces(n.a)
  {
  }

  lemma SubPlaces(n: Node)
    ensures n.NJoin? ==> Places(n.l) <= Places(n) && Places(n.r) <= Places(n)
    ensures n.NNega? || n.NCnstrt? ==> Places(n.e) <= Places(n)
    ensures n.NCnstrt? ==> AtomPlaces(n.a) <= Places(n) && n.a.pos in AtomPlaces(n.a)
  {
    match n
    case NJoin(_, _, _, _) =>
    case NNega(_, _) =>
    case NCnstrt(_, _, _) =>
    case _ =>
  }

  lemma LeafRebased(buf: seq<Unit>, base: int, n: Node)
    requires 0 <= n.pos < |buf|
    requires (n.NConst? && buf[n.pos] == Const(n.c)) || (n.NVar? && buf[n.pos] == Var(n.v))
    ensures Wrapped(buf, base, n)
  {
  }

  /** Changes at the heads of one tree leave the other as it is. */
  lemma Elsewhere(buf: seq<Unit>, buf': seq<Unit>, base: int, changed: Node, n: Node)
    requires |buf'| == |buf| && forall p :: 0 <= p < |buf| && p !in Heads(changed) ==> buf'[p] == buf[p]
    requires Places(changed) !! Places(n)
    ensures Is(buf, base, n) ==> Is(buf', base, n)
  {
    HeadsArePlaces(changed);
    if Is(buf, base, n) { Unaffected(buf, buf', base, n); }
  }

  lemma WrappedElsewhere(buf: seq<Unit>, buf': seq<Unit>, base: int, changed: Node, n: Node)
    requires |buf'| == |buf| && forall p :: 0 <= p < |buf| && p !in Heads(changed) ==> buf'[p] == buf[p]
    requires Places(changed) !! Places(n) && Wrapped(buf, base, n)
    ensures Wrapped(buf', base, n)
  {
    HeadsArePlaces(changed);
    WrappedUnaffected(buf, buf', base, n);
  }

  lemma AtomElsewhere(buf: seq<Unit>, buf': seq<Unit>, changed: Node, a: NAtom)
    requires |buf'| == |buf| && forall p :: 0 <= p < |buf| && p !in Heads(changed) ==> buf'[p] == buf[p]
    requires Places(changed) !! AtomPlaces(a) && IsAtom(buf, a)
    ensures IsAtom(buf', a)
  {
    HeadsArePlaces(changed);
    AtomUnaffected(buf, buf', a);
  }

  lemma JoinRebased(buf: seq<Unit>, buf': seq<Unit>, base: int, n: Node)
    requires n.NJoin? && Wrapped(buf, base, n.l) && Wrapped(buf, base, n.r) && 0 <= n.pos < |buf|
    requires n.pos !in Places(n.l) && n.pos !in Places(n.r)
    requires buf' == buf[n.pos := Branch(n.op, Wrap16(n.l.pos - base), Wrap16(n.r.pos - base))]
    ensures Wrapped(buf', base, n)
  {
    hide *;
    SameExcept(buf, buf', n.pos, n.l);
    SameExcept(buf, buf', n.pos, n.r);
    WrappedUnaffected(buf, buf', base, n.l);
    WrappedUnaffected(buf, buf', base, n.r);
    WrappedJoin(buf', base, n);
  }

  lemma SameExcept(buf: seq<Unit>, buf': seq<Unit>, pos: int, n: Node)
    requires 0 <= pos < |buf| == |buf'| && (forall p :: 0 <= p < |buf| && p != pos ==> buf'[p] == buf[p])
    requires pos !in Places(n)
    ensures SameOn(buf, buf', Places(n))
  {
    hide Places;
  }

  lemma WrappedJoin(buf: seq<Unit>, base: int, n: Node)
    requires n.NJoin? && 0 <= n.pos < |buf| && Wrapped(buf, base, n.l) && Wrapped(buf, base, n.r)
    requires buf[n.pos] == Branch(n.op, Wrap16(n.l.pos - base), Wrap16(n.r.pos - base))
    ensures Wrapped(buf, base, n)
  {
  }

  lemma NegaRebased(buf: seq<Unit>, buf': seq<Unit>, base: int, n: Node)
    requires n.NNega? && Wrapped(buf, base, n.e) && 0 <= n.pos < |buf|
    requires n.pos !in Places(n.e) && buf' == buf[n.pos := Nega(Wrap16(n.e.pos - base))]
    ensures Wrapped(buf', base, n)
  {
    hide Wrap16;
    WrappedUnaffected(buf, buf', base, n.e);
  }

  lemma CnstrtRebased(buf: seq<Unit>, buf': seq<Unit>, base: int, n: Node)
    requires n.NCnstrt? && Wrapped(buf, base, n.e) && IsAtom(buf, n.a) && 0 <= n.pos < |buf|
    requires n.pos !in Places(n.e) && n.pos !in AtomPlaces(n.a)
    requires buf' == buf[n.pos := Cnstrt(Wrap16(n.e.pos - base), Wrap16(n.a.pos - base))]
    ensures Wrapped(buf', base, n)
  {
    hide Wrap16;
    WrappedUnaffected(buf, buf', base, n.e);
    AtomUnaffected(buf, buf', n.a);
  }

  // ---------------------------------------------------------------- evaluation

  /** pip_eqn_cmpnt_evaluate_seed and _sample: v gives the variables' values. */
  method Evaluate(buf: seq<Unit>, base: int, offset: int, v: VarId -> real, ghost n: Node) returns (val: real)
    requires Is(buf, base, n) && n.pos == base + offset
    ensures val == Value(Erase(n), v)
    decreases n
  {
    IsOf(buf, base, n);
    match buf[base + offset]
    case Const(c) => val := c;
    case Var(x) => val := v(x);
    case Branch(op, left, right) =>
      val := Evaluate(buf, base, left, v, n.l);
      var r := Evaluate(buf, base, right, v, n.r);
      val := if op == Mult then val * r else val + r;
    case Nega(ptr) =>
      val := Evaluate(buf, base, ptr, v, n.e);
      val := 0.0 - val;
    case Cnstrt(left, right) =>
      var holds := EvaluateAtom(buf, base + right, v, n.a);
      if holds {
        val := Evaluate(buf, base, left, v, n.e);
      } else {
        val := 0.0;
      }
    case _ => assert false;
  }

  /** pip_atom_evaluate_seed and _sample */
  method EvaluateAtom(buf: seq<Unit>, pos: int, v: VarId -> real, ghost a: NAtom) returns (holds: bool)
    requires IsAtom(buf, a) && a.pos == pos
    ensures holds <==> Holds(EraseAtom(a), v)
    decreases a
  {
    var left := Evaluate(buf, pos + ATOMHDR, buf[pos].left, v, a.l);
    var right := Evaluate(buf, pos + ATOMHDR, buf[pos].right, v, a.r);
    return left > right;
  }

  // ---------------------------------------------------------------- composition

  /** The equation's data hold the tree n from their start. */
  ghost predicate IsTree(data: seq<Unit>, n: Node) {
    Is(data, 0, n) && n.pos == 0 && Apart(n)
  }

  ghost predicate IsEqn(data: seq<Unit>, e: Expr) {
    exists n :: IsTree(data, n) && Erase(n) == e
  }

  /** A whole atom, its header included. */
  ghost predicate IsAtomData(data: seq<Unit>, a: Atom) {
    exists n :: IsAtom(data, n) && n.pos == 0 && EraseAtom(n) == a
  }

  /** Any value in any environment is what evaluation of the data gives. */
  method EvaluateEqn(data: seq<Unit>, v: VarId -> real, ghost e: Expr) returns (val: real)
    requires IsEqn(data, e)
    ensures val == Value(e, v)
  {
    ghost var n :| IsTree(data, n) && Erase(n) == e;
    val := Evaluate(data, 0, 0, v, n);
  }

  method MemCpy(buf: array<Unit>, d: nat, src: seq<Unit>)
    requires d + |src| <= buf.Length
    modifies buf
    ensures Copied(src, buf[..], d)
    ensures forall p :: 0 <= p < d || d + |src| <= p < buf.Length ==> buf[p] == old(buf[p])
  {
    for i := 0 to |src|
      invariant forall p :: 0 <= p < i ==> buf[p + d] == src[p]
      invariant forall p :: 0 <= p < d || d + |src| <= p < buf.Length ==> buf[p] == old(buf[p])
    {
      buf[d + i] := src[i];
    }
  }

  /** The places of a tree lie in lo .. hi. */
  ghost predicate Within(n: Node, lo: int, hi: int) {
    forall p :: p in Places(n) ==> lo <= p < hi
  }

  lemma MovedWithin(src: seq<Unit>, n: Node, d: int)
    requires Is(src, 0, n)
    ensures Within(Moved(n, d), d, d + |src|)
  {
    PlacesInside(src, 0, n);
    MovedPlaces(n, d);
    forall p | p in Places(Moved(n, d)) ensures d <= p < d + |src| { assert p - d in Places(n); }
  }

  /** All places of the tree can be reached from base. */
  ghost predicate InReach(n: Node, base: int) {
    forall p :: p in Places(n) ==> 0 <= p - base <= 0x7fff
  }

  lemma {:induction false} ReachFits(n: Node, base: int)
    requires InReach(n, base)
    ensures LinksFit(n, base)
    decreases n
  {
    SubPlaces(n);
    match n
    case NConst(_, _) =>
    case NVar(_, _) =>
    case NJoin(_, _, l, r) =>
      HeadsArePlaces(l);
      HeadsArePlaces(r);
      ReachFits(l, base);
      ReachFits(r, base);
    case NNega(_, e) =>
      HeadsArePlaces(e);
      ReachFits(e, base);
    case NCnstrt(_, e, _) =>
      HeadsArePlaces(e);
      ReachFits(e, base);
  }

  /** The pair of steps every composition repeats: a part is copied in and its offsets are updated. */
  method Copy(buf: array<Unit>, start: nat, strpos: nat, src: seq<Unit>, ghost n: Node)
    requires IsTree(src, n) && start + strpos + |src| <= buf.Length
    modifies buf
    ensures Wrapped(buf[..], start, Moved(n, start + strpos)) && Apart(Moved(n, start + strpos))
    ensures Within(Moved(n, start + strpos), start + strpos, start + strpos + |src|)
    ensures Moved(n, start + strpos).pos == start + strpos && Erase(Moved(n, start + strpos)) == Erase(n)
    ensures forall p :: 0 <= p < start + strpos || start + strpos + |src| <= p < buf.Length ==> buf[p] == old(buf[p])
  {
    hide Is, Apart, Places, Heads;
    ghost var d := start + strpos;
    ghost var m := Moved(n, d);
    MovedWithin(src, n, d);
    MovedApart(n, d);
    MovedSame(n, d);
    MemCpy(buf, start + strpos, src);
    CopyHolds(src, buf[..], 0, n, d);
    HeadsArePlaces(m);
    UpdatePointers(buf, start + strpos, 0, strpos, m);
  }

  /** The same where the buffer is short enough for all offsets. */
  method Place(buf: array<Unit>, start: nat, strpos: nat, src: seq<Unit>, ghost n: Node)
    requires IsTree(src, n) && start + strpos + |src| <= buf.Length && buf.Length - start <= 0x8000
    modifies buf
    ensures Is(buf[..], start, Moved(n, start + strpos)) && Apart(Moved(n, start + strpos))
    ensures Within(Moved(n, start + strpos), start + strpos, start + strpos + |src|)
    ensures Moved(n, start + strpos).pos == start + strpos && Erase(Moved(n, start + strpos)) == Erase(n)
    ensures forall p :: 0 <= p < start + strpos || start + strpos + |src| <= p < buf.Length ==> buf[p] == old(buf[p])
  {
    hide Is, Apart, Places, LinksFit;
    Copy(buf, start, strpos, src, n);
    ghost var m := Moved(n, start + strpos);
    ReachFits(m, start);
    HeldIffLinksFit(buf[..], start, m);
  }

  /** Trees below a place are not affected by what changes from there on. */
  lemma Below(buf: seq<Unit>, buf': seq<Unit>, base: int, n: Node, lo: int, hi: int)
    requires Is(buf, base, n) && Within(n, lo, hi) && |buf'| == |buf|
    requires forall p :: 0 <= p < |buf| && lo <= p < hi ==> buf'[p] == buf[p]
    ensures Is(buf', base, n)
  {
    Unaffected(buf, buf', base, n);
  }

  lemma IsJoin(buf: seq<Unit>, base: int, n: Node)
    requires n.NJoin? && Is(buf, base, n.l) && Is(buf, base, n.r) && 0 <= n.pos < |buf|
    requires buf[n.pos] == Branch(n.op, n.l.pos - base, n.r.pos - base)
    ensures Is(buf, base, n)
  {
  }

  lemma ApartJoin(n: Node, lo: int, mid: int, hi: int)
    requires n.NJoin? && Apart(n.l) && Apart(n.r) && n.pos < lo <= mid && Within(n.l, lo, mid) && Within(n.r, mid, hi)
    ensures Apart(n)
  {
    hide Places;
    assert n.pos !in Places(n.l) && n.pos !in Places(n.r);
    forall p | p in Places(n.l) ensures p !in Places(n.r) {}
    assert Places(n.l) !! Places(n.r);
  }

  /** Two trees behind a branch that leads to both. */
  lemma JoinTree(buf: seq<Unit>, op: Op, l: Node, r: Node, lo: int, mid: int, hi: int)
    requires Is(buf, 0, l) && Is(buf, 0, r) && Apart(l) && Apart(r) && |buf| > 0
    requires 0 < lo <= mid && Within(l, lo, mid) && Within(r, mid, hi) && buf[0] == Branch(op, l.pos, r.pos)
    ensures IsTree(buf, NJoin(0, op, l, r)) && Erase(NJoin(0, op, l, r)) == Join(op, Erase(l), Erase(r))
  {
    hide Is, Apart, Within;
    IsJoin(buf, 0, NJoin(0, op, l, r));
    ApartJoin(NJoin(0, op, l, r), lo, mid, hi);
  }

  ghost function JoinNode(op: Op, nl: Node, nr: Node, mid: int): Node {
    NJoin(0, op, Moved(nl, CMPNT), Moved(nr, mid))
  }

  /** What a composition leaves: the tree n, or at least its wrapped offsets; short buffers hold it. */
  ghost predicate Composed(eqn: seq<Unit>, n: Node) {
    && Wrapped(eqn, 0, n) && Apart(n) && n.pos == 0
    && (IsTree(eqn, n) <==> LinksFit(n, 0))
    && (|eqn| <= 0x8000 ==> LinksFit(n, 0))
  }

  lemma ComposedIf(eqn: seq<Unit>, n: Node)
    requires Wrapped(eqn, 0, n) && Apart(n) && n.pos == 0 && Within(n, 0, |eqn|)
    ensures Composed(eqn, n)
  {
    hide Wrapped, Is, Apart, LinksFit, Places;
    HeldIffLinksFit(eqn, 0, n);
    if |eqn| <= 0x8000 { ReachFits(n, 0); }
  }

  /** Trees below a place are not affected by what changes from there on. */
  lemma WrappedBelow(buf: seq<Unit>, buf': seq<Unit>, base: int, n: Node, lo: int, hi: int)
    requires Wrapped(buf, base, n) && Within(n, lo, hi) && |buf'| == |buf|
    requires forall p :: 0 <= p < |buf| && lo <= p < hi ==> buf'[p] == buf[p]
    ensures Wrapped(buf', base, n)
  {
    WrappedUnaffected(buf, buf', base, n);
  }

  /** A branch in front of both parts. */
  lemma JoinComposed(eqn: seq<Unit>, n: Node, mid: int)
    requires n.NJoin? && n.pos == 0 && 0 < CMPNT <= mid && Within(n.l, CMPNT, mid) && Within(n.r, mid, |eqn|)
    requires Wrapped(eqn, 0, n.l) && Wrapped(eqn, 0, n.r) && Apart(n.l) && Apart(n.r) && mid <= |eqn|
    requires eqn[0] == Branch(n.op, Wrap16(n.l.pos), Wrap16(n.r.pos))
    ensures Composed(eqn, n)
  {
    ApartJoin(n, CMPNT, mid, |eqn|);
    PlacesAre(n);
    hide Apart, Wrap16, Places;
    assert Within(n, 0, |eqn|);
    assert Wrapped(eqn, 0, n);
    hide Wrapped;
    ComposedIf(eqn, n);
  }

  /** pip_eqn_compose_ee: the result holds the joined tree exactly when all its offsets fit 16 bits. */
  method JoinEE(op: Op, left: seq<Unit>, right: seq<Unit>, ghost nl: Node, ghost nr: Node) returns (eqn: seq<Unit>)
    requires IsTree(left, nl) && IsTree(right, nr)
    ensures |eqn| == CMPNT + |left| + |right| && Composed(eqn, JoinNode(op, nl, nr, CMPNT + |left|))
    ensures Erase(JoinNode(op, nl, nr, CMPNT + |left|)) == Join(op, Erase(nl), Erase(nr))
  {
    hide Is, Apart, Within, IsTree, Wrap16, Composed, Wrapped;
    var buf := new Unit[CMPNT + |left| + |right|](_ => Pad);
    var strpos := CMPNT;
    buf[0] := Branch(op, 0, 0);
    Copy(buf, 0, strpos, left, nl);
    ghost var ml, s := Moved(nl, strpos), buf[..];
    buf[0] := Branch(op, Wrap16(strpos), 0);
    strpos := strpos + |left|;
    Copy(buf, 0, strpos, right, nr);
    ghost var mr, t := Moved(nr, strpos), buf[..];
    buf[0] := Branch(op, buf[0].left, Wrap16(strpos));
    eqn := buf[..];
    WrappedBelow(s, eqn, 0, ml, CMPNT, strpos);
    WrappedBelow(t, eqn, 0, mr, strpos, |eqn|);
    JoinComposed(eqn, JoinNode(op, nl, nr, strpos), strpos);
  }

  /** The same for equations that are short enough. */
  method ComposeEE(op: Op, left: seq<Unit>, right: seq<Unit>, ghost l: Expr, ghost r: Expr) returns (eqn: seq<Unit>)
    requires IsEqn(left, l) && IsEqn(right, r) && CMPNT + |left| + |right| <= 0x8000
    ensures IsEqn(eqn, Join(op, l, r)) && |eqn| == CMPNT + |left| + |right|
  {
    hide IsTree, LinksFit, Wrapped, Apart;
    ghost var nl :| IsTree(left, nl) && Erase(nl) == l;
    ghost var nr :| IsTree(right, nr) && Erase(nr) == r;
    eqn := JoinEE(op, left, right, nl, nr);
  }

  /** pip_eqn_compose_ef: the number becomes the left operand. */
  method JoinEF(op: Op, left: seq<Unit>, c: real, ghost nl: Node) returns (eqn: seq<Unit>)
    requires IsTree(left, nl)
    ensures |eqn| == 2 * CMPNT + |left| && Composed(eqn, JoinNode(op, NConst(0, c), nl, 2 * CMPNT))
    ensures Erase(JoinNode(op, NConst(0, c), nl, 2 * CMPNT)) == Join(op, Number(c), Erase(nl))
  {
    hide Apart, Within, IsTree, Composed;
    var buf := new Unit[2 * CMPNT + |left|](_ => Pad);
    var strpos := CMPNT;
    buf[strpos] := Const(c);
    buf[0] := Branch(op, Wrap16(strpos), 0);
    strpos := strpos + CMPNT;
    Copy(buf, 0, strpos, left, nl);
    ghost var ml, mc, s := Moved(nl, strpos), NConst(CMPNT, c), buf[..];
    buf[0] := Branch(op, buf[0].left, Wrap16(strpos));
    eqn := buf[..];
    WrappedBelow(s, eqn, 0, ml, strpos, |eqn|);
    OneNumber(mc, strpos);
    JoinComposed(eqn, JoinNode(op, NConst(0, c), nl, strpos), strpos);
  }

  method ComposeEF(op: Op, left: seq<Unit>, c: real, ghost l: Expr) returns (eqn: seq<Unit>)
    requires IsEqn(left, l) && 2 * CMPNT + |left| <= 0x8000
    ensures IsEqn(eqn, Join(op, Number(c), l)) && |eqn| == 2 * CMPNT + |left|
  {
    hide IsTree, LinksFit, Wrapped, Apart;
    ghost var nl :| IsTree(left, nl) && Erase(nl) == l;
    eqn := JoinEF(op, left, c, nl);
  }

  lemma OneNumber(n: Node, hi: int)
    requires n.NConst? && n.pos < hi
    ensures Within(n, n.pos, hi) && Apart(n)
  {
  }

  /** pip_eqn_compose_one with a negation; the buffer is one component longer than it need be. */
  method Negate(child: seq<Unit>, ghost n: Node) returns (eqn: seq<Unit>)
    requires IsTree(child, n)
    ensures |eqn| == 2 * CMPNT + |child| && Composed(eqn, NNega(0, Moved(n, CMPNT)))
    ensures Erase(NNega(0, Moved(n, CMPNT))) == Minus(Erase(n))
  {
    hide Is, Apart, Within, IsTree, Composed, Wrapped, Wrap16;
    var buf := new Unit[2 * CMPNT + |child|](_ => Pad);
    var strpos := CMPNT;
    Copy(buf, 0, strpos, child, n);
    ghost var m, s := Moved(n, strpos), buf[..];
    buf[0] := Nega(Wrap16(strpos));
    eqn := buf[..];
    WrappedBelow(s, eqn, 0, m, strpos, strpos + |child|);
    NegaComposed(eqn, m, strpos, strpos + |child|);
  }

  lemma NegaComposed(eqn: seq<Unit>, e: Node, lo: int, hi: int)
    requires Wrapped(eqn, 0, e) && Apart(e) && 0 < lo <= hi <= |eqn| && Within(e, lo, hi) && eqn[0] == Nega(Wrap16(e.pos))
    ensures Composed(eqn, NNega(0, e))
  {
    var n := NNega(0, e);
    PlacesAre(n);
    assert Apart(n) && Within(n, 0, |eqn|) && Wrapped(eqn, 0, n);
    hide Apart, Within, Wrapped;
    ComposedIf(eqn, n);
  }

  method ComposeNega(child: seq<Unit>, ghost e: Expr) returns (eqn: seq<Unit>)
    requires IsEqn(child, e) && 2 * CMPNT + |child| <= 0x8000
    ensures IsEqn(eqn, Minus(e)) && |eqn| == 2 * CMPNT + |child|
  {
    hide IsTree, LinksFit, Wrapped, Apart;
    ghost var n :| IsTree(child, n) && Erase(n) == e;
    eqn := Negate(child, n);
  }

  /** Composed equations have the value of the operation on the parts. */
  method Difference(x: seq<Unit>, y: seq<Unit>, ghost l: Expr, ghost r: Expr) returns (eqn: seq<Unit>)
    requires IsEqn(x, l) && IsEqn(y, r) && 3 * CMPNT + |x| + |y| <= 0x8000
    ensures exists e :: IsEqn(eqn, e) && forall v :: Value(e, v) == Value(l, v) - Value(r, v)
  {
    var minus := ComposeNega(y, r);
    eqn := ComposeEE(Add, x, minus, l, Minus(r));
    assert forall v :: Value(Join(Add, l, Minus(r)), v) == Value(l, v) - Value(r, v);
  }

  /** pip_atom_compose_cmpnt, behind the header of its own. */
  method ComposeAtom(left: seq<Unit>, right: seq<Unit>, ghost l: Expr, ghost r: Expr) returns (atom: seq<Unit>)
    requires IsEqn(left, l) && IsEqn(right, r) && |left| > 0 && |left| + |right| <= 0x8000
    ensures IsAtomData(atom, Atom(l, r)) && |atom| == ATOMHDR + |left| + |right|
  {
    hide Is, Apart, Within;
    ghost var nl :| IsTree(left, nl) && Erase(nl) == l;
    ghost var nr :| IsTree(right, nr) && Erase(nr) == r;
    var buf := new Unit[ATOMHDR + |left| + |right|](_ => Pad);
    MemCpy(buf, ATOMHDR, left);
    ghost var ml, s := Moved(nl, ATOMHDR), buf[..];
    CopyHolds(left, s, 0, nl, ATOMHDR);
    MovedWithin(left, nl, ATOMHDR);
    Place(buf, ATOMHDR, |left|, right, nr);
    ghost var mr, t := Moved(nr, ATOMHDR + |left|), buf[..];
    buf[0] := AtomHead(0, Wrap16(|left|));
    atom := buf[..];
    Below(s, atom, ATOMHDR, ml, ATOMHDR, ATOMHDR + |left|);
    Below(t, atom, ATOMHDR, mr, ATOMHDR + |left|, |atom|);
    MovedSame(nl, ATOMHDR);
    assert IsAtom(atom, NAtom(0, ml, mr));
  }

  // ---------------------------------------------------------------- sums compiled row by row

  /** The sum that append_slot_ee leaves open: everything but the tree at the slot is in place. */
  ghost predicate SlotOpen(buf: seq<Unit>, n: Node, len: nat, offset: int) {
    && 0 < |buf| && Apart(n)
    && if n.NJoin? && n.op == Add then
         && n.pos == 0 && Within(n, 0, len) && len + CMPNT == offset < |buf|
         && buf[0] == Branch(Add, n.l.pos, len) && buf[len] == Branch(Add, n.r.pos, offset)
         && Is(buf, 0, n.l) && Is(buf, 0, n.r)
       else
         && Within(n, CMPNT, offset) && buf[0] == Branch(Add, n.pos, offset) && Is(buf, 0, n)
  }

  /** The sum with a tree at the slot. */
  ghost function Filled(n: Node, len: nat, s: Node): Node {
    if n.NJoin? && n.op == Add then NJoin(0, Add, n.l, NJoin(len, Add, n.r, s)) else NJoin(0, Add, n, s)
  }

  ghost predicate SameBelow(buf: seq<Unit>, buf': seq<Unit>, hi: int) {
    |buf'| == |buf| && forall p :: 0 <= p < |buf| && p < hi ==> buf'[p] == buf[p]
  }

  lemma SlotKept(buf: seq<Unit>, buf': seq<Unit>, n: Node, len: nat, offset: int)
    requires SlotOpen(buf, n, len, offset) && SameBelow(buf, buf', offset) && 0 < offset
    ensures SlotOpen(buf', n, len, offset)
  {
    if n.NJoin? && n.op == Add {
      SubPlaces(n);
      Below(buf, buf', 0, n.l, 0, len);
      Below(buf, buf', 0, n.r, 0, len);
    } else {
      Below(buf, buf', 0, n, CMPNT, offset);
    }
  }

  lemma FilledTree(buf: seq<Unit>, n: Node, len: nat, offset: int, s: Node)
    requires SlotOpen(buf, n, len, offset) && CMPNT <= offset
    requires Is(buf, 0, s) && Apart(s) && s.pos == offset && Within(s, offset, |buf|)
    ensures IsTree(buf, Filled(n, len, s))
    ensures forall v :: Value(Erase(Filled(n, len, s)), v) == Value(Erase(n), v) + Value(Erase(s), v)
  {
    if n.NJoin? && n.op == Add {
      var m := NJoin(len, Add, n.r, s);
      FilledJoin(buf, n, len, offset, s);
    } else {
      JoinTree(buf, Add, n, s, CMPNT, offset, |buf|);
    }
  }

  lemma FilledJoin(buf: seq<Unit>, n: Node, len: nat, offset: int, s: Node)
    requires SlotOpen(buf, n, len, offset) && n.NJoin? && n.op == Add
    requires Is(buf, 0, s) && Apart(s) && s.pos == offset && Within(s, offset, |buf|)
    ensures IsTree(buf, NJoin(0, Add, n.l, NJoin(len, Add, n.r, s)))
  {
    var m := NJoin(len, Add, n.r, s);
    SubPlaces(n);
    HeadsArePlaces(n);
    IsJoin(buf, 0, m);
    IsJoin(buf, 0, NJoin(0, Add, n.l, m));
    PlacesAre(n);
    PlacesAre(m);
    hide Places, Is;
    forall p | p in Places(n.r) ensures p !in Places(s) && p != len {}
    assert Places(n.r) !! Places(s);
    assert Apart(m);
    forall p | p in Places(n.l) ensures p !in Places(m) {}
    assert Places(n.l) !! Places(m);
    assert 0 !in Places(m) && 0 !in Places(n.l);
  }

  /** An atom to be copied in, and the length of its data. */
  datatype Piece = Piece(a: NAtom, len: nat)

  ghost predicate PieceOk(atom: seq<Unit>, p: Piece) {
    p.len == |atom| && IsAtom(atom, p.a) && p.a.pos == 0
  }

  /** Before end stands a chain of constraints, each leading to its atom and to the next one. */
  ghost predicate ChainReady(buf: seq<Unit>, offset: int, ps: seq<Piece>, end: int) {
    if ps == [] then offset == end else
      var last := ps[|ps| - 1];
      var mid := end - last.len - CMPNT;
      && offset <= mid && 0 <= mid < |buf| && last.a.pos == 0 && buf[mid] == Cnstrt(end, mid + CMPNT)
      && IsAtom(buf, MovedAtom(last.a, mid + CMPNT)) && AtomWithin(MovedAtom(last.a, mid + CMPNT), mid + CMPNT, end)
      && ChainReady(buf, offset, ps[..|ps| - 1], mid)
  }

  ghost predicate AtomWithin(a: NAtom, lo: int, hi: int) {
    forall p :: p in AtomPlaces(a) ==> lo <= p < hi
  }

  /** The chain in front of a tree that stands at end. */
  ghost function Chain(ps: seq<Piece>, end: int, s: Node): Node {
    if ps == [] then s else
      var last := ps[|ps| - 1];
      var mid := end - last.len - CMPNT;
      Chain(ps[..|ps| - 1], mid, NCnstrt(mid, s, MovedAtom(last.a, mid + CMPNT)))
  }

  lemma {:induction false} ChainKept(buf: seq<Unit>, buf': seq<Unit>, offset: int, ps: seq<Piece>, end: int)
    requires ChainReady(buf, offset, ps, end) && SameBelow(buf, buf', end)
    ensures ChainReady(buf', offset, ps, end)
    decreases |ps|
  {
    if ps != [] {
      var last := ps[|ps| - 1];
      var mid := end - last.len - CMPNT;
      AtomUnaffected(buf, buf', MovedAtom(last.a, mid + CMPNT));
      hide IsAtom, AtomPlaces;
      ChainKept(buf, buf', offset, ps[..|ps| - 1], mid);
    }
  }

  function AtomsOf(ps: seq<Piece>): (s: seq<Atom>)
    ensures |s| == |ps| && forall i :: 0 <= i < |ps| ==> s[i] == EraseAtom(ps[i].a)
  {
    seq(|ps|, i requires 0 <= i < |ps| => EraseAtom(ps[i].a))
  }

  lemma {:induction false} ChainTree(buf: seq<Unit>, offset: int, ps: seq<Piece>, end: int, s: Node)
    requires ChainReady(buf, offset, ps, end) && 0 <= offset
    requires Is(buf, 0, s) && Apart(s) && s.pos == end && Within(s, end, |buf|)
    ensures var c := Chain(ps, end, s); Is(buf, 0, c) && Apart(c) && c.pos == offset && Within(c, offset, |buf|)
    ensures forall v :: Value(Erase(Chain(ps, end, s)), v) == if AllHold(AtomsOf(ps), v) then Value(Erase(s), v) else 0.0
    decreases |ps|
  {
    if ps != [] {
      var n := |ps| - 1;
      var last := ps[n];
      var mid := end - last.len - CMPNT;
      var a := MovedAtom(last.a, mid + CMPNT);
      var s' := NCnstrt(mid, s, a);
      ConstraintTree(buf, s', end);
      ChainTree(buf, offset, ps[..n], mid, s');
      MovedSame(last.a.l, mid + CMPNT);
      MovedSame(last.a.r, mid + CMPNT);
      hide Is, Apart, Within, IsAtom, AtomWithin, ChainReady;
      forall v ensures Value(Erase(Chain(ps, end, s)), v) == if AllHold(AtomsOf(ps), v) then Value(Erase(s), v) else 0.0 {
        LastHolds(ps, v);
        assert Value(Erase(s'), v) == if Holds(EraseAtom(last.a), v) then Value(Erase(s), v) else 0.0;
      }
    }
  }

  lemma LastHolds(ps: seq<Piece>, v: VarId -> real)
    requires ps != []
    ensures AllHold(AtomsOf(ps), v) <==>
      AllHold(AtomsOf(ps[..|ps| - 1]), v) && Holds(EraseAtom(ps[|ps| - 1].a), v)
  {
    hide Holds;
    var n := |ps| - 1;
    assert AtomsOf(ps) == AtomsOf(ps[..n]) + [EraseAtom(ps[n].a)];
  }

  lemma ConstraintTree(buf: seq<Unit>, n: Node, end: int)
    requires n.NCnstrt? && 0 <= n.pos < |buf| && buf[n.pos] == Cnstrt(n.e.pos, n.a.pos)
    requires Is(buf, 0, n.e) && Apart(n.e) && Within(n.e, end, |buf|)
    requires IsAtom(buf, n.a) && AtomWithin(n.a, n.pos + 1, end) && n.pos < end <= |buf|
    ensures Is(buf, 0, n) && Apart(n) && Within(n, n.pos, |buf|)
  {
    PlacesAre(n);
    hide Places, AtomPlaces;
    forall p | p in Places(n.e) ensures p !in AtomPlaces(n.a) {}
    assert Places(n.e) !! AtomPlaces(n.a);
  }

  /** pip_eqn_append_slot_ee for a sum: room for one more term of the given size. */
  method AppendSlot(source: seq<Unit>, size: nat, ghost n: Node) returns (buf: array<Unit>, offset: nat, ghost m: Node)
    requires IsTree(source, n) && size > 0 && |source| + CMPNT + size <= 0x8000
    ensures fresh(buf) && buf.Length == |source| + CMPNT + size && offset == |source| + CMPNT
    ensures SlotOpen(buf[..], m, |source|, offset) && Erase(m) == Erase(n)
  {
    hide Apart, Within;
    IsOf(source, 0, n);
    buf := new Unit[|source| + CMPNT + size](_ => Pad);
    if source[0].Branch? && source[0].op == Add {
      MemCpy(buf, 0, source);
      ghost var s := buf[..];
      var strpos := |source|;
      buf[strpos] := Branch(Add, buf[0].right, 0);
      buf[0] := Branch(Add, buf[0].left, Wrap16(strpos));
      strpos := strpos + CMPNT;
      buf[|source|] := Branch(Add, buf[|source|].left, Wrap16(strpos));
      offset := strpos;
      m := n;
      SlotAfterSum(source, s, buf[..], n);
    } else {
      var strpos := CMPNT;
      buf[0] := Branch(Add, Wrap16(strpos), 0);
      Place(buf, 0, strpos, source, n);
      ghost var s := buf[..];
      strpos := strpos + |source|;
      buf[0] := Branch(Add, buf[0].left, Wrap16(strpos));
      offset := strpos;
      m := Moved(n, CMPNT);
      Below(s, buf[..], 0, m, CMPNT, offset);
    }
  }

  lemma SlotAfterSum(source: seq<Unit>, s: seq<Unit>, buf: seq<Unit>, n: Node)
    requires IsTree(source, n) && n.NJoin? && n.op == Add && Copied(source, s, 0) && |buf| == |s|
    requires |source| + CMPNT < |buf| <= 0x8000
    requires buf[0] == Branch(Add, n.l.pos, |source|) && buf[|source|] == Branch(Add, n.r.pos, |source| + CMPNT)
    requires forall p :: 0 < p < |source| ==> buf[p] == s[p]
    ensures SlotOpen(buf, n, |source|, |source| + CMPNT)
  {
    PlacesInside(source, 0, n);
    SubPlaces(n);
    assert 0 !in Places(n.l) && 0 !in Places(n.r);
    hide Places;
    assert SameOn(source, buf, Places(n.l)) && SameOn(source, buf, Places(n.r));
    Unaffected(source, buf, 0, n.l);
    Unaffected(source, buf, 0, n.r);
  }

  /** pip_eqn_fill_in_constraints: a chain of constraints from offset on, ending before the result. */
  method FillInConstraints(buf: array<Unit>, start: nat, atoms: seq<seq<Unit>>, ghost ps: seq<Piece>) returns (offset: nat)
    requires |ps| == |atoms| && (forall i :: 0 <= i < |ps| ==> PieceOk(atoms[i], ps[i]))
    requires start + Room(atoms) < buf.Length <= 0x8000
    modifies buf
    ensures offset == start + Room(atoms) && ChainReady(buf[..], start, ps, offset)
    ensures SameBelow(old(buf[..]), buf[..], start)
  {
    hide Room, ChainReady, PieceOk, Wrap16;
    offset := start;
    NoChain(buf[..], start);
    assert ps[..0] == [] && atoms[..0] == [];
    RoomNone();
    SameAll(buf[..], start);
    for i := 0 to |atoms|
      invariant offset == start + Room(atoms[..i]) < buf.Length
      invariant ChainReady(buf[..], start, ps[..i], offset)
      invariant SameBelow(old(buf[..]), buf[..], start)
    {
      ghost var s := buf[..];
      RoomMore(atoms, i);
      RoomRest(atoms, i + 1);
      buf[offset] := Cnstrt(Wrap16(offset + CMPNT + |atoms[i]|), Wrap16(offset + CMPNT));
      MemCpy(buf, offset + CMPNT, atoms[i]);
      ChainMore(s, buf[..], start, ps, i, offset, atoms[i]);
      offset := offset + CMPNT + |atoms[i]|;
    }
    assert ps[..|atoms|] == ps && atoms[..|atoms|] == atoms;
  }

  /** The size of a chain of constraints. */
  function Room(atoms: seq<seq<Unit>>): nat {
    if atoms == [] then 0 else Room(atoms[..|atoms| - 1]) + CMPNT + |atoms[|atoms| - 1]|
  }

  lemma RoomNone()
    ensures Room([]) == 0
  {
  }

  lemma RoomMore(atoms: seq<seq<Unit>>, i: nat)
    requires i < |atoms|
    ensures Room(atoms[..i + 1]) == Room(atoms[..i]) + CMPNT + |atoms[i]|
  {
    assert atoms[..i + 1][..i] == atoms[..i];
  }

  lemma {:induction false} RoomRest(atoms: seq<seq<Unit>>, i: nat)
    requires i <= |atoms|
    ensures Room(atoms[..i]) <= Room(atoms)
    decreases |atoms| - i
  {
    if i == |atoms| {
      assert atoms[..i] == atoms;
    } else {
      RoomMore(atoms, i);
      RoomRest(atoms, i + 1);
    }
  }

  lemma NoChain(buf: seq<Unit>, start: int)
    ensures ChainReady(buf, start, [], start)
  {
  }

  lemma SameAll(buf: seq<Unit>, hi: int)
    ensures SameBelow(buf, buf, hi)
  {
  }

  lemma ChainMore(s: seq<Unit>, buf: seq<Unit>, start: nat, ps: seq<Piece>, i: nat, mid: nat, atom: seq<Unit>)
    requires i < |ps| && PieceOk(atom, ps[i]) && ChainReady(s, start, ps[..i], mid) && start <= mid
    requires mid + CMPNT + |atom| < |buf| == |s| <= 0x8000
    requires buf[mid] == Cnstrt(Wrap16(mid + CMPNT + |atom|), Wrap16(mid + CMPNT)) && Copied(atom, buf, mid + CMPNT)
    requires forall p :: 0 <= p < mid ==> buf[p] == s[p]
    ensures ChainReady(buf, start, ps[..i + 1], mid + CMPNT + |atom|)
  {
    hide ChainReady, PieceOk, Copied, SameBelow, IsAtom, AtomWithin, Wrap16;
    SameUpTo(s, buf, mid);
    ChainKept(s, buf, start, ps[..i], mid);
    PieceMoved(atom, buf, ps[i], mid + CMPNT);
    OffsetsFit(mid + CMPNT, |atom|);
    ChainSnoc(buf, start, ps, i, mid);
  }

  lemma SameUpTo(s: seq<Unit>, buf: seq<Unit>, mid: int)
    requires |buf| == |s| && forall p :: 0 <= p < mid && p < |s| ==> buf[p] == s[p]
    ensures SameBelow(s, buf, mid)
  {
  }

  lemma OffsetsFit(p: nat, len: nat)
    requires p + len < 0x8000
    ensures Wrap16(p + len) == p + len && Wrap16(p) == p
  {
  }

  lemma PieceMoved(atom: seq<Unit>, buf: seq<Unit>, p: Piece, d: int)
    requires PieceOk(atom, p) && Copied(atom, buf, d)
    ensures IsAtom(buf, MovedAtom(p.a, d)) && AtomWithin(MovedAtom(p.a, d), d, d + |atom|) && p.a.pos == 0 && p.len == |atom|
  {
    hide AtomPlaces, IsAtom;
    AtomCopyHolds(atom, buf, p.a, d);
    AtomInside(atom, p.a);
    MovedAtomPlaces(p.a, d);
    var a := MovedAtom(p.a, d);
    forall x | x in AtomPlaces(a) ensures d <= x < d + |atom| { assert x - d in AtomPlaces(p.a); }
  }

  lemma ChainSnoc(buf: seq<Unit>, start: nat, ps: seq<Piece>, i: nat, mid: nat)
    requires i < |ps| && ChainReady(buf, start, ps[..i], mid) && start <= mid < |buf| && ps[i].a.pos == 0
    requires var d := mid + CMPNT; var end := d + ps[i].len;
      buf[mid] == Cnstrt(end, d) && IsAtom(buf, MovedAtom(ps[i].a, d)) && AtomWithin(MovedAtom(ps[i].a, d), d, end)
    ensures ChainReady(buf, start, ps[..i + 1], mid + CMPNT + ps[i].len)
  {
    hide AtomWithin, IsAtom;
    var q := ps[..i + 1];
    assert q[..|q| - 1] == ps[..i] && q[|q| - 1] == ps[i];
  }

  /** pip_eqn_compile_sum: one row's term is added to the sum, and counts only if the row's atoms hold. */
  method CompileSum(left: seq<Unit>, right: seq<Unit>, atoms: seq<seq<Unit>>, ghost l: Expr, ghost r: Expr, ghost cs: seq<Atom>)
    returns (eqn: seq<Unit>)
    requires IsEqn(left, l) && IsEqn(right, r)
    requires |cs| == |atoms| && forall i :: 0 <= i < |cs| ==> IsAtomData(atoms[i], cs[i])
    requires |left| + CMPNT + Room(atoms) + |right| <= 0x8000
    ensures exists e :: IsEqn(eqn, e) && forall v :: Value(e, v) == Value(l, v) + if AllHold(cs, v) then Value(r, v) else 0.0
  {
    hide Apart, Within, Is, SlotOpen, ChainReady, Filled, Chain, Value, Room;
    ghost var nl :| IsTree(left, nl) && Erase(nl) == l;
    ghost var nr :| IsTree(right, nr) && Erase(nr) == r;
    IsOf(right, 0, nr);
    ghost var ps := Pieces(atoms, cs);
    var size := |right| + Room(atoms);
    var buf, i, m := AppendSlot(left, size, nl);
    ghost var s0 := buf[..];
    var pos := FillInConstraints(buf, i, atoms, ps);
    ghost var s1 := buf[..];
    SlotKept(s0, s1, m, |left|, i);
    Place(buf, 0, pos, right, nr);
    eqn := buf[..];
    ghost var mr := Moved(nr, pos);
    SlotKept(s1, eqn, m, |left|, i);
    ChainKept(s1, eqn, i, ps, pos);
    ChainTree(eqn, i, ps, pos, mr);
    FilledTree(eqn, m, |left|, i, Chain(ps, pos, mr));
    ghost var e := Erase(Filled(m, |left|, Chain(ps, pos, mr)));
    assert AtomsOf(ps) == cs;
    assert IsEqn(eqn, e) && forall v :: Value(e, v) == Value(l, v) + if AllHold(cs, v) then Value(r, v) else 0.0;
  }

  /** Where the components of the atoms stand. */
  ghost function Pieces(atoms: seq<seq<Unit>>, cs: seq<Atom>): (ps: seq<Piece>)
    requires |cs| == |atoms| && forall i :: 0 <= i < |cs| ==> IsAtomData(atoms[i], cs[i])
    ensures |ps| == |atoms| && forall i :: 0 <= i < |ps| ==> PieceOk(atoms[i], ps[i]) && EraseAtom(ps[i].a) == cs[i]
  {
    seq(|atoms|, i requires 0 <= i < |atoms| => PieceOf(atoms[i], cs[i]))
  }

  ghost function PieceOf(atom: seq<Unit>, c: Atom): (p: Piece)
    requires IsAtomData(atom, c)
    ensures PieceOk(atom, p) && EraseAtom(p.a) == c
  {
    var n :| IsAtom(atom, n) && n.pos == 0 && EraseAtom(n) == c;
    Piece(n, |atom|)
  }
}
