/** The bit signatures of contrib/intarray/_intbig_gist.c: 252 bytes, one bit a hash value. */
module IntSign {
  import opened Machine
  import opened BitSign

  const SIGLEN := 252
  const SIGLENBIT := 2016

  /** HASHVAL: the value as an unsigned 32-bit integer, modulo the number of bits. */
  function HashVal(val: int): (h: nat)
    ensures h < SIGLENBIT
  {
    (val % 0x1_0000_0000) % SIGLENBIT
  }

  /** The hash is the remainder of the integer read without a sign. */
  lemma HashIsRemainder(val: int)
    requires IsInt32(val)
    ensures exists k: nat :: (if val < 0 then val + 0x1_0000_0000 else val) == k * SIGLENBIT + HashVal(val)
  {
    var u := if val < 0 then val + 0x1_0000_0000 else val;
    assert val % 0x1_0000_0000 == u;
    assert u == (u / SIGLENBIT) * SIGLENBIT + u % SIGLENBIT && u / SIGLENBIT >= 0;
  }

  /** g_intbig_compress on a leaf: the hash bits of the array's elements. */
  method HashArray(a: seq<int>) returns (sign: array<bv8>)
    ensures fresh(sign) && sign.Length == SIGLEN
    ensures forall j: nat :: j < SIGLENBIT ==> (GetBit(sign[..], j) <==> exists k :: 0 <= k < |a| && HashVal(a[k]) == j)
  {
    hide GetBit, HashVal;
    sign := NoBits(SIGLEN);
    var k := 0;
    while k < |a|
      invariant 0 <= k <= |a|
      invariant forall j: nat :: j < SIGLENBIT ==> (GetBit(sign[..], j) <==> exists l :: 0 <= l < k && HashVal(a[l]) == j)
    {
      SetBit(sign, HashVal(a[k]));
      k := k + 1;
    }
  }

  /** GISTTYPE: every bit set, or the bits kept. */
  datatype SignKey = AllTrue | Sign(bits: seq<bv8>)

  ghost predicate SignOk(key: SignKey) {
    key.Sign? ==> |key.bits| == SIGLEN
  }

  /** The key does not exclude the hash value j. */
  ghost predicate MayHash(key: SignKey, j: nat)
    requires SignOk(key) && j < SIGLENBIT
  {
    key.AllTrue? || GetBit(key.bits, j)
  }

  /** unionkey: adds a key to the bits in place, unless it has every bit set. */
  method UnionKey(sbase: array<bv8>, add: SignKey) returns (all: bool)
    requires sbase.Length == SIGLEN && SignOk(add)
    modifies sbase
    ensures all <==> add.AllTrue?
    ensures all ==> sbase[..] == old(sbase[..])
    ensures !all ==> forall j: nat :: j < SIGLENBIT ==> (GetBit(sbase[..], j) <==> GetBit(old(sbase[..]), j) || GetBit(add.bits, j))
  {
    if add.AllTrue? { return true; }
    OrBytes(sbase, add.bits);
    return false;
  }

  /** g_intbig_union. */
  method UnionSigns(entries: seq<SignKey>) returns (key: SignKey)
    requires forall i :: 0 <= i < |entries| ==> SignOk(entries[i])
    ensures SignOk(key)
    ensures forall j: nat :: j < SIGLENBIT ==> (MayHash(key, j) <==> exists i :: 0 <= i < |entries| && MayHash(entries[i], j))
  {
    hide GetBit;
    var base := NoBits(SIGLEN);
    var i := 0;
    while i < |entries|
      invariant 0 <= i <= |entries|
      invariant forall k :: 0 <= k < i ==> entries[k].Sign?
      invariant forall j: nat :: j < SIGLENBIT ==> (GetBit(base[..], j) <==> exists k :: 0 <= k < i && MayHash(entries[k], j))
    {
      var all := UnionKey(base, entries[i]);
      if all {
        assert forall j: nat :: j < SIGLENBIT ==> MayHash(entries[i], j);
        return AllTrue;
      }
      i := i + 1;
    }
    return Sign(base[..]);
  }

  /** g_intbig_compress on an inner key: a signature with every bit set is stored as the flag alone. */
  method CompressSign(key: SignKey) returns (res: SignKey)
    requires SignOk(key)
    ensures SignOk(res)
    ensures forall j: nat :: j < SIGLENBIT ==> (MayHash(res, j) <==> MayHash(key, j))
    ensures res.AllTrue? <==> forall j: nat :: j < SIGLENBIT ==> MayHash(key, j)
  {
    if key.Sign? {
      var full := AllBits(key.bits);
      if full { return AllTrue; }
      ghost var j: nat :| j < SIGLENBIT && !GetBit(key.bits, j);
      assert !MayHash(key, j);
    }
    return key;
  }
}
