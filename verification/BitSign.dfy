/** Bit vectors kept in bytes, as the signatures of the intarray and ltree indexes use them. */
module BitSign {
  function Mask(k: nat): bv8 {
    if k == 0 then 0x01 else if k == 1 then 0x02 else if k == 2 then 0x04 else if k == 3 then 0x08
    else if k == 4 then 0x10 else if k == 5 then 0x20 else if k == 6 then 0x40 else 0x80
  }

  predicate HasBit(b: bv8, k: nat) {
    b & Mask(k) != 0
  }

  /** GETBIT */
  predicate GetBit(x: seq<bv8>, i: nat)
    requires i / 8 < |x|
  {
    HasBit(x[i / 8], i % 8)
  }

  lemma OrHasBit(b: bv8, c: bv8, k: nat)
    ensures HasBit(b | c, k) <==> HasBit(b, k) || HasBit(c, k)
  {
    var d := Mask(k);
    assert (b | c) & d == (b & d) | (c & d);
  }

  lemma MaskHasBit(k: nat, m: nat)
    requires k < 8 && m < 8
    ensures HasBit(Mask(k), m) <==> k == m
  {
  }

  lemma FullByte(k: nat)
    ensures HasBit(0xff, k) && !HasBit(0, k)
  {
  }

  lemma ClearBit(b: bv8) returns (k: nat)
    requires b != 0xff
    ensures k < 8 && !HasBit(b, k)
  {
    k := if b & 0x01 == 0 then 0 else if b & 0x02 == 0 then 1 else if b & 0x04 == 0 then 2
      else if b & 0x08 == 0 then 3 else if b & 0x10 == 0 then 4 else if b & 0x20 == 0 then 5
      else if b & 0x40 == 0 then 6 else 7;
  }

  /** A vector of n bytes without any bit. */
  method NoBits(n: nat) returns (x: array<bv8>)
    ensures fresh(x) && x.Length == n
    ensures forall j: nat :: j < 8 * n ==> !GetBit(x[..], j)
  {
    x := new bv8[n](_ => 0);
    forall j: nat | j < 8 * n ensures !GetBit(x[..], j) { FullByte(j % 8); }
  }

  /** SETBIT */
  method SetBit(x: array<bv8>, i: nat)
    requires i < 8 * x.Length
    modifies x
    ensures forall j: nat :: j < 8 * x.Length ==> (GetBit(x[..], j) <==> j == i || GetBit(old(x[..]), j))
  {
    hide GetBit, HasBit, Mask;
    ghost var s := x[..];
    x[i / 8] := x[i / 8] | Mask(i % 8);
    forall j: nat | j < 8 * x.Length
      ensures GetBit(x[..], j) <==> j == i || GetBit(s, j)
    {
      SetBitAt(s, x[..], i, j);
    }
  }

  lemma SetBitAt(s: seq<bv8>, t: seq<bv8>, i: nat, j: nat)
    requires i < 8 * |s| && j < 8 * |s| && t == s[i / 8 := s[i / 8] | Mask(i % 8)]
    ensures GetBit(t, j) <==> j == i || GetBit(s, j)
  {
    hide HasBit, Mask;
    OrHasBit(s[i / 8], Mask(i % 8), j % 8);
    MaskHasBit(i % 8, j % 8);
  }

  /** The loop over the bytes that adds one vector to another in place. */
  method OrBytes(base: array<bv8>, add: seq<bv8>)
    requires base.Length == |add|
    modifies base
    ensures forall j: nat :: j < 8 * |add| ==> (GetBit(base[..], j) <==> GetBit(old(base[..]), j) || GetBit(add, j))
  {
    hide GetBit, HasBit, Mask;
    ghost var s := base[..];
    for i := 0 to |add|
      invariant base[i..] == s[i..]
      invariant forall k :: 0 <= k < i ==> base[k] == s[k] | add[k]
    {
      assert base[i] == base[i..][0] == s[i];
      base[i] := base[i] | add[i];
      assert base[i + 1..] == s[i..][1..];
    }
    forall j: nat | j < 8 * |add|
      ensures GetBit(base[..], j) <==> GetBit(s, j) || GetBit(add, j)
    {
      OrBitAt(s, add, base[..], j);
    }
  }

  lemma OrBitAt(s: seq<bv8>, a: seq<bv8>, t: seq<bv8>, j: nat)
    requires |s| == |a| == |t| && j < 8 * |s| && t[j / 8] == s[j / 8] | a[j / 8]
    ensures GetBit(t, j) <==> GetBit(s, j) || GetBit(a, j)
  {
    OrHasBit(s[j / 8], a[j / 8], j % 8);
  }

  /** The loop that looks for a byte that is not full. */
  method AllBits(x: seq<bv8>) returns (all: bool)
    ensures all <==> forall j: nat :: j < 8 * |x| ==> GetBit(x, j)
  {
    var i := 0;
    while i < |x|
      invariant 0 <= i <= |x|
      invariant forall k :: 0 <= k < i ==> x[k] == 0xff
    {
      if x[i] != 0xff {
        ghost var k := ClearBit(x[i]);
        ghost var j := 8 * i + k;
        assert j / 8 == i && j % 8 == k;
        assert !GetBit(x, j);
        return false;
      }
      i := i + 1;
    }
    forall j: nat | j < 8 * |x| ensures GetBit(x, j) { FullByte(j % 8); }
    return true;
  }
}
