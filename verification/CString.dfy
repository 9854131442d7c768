/** Reading C strings, and where one text stands in another. */
module CString {
  /** A C string is read up to its end, where the zero byte is. */
  function At(s: string, i: nat): char {
    if i < |s| then s[i] else '\0'
  }

  /** No zero byte before the end. */
  predicate NoZero(w: string) {
    forall k :: 0 <= k < |w| ==> w[k] != '\0'
  }

  /** s continues with t at i. */
  ghost predicate Has(s: string, i: nat, t: string) {
    i + |t| <= |s| && s[i..i + |t|] == t
  }

  lemma HasParts(s: string, i: nat, t: string, u: string)
    ensures Has(s, i, t + u) <==> Has(s, i, t) && Has(s, i + |t|, u)
  {
    if Has(s, i, t + u) {
      assert s[i..i + |t|] == (t + u)[..|t|] && s[i + |t|..i + |t| + |u|] == (t + u)[|t|..];
    }
    if Has(s, i, t) && Has(s, i + |t|, u) {
      assert s[i..i + |t + u|] == s[i..i + |t|] + s[i + |t|..i + |t| + |u|];
    }
  }

  lemma HasChar(s: string, i: nat, t: string)
    requires Has(s, i, t) && t != ""
    ensures i < |s| && At(s, i) == t[0] && Has(s, i + 1, t[1..])
  {
    assert t == [t[0]] + t[1..];
    HasParts(s, i, [t[0]], t[1..]);
    assert s[i..i + 1][0] == s[i];
  }

  lemma HasRoom(s: string, i: nat, t: string)
    requires Has(s, i, t)
    ensures i + |t| <= |s|
  {
  }

  lemma Append(a: string, b: string, c: string)
    ensures a + (b + c) == (a + b) + c
  {
  }
}
