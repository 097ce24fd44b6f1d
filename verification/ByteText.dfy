/** Go strings as the bytes they are. */
module ByteText {

  type Byte = x: int | 0 <= x < 256

  type Bytes = seq<Byte>

  predicate StartsWith(s: Bytes, prefix: Bytes) {
    |prefix| <= |s| && s[..|prefix|] == prefix
  }

  predicate EndsWith(s: Bytes, suffix: Bytes) {
    |suffix| <= |s| && s[|s| - |suffix|..] == suffix
  }

  /** The first position of b in s, or |s| when it is absent. */
  function ByteIndex(s: Bytes, b: Byte): (i: nat)
    ensures i <= |s|
    ensures forall j | 0 <= j < i :: s[j] != b
    ensures i < |s| ==> s[i] == b
  {
    if s == [] || s[0] == b then 0 else 1 + ByteIndex(s[1..], b)
  }

  lemma IndexIsFirst(s: Bytes, b: Byte, i: nat)
    requires i < |s| && s[i] == b && forall j | 0 <= j < i :: s[j] != b
    ensures ByteIndex(s, b) == i
  {
  }

  lemma AssociateBytes(a: Bytes, b: Bytes, c: Bytes)
    ensures (a + b) + c == a + (b + c)
  {
  }
}
