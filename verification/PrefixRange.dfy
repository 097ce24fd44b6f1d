/** Byte strings in SQLite's BINARY order, and the two ways eventlog asks for
    the streams under a prefix: a range of that order, and a LIKE pattern. */
module PrefixRange {
  import opened ByteText
  import opened Digits

  /** a comes before b in byte order. */
  predicate Before(a: Bytes, b: Bytes) {
    b != [] && (a == [] || a[0] < b[0] || (a[0] == b[0] && Before(a[1..], b[1..])))
  }

  lemma {:induction false} BeforeIsStrict(a: Bytes)
    ensures !Before(a, a)
  {
    if a != [] {
      BeforeIsStrict(a[1..]);
    }
  }

  lemma {:induction false} BeforeIsTotal(a: Bytes, b: Bytes)
    ensures Before(a, b) || Before(b, a) || a == b
  {
    if a != [] && b != [] && a[0] == b[0] {
      BeforeIsTotal(a[1..], b[1..]);
      assert a[1..] == b[1..] ==> a == [a[0]] + a[1..] == b;
    }
  }

  lemma {:induction false} BeforeIsTransitive(a: Bytes, b: Bytes, c: Bytes)
    requires Before(a, b) && Before(b, c)
    ensures Before(a, c)
  {
    if a != [] && a[0] == b[0] == c[0] {
      BeforeIsTransitive(a[1..], b[1..], c[1..]);
    }
  }

  // ---------- The range ----------

  /** prefixBound: the rightmost byte below 0xFF raised by one, everything
      after it dropped. */
  function PrefixBound(prefix: Bytes): Option<Bytes> {
    if prefix == [] then None
    else
      var n := |prefix| - 1;
      if prefix[n] != 0xFF then Some(prefix[..n] + [prefix[n] + 1]) else PrefixBound(prefix[..n])
  }

  /** prefixBound's loop, from the last byte back. */
  method FindBound(prefix: Bytes) returns (r: Option<Bytes>)
    ensures r == PrefixBound(prefix)
  {
    var i := |prefix| - 1;
    assert prefix[..i + 1] == prefix;
    while i >= 0
      invariant -1 <= i < |prefix|
      invariant PrefixBound(prefix[..i + 1]) == PrefixBound(prefix)
    {
      var head := prefix[..i + 1];
      assert head[..i] == prefix[..i] && head[i] == prefix[i];
      if prefix[i] != 0xFF {
        return Some(prefix[..i] + [prefix[i] + 1]);
      }
      i := i - 1;
    }
    r := None;
  }

  /** The rows the range selects. */
  predicate InRange(prefix: Bytes, s: Bytes) {
    !Before(s, prefix) && (PrefixBound(prefix).Some? ==> Before(s, PrefixBound(prefix).value))
  }

  lemma StartsStep(s: Bytes, prefix: Bytes)
    requires prefix != []
    ensures StartsWith(s, prefix) <==> s != [] && s[0] == prefix[0] && StartsWith(s[1..], prefix[1..])
  {
    if |prefix| <= |s| {
      assert s[..|prefix|] == [s[0]] + s[1..][..|prefix| - 1];
      assert prefix == [prefix[0]] + prefix[1..];
    }
  }

  /** The bound of a longer prefix is the bound of its tail behind its first
      byte, or the first byte raised. */
  lemma {:induction false} BoundStep(prefix: Bytes)
    requires prefix != []
    ensures PrefixBound(prefix) ==
      if PrefixBound(prefix[1..]).Some? then Some([prefix[0]] + PrefixBound(prefix[1..]).value)
      else if prefix[0] != 0xFF then Some([prefix[0] + 1])
      else None
  {
    var n := |prefix| - 1;
    var tail := prefix[1..];
    if n == 0 {
      assert prefix[..0] == [] && tail == [];
      if prefix[0] != 0xFF {
        var raised: Byte := prefix[0] + 1;
        assert prefix[..0] + [raised] == [raised];
      }
    } else if prefix[n] != 0xFF {
      assert tail[n - 1] == prefix[n] && tail[..n - 1] == prefix[1..n];
      assert [prefix[0]] + (tail[..n - 1] + [prefix[n] + 1]) == prefix[..n] + [prefix[n] + 1];
    } else {
      BoundStep(prefix[..n]);
      assert prefix[..n][1..] == tail[..n - 1];
    }
  }

  /** The range is exactly the prefix: for every prefix, empty and all-0xFF
      ones included, a string is selected if and only if it starts with it. */
  lemma {:induction false} RangeIsPrefix(prefix: Bytes, s: Bytes)
    ensures InRange(prefix, s) <==> StartsWith(s, prefix)
    decreases |prefix|
  {
    if prefix == [] {
      assert s[..0] == [];
    } else {
      BoundStep(prefix);
      StartsStep(s, prefix);
      if s != [] && s[0] == prefix[0] {
        RangeIsPrefix(prefix[1..], s[1..]);
        SameFirst(prefix, s);
      } else if s != [] {
        OtherFirst(prefix, s);
      }
    }
  }

  lemma SameFirst(prefix: Bytes, s: Bytes)
    requires prefix != [] && s != [] && s[0] == prefix[0]
    ensures InRange(prefix, s) <==> InRange(prefix[1..], s[1..])
  {
    BoundStep(prefix);
    if PrefixBound(prefix[1..]).Some? {
      var b := PrefixBound(prefix[1..]).value;
      assert ([prefix[0]] + b)[1..] == b;
    }
  }

  lemma OtherFirst(prefix: Bytes, s: Bytes)
    requires prefix != [] && s != [] && s[0] != prefix[0]
    ensures !InRange(prefix, s)
  {
    BoundStep(prefix);
    if s[0] > prefix[0] && PrefixBound(prefix).Some? {
      var b := PrefixBound(prefix).value;
      if PrefixBound(prefix[1..]).Some? {
        assert b[0] == prefix[0];
      } else {
        assert b == [prefix[0] + 1] && b[1..] == [];
      }
      assert !Before(s, b);
    }
  }

  // ---------- The pattern ----------

  const PERCENT: Byte := 0x25
  const UNDERSCORE: Byte := 0x5F
  const BACKSLASH: Byte := 0x5C

  /** ASCII letters fold to upper case, as LIKE compares them. */
  function FoldCase(b: Byte): Byte {
    if 0x61 <= b <= 0x7A then b - 0x20 else b
  }

  function FoldAll(s: Bytes): (r: Bytes)
    ensures |r| == |s| && forall i | 0 <= i < |s| :: r[i] == FoldCase(s[i])
  {
    seq(|s|, i requires 0 <= i < |s| => FoldCase(s[i]))
  }

  /** SQLite's s LIKE pattern ESCAPE '\'. */
  predicate Like(pattern: Bytes, s: Bytes)
    decreases |pattern|, |s|
  {
    if pattern == [] then s == []
    else if pattern[0] == BACKSLASH then
      |pattern| >= 2 && s != [] && FoldCase(s[0]) == FoldCase(pattern[1]) && Like(pattern[2..], s[1..])
    else if pattern[0] == PERCENT then Like(pattern[1..], s) || (s != [] && Like(pattern, s[1..]))
    else if pattern[0] == UNDERSCORE then s != [] && Like(pattern[1..], s[1..])
    else s != [] && FoldCase(s[0]) == FoldCase(pattern[0]) && Like(pattern[1..], s[1..])
  }

  function EscapeByte(b: Byte): Bytes {
    if b == BACKSLASH || b == PERCENT || b == UNDERSCORE then [BACKSLASH, b] else [b]
  }

  function EscapeAll(prefix: Bytes): Bytes {
    if prefix == [] then [] else EscapeByte(prefix[0]) + EscapeAll(prefix[1..])
  }

  /** likePrefix: the metacharacters escaped, then anything. */
  function LikePrefix(prefix: Bytes): Bytes {
    EscapeAll(prefix) + [PERCENT]
  }

  lemma {:induction false} PercentMatchesAll(s: Bytes)
    ensures Like([PERCENT], s)
  {
    assert [PERCENT][1..] == [];
    if s != [] {
      PercentMatchesAll(s[1..]);
    }
  }

  /** The pattern escapes LIKE's metacharacters but not its folding: a stream
      matches exactly when it starts with the prefix in some ASCII case. */
  lemma {:induction false} LikeIsFoldedPrefix(prefix: Bytes, s: Bytes)
    ensures Like(LikePrefix(prefix), s) <==> StartsWith(FoldAll(s), FoldAll(prefix))
  {
    if prefix == [] {
      PercentMatchesAll(s);
      assert LikePrefix([]) == [PERCENT];
      assert FoldAll(s)[..0] == FoldAll([]);
    } else {
      var b, rest := prefix[0], prefix[1..];
      assert LikePrefix(prefix) == EscapeByte(b) + LikePrefix(rest);
      assert (EscapeByte(b) + LikePrefix(rest))[|EscapeByte(b)|..] == LikePrefix(rest);
      StartsStep(FoldAll(s), FoldAll(prefix));
      assert FoldAll(prefix)[1..] == FoldAll(rest);
      if s != [] {
        assert FoldAll(s)[1..] == FoldAll(s[1..]);
        LikeIsFoldedPrefix(rest, s[1..]);
      }
    }
  }

  /** Where the two disagree: LIKE also takes "A/1" for a stream under "a/". */
  lemma LikeIsNotTheRange()
    ensures exists prefix, s :: Like(LikePrefix(prefix), s) && !StartsWith(s, prefix)
  {
    var prefix: Bytes, s: Bytes := [0x61, 0x2F], [0x41, 0x2F, 0x31];
    LikeIsFoldedPrefix(prefix, s);
    assert FoldAll(s)[..2] == FoldAll(prefix);
    assert s[..2][0] != prefix[0];
    assert !StartsWith(s, prefix);
  }

  predicate IsLetter(b: Byte) {
    0x41 <= b <= 0x5A || 0x61 <= b <= 0x7A
  }

  /** The letter in its other case. */
  function Flip(b: Byte): Byte
    requires IsLetter(b)
  {
    if b >= 0x61 then b - 0x20 else b + 0x20
  }

  lemma OnlyLettersFold(a: Byte, b: Byte)
    requires FoldCase(a) == FoldCase(b) && a != b
    ensures IsLetter(a) && IsLetter(b)
  {
  }

  lemma FlippedIsSelected(prefix: Bytes, i: nat)
    requires i < |prefix| && IsLetter(prefix[i])
    ensures var s := prefix[i := Flip(prefix[i])]; Like(LikePrefix(prefix), s) && !StartsWith(s, prefix)
  {
    var s := prefix[i := Flip(prefix[i])];
    LikeIsFoldedPrefix(prefix, s);
    assert FoldAll(s)[..|prefix|] == FoldAll(prefix);
    assert s[..|prefix|][i] != prefix[i];
  }

  lemma NoLetterNoFold(prefix: Bytes, s: Bytes)
    requires forall b | b in prefix :: !IsLetter(b)
    ensures Like(LikePrefix(prefix), s) <==> StartsWith(s, prefix)
  {
    LikeIsFoldedPrefix(prefix, s);
    if StartsWith(FoldAll(s), FoldAll(prefix)) {
      forall i | 0 <= i < |prefix|
        ensures s[i] == prefix[i]
      {
        assert FoldAll(s)[..|prefix|][i] == FoldAll(prefix)[i];
        if s[i] != prefix[i] {
          OnlyLettersFold(s[i], prefix[i]);
        }
      }
      assert s[..|prefix|] == prefix;
    }
    if StartsWith(s, prefix) {
      assert FoldAll(s)[..|prefix|] == FoldAll(s[..|prefix|]);
    }
  }

  /** The pattern matches a prefix literally exactly when no ASCII letter is
      in it. */
  lemma LikeIsLiteralExactlyWhen(prefix: Bytes)
    ensures (forall s :: Like(LikePrefix(prefix), s) <==> StartsWith(s, prefix))
       <==> forall b | b in prefix :: !IsLetter(b)
  {
    if forall b | b in prefix :: !IsLetter(b) {
      forall s
        ensures Like(LikePrefix(prefix), s) <==> StartsWith(s, prefix)
      {
        NoLetterNoFold(prefix, s);
      }
    } else {
      var i :| 0 <= i < |prefix| && IsLetter(prefix[i]);
      FlippedIsSelected(prefix, i);
    }
  }
}
