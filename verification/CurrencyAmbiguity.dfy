/** What the normalising reader promises: it never guesses and never rounds.
    Every reading's text is the one normal form of the number typed, so equal
    texts and equal amounts are the same thing. */
module CurrencyAmbiguity {
  import opened Digits
  import opened Text
  import opened Money
  import opened CurrencyLocale
  import opened CurrencyReadings
  import P = CurrencyParse

  // ---------- The normal form ----------

  /** No leading zeros, no trailing fraction zeros, no negative zero. */
  predicate Normal(negative: bool, w: string, f: string) {
    && Plain(w) && AllDigits(f) && (f != "" ==> f[|f| - 1] != '0')
    && (negative ==> !(w == "0" && f == ""))
  }

  lemma {:induction false} ZeroValue(s: string)
    requires AllDigits(s) && Value(s) == 0
    ensures AllZeros(s)
  {
    if s != "" {
      ZeroValue(s[..|s| - 1]);
    }
  }

  lemma LastOf(w: string, f: string)
    requires w != ""
    ensures (w + f)[0] == w[0] && (f != "" ==> (w + f)[|w + f| - 1] == f[|f| - 1])
  {
  }

  lemma NormalZero(w: string, f: string)
    requires Plain(w) && AllDigits(f) && (f != "" ==> f[|f| - 1] != '0') && Value(w + f) == 0
    ensures w == "0" && f == ""
  {
    LastOf(w, f);
    ZeroValue(w + f);
  }

  /** s with n zeros more is s times a power of ten. */
  lemma PaddedRight(s: string, n: nat)
    requires AllDigits(s)
    ensures AllDigits(s + Zeros(n)) && Value(s + Zeros(n)) == Value(s) * Pow10(n)
  {
    ZerosAreZero(n);
    ValueConcat(s, Zeros(n));
  }

  /** Equal counts at a common scale come from equal normal forms. */
  lemma NormalUnique(w1: string, f1: string, w2: string, f2: string)
    requires Normal(false, w1, f1) && Normal(false, w2, f2)
    requires Value(w1 + f1) * Pow10(|f2|) == Value(w2 + f2) * Pow10(|f1|)
    ensures w1 == w2 && f1 == f2
  {
    var t1, t2 := f1 + Zeros(|f2|), f2 + Zeros(|f1|);
    PaddedRight(w1 + f1, |f2|);
    PaddedRight(w2 + f2, |f1|);
    Associate(w1, f1, Zeros(|f2|));
    Associate(w2, f2, Zeros(|f1|));
    ValueConcat(w1, t1);
    ValueConcat(w2, t2);
    ValueBound(t1);
    ValueBound(t2);
    SameQuotient(Value(w1), Value(t1), Value(w2), Value(t2), Pow10(|t1|));
    PlainIsFormat(w1);
    PlainIsFormat(w2);
    ValueInjective(t1, t2);
    SameTail(f1, f2);
  }

  lemma SameQuotient(a: nat, r: nat, b: nat, s: nat, p: nat)
    requires a * p + r == b * p + s && r < p && s < p
    ensures a == b && r == s
  {
    if a < b {
      Apart(a, b, p);
    } else if b < a {
      Apart(b, a, p);
    }
  }

  lemma Apart(a: nat, b: nat, p: nat)
    requires a < b
    ensures b * p >= a * p + p
  {
    AtLeast(b - a, p);
    assert (b - a) * p == b * p - a * p;
  }

  lemma AtLeast(k: nat, p: nat)
    requires k >= 1
    ensures k * p >= p
  {
    assert k * p == (k - 1) * p + p;
  }

  lemma ShorterEndsInZero(f1: string, f2: string)
    requires |f1| < |f2| && f1 + Zeros(|f2|) == f2 + Zeros(|f1|)
    ensures f2[|f2| - 1] == '0'
  {
    assert (f2 + Zeros(|f1|))[|f2| - 1] == f2[|f2| - 1];
  }

  lemma SameTail(f1: string, f2: string)
    requires f1 + Zeros(|f2|) == f2 + Zeros(|f1|)
    requires (f1 != "" ==> f1[|f1| - 1] != '0') && (f2 != "" ==> f2[|f2| - 1] != '0')
    ensures f1 == f2
  {
    if |f1| < |f2| {
      ShorterEndsInZero(f1, f2);
    } else if |f2| < |f1| {
      ShorterEndsInZero(f2, f1);
    } else {
      assert f1 == (f1 + Zeros(|f2|))[..|f1|] && f2 == (f2 + Zeros(|f1|))[..|f2|];
    }
  }

  // ---------- Moving the decimal point ----------

  lemma {:induction false} OneMorePlace(n: int, places: nat)
    ensures Quotient(10 * n, places + 1) == Quotient(n, places)
  {
    if places > 0 {
      OneMorePlace(n, places - 1);
    } else {
      assert Quotient(10 * n, 0) == (10 * n) as real;
    }
  }

  lemma {:induction false} MorePlaces(n: int, places: nat, more: nat)
    ensures Quotient(n * Pow10(more), places + more) == Quotient(n, places)
  {
    if more > 0 {
      MorePlaces(n, places, more - 1);
      OneMorePlace(n * Pow10(more - 1), places + more - 1);
      assert n * Pow10(more) == 10 * (n * Pow10(more - 1));
    }
  }

  lemma {:induction false} SameCounts(a: int, b: int, places: nat)
    requires Quotient(a, places) == Quotient(b, places)
    ensures a == b
  {
    if places > 0 {
      SameCounts(a, b, places - 1);
    }
  }

  lemma CrossMultiply(a: int, m: nat, b: int, n: nat)
    requires Quotient(a, m) == Quotient(b, n)
    ensures a * Pow10(n) == b * Pow10(m)
  {
    MorePlaces(a, m, n);
    MorePlaces(b, n, m);
    SameCounts(a * Pow10(n), b * Pow10(m), m + n);
  }

  lemma SignedText(negative: bool, body: string)
    requires body != "" && body[0] != '-' && body[0] != '+'
    ensures var dec := (if negative then "-" else "") + body;
            dec != "" && dec[0] != '+' && (dec[0] == '-' <==> negative) && (if negative then dec[1..] else dec) == body
  {
    if negative {
      assert ("-" + body)[1..] == body;
    } else {
      assert "" + body == body;
    }
  }

  lemma BodyDot(w: string, f: string)
    requires AllDigits(w)
    ensures var body := PointText(w, f);
            && IndexOf(body, '.') == |w| && body[..|w|] == w
            && (if |w| < |body| then body[|w| + 1..] else "") == f
  {
    var body := PointText(w, f);
    assert forall i | 0 <= i < |w| :: body[i] == w[i] && IsDigit(w[i]);
    if f != "" {
      P.CutsAtDot(w, f);
      assert w + "." + f == body;
    } else {
      assert body == w;
    }
  }

  lemma UnsignedText(negative: bool, w: string, f: string)
    requires AllDigits(w) && AllDigits(f)
    ensures UnsignedNumber(negative, PointText(w, f)) == Quotient(Signed(negative, Value(w + f)), |f|)
  {
    BodyDot(w, f);
  }

  lemma PointTextStarts(w: string, f: string)
    requires Plain(w)
    ensures PointText(w, f) != "" && PointText(w, f)[0] != '-' && PointText(w, f)[0] != '+'
  {
    assert PointText(w, f)[0] == w[0] && IsDigit(w[0]);
  }

  lemma DenotesText(negative: bool, w: string, f: string)
    requires Plain(w) && AllDigits(f)
    ensures Denotes(DecimalText(negative, w, f)) == Quotient(Signed(negative, Value(w + f)), |f|)
  {
    UnsignedText(negative, w, f);
    PointTextStarts(w, f);
    SignedText(negative, PointText(w, f));
  }

  /** Two normal texts are equal exactly when they denote one number. */
  lemma NormalIsCanonical(n1: bool, w1: string, f1: string, n2: bool, w2: string, f2: string)
    requires Normal(n1, w1, f1) && Normal(n2, w2, f2)
    ensures DecimalText(n1, w1, f1) == DecimalText(n2, w2, f2)
       <==> Denotes(DecimalText(n1, w1, f1)) == Denotes(DecimalText(n2, w2, f2))
  {
    DenotesText(n1, w1, f1);
    DenotesText(n2, w2, f2);
    var v1, v2 := Value(w1 + f1), Value(w2 + f2);
    if Quotient(Signed(n1, v1), |f1|) == Quotient(Signed(n2, v2), |f2|) {
      CrossMultiply(Signed(n1, v1), |f1|, Signed(n2, v2), |f2|);
      Pow10Positive(|f1|);
      Pow10Positive(|f2|);
      SameSigns(n1, v1, Pow10(|f2|), n2, v2, Pow10(|f1|));
      NormalUnique(w1, f1, w2, f2);
      if v1 == 0 {
        NormalZero(w1, f1);
      }
    }
  }

  lemma SameSigns(n1: bool, v1: nat, p: nat, n2: bool, v2: nat, q: nat)
    requires p >= 1 && q >= 1 && Signed(n1, v1) * p == Signed(n2, v2) * q
    ensures v1 * p == v2 * q && (n1 == n2 || (v1 == 0 && v2 == 0))
  {
    assert n1 ==> Signed(n1, v1) * p == -(v1 * p);
    assert n2 ==> Signed(n2, v2) * q == -(v2 * q);
    assert v1 * p >= 0 && v2 * q >= 0;
    if n1 != n2 {
      assert v1 * p == 0 && v2 * q == 0;
      NoZeroFactor(v1, p);
      NoZeroFactor(v2, q);
    }
  }

  lemma NoZeroFactor(v: nat, p: nat)
    requires p >= 1 && v * p == 0
    ensures v == 0
  {
    if v > 0 {
      AtLeast(v, p);
    }
  }

  // ---------- A reading is the number typed ----------

  lemma {:induction false} DropZerosValue(s: string)
    requires AllDigits(s)
    ensures AllDigits(DropZeros(s)) && Value(DropZeros(s)) == Value(s)
    ensures DropZeros(s) != "" ==> DropZeros(s)[0] != '0'
  {
    if s != "" && s[0] == '0' {
      assert s == "0" + s[1..];
      assert Value("0") == 0 by { assert "0"[..0] == ""; }
      ValueConcat("0", s[1..]);
      DropZerosValue(s[1..]);
    }
  }

  lemma {:induction false} CutZerosValue(s: string)
    requires AllDigits(s)
    ensures var c := CutZeros(s);
            && AllDigits(c) && |c| <= |s| && s == c + Zeros(|s| - |c|)
            && (c != "" ==> c[|c| - 1] != '0')
  {
    if s != "" && s[|s| - 1] == '0' {
      var front := s[..|s| - 1];
      CutZerosValue(front);
      var c := CutZeros(front);
      assert Zeros(|s| - |c|) == Zeros(|front| - |c|) + "0";
      assert s == front + "0";
    } else {
      assert s == s + Zeros(0);
    }
  }

  lemma NormalWholeValue(whole: string)
    requires AllDigits(whole)
    ensures Plain(NormalWhole(whole)) && Value(NormalWhole(whole)) == Value(whole)
  {
    DropZerosValue(whole);
    assert Value("0") == 0 by { assert "0"[..0] == ""; }
  }

  /** The digits of a reading's normal form, against the digits typed. */
  lemma NormalDigits(whole: string, frac: string)
    requires AllDigits(whole) && AllDigits(frac)
    ensures var w, f := NormalWhole(whole), CutZeros(frac);
            && Normal(false, w, f) && |f| <= |frac|
            && Value(whole + frac) == Value(w + f) * Pow10(|frac| - |f|)
  {
    var w, f := NormalWhole(whole), CutZeros(frac);
    NormalWholeValue(whole);
    CutZerosValue(frac);
    var z := Zeros(|frac| - |f|);
    ValueConcat(whole, frac);
    ValueConcat(w, frac);
    Associate(w, f, z);
    PaddedRight(w + f, |frac| - |f|);
  }

  predicate StaysNegative(whole: string, frac: string, negative: bool) {
    negative && !(NormalWhole(whole) == "0" && CutZeros(frac) == "")
  }

  lemma NormalDenotes(whole: string, frac: string, negative: bool)
    requires AllDigits(whole) && AllDigits(frac)
    ensures var w, f, minus := NormalWhole(whole), CutZeros(frac), StaysNegative(whole, frac, negative);
            && Normal(minus, w, f)
            && Denotes(DecimalText(minus, w, f)) == Quotient(Signed(negative, Value(whole + frac)), |frac|)
  {
    var w, f, minus := NormalWhole(whole), CutZeros(frac), StaysNegative(whole, frac, negative);
    NormalDigits(whole, frac);
    DenotesText(minus, w, f);
    ZeroHasNoSign(negative, minus, w, f);
    var v, u := Value(w + f), Value(whole + frac);
    assert Denotes(DecimalText(minus, w, f)) == Quotient(Signed(negative, v), |f|);
    ScaledBack(negative, v, |f|, |frac|, u);
  }

  lemma ZeroHasNoSign(negative: bool, minus: bool, w: string, f: string)
    requires AllDigits(w) && AllDigits(f) && (minus == negative || (w == "0" && f == ""))
    ensures Signed(negative, Value(w + f)) == Signed(minus, Value(w + f))
  {
    if minus != negative {
      assert "0" + "" == "0" && "0"[..0] == "";
    }
  }

  lemma StoredAmount(negative: bool, w: string, f: string, exp: nat)
    requires AllDigits(w) && AllDigits(f) && |f| <= exp && Amount(negative, w, f, exp).Some?
    ensures Quotient(Amount(negative, w, f, exp).value, exp) == Quotient(Signed(negative, Value(w + f)), |f|)
  {
    var v, u := Value(w + f), Value(w + Scaled(f, exp));
    ValueScaled(w, f, exp);
    assert Amount(negative, w, f, exp).value == Signed(negative, u);
    ScaledBack(negative, v, |f|, exp, u);
  }

  lemma MinorDenotes(negative: bool, w: string, f: string, exp: nat)
    requires Plain(w) && AllDigits(f) && |f| <= exp && ParseDecimal(DecimalText(negative, w, f), exp).Some?
    ensures Quotient(ParseDecimal(DecimalText(negative, w, f), exp).value, exp) == Denotes(DecimalText(negative, w, f))
  {
    DecimalAmount(negative, w, f, exp);
    DenotesText(negative, w, f);
    StoredAmount(negative, w, f, exp);
  }

  /** makeReading never rounds: its text is normal and denotes exactly the
      number typed, and a storable reading's minor units are that number
      scaled to the currency's exponent. */
  lemma ReadingIsExact(whole: string, frac: string, negative: bool, exp: nat)
    requires AllDigits(whole) && AllDigits(frac) && MakeReading(whole, frac, negative, exp).Some?
    ensures var r, minus := MakeReading(whole, frac, negative, exp).value, StaysNegative(whole, frac, negative);
            && Normal(minus, NormalWhole(whole), CutZeros(frac))
            && r.decimal == DecimalText(minus, NormalWhole(whole), CutZeros(frac))
            && Denotes(r.decimal) == Quotient(Signed(negative, Value(whole + frac)), |frac|)
            && (r.storable <==> |CutZeros(frac)| <= exp)
            && (r.storable ==> Quotient(r.minor, exp) == Denotes(r.decimal))
  {
    NormalDenotes(whole, frac, negative);
    if |CutZeros(frac)| <= exp {
      MinorDenotes(StaysNegative(whole, frac, negative), NormalWhole(whole), CutZeros(frac), exp);
    }
  }

  lemma ScaledBack(negative: bool, v: nat, places: nat, more: nat, u: nat)
    requires places <= more && u == v * Pow10(more - places)
    ensures Quotient(Signed(negative, u), more) == Quotient(Signed(negative, v), places)
  {
    MorePlaces(Signed(negative, v), places, more - places);
    assert (0 - v) * Pow10(more - places) == 0 - v * Pow10(more - places);
  }

  lemma ValueScaled(w: string, f: string, exp: nat)
    requires AllDigits(w) && AllDigits(f) && |f| <= exp
    ensures Value(w + Scaled(f, exp)) == Value(w + f) * Pow10(exp - |f|)
  {
    Associate(w, f, Zeros(exp - |f|));
    PaddedRight(w + f, exp - |f|);
  }

  lemma UnsignedAmount(negative: bool, w: string, f: string, exp: nat)
    requires AllDigits(w) && AllDigits(f) && w != ""
    ensures ParseUnsigned(negative, PointText(w, f), exp) == Amount(negative, w, f, exp)
  {
    BodyDot(w, f);
  }

  lemma DecimalAmount(negative: bool, w: string, f: string, exp: nat)
    requires Plain(w) && AllDigits(f)
    ensures ParseDecimal(DecimalText(negative, w, f), exp) == Amount(negative, w, f, exp)
  {
    UnsignedAmount(negative, w, f, exp);
    PointTextStarts(w, f);
    SignedText(negative, PointText(w, f));
  }

  /** Equal decimals are equal readings. */
  lemma SameDecimal(w1: string, f1: string, n1: bool, w2: string, f2: string, n2: bool, exp: nat)
    requires AllDigits(w1) && AllDigits(f1) && AllDigits(w2) && AllDigits(f2)
    requires MakeReading(w1, f1, n1, exp).Some? && MakeReading(w2, f2, n2, exp).Some?
    ensures var r1, r2 := MakeReading(w1, f1, n1, exp).value, MakeReading(w2, f2, n2, exp).value;
            && (r1.decimal == r2.decimal <==> r1 == r2)
            && (r1.decimal == r2.decimal <==> Denotes(r1.decimal) == Denotes(r2.decimal))
  {
    ReadingIsExact(w1, f1, n1, exp);
    ReadingIsExact(w2, f2, n2, exp);
    var m1, m2 := StaysNegative(w1, f1, n1), StaysNegative(w2, f2, n2);
    NormalIsCanonical(m1, NormalWhole(w1), CutZeros(f1), m2, NormalWhole(w2), CutZeros(f2));
    if DecimalText(m1, NormalWhole(w1), CutZeros(f1)) == DecimalText(m2, NormalWhole(w2), CutZeros(f2)) {
      SplitText(m1, NormalWhole(w1), CutZeros(f1), m2, NormalWhole(w2), CutZeros(f2));
    }
  }

  lemma SplitText(n1: bool, w1: string, f1: string, n2: bool, w2: string, f2: string)
    requires Plain(w1) && AllDigits(f1) && Plain(w2) && AllDigits(f2)
    requires DecimalText(n1, w1, f1) == DecimalText(n2, w2, f2)
    ensures n1 == n2 && w1 == w2 && f1 == f2
  {
    assert PointText(w1, f1)[0] == w1[0] && PointText(w2, f2)[0] == w2[0];
    SignedText(n1, PointText(w1, f1));
    SignedText(n2, PointText(w2, f2));
    BodyDot(w1, f1);
    BodyDot(w2, f2);
  }
}
