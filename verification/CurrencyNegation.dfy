/** A minus sign turns an amount into its negative and changes nothing else:
    not which readings there are, nor which one is returned. */
module CurrencyNegation {
  import opened Digits
  import opened Text
  import opened Money
  import opened CurrencyLocale
  import opened CurrencyReadings
  import opened CurrencyAmbiguity
  import opened CurrencyVerdict
  import opened CurrencyTokens
  import P = CurrencyParse

  /** q is r of the other sign. */
  predicate Opposite(r: Reading, q: Reading) {
    q.storable == r.storable && (r.storable ==> q.minor == 0 - r.minor)
  }

  lemma NormalMinor(minus: bool, w: string, f: string, exp: nat)
    requires Plain(w) && AllDigits(f) && |f| <= exp
    ensures ParseDecimal(DecimalText(minus, w, f), exp)
         == var v := Signed(minus, Value(w + f) * Pow10(exp - |f|)); if InI64(v) then Some(v) else None
  {
    DecimalAmount(minus, w, f, exp);
    ValueScaled(w, f, exp);
  }

  lemma ZeroHasNoMinor(w: string, f: string, exp: nat)
    requires w == "0" && f == ""
    ensures Value(w + f) * Pow10(exp - |f|) == 0
  {
    assert w + f == "0" && "0"[..0] == "";
  }

  /** A magnitude in minor units that only a minus sign lets fit. */
  predicate Least(n: nat) {
    n == MAX_I64 + 1
  }

  function InMinor(w: string, f: string, exp: nat): nat
    requires AllDigits(w) && AllDigits(f) && |f| <= exp
  {
    Value(w + f) * Pow10(exp - |f|)
  }

  /** What digits make with and without a minus. */
  lemma BothSigns(whole: string, frac: string, exp: nat)
    requires AllDigits(whole) && AllDigits(frac)
    ensures var w, f := NormalWhole(whole), CutZeros(frac);
            var plus, minus := MakeReading(whole, frac, false, exp), MakeReading(whole, frac, true, exp);
            && Plain(w) && AllDigits(f)
            && (plus.Some? ==> minus.Some? && Opposite(plus.value, minus.value))
            && (plus.None? ==> |f| <= exp && InMinor(w, f, exp) > MAX_I64
                               && (minus.Some? ==> Least(InMinor(w, f, exp))))
            && (plus.Some? && plus.value.storable ==> |f| <= exp && InMinor(w, f, exp) <= MAX_I64)
  {
    var w, f := NormalWhole(whole), CutZeros(frac);
    NormalDigits(whole, frac);
    if |f| <= exp {
      NormalMinor(false, w, f, exp);
      NormalMinor(true, w, f, exp);
      if w == "0" && f == "" {
        ZeroHasNoMinor(w, f, exp);
      }
    }
  }

  // ---------- Tokens and their digits ----------

  lemma RunsAreBoth(toks: seq<Tok>)
    requires RunsApart(toks)
    ensures AllRuns(toks) == AtLastMark(toks).0 + AtLastMark(toks).1
  {
    if toks == [] {
      assert "" + "" == "";
    } else {
      var front, last := toks[..|toks| - 1], toks[|toks| - 1];
      if last.Sep? {
        assert AllRuns(front) + "" == AllRuns(front);
      } else if front != [] {
        assert front[|front| - 1] == toks[|front| - 1] && toks[|front|] == last;
        var before := front[..|front| - 1];
        assert AllRuns(before) + "" == AllRuns(before);
      }
    }
  }

  // ---------- No second reading appears ----------

  lemma {:induction false} TenDivides(n: nat, k: nat)
    requires k >= 1
    ensures (n * Pow10(k)) % 10 == 0
  {
    TenTimes(n, Pow10(k - 1));
  }

  lemma TenTimes(n: nat, p: nat)
    ensures (n * (10 * p)) % 10 == 0
  {
    assert n * (10 * p) == 10 * (n * p);
  }

  lemma Grows(x: nat, a: nat, b: nat, c: nat)
    requires a >= 1 && b >= c
    ensures x * a * b >= x * c
  {
    AtLeastOnce(x, a);
    Monotone(x * a, b, c);
    Monotone(c, x * a, x);
  }

  lemma AtLeastOnce(x: nat, a: nat)
    requires a >= 1
    ensures x * a >= x
  {
    assert x * a == x * (a - 1) + x;
  }

  lemma Monotone(x: nat, b: nat, c: nat)
    requires b >= c
    ensures x * b >= x * c && b * x >= c * x
  {
    assert x * b == x * c + x * (b - c);
  }

  lemma Pow10Grows(m: nat, n: nat)
    requires m <= n
    ensures Pow10(m) <= Pow10(n)
  {
    Pow10Add(m, n - m);
    Pow10Positive(n - m);
    Pow10Positive(m);
    AtLeastOnce(Pow10(m), Pow10(n - m));
  }

  lemma WholeAlone(s: string)
    requires AllDigits(s)
    ensures AllDigits(NormalWhole(s)) && Value(NormalWhole(s)) == Value(s) && CutZeros("") == ""
  {
    NormalWholeValue(s);
  }

  /** All the digits as a whole, against the same digits cut at a mark: in
      minor units the whole is no smaller. */
  lemma WholeIsNotLess(whole: string, frac: string, exp: nat)
    requires AllDigits(whole) && AllDigits(frac) && |CutZeros(frac)| <= exp
    ensures AllDigits(whole + frac)
    ensures var w, f, d := NormalWhole(whole), CutZeros(frac), NormalWhole(whole + frac);
            && AllDigits(w) && AllDigits(f) && AllDigits(d) && CutZeros("") == "" && |f| <= |frac|
            && InMinor(d, "", exp) >= InMinor(w, f, exp)
            && InMinor(d, "", exp) == Value(w + f) * Pow10(|frac| - |f|) * Pow10(exp)
  {
    var w, f := NormalWhole(whole), CutZeros(frac);
    NormalDigits(whole, frac);
    WholeAlone(whole + frac);
    var d := NormalWhole(whole + frac);
    assert d + "" == d;
    Pow10Positive(|frac| - |f|);
    Pow10Grows(exp - |f|, exp);
    Grows(Value(w + f), Pow10(|frac| - |f|), Pow10(exp), Pow10(exp - |f|));
  }

  /** The least amount of all is not the digits of a smaller one: where the
      whole is it, a mark among the digits leaves more than the currency
      stores or the same. */
  lemma LeastHasNoEnd(whole: string, frac: string, exp: nat)
    requires AllDigits(whole) && AllDigits(frac) && frac != "" && |CutZeros(frac)| <= exp
    requires AllDigits(whole + frac) && AllDigits(NormalWhole(whole + frac))
    ensures !Least(InMinor(NormalWhole(whole + frac), "", exp))
  {
    var w, f := NormalWhole(whole), CutZeros(frac);
    NormalDigits(whole, frac);
    WholeIsNotLess(whole, frac, exp);
    var n := Value(w + f) * Pow10(|frac| - |f|);
    if exp >= 1 {
      TenDivides(n, exp);
    } else {
      assert f == "" && |frac| - |f| >= 1 && Pow10(0) == 1;
      TenDivides(Value(w + f), |frac|);
    }
  }

  /** Beside an amount that fits, no other way to read the same digits comes
      into range with a minus sign. */
  lemma NothingAppears(toks: seq<Tok>, p: (string, string), q: (string, string), exp: nat)
    requires RunsApart(toks)
    requires p == (AllRuns(toks), "") || p == AtLastMark(toks)
    requires q == (AllRuns(toks), "") || q == AtLastMark(toks)
    requires AllDigits(p.0) && AllDigits(p.1) && AllDigits(q.0) && AllDigits(q.1)
    requires MakeReading(p.0, p.1, false, exp).Some? && MakeReading(p.0, p.1, false, exp).value.storable
    requires MakeReading(q.0, q.1, false, exp).None?
    ensures MakeReading(q.0, q.1, true, exp).None?
  {
    RunsAreBoth(toks);
    assert p.0 + "" == p.0;
    if p == AtLastMark(toks) {
      if q != p {
        WholeStaysOut(p.0, p.1, exp);
      }
    } else {
      var (whole, frac) := AtLastMark(toks);
      CutFits(whole, frac, exp);
    }
  }

  /** Where the digits cut at a mark fit, all of them as a whole do not become
      the least amount. */
  lemma WholeStaysOut(whole: string, frac: string, exp: nat)
    requires AllDigits(whole) && AllDigits(frac) && AllDigits(whole + frac) && frac != ""
    requires MakeReading(whole, frac, false, exp).Some? && MakeReading(whole, frac, false, exp).value.storable
    requires MakeReading(whole + frac, "", false, exp).None?
    ensures MakeReading(whole + frac, "", true, exp).None?
  {
    BothSigns(whole, frac, exp);
    BothSigns(whole + frac, "", exp);
    LeastHasNoEnd(whole, frac, exp);
  }

  /** Where all the digits as a whole fit, so do they cut at a mark. */
  lemma CutFits(whole: string, frac: string, exp: nat)
    requires AllDigits(whole) && AllDigits(frac) && AllDigits(whole + frac)
    requires MakeReading(whole + frac, "", false, exp).Some?
    ensures MakeReading(whole, frac, false, exp).Some?
  {
    BothSigns(whole, frac, exp);
    BothSigns(whole + frac, "", exp);
    if |CutZeros(frac)| <= exp {
      WholeIsNotLess(whole, frac, exp);
    }
  }

  // ---------- The readings ----------

  /** The same normal digits make the same reading, whichever the sign. */
  lemma SameDigits(p: (string, string), q: (string, string), exp: nat)
    requires AllDigits(p.0) && AllDigits(p.1) && AllDigits(q.0) && AllDigits(q.1)
    requires MakeReading(p.0, p.1, false, exp).Some?
    requires MakeReading(p.0, p.1, false, exp) == MakeReading(q.0, q.1, false, exp)
    ensures MakeReading(p.0, p.1, true, exp) == MakeReading(q.0, q.1, true, exp)
  {
    ReadingIsExact(p.0, p.1, false, exp);
    ReadingIsExact(q.0, q.1, false, exp);
    SplitText(false, NormalWhole(p.0), CutZeros(p.1), false, NormalWhole(q.0), CutZeros(q.1));
  }

  /** Under one try, the readings of either sign are opposite. */
  lemma TryBothSigns(l: Locale, toks: seq<Tok>, t: Try)
    requires GoodToks(toks) && ReadsAs(l, toks, false, t).Some?
    ensures ReadsAs(l, toks, true, t).Some? && Opposite(ReadsAs(l, toks, false, t).value, ReadsAs(l, toks, true, t).value)
  {
    var (whole, frac) := ReadUnder(toks, t).value;
    BothSigns(whole, frac, l.exp);
  }

  /** When one amount is all the text can mean, its negative is all that the
      text with a minus can. */
  lemma OnlyOpposite(l: Locale, toks: seq<Tok>, t: Try, u: Try)
    requires GoodToks(toks) && RunsApart(toks) && t in Tries(l) && u in Tries(l)
    requires ReadsAs(l, toks, false, t).Some? && OnlyReading(l, toks, false, ReadsAs(l, toks, false, t).value)
    requires ReadsAs(l, toks, false, t).value.storable && ReadsAs(l, toks, true, u).Some?
    ensures ReadsAs(l, toks, true, u) == ReadsAs(l, toks, true, t)
  {
    var p, q := ReadUnder(toks, t).value, ReadUnder(toks, u).value;
    OneOfTwo(toks, t);
    OneOfTwo(toks, u);
    if ReadsAs(l, toks, false, u).None? {
      NothingAppears(toks, p, q, l.exp);
    } else {
      assert IsReading(l, toks, false, ReadsAs(l, toks, false, u).value);
      SameDigits(p, q, l.exp);
    }
  }

  lemma TwoDiffer(rs: seq<Reading>)
    requires StrictlyAscending(rs) && |rs| > 1
    ensures rs[0] in rs && rs[1] in rs && rs[0] != rs[1]
  {
    assert Less(rs[0], rs[1]);
  }

  lemma OnlyOne(rs: seq<Reading>, r: Reading)
    requires StrictlyAscending(rs) && r in rs && forall q | q in rs :: q == r
    ensures rs == [r]
  {
    if |rs| > 1 {
      TwoDiffer(rs);
    }
  }

  /** The one rule's answer for tokens of a sign. */
  function Answer(l: Locale, toks: seq<Tok>, negative: bool): Outcome<I64>
    requires GoodToks(toks)
  {
    Decide(l, Readings(l, toks, negative), Grouped(l, toks, negative), SomeOverflow(l, toks, negative, Tries(l)))
  }

  /** q is one of the readings, and the only one or the page's own. */
  predicate Settles(rs: seq<Reading>, grouped: Option<Reading>, q: Reading) {
    q in rs && q.storable && (rs == [q] || grouped == Some(q))
  }

  lemma DecideSettles(l: Locale, rs: seq<Reading>, grouped: Option<Reading>, overflowed: bool, q: Reading)
    requires Settles(rs, grouped, q)
    ensures Decide(l, rs, grouped, overflowed) == Done(q.minor)
  {
    var i :| 0 <= i < |rs| && rs[i] == q;
  }

  lemma GroupedTurns(l: Locale, toks: seq<Tok>)
    requires GoodToks(toks) && Grouped(l, toks, false).Some?
    ensures Grouped(l, toks, true).Some? && Opposite(Grouped(l, toks, false).value, Grouped(l, toks, true).value)
  {
    TryBothSigns(l, toks, OwnTry(l));
  }

  lemma OwnSettles(l: Locale, toks: seq<Tok>, negative: bool)
    requires GoodToks(toks) && Grouped(l, toks, negative).Some? && Grouped(l, toks, negative).value.storable
    ensures Settles(Readings(l, toks, negative), Grouped(l, toks, negative), Grouped(l, toks, negative).value)
  {
    OwnIsReading(l, toks, negative);
    ReadingsAreAll(l, toks, negative);
  }

  lemma GroupedOpposite(l: Locale, toks: seq<Tok>) returns (q: Reading)
    requires GoodToks(toks) && Grouped(l, toks, false).Some? && Grouped(l, toks, false).value.storable
    ensures Settles(Readings(l, toks, true), Grouped(l, toks, true), q)
    ensures q.minor == 0 - Grouped(l, toks, false).value.minor
  {
    GroupedTurns(l, toks);
    q := Grouped(l, toks, true).value;
    OwnSettles(l, toks, true);
  }

  lemma ReadingsTurn(l: Locale, toks: seq<Tok>, r: Reading) returns (q: Reading)
    requires GoodToks(toks) && RunsApart(toks) && OnlyReading(l, toks, false, r) && r.storable
    ensures Opposite(r, q) && Readings(l, toks, true) == [q]
  {
    var t :| t in Tries(l) && ReadsAs(l, toks, false, t) == Some(r);
    TryBothSigns(l, toks, t);
    q := ReadsAs(l, toks, true, t).value;
    ReadingsAreAll(l, toks, true);
    OthersAreOne(l, toks, t, Readings(l, toks, true));
  }

  lemma OthersAreOne(l: Locale, toks: seq<Tok>, t: Try, rs: seq<Reading>)
    requires GoodToks(toks) && RunsApart(toks) && t in Tries(l) && StrictlyAscending(rs)
    requires ReadsAs(l, toks, false, t).Some? && OnlyReading(l, toks, false, ReadsAs(l, toks, false, t).value)
    requires ReadsAs(l, toks, false, t).value.storable && ReadsAs(l, toks, true, t).Some?
    requires forall r :: r in rs <==> IsReading(l, toks, true, r)
    ensures rs == [ReadsAs(l, toks, true, t).value]
  {
    var q := ReadsAs(l, toks, true, t).value;
    assert IsReading(l, toks, true, q);
    forall x | x in rs
      ensures x == q
    {
      var u :| u in Tries(l) && ReadsAs(l, toks, true, u) == Some(x);
      OnlyOpposite(l, toks, t, u);
    }
    OnlyOne(rs, q);
  }

  lemma AnswerIsJustified(l: Locale, toks: seq<Tok>, negative: bool)
    requires GoodToks(toks)
    ensures Justified(l, toks, negative, Answer(l, toks, negative))
  {
    ReadingsAreAll(l, toks, negative);
    DecideIsJustified(l, toks, negative, Readings(l, toks, negative), SomeOverflow(l, toks, negative, Tries(l)));
  }

  lemma TurnedReading(l: Locale, toks: seq<Tok>, v: I64) returns (q: Reading)
    requires GoodToks(toks) && RunsApart(toks) && Answer(l, toks, false) == Done(v)
    ensures Settles(Readings(l, toks, true), Grouped(l, toks, true), q) && q.minor == 0 - v
  {
    AnswerMayReturn(l, toks, v);
    var r := ReturnedReading(l, toks, v);
    q := ReadingSettles(l, toks, r);
  }

  lemma AnswerMayReturn(l: Locale, toks: seq<Tok>, v: I64)
    requires GoodToks(toks) && Answer(l, toks, false) == Done(v)
    ensures MayReturn(l, toks, false, v)
  {
    AnswerIsJustified(l, toks, false);
  }

  /** Some reading of the tokens settles them as v. */
  ghost predicate Settled(l: Locale, toks: seq<Tok>, negative: bool, v: int)
    requires GoodToks(toks)
  {
    exists q :: Settles(Readings(l, toks, negative), Grouped(l, toks, negative), q) && q.minor == v
  }

  lemma AnswerSettles(l: Locale, toks: seq<Tok>, negative: bool, v: I64)
    requires GoodToks(toks) && Settled(l, toks, negative, v)
    ensures Answer(l, toks, negative) == Done(v)
  {
    var q :| Settles(Readings(l, toks, negative), Grouped(l, toks, negative), q) && q.minor == v;
    DecideSettles(l, Readings(l, toks, negative), Grouped(l, toks, negative),
                  SomeOverflow(l, toks, negative, Tries(l)), q);
  }

  /** What may be returned, with its reading. */
  lemma ReturnedReading(l: Locale, toks: seq<Tok>, v: I64) returns (r: Reading)
    requires GoodToks(toks) && MayReturn(l, toks, false, v)
    ensures r.storable && r.minor == v && (OnlyReading(l, toks, false, r) || Grouped(l, toks, false) == Some(r))
  {
    r :| && IsReading(l, toks, false, r) && r.storable && r.minor == v
         && Quotient(v, l.exp) == Denotes(r.decimal)
         && (OnlyReading(l, toks, false, r) || Grouped(l, toks, false) == Some(r));
  }

  lemma ReadingSettles(l: Locale, toks: seq<Tok>, r: Reading) returns (q: Reading)
    requires GoodToks(toks) && RunsApart(toks) && r.storable
    requires OnlyReading(l, toks, false, r) || Grouped(l, toks, false) == Some(r)
    ensures Settles(Readings(l, toks, true), Grouped(l, toks, true), q) && q.minor == 0 - r.minor
  {
    if Grouped(l, toks, false) == Some(r) {
      q := GroupedOpposite(l, toks);
    } else {
      q := ReadingsTurn(l, toks, r);
    }
  }

  /** The same, of an amount and a sign that are variables. */
  lemma TurnedBy(l: Locale, toks: seq<Tok>, v: I64, u: I64, plus: bool, minus: bool)
    requires GoodToks(toks) && RunsApart(toks) && !plus && minus && Answer(l, toks, plus) == Done(v)
    requires u == 0 - v
    ensures Settled(l, toks, minus, u)
  {
    var q := TurnedReading(l, toks, v);
  }

  lemma SignTurns(l: Locale, toks: seq<Tok>, v: I64, u: I64, plus: bool, minus: bool)
    requires GoodToks(toks) && RunsApart(toks) && !plus && minus && Answer(l, toks, plus) == Done(v)
    requires u == 0 - v
    ensures Answer(l, toks, minus) == Done(u)
  {
    TurnedBy(l, toks, v, u, plus, minus);
    AnswerSettles(l, toks, minus, u);
  }

  lemma HasNegative(l: Locale, toks: seq<Tok>, v: I64) returns (u: I64)
    requires GoodToks(toks) && RunsApart(toks) && Answer(l, toks, false) == Done(v)
    ensures u == 0 - v
  {
    var q := TurnedReading(l, toks, v);
    u := q.minor;
  }

  /** Text read as an amount reads, with a minus sign, as its negative. */
  lemma NegatedAnswer(l: Locale, toks: seq<Tok>, v: I64) returns (u: I64)
    requires GoodToks(toks) && RunsApart(toks) && Answer(l, toks, false) == Done(v)
    ensures u == 0 - v && Answer(l, toks, true) == Done(u)
  {
    u := HasNegative(l, toks, v);
    SignTurns(l, toks, v, u, false, true);
  }
}
