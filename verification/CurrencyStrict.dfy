/** Exactly what the strict parser accepts (currency/parse.go): where its marks
    may stand, how long its groups must be, and the one amount it returns. */
module CurrencyStrict {
  import opened Digits
  import opened Text
  import opened Money
  import opened CurrencyLocale
  import opened CurrencyParse

  // ---------- The text between the marks ----------

  /** Typed text cut at every rune that is not a digit: the runs of digits as
      they were typed, one more than the marks between them. */
  function Typed(l: Locale, s: string): (r: (seq<string>, string))
    ensures |r.0| == |r.1| + 1
    ensures forall i | 0 <= i < |r.0| :: InDigits(l, r.0[i])
  {
    if s == "" then ([""], "")
    else
      var (runs, marks) := Typed(l, s[..|s| - 1]);
      var c := s[|s| - 1];
      if c in l.digitValue then (runs[|runs| - 1 := runs[|runs| - 1] + [c]], marks) else (runs + [""], marks + [c])
  }

  predicate InDigits(l: Locale, s: string) {
    forall i | 0 <= i < |s| :: s[i] in l.digitValue
  }

  /** The digits typed, whatever stands between them. */
  function DigitsIn(l: Locale, s: string): (r: string)
    ensures AllDigits(r)
  {
    if s == "" then ""
    else
      var c := s[|s| - 1];
      DigitsIn(l, s[..|s| - 1]) + if c in l.digitValue then [DigitIn(l, c)] else ""
  }

  /** The locale's group mark, or the apostrophe a keyboard has for it. */
  predicate GroupMark(l: Locale, c: char) {
    c == Mark(l) || (c == '\'' && Mark(l) == '\U{2019}')
  }

  /** A decimal mark: the locale's, its plain one, or a full stop, unless that
      is a group mark. */
  predicate PointMark(l: Locale, c: char) {
    !GroupMark(l, c) && (c == l.decimal || c == l.plainDecimal || c == '.')
  }

  /** How many groups the runs make, once a final decimal mark has taken the
      last of them. */
  function GroupCount(l: Locale, marks: string): nat {
    if marks != "" && PointMark(l, marks[|marks| - 1]) then |marks| else |marks| + 1
  }

  /** The digits after a final decimal mark. */
  function Places(l: Locale, s: string): nat {
    var (runs, marks) := Typed(l, s);
    if GroupCount(l, marks) == |marks| then |runs[|marks|]| else 0
  }

  /** Every mark groups but a final decimal one; and where there are groups,
      the last has the primary size, the inner ones the secondary, and the
      first at least one digit and no more than its size. */
  ghost predicate WellMarked(l: Locale, s: string) {
    var (runs, marks) := Typed(l, s);
    var n := GroupCount(l, marks);
    && (forall i | 0 <= i < n - 1 :: GroupMark(l, marks[i]))
    && (n >= 2 ==>
          && l.primary > 0 && |runs[n - 1]| == l.primary
          && (forall i | 1 <= i < n - 1 :: |runs[i]| == l.secondary)
          && 1 <= |runs[0]| <= if n == 2 then l.primary else l.secondary)
  }

  /** The number of digits of which some are places, in units of 10^-exp: as
      if zeros stood in the places not written. */
  function MinorUnits(negative: bool, digits: string, places: nat, exp: nat): int
    requires AllDigits(digits) && places <= exp
  {
    Signed(negative, Value(digits + Zeros(exp - places)))
  }

  /** The amount of the digits typed, in minor units. */
  function AmountTyped(l: Locale, s: string, negative: bool): int
    requires Places(l, s) <= l.exp
  {
    MinorUnits(negative, DigitsIn(l, s), Places(l, s), l.exp)
  }

  /** s is an amount as the locale writes them, and v is that amount. */
  ghost predicate Writes(l: Locale, s: string, negative: bool, v: I64) {
    && WellMarked(l, s) && DigitsIn(l, s) != "" && Places(l, s) <= l.exp
    && v == AmountTyped(l, s, negative)
  }

  // ---------- Tokens are the typed runs ----------

  function Ascii(l: Locale, s: string): (r: string)
    requires InDigits(l, s)
    ensures |r| == |s| && AllDigits(r)
  {
    if s == "" then "" else Ascii(l, s[..|s| - 1]) + [DigitIn(l, s[|s| - 1])]
  }

  lemma AsciiMore(l: Locale, s: string, c: char)
    requires InDigits(l, s) && c in l.digitValue
    ensures Ascii(l, s + [c]) == Ascii(l, s) + [DigitIn(l, c)]
  {
    assert (s + [c])[..|s|] == s;
  }

  /** The tokens of the typed runs and marks. */
  ghost predicate TokensOf(l: Locale, s: string, t: Tokens) {
    var (runs, marks) := Typed(l, s);
    && |t.runs| == |runs| && |t.seps| == |marks|
    && (forall i | 0 <= i < |runs| :: t.runs[i] == Ascii(l, runs[i]))
    && forall i | 0 <= i < |marks| :: IsSeparator(l, marks[i]) && t.seps[i] == SeparatorOf(l, marks[i])
  }

  lemma {:induction false} TokenizeIsTyped(l: Locale, s: string)
    ensures Tokenize(l, s).Ok? ==> TokensOf(l, s, Tokenize(l, s).value)
    ensures (forall i | 0 <= i < |Typed(l, s).1| :: IsSeparator(l, Typed(l, s).1[i])) ==> Tokenize(l, s).Ok?
  {
    if s != "" {
      var front, c := s[..|s| - 1], s[|s| - 1];
      TokenizeIsTyped(l, front);
      var (runs, marks) := Typed(l, front);
      if c in l.digitValue {
        AsciiMore(l, runs[|runs| - 1], c);
        assert Typed(l, s).1 == marks;
      } else {
        assert forall i | 0 <= i < |marks| :: Typed(l, s).1[i] == marks[i];
        assert Typed(l, s).1[|marks|] == c;
      }
    }
  }

  // ---------- Walking them ----------

  /** The first n runs are groups and no mark among them is a decimal one. */
  ghost predicate Grouping(l: Locale, t: Tokens, n: nat)
    requires 1 <= n <= |t.runs| == |t.seps| + 1
  {
    forall i | 0 <= i < n - 1 :: t.seps[i] == Mark(l)
  }

  lemma {:induction false} WalkShort(l: Locale, t: Tokens, n: nat)
    requires 1 <= n < |t.runs| == |t.seps| + 1
    ensures Walk(l, t, n) == Ok(Split(t.runs[..n], None)) || Walk(l, t, n).Err?
    ensures Walk(l, t, n).Ok? <==> Grouping(l, t, n)
  {
    if n > 1 {
      WalkShort(l, t, n - 1);
      assert t.runs[..n] == t.runs[..n - 1] + [t.runs[n - 1]];
    } else {
      assert t.runs[..1] == [t.runs[0]];
    }
  }

  /** How many groups the marks leave, a final decimal mark taking the last. */
  function GroupsWalked(l: Locale, seps: seq<char>): nat {
    if |seps| > 0 && IsDecimal(l, seps[|seps| - 1]) then |seps| else |seps| + 1
  }

  /** The whole walk: a final decimal mark takes the last run, and every other
      mark groups. */
  lemma WalkIs(l: Locale, t: Tokens)
    requires |t.runs| == |t.seps| + 1
    ensures var m, n := |t.seps|, GroupsWalked(l, t.seps);
            && (Walk(l, t, m + 1).Ok? ==> Walk(l, t, m + 1) == Ok(Split(t.runs[..n], if n == m then Some(t.runs[m]) else None)))
            && (Walk(l, t, m + 1).Ok? <==> AllMark(l, t.seps, n - 1))
  {
    var m := |t.seps|;
    if m == 0 {
      assert t.runs[..1] == [t.runs[0]];
    } else {
      WalkShort(l, t, m);
      assert t.runs[..m + 1] == t.runs[..m] + [t.runs[m]];
    }
  }

  lemma MarksRead(l: Locale, c: char)
    ensures SeparatorOf(l, c) == Mark(l) <==> GroupMark(l, c)
    ensures IsDecimal(l, SeparatorOf(l, c)) <==> PointMark(l, c)
    ensures GroupMark(l, c) || PointMark(l, c) ==> IsSeparator(l, c)
  {
  }

  // ---------- The digits and their amount ----------

  lemma {:induction false} ConcatLast(runs: seq<string>, d: string)
    requires runs != []
    ensures Concat(runs[|runs| - 1 := runs[|runs| - 1] + d]) == Concat(runs) + d
  {
    var n := |runs| - 1;
    var front := runs[..n];
    assert runs == front + [runs[n]] && runs[n := runs[n] + d] == front + [runs[n] + d];
    ConcatAppend(front, runs[n]);
    ConcatAppend(front, runs[n] + d);
    Associate(Concat(front), runs[n], d);
  }

  lemma {:induction false} DigitsAreRuns(l: Locale, s: string)
    requires Tokenize(l, s).Ok?
    ensures Concat(Tokenize(l, s).value.runs) == DigitsIn(l, s)
  {
    if s == "" {
      assert [""][1..] == [] && "" + Concat([]) == "";
    } else {
      var front, c := s[..|s| - 1], s[|s| - 1];
      DigitsAreRuns(l, front);
      var runs := Tokenize(l, front).value.runs;
      if c in l.digitValue {
        ConcatLast(runs, [DigitIn(l, c)]);
      } else {
        ConcatAppend(runs, "");
      }
    }
  }

  lemma ZerosShift(s: string, n: nat)
    requires AllDigits(s)
    ensures AllDigits(s + Zeros(n)) && Value(s + Zeros(n)) == Value(s) * Pow10(n)
  {
    ValueConcat(s, Zeros(n));
    ZerosAreZero(n);
  }

  /** Which is the digits' number times the power of ten left over. */
  lemma MinorUnitsAre(negative: bool, digits: string, places: nat, exp: nat)
    requires AllDigits(digits) && places <= exp
    ensures MinorUnits(negative, digits, places, exp) == Signed(negative, Value(digits) * Pow10(exp - places))
  {
    ZerosShift(digits, exp - places);
  }

  /** An amount with no digit beyond exp is exactly its digits' number. */
  lemma AmountIsExact(negative: bool, whole: string, frac: string, exp: nat, v: I64)
    requires AllDigits(whole) && AllDigits(frac) && |frac| <= exp
    ensures Amount(negative, whole, frac, exp) == Some(v) <==> v == MinorUnits(negative, whole + frac, |frac|, exp)
  {
    Associate(whole, frac, Zeros(exp - |frac|));
  }

  lemma ZeroAhead(frac: string)
    requires AllDigits(frac)
    ensures AllDigits("0" + frac) && Value("0" + frac) == Value(frac)
  {
    var zero := "0";
    assert zero[..0] == "" && Value(zero) == 0;
    ValueConcat(zero, frac);
  }

  /** The whole digits as they are written for reading. */
  function WholeText(whole: string): string {
    if whole == "" then "0" else whole
  }

  lemma WholeTextUnits(negative: bool, whole: string, frac: string, exp: nat)
    requires AllDigits(whole) && AllDigits(frac) && |frac| <= exp
    ensures AllDigits(WholeText(whole))
    ensures MinorUnits(negative, WholeText(whole) + frac, |frac|, exp) == MinorUnits(negative, whole + frac, |frac|, exp)
  {
    if whole == "" {
      var padded := frac + Zeros(exp - |frac|);
      ZeroAhead(padded);
      Associate("0", frac, Zeros(exp - |frac|));
      assert whole + frac == frac;
    }
  }

  function DecimalOf(negative: bool, whole: string, frac: string): string {
    (if negative then "-" else "") + WholeText(whole) + "." + frac
  }

  /** Whole and fraction digits within exp read as exactly their number. */
  lemma DecimalIs(negative: bool, whole: string, frac: string, exp: nat, v: I64)
    requires AllDigits(whole) && AllDigits(frac) && |frac| <= exp
    ensures ParseDecimal(DecimalOf(negative, whole, frac), exp) == Some(v) <==>
              v == MinorUnits(negative, whole + frac, |frac|, exp)
  {
    WholeTextUnits(negative, whole, frac, exp);
    DecimalText(negative, WholeText(whole), frac, exp);
    AmountIsExact(negative, WholeText(whole), frac, exp, v);
  }

  /** What Finish accepts, of the groups and the fraction it is given. */
  ghost predicate Finishes(l: Locale, groups: seq<string>, digits: string, places: nat, negative: bool, v: I64) {
    && (|groups| > 1 ==> ValidGroups(groups, l.primary, l.secondary))
    && digits != "" && AllDigits(digits) && places <= l.exp && v == MinorUnits(negative, digits, places, l.exp)
  }

  lemma JoinedDigits(whole: string, frac: string)
    requires AllDigits(whole) && AllDigits(frac)
    ensures AllDigits(whole + frac) && (whole + frac == "" <==> whole == "" && frac == "")
  {
  }

  lemma FinishTakes(l: Locale, s: Split, negative: bool, v: I64)
    requires s.groups != [] && AllDigits(Concat(s.groups)) && AllDigits(FracOf(s)) && |FracOf(s)| <= l.exp
    requires |s.groups| > 1 ==> ValidGroups(s.groups, l.primary, l.secondary)
    requires !(Concat(s.groups) == "" && FracOf(s) == "")
    ensures Finish(l, s, negative) == Ok(v) <==>
              v == MinorUnits(negative, Concat(s.groups) + FracOf(s), |FracOf(s)|, l.exp)
  {
    DecimalIs(negative, Concat(s.groups), FracOf(s), l.exp, v);
  }

  lemma FinishIs(l: Locale, s: Split, negative: bool, v: I64)
    requires s.groups != [] && AllDigits(Concat(s.groups)) && AllDigits(FracOf(s))
    ensures Finish(l, s, negative) == Ok(v) <==>
              Finishes(l, s.groups, Concat(s.groups) + FracOf(s), |FracOf(s)|, negative, v)
  {
    var whole, frac := Concat(s.groups), FracOf(s);
    JoinedDigits(whole, frac);
    if (|s.groups| > 1 ==> ValidGroups(s.groups, l.primary, l.secondary)) && !(whole == "" && frac == "") && |frac| <= l.exp {
      FinishTakes(l, s, negative, v);
    }
  }

  // ---------- The whole parser ----------

  lemma SameLengths(l: Locale, runs: seq<string>, typed: seq<string>, n: nat)
    requires 1 <= n <= |runs| == |typed|
    requires forall i | 0 <= i < |runs| :: |runs[i]| == |typed[i]|
    ensures ValidGroups(runs[..n], l.primary, l.secondary) <==>
              && l.primary > 0 && |typed[n - 1]| == l.primary
              && (forall i | 1 <= i < n - 1 :: |typed[i]| == l.secondary)
              && 1 <= |typed[0]| <= if n == 2 then l.primary else l.secondary
  {
    var groups := runs[..n];
    assert forall i | 0 <= i < n :: groups[i] == runs[i];
    if ValidGroups(groups, l.primary, l.secondary) {
      forall i | 1 <= i < n - 1
        ensures |typed[i]| == l.secondary
      {
        assert |groups[i]| == l.secondary;
      }
    }
  }

  predicate AllGroup(l: Locale, marks: string, n: nat)
    requires n <= |marks|
  {
    forall i | 0 <= i < n :: GroupMark(l, marks[i])
  }

  predicate AllMark(l: Locale, seps: string, n: nat)
    requires n <= |seps|
  {
    forall i | 0 <= i < n :: seps[i] == Mark(l)
  }

  lemma {:induction false} MarksAre(l: Locale, marks: string, seps: string, n: nat)
    requires n <= |marks| == |seps| && forall i | 0 <= i < |marks| :: seps[i] == SeparatorOf(l, marks[i])
    ensures AllMark(l, seps, n) <==> AllGroup(l, marks, n)
  {
    if n > 0 {
      MarksAre(l, marks, seps, n - 1);
      MarksRead(l, marks[n - 1]);
    }
  }

  lemma CountIs(l: Locale, marks: string, seps: string)
    requires |marks| == |seps| && forall i | 0 <= i < |marks| :: seps[i] == SeparatorOf(l, marks[i])
    ensures GroupCount(l, marks) == GroupsWalked(l, seps)
  {
    if marks != "" {
      MarksRead(l, marks[|marks| - 1]);
    }
  }

  /** Tokens that can be walked are marked as the text is. */
  lemma WalkIsMarked(l: Locale, s: string, t: Tokens)
    requires Tokenize(l, s) == Ok(t) && TokensOf(l, s, t)
    ensures var marks := Typed(l, s).1;
            var n := GroupCount(l, marks);
            && (Walk(l, t, |t.runs|).Ok? <==> AllGroup(l, marks, n - 1))
            && (Walk(l, t, |t.runs|).Ok? ==>
                  Walk(l, t, |t.runs|) == Ok(Split(t.runs[..n], if n == |marks| then Some(t.runs[|marks|]) else None)))
  {
    var marks := Typed(l, s).1;
    CountIs(l, marks, t.seps);
    WalkIs(l, t);
    MarksAre(l, marks, t.seps, GroupCount(l, marks) - 1);
  }

  /** A text that is well marked is made of tokens. */
  lemma MarkedIsTokens(l: Locale, s: string)
    requires AllGroup(l, Typed(l, s).1, GroupCount(l, Typed(l, s).1) - 1)
    ensures Tokenize(l, s).Ok?
  {
    var marks := Typed(l, s).1;
    var n := GroupCount(l, marks);
    assert n == |marks| ==> PointMark(l, marks[|marks| - 1]);
    forall i | 0 <= i < |marks|
      ensures IsSeparator(l, marks[i])
    {
      MarksRead(l, marks[i]);
      assert i < n - 1 || i == |marks| - 1;
    }
    TokenizeIsTyped(l, s);
  }

  lemma SplitDigitsJoin(runs: seq<string>, n: nat)
    requires |runs| - 1 <= n <= |runs|
    ensures Concat(runs) == Concat(runs[..n]) + if n == |runs| then "" else runs[n]
  {
    if n == |runs| {
      assert runs[..n] == runs && Concat(runs) + "" == Concat(runs);
    } else {
      assert runs == runs[..n] + [runs[n]];
      ConcatAppend(runs[..n], runs[n]);
    }
  }

  /** A body is accepted, and as which amount, exactly as it is written. */
  lemma BodyExactlyWhen(l: Locale, s: string, negative: bool, v: I64)
    ensures ReadBody(l, s, negative) == Ok(v) <==> Writes(l, s, negative, v)
  {
    var marks := Typed(l, s).1;
    var n := GroupCount(l, marks);
    if AllGroup(l, marks, n - 1) {
      MarkedIsTokens(l, s);
    }
    TokenizeIsTyped(l, s);
    if Tokenize(l, s).Ok? {
      var t := Tokenize(l, s).value;
      WalkIsMarked(l, s, t);
      if Walk(l, t, |t.runs|).Ok? {
        WalkedExactlyWhen(l, s, t, negative, v);
      }
    }
  }

  lemma WellMarkedIs(l: Locale, s: string, t: Tokens)
    requires TokensOf(l, s, t) && AllGroup(l, Typed(l, s).1, GroupCount(l, Typed(l, s).1) - 1)
    ensures var n := GroupCount(l, Typed(l, s).1);
            WellMarked(l, s) <==> (n > 1 ==> ValidGroups(t.runs[..n], l.primary, l.secondary))
  {
    SameLengths(l, t.runs, Typed(l, s).0, GroupCount(l, Typed(l, s).1));
  }

  lemma WalkedExactlyWhen(l: Locale, s: string, t: Tokens, negative: bool, v: I64)
    requires Tokenize(l, s) == Ok(t) && TokensOf(l, s, t) && Walk(l, t, |t.runs|).Ok?
    ensures Finish(l, Walk(l, t, |t.runs|).value, negative) == Ok(v) <==> Writes(l, s, negative, v)
  {
    WalkIsMarked(l, s, t);
    WellMarkedIs(l, s, t);
    DigitsAreRuns(l, s);
    var split := Walk(l, t, |t.runs|).value;
    FinishedExactlyWhen(l, s, t, split, negative, v);
  }

  lemma FinishedExactlyWhen(l: Locale, s: string, t: Tokens, split: Split, negative: bool, v: I64)
    requires TokensOf(l, s, t) && Concat(t.runs) == DigitsIn(l, s)
    requires var n := GroupCount(l, Typed(l, s).1);
             && split == Split(t.runs[..n], if n == |t.seps| then Some(t.runs[n]) else None)
             && (WellMarked(l, s) <==> (n > 1 ==> ValidGroups(t.runs[..n], l.primary, l.secondary)))
    ensures Finish(l, split, negative) == Ok(v) <==> Writes(l, s, negative, v)
  {
    var n := GroupCount(l, Typed(l, s).1);
    SplitDigitsJoin(t.runs, n);
    var whole, frac := Concat(split.groups), FracOf(split);
    DigitParts(whole, frac);
    FinishIs(l, split, negative, v);
    FinishesWritten(l, s, split.groups, negative, v);
  }

  lemma FinishesWritten(l: Locale, s: string, groups: seq<string>, negative: bool, v: I64)
    requires WellMarked(l, s) <==> (|groups| > 1 ==> ValidGroups(groups, l.primary, l.secondary))
    ensures Finishes(l, groups, DigitsIn(l, s), Places(l, s), negative, v) <==> Writes(l, s, negative, v)
  {
  }

  lemma DigitParts(a: string, b: string)
    ensures AllDigits(a + b) ==> AllDigits(a) && AllDigits(b)
  {
    if AllDigits(a + b) {
      assert forall i | 0 <= i < |a| :: (a + b)[i] == a[i];
      assert forall i | 0 <= i < |b| :: (a + b)[|a| + i] == b[i];
    }
  }

  /** Parse, for every text that is not blank: once its sign and marker are
      off, it is accepted as v exactly when it is v as the locale writes
      it. */
  lemma ParseExactlyWhen(l: Locale, s: string, v: I64)
    requires Clean(s) != ""
    ensures var (body, negative) := Undress(l, Clean(s));
            Parse(l, s) == Ok(v) <==> Writes(l, body, negative, v)
  {
    var (body, negative) := Undress(l, Clean(s));
    BodyExactlyWhen(l, body, negative, v);
  }
}
