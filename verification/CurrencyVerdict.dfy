/** The one rule of the normalising reader, stated over the readings
    themselves: an amount is returned only when it is the single thing the
    text can mean, or the page's own all-groups reading of it. */
module CurrencyVerdict {
  import opened Digits
  import opened Text
  import opened Money
  import opened CurrencyLocale
  import opened CurrencyReadings
  import opened CurrencyAmbiguity
  import P = CurrencyParse

  /** r is what some convention and grouping make of the tokens. */
  predicate ReadBySome(l: Locale, toks: seq<Tok>, negative: bool, tries: seq<Try>, r: Reading)
    requires GoodToks(toks)
  {
    exists t :: t in tries && ReadsAs(l, toks, negative, t) == Some(r)
  }

  predicate IsReading(l: Locale, toks: seq<Tok>, negative: bool, r: Reading)
    requires GoodToks(toks)
  {
    ReadBySome(l, toks, negative, Tries(l), r)
  }

  /** Every way of reading the tokens that is in range gives r. */
  ghost predicate OnlyReading(l: Locale, toks: seq<Tok>, negative: bool, r: Reading)
    requires GoodToks(toks)
  {
    IsReading(l, toks, negative, r) && forall q :: IsReading(l, toks, negative, q) ==> q == r
  }

  // ---------- Two readings of one text ----------

  /** Two readings of the same tokens are one reading exactly when their
      decimals are one text, and exactly when they are one number. */
  lemma SameReading(l: Locale, toks: seq<Tok>, negative: bool, t1: Try, t2: Try)
    requires GoodToks(toks)
    requires ReadsAs(l, toks, negative, t1).Some? && ReadsAs(l, toks, negative, t2).Some?
    ensures var r1, r2 := ReadsAs(l, toks, negative, t1).value, ReadsAs(l, toks, negative, t2).value;
            && (r1.decimal == r2.decimal <==> r1 == r2)
            && (Denotes(r1.decimal) == Denotes(r2.decimal) <==> r1 == r2)
  {
    var (w1, f1) := ReadUnder(toks, t1).value;
    var (w2, f2) := ReadUnder(toks, t2).value;
    SameDecimal(w1, f1, negative, w2, f2, negative, l.exp);
  }

  lemma SameBySome(l: Locale, toks: seq<Tok>, negative: bool, tries: seq<Try>, r1: Reading, r2: Reading)
    requires GoodToks(toks)
    requires ReadBySome(l, toks, negative, tries, r1) && ReadBySome(l, toks, negative, tries, r2)
    ensures (r1.decimal == r2.decimal <==> r1 == r2) && (Denotes(r1.decimal) == Denotes(r2.decimal) <==> r1 == r2)
  {
    var t1 :| t1 in tries && ReadsAs(l, toks, negative, t1) == Some(r1);
    var t2 :| t2 in tries && ReadsAs(l, toks, negative, t2) == Some(r2);
    SameReading(l, toks, negative, t1, t2);
  }

  /** A storable reading's minor units are exactly the number read. */
  lemma MinorIsExact(l: Locale, toks: seq<Tok>, negative: bool, tries: seq<Try>, r: Reading)
    requires GoodToks(toks) && ReadBySome(l, toks, negative, tries, r) && r.storable
    ensures Quotient(r.minor, l.exp) == Denotes(r.decimal)
  {
    var t :| t in tries && ReadsAs(l, toks, negative, t) == Some(r);
    var (w, f) := ReadUnder(toks, t).value;
    ReadingIsExact(w, f, negative, l.exp);
  }

  // ---------- Collecting ----------

  predicate Distinct(rs: seq<Reading>) {
    forall i, j | 0 <= i < j < |rs| :: rs[i].decimal != rs[j].decimal
  }

  lemma {:induction false} Collected(l: Locale, toks: seq<Tok>, negative: bool, tries: seq<Try>)
    requires GoodToks(toks)
    ensures var rs := Collect(l, toks, negative, tries);
            && Distinct(rs)
            && forall r :: r in rs <==> ReadBySome(l, toks, negative, tries, r)
  {
    if tries != [] {
      var front, t := tries[..|tries| - 1], tries[|tries| - 1];
      Collected(l, toks, negative, front);
      var before, rs := Collect(l, toks, negative, front), Collect(l, toks, negative, tries);
      forall r
        ensures r in rs <==> ReadBySome(l, toks, negative, tries, r)
      {
        OneMoreTry(l, toks, negative, tries, r);
        if ReadsAs(l, toks, negative, t).Some? {
          var q := ReadsAs(l, toks, negative, t).value;
          if HasDecimal(before, q.decimal) {
            AlreadyThere(l, toks, negative, front, before, t);
          } else {
            assert r in rs <==> r in before || r == q;
          }
        }
      }
    }
  }

  lemma LastOrBefore(tries: seq<Try>, t: Try)
    requires tries != []
    ensures t in tries <==> t in tries[..|tries| - 1] || t == tries[|tries| - 1]
  {
    assert tries == tries[..|tries| - 1] + [tries[|tries| - 1]];
  }

  lemma OneMoreTry(l: Locale, toks: seq<Tok>, negative: bool, tries: seq<Try>, r: Reading)
    requires GoodToks(toks) && tries != []
    ensures ReadBySome(l, toks, negative, tries, r) <==>
              || ReadBySome(l, toks, negative, tries[..|tries| - 1], r)
              || ReadsAs(l, toks, negative, tries[|tries| - 1]) == Some(r)
  {
    forall t
      ensures t in tries <==> t in tries[..|tries| - 1] || t == tries[|tries| - 1]
    {
      LastOrBefore(tries, t);
    }
  }

  lemma AlreadyThere(l: Locale, toks: seq<Tok>, negative: bool, front: seq<Try>, before: seq<Reading>, t: Try)
    requires GoodToks(toks) && ReadsAs(l, toks, negative, t).Some?
    requires forall r :: r in before <==> ReadBySome(l, toks, negative, front, r)
    requires HasDecimal(before, ReadsAs(l, toks, negative, t).value.decimal)
    ensures ReadBySome(l, toks, negative, front, ReadsAs(l, toks, negative, t).value)
  {
    var q := ReadsAs(l, toks, negative, t).value;
    var k :| 0 <= k < |before| && before[k].decimal == q.decimal;
    assert before[k] in before;
    var f :| f in front && ReadsAs(l, toks, negative, f) == Some(before[k]);
    SameReading(l, toks, negative, f, t);
  }

  // ---------- Sorting ----------

  predicate Less(r: Reading, q: Reading) {
    Denotes(r.decimal) < Denotes(q.decimal)
  }

  predicate Differ(r: Reading, q: Reading) {
    Denotes(r.decimal) != Denotes(q.decimal)
  }

  predicate StrictlyAscending(rs: seq<Reading>) {
    forall i, j | 0 <= i < j < |rs| :: Less(rs[i], rs[j])
  }

  lemma {:induction false} Inserted(rs: seq<Reading>, r: Reading)
    ensures |Insert(rs, r)| == |rs| + 1 && forall q :: q in Insert(rs, r) <==> q in rs || q == r
  {
    if rs != [] && !Less(r, rs[0]) {
      Inserted(rs[1..], r);
      assert rs == [rs[0]] + rs[1..];
    }
  }

  lemma {:induction false} InsertedInOrder(rs: seq<Reading>, r: Reading)
    requires StrictlyAscending(rs) && forall q | q in rs :: Differ(q, r)
    ensures StrictlyAscending(Insert(rs, r))
  {
    if rs == [] {
    } else if Less(r, rs[0]) {
      Ahead(r, rs);
    } else {
      assert rs[0] in rs && forall q | q in rs[1..] :: q in rs;
      InsertedInOrder(rs[1..], r);
      Inserted(rs[1..], r);
      HeadIsLeast(rs);
      PutFirst(rs[0], Insert(rs[1..], r));
    }
  }

  lemma HeadIsLeast(rs: seq<Reading>)
    requires rs != [] && StrictlyAscending(rs)
    ensures forall q | q in rs[1..] :: Less(rs[0], q)
  {
    forall q | q in rs[1..]
      ensures Less(rs[0], q)
    {
      var k :| 1 <= k < |rs| && rs[k] == q;
    }
  }

  lemma Ahead(r: Reading, rs: seq<Reading>)
    requires rs != [] && StrictlyAscending(rs) && Less(r, rs[0])
    ensures StrictlyAscending([r] + rs)
  {
    forall q | q in rs
      ensures Less(r, q)
    {
      var k :| 0 <= k < |rs| && rs[k] == q;
      assert k > 0 ==> Less(rs[0], rs[k]);
    }
    PutFirst(r, rs);
  }

  lemma PutFirst(r: Reading, rs: seq<Reading>)
    requires StrictlyAscending(rs) && forall q | q in rs :: Less(r, q)
    ensures StrictlyAscending([r] + rs)
  {
    var all := [r] + rs;
    forall i, j | 0 <= i < j < |all|
      ensures Less(all[i], all[j])
    {
      if i == 0 {
        assert all[j] == rs[j - 1] && all[j] in rs;
      } else {
        assert Less(rs[i - 1], rs[j - 1]);
      }
    }
  }

  /** Sorting readings of different numbers keeps each of them. */
  lemma {:induction false} Sorted(rs: seq<Reading>)
    requires forall i, j | 0 <= i < j < |rs| :: Differ(rs[i], rs[j])
    ensures StrictlyAscending(Sort(rs)) && |Sort(rs)| == |rs| && forall q :: q in Sort(rs) <==> q in rs
  {
    if rs != [] {
      var front, last := rs[..|rs| - 1], rs[|rs| - 1];
      assert rs == front + [last];
      assert forall i, j | 0 <= i < j < |front| :: front[i] == rs[i] && front[j] == rs[j] && Differ(rs[i], rs[j]);
      Sorted(front);
      Inserted(Sort(front), last);
      InsertedInOrder(Sort(front), last);
    }
  }

  /** What the reader collects: each reading once, least first. */
  lemma ReadingsAreAll(l: Locale, toks: seq<Tok>, negative: bool)
    requires GoodToks(toks)
    ensures var rs := Readings(l, toks, negative);
            StrictlyAscending(rs) && forall r :: r in rs <==> IsReading(l, toks, negative, r)
  {
    var found := Collect(l, toks, negative, Tries(l));
    Collected(l, toks, negative, Tries(l));
    forall i, j | 0 <= i < j < |found|
      ensures Differ(found[i], found[j])
    {
      assert found[i] in found && found[j] in found && found[i].decimal != found[j].decimal;
      SameBySome(l, toks, negative, Tries(l), found[i], found[j]);
    }
    Sorted(found);
  }

  // ---------- The rule ----------

  /** v may be returned: it is a reading's exact amount, and either nothing
      else can be read or the page's own grouping decided. */
  ghost predicate MayReturn(l: Locale, toks: seq<Tok>, negative: bool, v: I64)
    requires GoodToks(toks)
  {
    exists r :: && IsReading(l, toks, negative, r) && r.storable && r.minor == v
                && Quotient(v, l.exp) == Denotes(r.decimal)
                && (OnlyReading(l, toks, negative, r) || Grouped(l, toks, negative) == Some(r))
  }

  /** The readings of an ambiguity: all of them, once, least first, some of
      them storable, and none settled by the page's own grouping. */
  ghost predicate MayAsk(l: Locale, toks: seq<Tok>, negative: bool, rs: seq<Reading>)
    requires GoodToks(toks)
  {
    && |rs| >= 2 && StrictlyAscending(rs)
    && (forall r :: r in rs <==> IsReading(l, toks, negative, r))
    && (exists r :: r in rs && r.storable)
    && !(Grouped(l, toks, negative).Some? && Grouped(l, toks, negative).value.storable)
  }

  /** A refusal: no reading can be stored. It is called too precise exactly
      when there is a reading at all, invalid when there would be one were it
      not out of range, and else the page's decimal mark is named. */
  ghost predicate MayRefuse(l: Locale, toks: seq<Tok>, negative: bool, e: P.Error)
    requires GoodToks(toks)
  {
    && (forall r :: IsReading(l, toks, negative, r) ==> !r.storable)
    && if exists r :: IsReading(l, toks, negative, r) then e == P.Precision
       else if SomeOverflow(l, toks, negative, Tries(l)) then e == P.Invalid
       else e == match l.decimal case ',' => P.DecimalComma case '.' => P.DecimalPoint case _ => P.Invalid
  }

  /** What the answer has to be, said of the readings and not of how they
      are found. */
  ghost predicate Justified(l: Locale, toks: seq<Tok>, negative: bool, answer: Outcome<I64>)
    requires GoodToks(toks)
  {
    match answer
    case Done(v) => MayReturn(l, toks, negative, v)
    case Failed(Ambiguous(rs)) => MayAsk(l, toks, negative, rs)
    case Failed(Unreadable(e)) => MayRefuse(l, toks, negative, e)
    case Failed(WrongCurrency) => false
  }

  /** The page's own reading is the first of the tries. */
  lemma OwnIsReading(l: Locale, toks: seq<Tok>, negative: bool)
    requires GoodToks(toks) && Grouped(l, toks, negative).Some?
    ensures IsReading(l, toks, negative, Grouped(l, toks, negative).value)
  {
    assert Tries(l)[0] == OwnTry(l);
  }

  lemma ReadingMinor(l: Locale, toks: seq<Tok>, negative: bool, r: Reading)
    requires GoodToks(toks) && IsReading(l, toks, negative, r) && r.storable
    ensures Quotient(r.minor, l.exp) == Denotes(r.decimal)
  {
    MinorIsExact(l, toks, negative, Tries(l), r);
  }

  lemma OnlyWhenListed(l: Locale, toks: seq<Tok>, negative: bool, rs: seq<Reading>)
    requires GoodToks(toks) && |rs| == 1
    requires forall r :: r in rs <==> IsReading(l, toks, negative, r)
    ensures OnlyReading(l, toks, negative, rs[0])
  {
    assert rs[0] in rs;
  }

  lemma MayReturnReading(l: Locale, toks: seq<Tok>, negative: bool, r: Reading)
    requires GoodToks(toks) && IsReading(l, toks, negative, r) && r.storable
    requires OnlyReading(l, toks, negative, r) || Grouped(l, toks, negative) == Some(r)
    ensures MayReturn(l, toks, negative, r.minor)
  {
    ReadingMinor(l, toks, negative, r);
  }

  lemma TheOnlyReading(l: Locale, toks: seq<Tok>, negative: bool, rs: seq<Reading>)
    requires GoodToks(toks) && |rs| == 1 && rs[0].storable
    requires forall r :: r in rs <==> IsReading(l, toks, negative, r)
    ensures MayReturn(l, toks, negative, rs[0].minor)
  {
    OnlyWhenListed(l, toks, negative, rs);
    MayReturnReading(l, toks, negative, rs[0]);
  }

  lemma TheOwnReading(l: Locale, toks: seq<Tok>, negative: bool)
    requires GoodToks(toks) && Grouped(l, toks, negative).Some? && Grouped(l, toks, negative).value.storable
    ensures MayReturn(l, toks, negative, Grouped(l, toks, negative).value.minor)
  {
    OwnIsReading(l, toks, negative);
    MayReturnReading(l, toks, negative, Grouped(l, toks, negative).value);
  }

  lemma NothingStorable(l: Locale, toks: seq<Tok>, negative: bool, rs: seq<Reading>, e: P.Error)
    requires GoodToks(toks) && forall r :: r in rs <==> IsReading(l, toks, negative, r)
    requires forall i | 0 <= i < |rs| :: !rs[i].storable
    requires e == if |rs| > 0 then P.Precision
                  else if SomeOverflow(l, toks, negative, Tries(l)) then P.Invalid else P.SeparatorError(l)
    ensures MayRefuse(l, toks, negative, e)
  {
    if |rs| > 0 {
      assert rs[0] in rs;
    }
  }

  lemma DecideIsJustified(l: Locale, toks: seq<Tok>, negative: bool, rs: seq<Reading>, overflowed: bool)
    requires GoodToks(toks) && StrictlyAscending(rs) && overflowed == SomeOverflow(l, toks, negative, Tries(l))
    requires forall r :: r in rs <==> IsReading(l, toks, negative, r)
    ensures Justified(l, toks, negative, Decide(l, rs, Grouped(l, toks, negative), overflowed))
  {
    var own := Grouped(l, toks, negative);
    if i :| 0 <= i < |rs| && rs[i].storable {
      assert rs[i] in rs;
      if |rs| == 1 {
        TheOnlyReading(l, toks, negative, rs);
      } else if own.Some? && own.value.storable {
        TheOwnReading(l, toks, negative);
      } else {
        assert MayAsk(l, toks, negative, rs);
      }
    } else {
      if own.Some? {
        OwnIsReading(l, toks, negative);
      }
      NothingStorable(l, toks, negative, rs,
        if |rs| > 0 then P.Precision else if overflowed then P.Invalid else P.SeparatorError(l));
    }
  }

  /** The normalising reader never guesses and never rounds. On text that is
      not blank it returns an amount only if some convention and grouping read
      the text as exactly that number, and then either nothing else can be
      read in range or the page's own locale took every mark for a group
      mark. Otherwise it refuses, and an ambiguity lists every reading once,
      least first, with at least one that can be stored. */
  lemma NeverGuesses(l: Locale, sp: Spellings, s: string)
    requires Clean(s) != "" && Prepare(l, sp, Clean(s)).Done?
    ensures var (toks, negative) := Prepare(l, sp, Clean(s)).value;
            Justified(l, toks, negative, ParseNormalized(l, sp, s))
  {
    var (toks, negative) := Prepare(l, sp, Clean(s)).value;
    ReadingsAreAll(l, toks, negative);
    DecideIsJustified(l, toks, negative, Readings(l, toks, negative), SomeOverflow(l, toks, negative, Tries(l)));
  }

  /** The rule decides: two justified answers that return amounts return the
      same amount, so no other reader could keep the promise differently. */
  lemma OneJustifiedAmount(l: Locale, toks: seq<Tok>, negative: bool, v: I64, u: I64)
    requires GoodToks(toks)
    requires Justified(l, toks, negative, Done(v)) && Justified(l, toks, negative, Done(u))
    ensures v == u
  {
    if Grouped(l, toks, negative).Some? {
      OwnIsReading(l, toks, negative);
    }
  }

  // ---------- Never more than two ----------

  /** Every digit of the tokens. */
  function AllRuns(toks: seq<Tok>): string {
    if toks == [] then ""
    else AllRuns(toks[..|toks| - 1]) + match toks[|toks| - 1] case Run(d) => d case Sep(_) => ""
  }

  /** The digits before and after the last mark. */
  function AtLastMark(toks: seq<Tok>): (string, string) {
    if toks == [] then ("", "")
    else
      var front := toks[..|toks| - 1];
      match toks[|toks| - 1]
      case Run(d) => (AtLastMark(front).0, d)
      case Sep(_) => (AllRuns(front), "")
  }

  predicate ReadsDigits(toks: seq<Tok>, r: Reader) {
    && (!r.sawDecimal ==> Concat(r.groups) == AllRuns(toks) && r.frac == "")
    && (r.sawDecimal ==> (Concat(r.groups), r.frac) == AtLastMark(toks))
  }

  /** A decimal mark is always the last mark, so a reading is one of two. */
  lemma {:induction false} ReaderDigits(toks: seq<Tok>, c: Convention)
    requires GoodToks(toks) && ReadToks(toks, c).Some?
    ensures ReadsDigits(toks, ReadToks(toks, c).value)
  {
    if toks != [] {
      var front, t := toks[..|toks| - 1], toks[|toks| - 1];
      ReaderDigits(front, c);
      OneMoreTok(toks, ReadToks(front, c).value, c);
    }
  }

  lemma OneMoreTok(toks: seq<Tok>, r: Reader, c: Convention)
    requires toks != [] && ReadsDigits(toks[..|toks| - 1], r) && ReadTok(r, toks[|toks| - 1], c).Some?
    ensures ReadsDigits(toks, ReadTok(r, toks[|toks| - 1], c).value)
  {
    match toks[|toks| - 1] {
      case Run(d) => ConcatAppend(r.groups, d);
      case Sep(m) => assert AllRuns(toks) == AllRuns(toks[..|toks| - 1]);
    }
  }

  lemma OneOfTwo(toks: seq<Tok>, t: Try)
    requires GoodToks(toks) && ReadUnder(toks, t).Some?
    ensures ReadUnder(toks, t).value == (AllRuns(toks), "") || ReadUnder(toks, t).value == AtLastMark(toks)
  {
    ReaderDigits(toks, t.convention);
  }

  /** Nothing typed has three readings: every mark groups, or the last one is
      the decimal. */
  lemma AtMostTwo(l: Locale, toks: seq<Tok>, negative: bool, a: Reading, b: Reading, c: Reading)
    requires GoodToks(toks)
    requires IsReading(l, toks, negative, a) && IsReading(l, toks, negative, b) && IsReading(l, toks, negative, c)
    ensures a == b || b == c || a == c
  {
    forall r | IsReading(l, toks, negative, r)
      ensures MakesIt(l, negative, (AllRuns(toks), ""), r) || MakesIt(l, negative, AtLastMark(toks), r)
    {
      ReadingMadeFrom(l, toks, negative, r);
    }
  }

  predicate MakesIt(l: Locale, negative: bool, digits: (string, string), r: Reading) {
    MakeReading(digits.0, digits.1, negative, l.exp) == Some(r)
  }

  lemma ReadingMadeFrom(l: Locale, toks: seq<Tok>, negative: bool, r: Reading)
    requires GoodToks(toks) && IsReading(l, toks, negative, r)
    ensures MakesIt(l, negative, (AllRuns(toks), ""), r) || MakesIt(l, negative, AtLastMark(toks), r)
  {
    var t :| t in Tries(l) && ReadsAs(l, toks, negative, t) == Some(r);
    OneOfTwo(toks, t);
  }

  lemma ThreeDiffer(rs: seq<Reading>)
    requires StrictlyAscending(rs) && |rs| > 2
    ensures rs[0] in rs && rs[1] in rs && rs[2] in rs && rs[0] != rs[1] && rs[1] != rs[2] && rs[0] != rs[2]
  {
    assert Less(rs[0], rs[1]) && Less(rs[1], rs[2]) && Less(rs[0], rs[2]);
  }

  /** An ambiguity is between exactly two amounts, so the two the message
      names are all there are, and one of them can be stored. */
  lemma AmbiguousIsTwo(l: Locale, sp: Spellings, s: string, rs: seq<Reading>)
    requires ParseNormalized(l, sp, s) == Failed(Ambiguous(rs))
    ensures |rs| == 2 && (rs[0].storable || rs[1].storable) && Less(rs[0], rs[1])
  {
    AmbiguousWasRead(l, sp, s, rs);
    var (toks, negative) := Prepare(l, sp, Clean(s)).value;
    NeverGuesses(l, sp, s);
    if |rs| > 2 {
      ThreeDiffer(rs);
      AtMostTwo(l, toks, negative, rs[0], rs[1], rs[2]);
    }
  }

  lemma AmbiguousWasRead(l: Locale, sp: Spellings, s: string, rs: seq<Reading>)
    requires ParseNormalized(l, sp, s) == Failed(Ambiguous(rs))
    ensures Clean(s) != "" && Prepare(l, sp, Clean(s)).Done?
  {
    if Clean(s) != "" && Prepare(l, sp, Clean(s)).Failed? {
      PrepareRefuses(l, sp, Clean(s));
    }
  }

  /** Before anything is read, only spellings and junk are refused. */
  lemma PrepareRefuses(l: Locale, sp: Spellings, s: string)
    requires Prepare(l, sp, s).Failed?
    ensures !Prepare(l, sp, s).failure.Ambiguous?
  {
    if |s| >= 2 && s[0] == '(' && s[|s| - 1] == ')' {
      StripRefuses(l, sp, Stripped(s[1..|s| - 1], true, true, false));
    } else {
      StripRefuses(l, sp, Stripped(s, false, false, false));
    }
  }

  lemma {:induction false} StripRefuses(l: Locale, sp: Spellings, st: Stripped)
    ensures StripAll(l, sp, st).Failed? ==> !StripAll(l, sp, st).failure.Ambiguous?
    decreases |st.s|
  {
    var round := StripRound(l, sp, st);
    if round.Done? && round.value != st.(s := Trim(st.s)) {
      StripRefuses(l, sp, round.value);
    }
  }
}
