/** One locale that meets every condition the round trips ask for, so that
    they are about something. */
module CurrencyWitness {
  import opened Digits
  import opened Text
  import opened CurrencyLocale
  import opened CurrencyReadings
  import P = CurrencyParse
  import CurrencyRoundTrip
  import CurrencyChoices

  const ENGLISH: Locale := Locale(
    '.', ',', '.', "0123456789", "-", "\U{00A0}", 1, 3, 3, "$", "USD", 2,
    Pattern([Sign], []), None, false, false,
    map c: char | '0' <= c <= '9' :: (c - '0') as nat,
    set c: char | 'A' <= c <= 'Z' || 'a' <= c <= 'z', {'$'})

  const DOLLARS: Spellings := Spellings(["USD", "$"], map["USD" := {"USD"}, "$" := {"USD"}])

  lemma EnglishDigits()
    ensures P.GoodDigits(ENGLISH)
  {
    forall i | 0 <= i < 10
      ensures ENGLISH.digits[i] in ENGLISH.digitValue && ENGLISH.digitValue[ENGLISH.digits[i]] == i
    {
      assert ENGLISH.digits[i] == '0' + i as char;
    }
  }

  lemma FoldOne(c: char)
    ensures Fold([c]) == FoldRune(c)
  {
    assert [c][1..] == "" && Fold("") == "";
    assert FoldRune(c) + "" == FoldRune(c);
  }

  lemma EnglishIsWellFormed()
    ensures CurrencyRoundTrip.WellFormedPatterns(ENGLISH)
  {
    EnglishDigits();
    FoldOne('$');
    FoldOne('-');
    P.TrimKeeps("$");
    assert ENGLISH.positive.prefix[1..] == [];
    assert CurrencyRoundTrip.Shape([]) == [];
    assert CurrencyRoundTrip.Shape([Sign]) == [Sign];
    assert Chosen(ENGLISH, true) == Pattern([Minus, Sign], []);
    assert [Minus, Sign][1..] == [Sign];
    assert CurrencyRoundTrip.Shape([Minus, Sign]) == [Minus, Sign];
  }

  lemma EnglishReads()
    ensures CurrencyChoices.Reads(ENGLISH)
  {
  }

  lemma DollarsAreGood()
    ensures CurrencyChoices.GoodSpellings(ENGLISH, DOLLARS)
  {
  }

  lemma EnglishChoices()
    ensures CurrencyChoices.Reads(ENGLISH) && CurrencyChoices.WritesFor(ENGLISH, ENGLISH)
    ensures CurrencyChoices.GoodSpellings(ENGLISH, DOLLARS)
  {
    EnglishReads();
    DollarsAreGood();
    EnglishDigits();
  }

  /** And the least amount of all reads back in it. */
  lemma EnglishLeastAmount()
    ensures P.Parse(ENGLISH, FormatMoney(ENGLISH, MIN_I64)) == P.Ok(MIN_I64)
  {
    EnglishIsWellFormed();
    CurrencyRoundTrip.PrintedReadsBack(ENGLISH, MIN_I64);
  }
}
