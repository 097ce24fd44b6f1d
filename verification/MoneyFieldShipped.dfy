/** The form's money field over the real printer and parsers. */
module MoneyFieldShipped {
  import opened Digits
  import opened Text
  import opened CurrencyLocale
  import opened CurrencyReadings
  import opened CurrencyChoices
  import opened MoneyField
  import P = CurrencyParse
  import CurrencyVerdict

  function ErrorMessage(e: P.Error, exp: nat): Message {
    match e
    case Precision => TooPrecise(if exp == 0 || exp == 3 then exp else 2)
    case DecimalComma => UseComma
    case DecimalPoint => UsePoint
    case CurrencySign => SignRefused
    case Invalid => InvalidAmount
  }

  /** ambiguity: a too precise reading is named first, and the other is
      offered. */
  function AmbiguityMessage(l: Locale, code: string, rs: seq<Reading>): Message
    requires IsDigitsOf(l) && rs != []
  {
    var lo, hi := WriteChoice(l, rs[0]), WriteChoice(l, rs[|rs| - 1]);
    if !rs[0].storable then OneTooPrecise(lo, hi, code)
    else if !rs[|rs| - 1].storable then OneTooPrecise(hi, lo, code)
    else TwoReadings(lo, hi)
  }

  /** The strict parser's answer as the field reports it. */
  function Strictly(l: Locale, raw: string): Either {
    match P.Parse(l, raw)
    case Ok(v) => Amount(v)
    case Err(e) => Refused(ErrorMessage(e, l.exp))
  }

  /** The normalising parser's answer as the field reports it. */
  function Normalising(l: Locale, sp: Spellings, raw: string): Either
    requires IsDigitsOf(l)
  {
    match ParseNormalized(l, sp, raw)
    case Done(v) => Amount(v)
    case Failed(WrongCurrency) => Refused(WrongMoney(l.code))
    case Failed(Unreadable(e)) => Refused(ErrorMessage(e, l.exp))
    case Failed(Ambiguous(rs)) => if rs == [] then Refused(InvalidAmount) else Refused(AmbiguityMessage(l, l.code, rs))
  }

  /** The shipped locales, each with its spelling table. */
  predicate Ships(locales: map<string, Locale>, tables: map<string, Spellings>) {
    forall id | id in locales :: id in tables && P.WellFormed(locales[id])
  }

  function Render(locales: map<string, Locale>, id: string, minor: I64): string {
    if id in locales && IsDigitsOf(locales[id]) then InputValue(locales[id], minor) else ""
  }

  function Read(locales: map<string, Locale>, tables: map<string, Spellings>, id: string, raw: string, strict: bool): Either {
    if !(id in locales && id in tables && IsDigitsOf(locales[id])) then Refused(InvalidAmount)
    else if strict then Strictly(locales[id], raw)
    else Normalising(locales[id], tables[id], raw)
  }

  function Shipped(resolve: map<string, string>, fallback: string, codes: map<string, string>,
                   locales: map<string, Locale>, tables: map<string, Spellings>): Book
  {
    Book(resolve, fallback, codes, (id: string, v: I64) => Render(locales, id, v),
         (id, raw, strict) => Read(locales, tables, id, raw, strict))
  }

  lemma StrictlyTakes(l: Locale, raw: string, v: I64)
    ensures Strictly(l, raw) == Amount(v) <==> P.Parse(l, raw) == P.Ok(v)
  {
  }

  lemma NormalisingTakes(l: Locale, sp: Spellings, raw: string, v: I64)
    requires IsDigitsOf(l)
    ensures Normalising(l, sp, raw) == Amount(v) <==> ParseNormalized(l, sp, raw) == Done(v)
  {
  }

  /** In a shipped locale the field takes an amount exactly where the parser
      it asks for does: the strict one, or the one that refuses ambiguity. */
  lemma TakesExactlyWhen(locales: map<string, Locale>, tables: map<string, Spellings>, id: string, raw: string, strict: bool, v: I64)
    requires Ships(locales, tables) && id in locales
    ensures Read(locales, tables, id, raw, strict) == Amount(v) <==>
              if strict then P.Parse(locales[id], raw) == P.Ok(v) else ParseNormalized(locales[id], tables[id], raw) == Done(v)
  {
    assert IsDigitsOf(locales[id]);
    if strict {
      StrictlyTakes(locales[id], raw, v);
    } else {
      NormalisingTakes(locales[id], tables[id], raw, v);
    }
  }

  /** A message about precision names the currency's own places exactly for
      the places its keys cover. */
  lemma PlacesToldExactlyWhen(exp: nat)
    ensures ErrorMessage(P.Precision, exp) == TooPrecise(exp) <==> exp in {0, 2, 3}
    ensures exp !in {0, 2, 3} ==> ErrorMessage(P.Precision, exp) == TooPrecise(2)
  {
  }

  lemma SeedIsText(l: Locale, minor: I64)
    requires P.WellFormed(l)
    ensures var s := InputValue(l, minor); s != "" && Trim(s) == s && Clean(s) != "" && P.Parse(l, s) == P.Ok(minor)
  {
    var s := InputValue(l, minor);
    P.SeedReadsBack(l, minor);
    P.TrimKeeps(s);
    P.SeedPlain(l, minor);
    P.FoldKeeps(s);
  }

  /** Every shipped locale reads back what it renders: all of int64. */
  lemma ShippedReadsBack(resolve: map<string, string>, fallback: string, codes: map<string, string>,
                         locales: map<string, Locale>, tables: map<string, Spellings>, id: string, minor: I64)
    requires Ships(locales, tables) && id in locales
    ensures ReadsBack(Shipped(resolve, fallback, codes, locales, tables), id, minor)
  {
    SeedIsText(locales[id], minor);
  }

  /** Over every shipped locale and all of int64, an untouched form keeps the
      stored amount exactly as the field's policy allows. */
  lemma ShippedUntouchedKeeps(resolve: map<string, string>, fallback: string, codes: map<string, string>,
                              locales: map<string, Locale>, tables: map<string, Spellings>, f: Field, renderLocale: string)
    requires Ships(locales, tables) && f.stored.Some?
    requires var book := Shipped(resolve, fallback, codes, locales, tables);
             SamePage(book, f, renderLocale) && book.Resolve(renderLocale) in locales
    ensures var book := Shipped(resolve, fallback, codes, locales, tables);
            var e := Submit(book, f, Untouched(SeedMoney(book, renderLocale, f.stored, f.code, f.strict)));
            && (e.minor == f.stored <==> !f.strict || f.negative || f.stored.value >= 0)
            && (e.minor.Some? <==> e.error.None?)
            && (e.minor.None? ==> e.error == Some(NegativeRefused))
  {
    var book := Shipped(resolve, fallback, codes, locales, tables);
    ShippedReadsBack(resolve, fallback, codes, locales, tables, book.Resolve(renderLocale), f.stored.value);
    UntouchedKeeps(book, f, renderLocale);
  }

  /** And a record that changed after the form was drawn is asked for again. */
  lemma ShippedChangedReenters(resolve: map<string, string>, fallback: string, codes: map<string, string>,
                               locales: map<string, Locale>, tables: map<string, Spellings>, f: Field, renderLocale: string,
                               drawn: I64)
    requires Ships(locales, tables) && !f.strict && f.stored != Some(drawn)
    requires var book := Shipped(resolve, fallback, codes, locales, tables);
             SamePage(book, f, renderLocale) && book.Resolve(renderLocale) in locales
    ensures var book := Shipped(resolve, fallback, codes, locales, tables);
            var e := Submit(book, f, Untouched(SeedMoney(book, renderLocale, Some(drawn), f.code, false)));
            e.error == Some(Reenter) && e.reseed && e.minor.None?
  {
    var book := Shipped(resolve, fallback, codes, locales, tables);
    var id := book.Resolve(renderLocale);
    ShippedReadsBack(resolve, fallback, codes, locales, tables, id, drawn);
    if f.stored.Some? {
      ShippedReadsBack(resolve, fallback, codes, locales, tables, id, f.stored.value);
    }
    ChangedRecordReenters(book, f, renderLocale, drawn);
  }

  lemma NormalisingAmount(l: Locale, sp: Spellings, raw: string, answer: Outcome<I64>)
    requires IsDigitsOf(l) && ParseNormalized(l, sp, raw) == answer
    ensures answer.Done? ==> Normalising(l, sp, raw) == Amount(answer.value)
    ensures answer == Failed(Unreadable(P.Precision)) ==>
              Normalising(l, sp, raw).Refused? && Normalising(l, sp, raw).message.TooPrecise?
    ensures answer.Failed? && answer.failure.Ambiguous? && answer.failure.readings != [] ==>
              Normalising(l, sp, raw) == Refused(AmbiguityMessage(l, l.code, answer.failure.readings))
  {
  }

  /** The message for an ambiguity: the amount it offers can be stored, and
      typing it gives exactly that amount; the one it rules out cannot. */
  lemma OfferIsAccepted(l: Locale, sp: Spellings, raw: string, rs: seq<Reading>)
    requires ParseNormalized(l, sp, raw) == Failed(Ambiguous(rs))
    requires Reads(l) && WritesFor(l, l) && GoodSpellings(l, sp)
    ensures |rs| == 2
    ensures Normalising(l, sp, raw).Refused?
    ensures match Normalising(l, sp, raw).message
            case TwoReadings(a, b) =>
              && Normalising(l, sp, a) == Amount(rs[0].minor) && Normalising(l, sp, b) == Amount(rs[1].minor)
            case OneTooPrecise(a, b, code) =>
              && Normalising(l, sp, a).Refused? && Normalising(l, sp, a).message.TooPrecise?
              && Normalising(l, sp, b) == Amount(if rs[0].storable then rs[0].minor else rs[1].minor)
            case _ => false
  {
    CurrencyVerdict.AmbiguousIsTwo(l, sp, raw, rs);
    ChoicesSettle(l, sp, raw, rs, l, sp);
    NormalisingAmount(l, sp, raw, Failed(Ambiguous(rs)));
    assert rs[0] in rs && rs[1] in rs;
    var a, b := WriteChoice(l, rs[0]), WriteChoice(l, rs[1]);
    NormalisingAmount(l, sp, a, ParseNormalized(l, sp, a));
    NormalisingAmount(l, sp, b, ParseNormalized(l, sp, b));
  }
}
