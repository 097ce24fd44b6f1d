/** A form's money field (form/moneyfield.go): what it is seeded with, what a
    submission of it stores, and what a refused one shows again. */
module MoneyField {
  import opened Digits
  import opened Text
  import opened CurrencyLocale

  // ---------- Data ----------

  /** What reading some text gives: an amount, or the message that says why
      not. */
  datatype Either = Amount(value: I64) | Refused(message: Message)

  /** The currency package as the form uses it, for the field's currency: how
      a tag resolves to a shipped id, how an amount is rendered, how text is
      read (strictly or normalising), and how a code is normalised. */
  datatype Book = Book(
    resolve: map<string, string>, fallback: string, codes: map<string, string>,
    render: (string, I64) -> string, read: (string, string, bool) -> Either)
  {
    function Resolve(v: string): string {
      if v in resolve then resolve[v] else fallback
    }
  }

  /** The field's definition; the currency is the server's own and already
      normalised. */
  datatype Field = Field(
    code: string, locale: string, strict: bool, negative: bool, required: bool, localeEcho: bool,
    stored: Option<I64>)

  /** What a form is drawn with. */
  datatype Input = Input(value: string, locale: string, currency: string, seed: string)

  /** What a submission carries for the field: its text and every value of
      each hidden input. */
  datatype Post = Post(raw: string, locales: seq<string>, currencies: seq<string>, seeds: seq<string>)

  datatype Message =
    | Required | Reenter | CurrencyChanged | NegativeRefused | WrongMoney(currency: string)
    | TwoReadings(a: string, b: string)
    | OneTooPrecise(a: string, b: string, currency: string)
    | TooPrecise(places: nat)
    | UseComma | UsePoint | SignRefused | InvalidAmount

  /** Everything a submission leaves behind for one field. */
  datatype Entry = Entry(
    echo: string, currency: string, locale: Option<string>,
    error: Option<Message>, reseed: bool, minor: Option<I64>, verifiedSeed: Option<string>)

  // ---------- Seeding ----------

  function SeedMoney(book: Book, renderLocale: string, minor: Option<I64>, code: string, strict: bool): Input
  {
    var id := book.Resolve(renderLocale);
    if minor.None? then Input("", id, code, "")
    else
      var value := book.render(id, minor.value);
      Input(value, id, code, if strict then "" else value)
  }

  // ---------- Reading a submission ----------

  function OneValue(values: seq<string>): Option<string> {
    if |values| == 1 then Some(values[0]) else None
  }

  /** At most 35 letters, digits and hyphens. */
  predicate TagShape(v: string) {
    && 1 <= |v| <= 35
    && forall i | 0 <= i < |v| :: 'a' <= v[i] <= 'z' || 'A' <= v[i] <= 'Z' || IsDigit(v[i]) || v[i] == '-'
  }

  predicate ValidLocaleEcho(book: Book, v: string) {
    TagShape(v) && book.Resolve(v) == v
  }

  /** The locale the text is read in, unless its echo is refused. */
  function ReadLocale(book: Book, f: Field, post: Post): Option<string> {
    if !f.localeEcho then Some(book.Resolve(f.locale))
    else
      var v := OneValue(post.locales);
      if v.Some? && ValidLocaleEcho(book, v.value) then v else None
  }

  predicate CurrencyEchoed(book: Book, f: Field, post: Post) {
    var v := OneValue(post.currencies);
    v.Some? && v.value in book.codes && book.codes[v.value] == f.code
  }

  function Blank(f: Field, post: Post, id: string): Entry {
    Entry(post.raw, f.code, Some(id), None, false, None, None)
  }

  /** An absent, a repeated and an empty seed are the same: no seed. */
  function SeedOf(post: Post): string {
    if OneValue(post.seeds).Some? then OneValue(post.seeds).value else ""
  }

  /** What the seed says of the text: typed by the person, or the rendered
      text left alone, or a seed the record does not render to. */
  datatype SeedState = Typed | Unchanged | Stale

  function CheckSeed(book: Book, f: Field, post: Post, id: string): (c: SeedState)
    ensures c == Unchanged ==> f.stored.Some?
  {
    if f.strict || SeedOf(post) == "" then Typed
    else if f.stored.None? then Stale
    else if Trim(post.raw) != SeedOf(post) then Typed
    else if book.render(id, f.stored.value) == SeedOf(post) then Unchanged
    else Stale
  }

  /** The order of the checks, each settled on its own. */
  function Settle(f: Field, e: Entry, blank: bool, echoed: bool, check: SeedState, seed: string, read: Either): Entry {
    if blank then e.(error := if f.required then Some(Required) else None)
    else if !echoed then e.(error := Some(CurrencyChanged))
    else if check == Stale then e.(error := Some(Reenter), reseed := true)
    else if check == Unchanged then e.(minor := f.stored, verifiedSeed := Some(seed))
    else
      match read
      case Refused(m) => e.(error := Some(m))
      case Amount(v) => if v < 0 && !f.negative then e.(error := Some(NegativeRefused)) else e.(minor := Some(v))
  }

  /** parseMoney from the point where the locale is known. */
  function ReadIn(book: Book, f: Field, post: Post, id: string): Entry {
    Settle(f, Blank(f, post, id), Clean(post.raw) == "", f.localeEcho ==> CurrencyEchoed(book, f, post),
           CheckSeed(book, f, post, id), SeedOf(post), book.read(id, post.raw, f.strict))
  }

  /** What a submission leaves behind. */
  function Submit(book: Book, f: Field, post: Post): Entry {
    match ReadLocale(book, f, post)
    case None => Entry(post.raw, f.code, None, Some(Reenter), true, None, None)
    case Some(id) => ReadIn(book, f, post, id)
  }

  lemma SubmitIn(book: Book, f: Field, post: Post, id: string)
    requires ReadLocale(book, f, post) == Some(id)
    ensures var e := Submit(book, f, post);
            e == ReadIn(book, f, post, id) && e.echo == post.raw && e.currency == f.code && e.locale == Some(id)
  {
  }

  /** A form carries its text as a seed too exactly where the field is a
      normalising one: a strict field's own reading of it is exact. */
  lemma SeedIsText(book: Book, renderLocale: string, minor: Option<I64>, code: string, strict: bool)
    ensures var input := SeedMoney(book, renderLocale, minor, code, strict);
            && input.seed == (if strict then "" else input.value)
            && (input.value == if minor.None? then "" else book.render(book.Resolve(renderLocale), minor.value))
  {
  }

  /** Parsed.MoneyInput: what the form is drawn with again, and whether the
      server must seed it instead. */
  function Redraw(book: Book, e: Entry, renderLocale: string): (Input, bool) {
    if e.locale.None? || e.reseed then (Input("", book.Resolve(renderLocale), e.currency, ""), true)
    else (Input(e.echo, e.locale.value, e.currency, if e.verifiedSeed.Some? then e.verifiedSeed.value else ""), false)
  }

  /** The submission of a form the person left alone. */
  function Untouched(input: Input): Post {
    Post(input.value, [input.locale], [input.currency], [input.seed])
  }

  // ---------- The form's maps ----------

  function Put<T>(m: map<string, T>, name: string, v: Option<T>): (r: map<string, T>)
    ensures name in r <==> name in m || v.Some?
    ensures v.Some? ==> r[name] == v.value
    ensures v.None? && name in m ==> r[name] == m[name]
    ensures forall k | k != name :: k in r <==> k in m
    ensures forall k | k != name && k in m :: r[k] == m[k]
  {
    if v.Some? then m[name := v.value] else m
  }

  function Mark(s: set<string>, name: string, yes: bool): (r: set<string>)
    ensures name in r <==> name in s || yes
    ensures r - {name} == s - {name}
  {
    if yes then s + {name} else s
  }

  /** What a parsed form keeps, one map a fact, keyed by field name. */
  class Parsed {
    var echo: map<string, string>
    var moneyCurrency: map<string, string>
    var echoLocale: map<string, string>
    var errs: map<string, Message>
    var reseed: set<string>
    var minor: map<string, I64>
    var verifiedSeed: map<string, string>

    constructor ()
      ensures echo == map[] && moneyCurrency == map[] && echoLocale == map[] && errs == map[]
      ensures reseed == {} && minor == map[] && verifiedSeed == map[]
    {
      echo, moneyCurrency, echoLocale := map[], map[], map[];
      errs, reseed, minor, verifiedSeed := map[], {}, map[], map[];
    }

    /** parseMoney, each check in turn writing what it decides. */
    method ParseMoney(book: Book, name: string, f: Field, post: Post)
      modifies this
      ensures var e := Submit(book, f, post);
              && echo == old(echo)[name := e.echo] && moneyCurrency == old(moneyCurrency)[name := e.currency]
              && echoLocale == Put(old(echoLocale), name, e.locale)
              && errs == Put(old(errs), name, e.error) && reseed == Mark(old(reseed), name, e.reseed)
              && minor == Put(old(minor), name, e.minor)
              && verifiedSeed == Put(old(verifiedSeed), name, e.verifiedSeed)
    {
      echo := echo[name := post.raw];
      moneyCurrency := moneyCurrency[name := f.code];
      var locale := PostedLocale(book, f, post);
      if locale.None? {
        errs, reseed := errs[name := Reenter], reseed + {name};
      } else {
        SubmitIn(book, f, post, locale.value);
        echoLocale := echoLocale[name := locale.value];
        StoreText(book, name, f, post, locale.value);
      }
    }

    /** The locale check: the echo, when the form carries one, or the field's
        own. */
    static method PostedLocale(book: Book, f: Field, post: Post) returns (r: Option<string>)
      ensures r == ReadLocale(book, f, post)
    {
      var locale := book.Resolve(f.locale);
      if f.localeEcho {
        var v := OneValue(post.locales);
        if v.None? || !ValidLocaleEcho(book, v.value) {
          return None;
        }
        locale := v.value;
      }
      return Some(locale);
    }

    /** Blank text, the currency's echo, and then the amount. */
    method StoreText(book: Book, name: string, f: Field, post: Post, id: string)
      modifies this`errs, this`reseed, this`minor, this`verifiedSeed
      ensures var e := ReadIn(book, f, post, id);
              && errs == Put(old(errs), name, e.error) && reseed == Mark(old(reseed), name, e.reseed)
              && minor == Put(old(minor), name, e.minor)
              && verifiedSeed == Put(old(verifiedSeed), name, e.verifiedSeed)
    {
      if Clean(post.raw) == "" {
        if f.required {
          errs := errs[name := Required];
        }
        return;
      }
      if f.localeEcho && !CurrencyEchoed(book, f, post) {
        errs := errs[name := CurrencyChanged];
        return;
      }
      StoreAmount(book, name, f, post, id);
    }

    /** The seed, the reading and the negative policy. */
    method StoreAmount(book: Book, name: string, f: Field, post: Post, id: string)
        modifies this`errs, this`reseed, this`minor, this`verifiedSeed
      ensures var e := Settle(f, Blank(f, post, id), false, true,
                              CheckSeed(book, f, post, id), SeedOf(post), book.read(id, post.raw, f.strict));
              && errs == Put(old(errs), name, e.error) && reseed == Mark(old(reseed), name, e.reseed)
              && minor == Put(old(minor), name, e.minor)
              && verifiedSeed == Put(old(verifiedSeed), name, e.verifiedSeed)
    {
      var seed := SeedOf(post);
      if !f.strict && seed != "" && f.stored.None? {
        errs, reseed := errs[name := Reenter], reseed + {name};
      } else if !f.strict && seed != "" && Trim(post.raw) == seed {
        if book.render(id, f.stored.value) != seed {
          errs, reseed := errs[name := Reenter], reseed + {name};
        } else {
          minor, verifiedSeed := minor[name := f.stored.value], verifiedSeed[name := seed];
        }
      } else {
        var read := book.read(id, post.raw, f.strict);
        if read.Refused? {
          errs := errs[name := read.message];
        } else if read.value < 0 && !f.negative {
          errs := errs[name := NegativeRefused];
        } else {
          minor := minor[name := read.value];
        }
      }
    }
  }

  // ---------- What it promises ----------

  /** The page and the submission agree on how to read: the echo names the
      locale rendered in, or there is none and the field's own was. */
  predicate SamePage(book: Book, f: Field, renderLocale: string) {
    var id := book.Resolve(renderLocale);
    && (if f.localeEcho then TagShape(id) && book.Resolve(id) == id else book.Resolve(f.locale) == id)
    && f.code in book.codes && book.codes[f.code] == f.code
  }

  /** An amount's rendered text is text, and the strict reading of it is that
      amount. */
  predicate ReadsBack(book: Book, id: string, minor: I64) {
    var s := book.render(id, minor);
    s != "" && Trim(s) == s && Clean(s) != "" && book.read(id, s, true) == Amount(minor)
  }

  /** An untouched form keeps the stored amount. A normalising field always
      does, whatever its text could be read as; a strict one does exactly when
      its policy allows the amount. */
  lemma UntouchedKeeps(book: Book, f: Field, renderLocale: string)
    requires f.stored.Some? && SamePage(book, f, renderLocale)
    requires ReadsBack(book, book.Resolve(renderLocale), f.stored.value)
    ensures var e := Submit(book, f, Untouched(SeedMoney(book, renderLocale, f.stored, f.code, f.strict)));
            && (e.minor == f.stored <==> !f.strict || f.negative || f.stored.value >= 0)
            && (e.minor.Some? <==> e.error.None?)
            && (e.minor.None? ==> e.error == Some(NegativeRefused))
  {
  }

  /** The locale a submission names: the field's own where there is no echo,
      and else exactly one value, of a tag's shape and spelled as it
      resolves. */
  ghost predicate Named(book: Book, f: Field, post: Post, id: string) {
    if !f.localeEcho then id == book.Resolve(f.locale)
    else
      && post.locales == [id] && 1 <= |id| <= 35 && book.Resolve(id) == id
      && forall i | 0 <= i < |id| :: 'a' <= id[i] <= 'z' || 'A' <= id[i] <= 'Z' || '0' <= id[i] <= '9' || id[i] == '-'
  }

  /** Its currency, where it is echoed, is exactly one value and the field's. */
  ghost predicate SameCurrency(book: Book, f: Field, post: Post) {
    f.localeEcho ==> |post.currencies| == 1 && post.currencies[0] in book.codes && book.codes[post.currencies[0]] == f.code
  }

  /** The one seed of a normalising field. */
  ghost predicate Seeded(f: Field, post: Post, seed: string) {
    !f.strict && post.seeds == [seed] && seed != ""
  }

  /** Text the person left as it was drawn, on a record that still draws so. */
  ghost predicate LeftAlone(book: Book, f: Field, post: Post, id: string) {
    exists seed :: Seeded(f, post, seed) && Trim(post.raw) == seed && f.stored.Some? && book.render(id, f.stored.value) == seed
  }

  /** Text the person typed: no seed comes with it, or it is no longer the
      seed. */
  ghost predicate TypedAnew(f: Field, post: Post) {
    forall seed | Seeded(f, post, seed) :: f.stored.Some? && Trim(post.raw) != seed
  }

  lemma SeedIs(f: Field, post: Post)
    ensures f.strict || SeedOf(post) == "" <==> forall seed :: !Seeded(f, post, seed)
    ensures forall seed | Seeded(f, post, seed) :: seed == SeedOf(post)
    ensures !f.strict && SeedOf(post) != "" ==> Seeded(f, post, SeedOf(post))
  {
    if !f.strict && SeedOf(post) != "" {
      assert post.seeds == [SeedOf(post)];
      assert Seeded(f, post, SeedOf(post));
    }
  }

  lemma NamedIs(book: Book, f: Field, post: Post, id: string)
    ensures ReadLocale(book, f, post) == Some(id) <==> Named(book, f, post, id)
  {
    if |post.locales| == 1 {
      assert post.locales == [post.locales[0]];
    }
  }

  lemma SeedStateIs(book: Book, f: Field, post: Post, id: string)
    ensures CheckSeed(book, f, post, id) == Unchanged <==> LeftAlone(book, f, post, id)
    ensures CheckSeed(book, f, post, id) == Typed <==> TypedAnew(f, post)
  {
    SeedIs(f, post);
    if CheckSeed(book, f, post, id) == Unchanged {
      assert Seeded(f, post, SeedOf(post));
    }
  }

  /** Everything a submission can store, and nothing else: text in a locale
      and currency it may name that is not blank, and either was left alone,
      for the amount stored, or typed and read as an amount the field's policy
      allows. */
  lemma StoresExactlyWhen(book: Book, f: Field, post: Post, v: I64)
    ensures Submit(book, f, post).minor == Some(v) <==>
              exists id :: Named(book, f, post, id) && Clean(post.raw) != "" && SameCurrency(book, f, post)
                && (|| (LeftAlone(book, f, post, id) && f.stored == Some(v))
                    || (TypedAnew(f, post) && book.read(id, post.raw, f.strict) == Amount(v) && (v >= 0 || f.negative)))
  {
    var named := ReadLocale(book, f, post);
    if named.Some? {
      NamedIs(book, f, post, named.value);
      SeedStateIs(book, f, post, named.value);
    }
    forall id | Named(book, f, post, id)
      ensures named == Some(id)
    {
      NamedIs(book, f, post, id);
    }
  }

  /** What each refusal means, and that blank text in a field that needs none
      is no error. */
  lemma RefusesExactlyWhen(book: Book, f: Field, post: Post, id: string)
    requires Named(book, f, post, id)
    ensures var e := Submit(book, f, post);
            var blank, same := Clean(post.raw) == "", SameCurrency(book, f, post);
            && (e.error == Some(Required) && blank <==> blank && f.required)
            && (blank ==> e.minor.None? && !e.reseed && (e.error.None? <==> !f.required))
            && (!blank && !same ==> e.error == Some(CurrencyChanged) && !e.reseed)
            && (e.reseed <==> !blank && same && !LeftAlone(book, f, post, id) && !TypedAnew(f, post))
            && (!blank && same && TypedAnew(f, post) ==>
                  match book.read(id, post.raw, f.strict)
                  case Refused(m) => e.error == Some(m)
                  case Amount(v) => e.error == if v < 0 && !f.negative then Some(NegativeRefused) else None)
  {
    NamedIs(book, f, post, id);
    SeedStateIs(book, f, post, id);
  }

  /** A submission that names no locale it may is drawn again from the
      server, with none of its text. */
  lemma UnnamedReseeds(book: Book, f: Field, post: Post, renderLocale: string)
    ensures (forall id :: !Named(book, f, post, id)) ==>
              && Submit(book, f, post).error == Some(Reenter) && Submit(book, f, post).reseed
              && Redraw(book, Submit(book, f, post), renderLocale) == (Input("", book.Resolve(renderLocale), f.code, ""), true)
  {
    if ReadLocale(book, f, post).Some? {
      NamedIs(book, f, post, ReadLocale(book, f, post).value);
    }
  }

  /** A seed is never a value: it can keep the stored amount or refuse, and
      any other amount stored is what the text reads as without it. */
  lemma SeedNeverDecides(book: Book, f: Field, post: Post)
    requires Submit(book, f, post).minor.Some?
    ensures var v := Submit(book, f, post).minor;
            || (v == f.stored && Submit(book, f, post).verifiedSeed.Some?)
            || v == Submit(book, f, post.(seeds := [])).minor
  {
  }

  /** A record that changed after the form was drawn is never overwritten by
      the old text: the amount is asked for again. */
  lemma ChangedRecordReenters(book: Book, f: Field, renderLocale: string, drawn: I64)
    requires !f.strict && SamePage(book, f, renderLocale) && f.stored != Some(drawn)
    requires ReadsBack(book, book.Resolve(renderLocale), drawn)
    requires f.stored.Some? ==> ReadsBack(book, book.Resolve(renderLocale), f.stored.value)
    ensures var e := Submit(book, f, Untouched(SeedMoney(book, renderLocale, Some(drawn), f.code, false)));
            e.error == Some(Reenter) && e.reseed && e.minor.None?
  {
  }

  lemma VerifiedMeans(book: Book, f: Field, post: Post)
    requires Submit(book, f, post).verifiedSeed.Some?
    ensures ReadLocale(book, f, post).Some? && CheckSeed(book, f, post, ReadLocale(book, f, post).value) == Unchanged
    ensures Clean(post.raw) != "" && Submit(book, f, post).minor == f.stored && !Submit(book, f, post).reseed
    ensures Submit(book, f, post).verifiedSeed == Some(SeedOf(post))
  {
    SubmitIn(book, f, post, ReadLocale(book, f, post).value);
  }

  lemma UnchangedIsKept(book: Book, f: Field, post: Post, id: string)
    requires ReadLocale(book, f, post) == Some(id) && CheckSeed(book, f, post, id) == Unchanged
    requires Clean(post.raw) != "" && (f.localeEcho ==> CurrencyEchoed(book, f, post))
    ensures Submit(book, f, post).minor == f.stored
  {
  }

  /** A verified seed survives an error on another field: the form drawn
      again, submitted as it stands, stores the same amount again. */
  lemma VerifiedSeedSurvives(book: Book, f: Field, post: Post, renderLocale: string)
    requires Submit(book, f, post).verifiedSeed.Some?
    requires f.code in book.codes && book.codes[f.code] == f.code
    ensures var e := Submit(book, f, post); var (input, reseed) := Redraw(book, e, renderLocale);
            !reseed && Submit(book, f, Untouched(input)).minor == e.minor == f.stored
  {
    var id := ReadLocale(book, f, post).value;
    VerifiedMeans(book, f, post);
    SubmitIn(book, f, post, id);
    var again := Untouched(Redraw(book, Submit(book, f, post), renderLocale).0);
    assert again == Post(post.raw, [id], [f.code], [SeedOf(post)]);
    UnchangedIsKept(book, f, again, id);
  }

  /** Nothing refused is stored, and nothing whose meaning is unknown is
      echoed. */
  lemma RefusedStoresNothing(book: Book, f: Field, post: Post, renderLocale: string)
    ensures var e := Submit(book, f, post);
            && (e.error.Some? ==> e.minor.None? && e.verifiedSeed.None?)
            && (e.reseed ==> e.error == Some(Reenter) && Redraw(book, e, renderLocale).0.value == "")
  {
  }
}
