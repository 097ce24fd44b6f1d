/** The sign and the marker of a strictly parsed amount (currency/parse.go):
    either may stand at either end, and neither changes the number. */
module CurrencyStrictSigns {
  import opened Digits
  import opened Text
  import opened Money
  import opened CurrencyLocale
  import opened CurrencyParse
  import opened CurrencyStrict

  predicate Dash(c: char) {
    c == '-' || c == '\U{2212}'
  }

  /** Text that neither begins nor ends with a space or a minus. */
  predicate Plain(s: string) {
    Tight(s) && !Dash(s[0]) && !Dash(s[|s| - 1])
  }

  // ---------- A sign ----------

  lemma TrimBefore(g: string, x: string)
    requires AllSpace(g) && Tight(x)
    ensures Trim(g + x) == x
  {
    assert g + x + "" == g + x;
    TrimAround(g, x, "");
  }

  lemma TrimAfter(x: string, g: string)
    requires AllSpace(g) && Tight(x)
    ensures Trim(x + g) == x
  {
    assert "" + x + g == x + g;
    TrimAround("", x, g);
  }

  lemma SignInFront(c: char, g: string, x: string)
    requires Dash(c) && AllSpace(g) && Tight(x)
    ensures TakeSign([c] + g + x, false) == (x, true)
  {
    var s := [c] + g + x;
    assert s[1..] == g + x && s[0] == c;
    TrimBefore(g, x);
  }

  lemma SignBehind(x: string, g: string, c: char)
    requires Dash(c) && AllSpace(g) && Tight(x) && !Dash(x[0])
    ensures TakeSign(x + g + [c], false) == (x, true)
  {
    var s := x + g + [c];
    assert s[..|s| - 1] == x + g && s[|s| - 1] == c && s[0] == x[0];
    TrimAfter(x, g);
  }

  lemma NoSign(x: string, negative: bool)
    requires Plain(x)
    ensures TakeSign(x, negative) == (x, negative)
  {
  }

  // ---------- A marker ----------

  /** The symbol, or the code in any case where the symbol is not there. */
  ghost predicate MarksFront(l: Locale, m: string, s: string) {
    var symbol := Clean(l.symbol);
    || m == symbol
    || (SameCode(m, l.code) && !PrefixMarker(s, symbol, l.code) && !SuffixMarker(s, symbol, l.code))
  }

  ghost predicate MarksBack(l: Locale, m: string, s: string) {
    var symbol := Clean(l.symbol);
    && !PrefixMarker(s, symbol, l.code)
    && (m == symbol || (SameCode(m, l.code) && !SuffixMarker(s, symbol, l.code) && !PrefixMarker(s, l.code, l.code)))
  }

  lemma CleanIsTight(s: string)
    requires Clean(s) != ""
    ensures Tight(Clean(s))
  {
    var before, after := TrimSplits(Fold(s));
  }

  lemma MarkerPlain(l: Locale, m: string)
    requires WellFormed(l) && (m == Clean(l.symbol) || SameCode(m, l.code))
    ensures Plain(m) && |l.code| == 3 && l.code != ""
  {
    if m == Clean(l.symbol) {
      CleanIsTight(l.symbol);
    } else {
      assert Upper(m[0]) == l.code[0] && Upper(m[2]) == l.code[2];
    }
  }

  lemma TwoMarkers(s: string, negative: bool, symbol: string, code: string)
    requires symbol != "" && code != ""
    ensures TakeMarker(s, negative, [symbol, code], code)
         == if PrefixMarker(s, symbol, code) then TakeSign(Trim(s[|symbol|..]), negative)
            else if SuffixMarker(s, symbol, code) then TakeSign(Trim(s[..|s| - |symbol|]), negative)
            else if PrefixMarker(s, code, code) then TakeSign(Trim(s[|code|..]), negative)
            else if SuffixMarker(s, code, code) then TakeSign(Trim(s[..|s| - |code|]), negative)
            else (s, negative)
  {
    assert [symbol, code][1..] == [code] && [code][1..] == [];
    assert TakeMarker(s, negative, [], code) == (s, negative);
    assert TakeMarker(s, negative, [code], code)
        == if PrefixMarker(s, code, code) then TakeSign(Trim(s[|code|..]), negative)
           else if SuffixMarker(s, code, code) then TakeSign(Trim(s[..|s| - |code|]), negative)
           else (s, negative);
  }

  lemma MarkerInFront(l: Locale, m: string, g: string, x: string, negative: bool)
    requires WellFormed(l) && MarksFront(l, m, m + g + x) && AllSpace(g) && Tight(x)
    ensures TakeMarker(m + g + x, negative, [Clean(l.symbol), l.code], l.code) == TakeSign(x, negative)
  {
    var s := m + g + x;
    MarkerPlain(l, m);
    assert s[..|m|] == m && s[|m|..] == g + x;
    TwoMarkers(s, negative, Clean(l.symbol), l.code);
    TrimBefore(g, x);
  }

  lemma MarkerBehind(l: Locale, m: string, g: string, x: string, negative: bool)
    requires WellFormed(l) && MarksBack(l, m, x + g + m) && AllSpace(g) && Tight(x)
    ensures TakeMarker(x + g + m, negative, [Clean(l.symbol), l.code], l.code) == TakeSign(x, negative)
  {
    var s := x + g + m;
    MarkerPlain(l, m);
    assert s[|s| - |m|..] == m && s[..|s| - |m|] == x + g;
    TwoMarkers(s, negative, Clean(l.symbol), l.code);
    TrimAfter(x, g);
  }

  // ---------- Everything a body may wear ----------

  /** A sign, ahead of everything, between marker and body, or behind it
      all. */
  datatype Sign = Unsigned | Ahead(c: char) | Between(c: char) | Behind(c: char)

  /** The marker's place. */
  datatype Place = Nowhere | Front | Back

  /** A body with a sign and a marker, g between marker and body and h between
      the sign and what it stands by. */
  function Worn(b: string, sign: Sign, m: string, place: Place, g: string, h: string): string {
    match (place, sign)
    case (Nowhere, Unsigned) => b
    case (Nowhere, Ahead(c)) => [c] + h + b
    case (Nowhere, Between(c)) => [c] + h + b
    case (Nowhere, Behind(c)) => b + h + [c]
    case (Front, Unsigned) => m + g + b
    case (Front, Ahead(c)) => [c] + h + (m + g + b)
    case (Front, Between(c)) => m + g + ([c] + h + b)
    case (Front, Behind(c)) => (m + g + b) + h + [c]
    case (Back, Unsigned) => b + g + m
    case (Back, Ahead(c)) => [c] + h + (b + g + m)
    case (Back, Between(c)) => (b + h + [c]) + g + m
    case (Back, Behind(c)) => (b + g + m) + h + [c]
  }

  /** The text as the marker is looked for: any sign at the ends is off. */
  function Core(b: string, sign: Sign, m: string, place: Place, g: string, h: string): string {
    match place
    case Nowhere => b
    case Front => if sign.Between? then m + g + ([sign.c] + h + b) else m + g + b
    case Back => if sign.Between? then (b + h + [sign.c]) + g + m else b + g + m
  }

  ghost predicate Wearable(l: Locale, b: string, sign: Sign, m: string, place: Place, g: string, h: string) {
    && DigitEnds(l, b) && AllSpace(g) && AllSpace(h) && (!sign.Unsigned? ==> Dash(sign.c))
    && match place
       case Nowhere => true
       case Front => MarksFront(l, m, Core(b, sign, m, place, g, h))
       case Back => MarksBack(l, m, Core(b, sign, m, place, g, h))
  }

  lemma DigitsPlain(l: Locale, b: string)
    requires WellFormed(l) && DigitEnds(l, b)
    ensures Plain(b)
  {
  }

  lemma JoinedPlain(x: string, g: string, y: string)
    requires Tight(x) && !Dash(x[0]) && Tight(y) && !Dash(y[|y| - 1])
    ensures Plain(x + g + y)
  {
    var s := x + g + y;
    assert s[0] == x[0] && s[|s| - 1] == y[|y| - 1];
  }

  lemma PlainCore(l: Locale, b: string, sign: Sign, m: string, place: Place, g: string, h: string)
    requires WellFormed(l) && Wearable(l, b, sign, m, place, g, h) && !sign.Between?
    ensures Plain(Core(b, sign, m, place, g, h))
  {
    DigitsPlain(l, b);
    if place.Front? {
      MarkerPlain(l, m);
      JoinedPlain(m, g, b);
    } else if place.Back? {
      MarkerPlain(l, m);
      JoinedPlain(b, g, m);
    }
  }

  lemma CoreUndresses(l: Locale, b: string, sign: Sign, m: string, place: Place, g: string, h: string, negative: bool)
    requires WellFormed(l) && Wearable(l, b, sign, m, place, g, h) && !sign.Between?
    ensures TakeMarker(Core(b, sign, m, place, g, h), negative, [Clean(l.symbol), l.code], l.code) == (b, negative)
  {
    DigitsPlain(l, b);
    NoSign(b, negative);
    match place
    case Nowhere => NoMarker(l, b, negative);
    case Front => MarkerInFront(l, m, g, b, negative);
    case Back => MarkerBehind(l, m, g, b, negative);
  }

  lemma BetweenUndresses(l: Locale, b: string, sign: Sign, m: string, place: Place, g: string, h: string)
    requires WellFormed(l) && Wearable(l, b, sign, m, place, g, h) && sign.Between? && !place.Nowhere?
    ensures Undress(l, Worn(b, sign, m, place, g, h)) == (b, true)
  {
    DigitsPlain(l, b);
    MarkerPlain(l, m);
    if place.Front? {
      SignInFront(sign.c, h, b);
      var x := [sign.c] + h + b;
      assert x[|x| - 1] == b[|b| - 1] && x[0] == sign.c;
      JoinedPlain(m, g, x);
      MarkerInFront(l, m, g, x, false);
    } else {
      SignBehind(b, h, sign.c);
      var x := b + h + [sign.c];
      assert x[|x| - 1] == sign.c && x[0] == b[0];
      JoinedPlain(x, g, m);
      MarkerBehind(l, m, g, x, false);
    }
  }

  /** A minus in any of the places it may stand, with or without the symbol or
      the code at either end, is the sign of the body and nothing else. */
  lemma Undresses(l: Locale, b: string, sign: Sign, m: string, place: Place, g: string, h: string)
    requires WellFormed(l) && Wearable(l, b, sign, m, place, g, h)
    ensures Undress(l, Worn(b, sign, m, place, g, h)) == (b, !sign.Unsigned?)
  {
    DigitsPlain(l, b);
    if sign.Between? {
      if place.Nowhere? {
        SignInFront(sign.c, h, b);
        NoMarker(l, b, true);
      } else {
        BetweenUndresses(l, b, sign, m, place, g, h);
      }
    } else {
      var core := Core(b, sign, m, place, g, h);
      PlainCore(l, b, sign, m, place, g, h);
      CoreUndresses(l, b, sign, m, place, g, h, !sign.Unsigned?);
      match sign
      case Unsigned => NoSign(core, false);
      case Ahead(c) => SignInFront(c, h, core);
      case Behind(c) => SignBehind(core, h, c);
    }
  }

  /** So the strict parser reads dressed text exactly as the amount its body
      writes, negative exactly when it wears a minus. */
  lemma DressedExactlyWhen(l: Locale, s: string, b: string, sign: Sign, m: string, place: Place, g: string, h: string, v: I64)
    requires WellFormed(l) && Wearable(l, b, sign, m, place, g, h) && Clean(s) == Worn(b, sign, m, place, g, h)
    ensures Parse(l, s) == Ok(v) <==> Writes(l, b, !sign.Unsigned?, v)
  {
    Undresses(l, b, sign, m, place, g, h);
    assert Worn(b, sign, m, place, g, h) != "";
    ParseExactlyWhen(l, s, v);
  }
}
