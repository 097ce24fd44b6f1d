/** What a printed amount looks like (Format and InputValue in
    currency/format.go): which digits, where they are grouped, how a negative
    shows and where the symbol stands. */
module CurrencyPrinted {
  import opened Digits
  import opened Text
  import opened Money
  import opened CurrencyLocale

  // ---------- Digits ----------

  /** Digits are grouped exactly when the locale groups and there are as many
      as its primary group and the least group before it. */
  lemma GroupsExactlyWhen(whole: string, primary: nat, secondary: nat, minGroup: nat)
    requires primary > 0 ==> 1 <= secondary <= primary
    requires minGroup >= 1
    ensures |Parts(whole, primary, secondary, minGroup)| >= 2 <==> primary >= 1 && |whole| >= primary + minGroup
  {
    PartsValid(whole, primary, secondary, minGroup);
    if primary > 0 && |whole| >= primary + minGroup {
      ChunksSound(whole[..|whole| - primary], secondary);
    }
  }

  /** The digits printed are the magnitude's own, the fraction exactly as long
      as the currency's exponent, and the whole has no leading zero but the
      one of nothing at all. */
  lemma DigitsPrinted(minor: I64, exp: nat)
    ensures var (whole, frac) := SplitDigits(minor, exp);
            && |frac| == exp && AllDigits(whole) && AllDigits(frac) && Plain(whole)
            && Value(whole + frac) == if minor < 0 then 0 - minor else minor
  {
    var (whole, frac) := SplitDigits(minor, exp);
    SplitDigitsExact(minor, exp);
    PaddedValue(Magnitude(minor), exp);
    assert whole + frac == Padded(Magnitude(minor), exp);
    FormatRoundTrip(Magnitude(minor));
    var s := Format(Magnitude(minor));
    if |s| <= exp {
      assert whole == "0" by {
        assert (Zeros(exp + 1 - |s|) + s)[0] == '0';
        assert |whole| == 1;
      }
    } else {
      assert whole[0] == s[0];
    }
  }

  /** A printed body ends in the decimal mark and exactly the currency's
      places, or in its last whole digit where there are none. */
  lemma FractionPrinted(l: Locale, minor: I64)
    requires Printable(l)
    ensures var (whole, frac) := SplitDigits(minor, l.exp);
            var grouped := Join(Parts(whole, l.primary, l.secondary, l.minGroup), [l.group]);
            && |frac| == l.exp
            && FormatBody(l, minor) == LocalDigits(l, grouped) + LocalDigits(l, if l.exp > 0 then [l.decimal] + frac else "")
            && Magnified(l, minor) == LocalDigits(l, whole) + LocalDigits(l, if l.exp > 0 then [l.decimal] + frac else "")
  {
    var (whole, frac) := SplitDigits(minor, l.exp);
    SplitDigitsExact(minor, l.exp);
    var tail := if l.exp > 0 then [l.decimal] + frac else "";
    LocalConcat(l, Join(Parts(whole, l.primary, l.secondary, l.minGroup), [l.group]), tail);
    LocalConcat(l, whole, tail);
  }

  // ---------- Sign and symbol ----------

  lemma {:induction false} WriteConcat(l: Locale, a: seq<Item>, b: seq<Item>)
    ensures Write(l, a + b) == Write(l, a) + Write(l, b)
  {
    if a == [] {
      assert a + b == b;
    } else {
      assert (a + b)[1..] == a[1..] + b;
      WriteConcat(l, a[1..], b);
      Associate(Write(l, [a[0]]), Write(l, a[1..]), Write(l, b));
      WriteOne(l, a[0]);
    }
  }

  lemma WriteOne(l: Locale, i: Item)
    ensures Write(l, [i]) == match i case Sign => l.symbol case Minus => l.minus case Literal(c) => [c]
  {
    assert [i][1..] == [];
  }

  lemma SameMagnitude(l: Locale, m: I64)
    requires Printable(l) && m > MIN_I64
    ensures FormatBody(l, 0 - m) == FormatBody(l, m) && Magnified(l, 0 - m) == Magnified(l, m)
  {
    assert Magnitude(0 - m) == Magnitude(m);
  }

  lemma MinusInFront(l: Locale)
    requires l.negative.None?
    ensures FormatPrefix(l, Chosen(l, true)) == l.minus + FormatPrefix(l, l.positive)
    ensures FormatSuffix(l, Chosen(l, true)) == FormatSuffix(l, l.positive)
  {
    var p := l.positive.prefix;
    WriteConcat(l, [Minus], p);
    WriteOne(l, Minus);
    assert p != [] ==> ([Minus] + p)[|p|] == p[|p| - 1];
    var space := if l.spaceAfterSign && p != [] && p[|p| - 1] == Sign then l.spacing else "";
    Associate(l.minus, Write(l, p), space);
  }

  /** Without a pattern of its own, a negative amount is printed as the
      locale's minus and the amount; and a seed's minus is always ASCII. */
  lemma NegativeIsMinus(l: Locale, m: I64)
    requires Printable(l) && m > 0
    ensures l.negative.None? ==> FormatMoney(l, 0 - m) == l.minus + FormatMoney(l, m)
    ensures InputValue(l, 0 - m) == "-" + InputValue(l, m)
  {
    SameMagnitude(l, m);
    assert "" + Magnified(l, m) == Magnified(l, m);
    if l.negative.None? {
      MinusInFront(l);
      AssociateFour(l.minus, FormatPrefix(l, l.positive), FormatBody(l, m), FormatSuffix(l, l.positive));
    }
  }

  /** With a pattern of its own, a negative amount is printed in that pattern
      as the locale would print the positive amount were it the positive one. */
  lemma NegativeIsOwn(l: Locale, m: I64, p: Pattern)
    requires Printable(l) && m > 0 && l.negative == Some(p)
    ensures FormatMoney(l, 0 - m) == FormatMoney(l.(positive := p), m)
  {
    SameMagnitude(l, m);
    SameButPattern(l, p, m);
    WritesAlike(l, p, p.prefix);
    WritesAlike(l, p, p.suffix);
  }

  lemma SameButPattern(l: Locale, p: Pattern, m: I64)
    requires Printable(l)
    ensures FormatBody(l.(positive := p), m) == FormatBody(l, m)
  {
    var (whole, frac) := SplitDigits(m, l.exp);
    LocalAlike(l, p, Join(Parts(whole, l.primary, l.secondary, l.minGroup), [l.group]) + if l.exp > 0 then [l.decimal] + frac else "");
  }

  lemma LocalAlike(l: Locale, p: Pattern, s: string)
    requires IsDigitsOf(l)
    ensures LocalDigits(l.(positive := p), s) == LocalDigits(l, s)
  {
  }

  lemma {:induction false} WritesAlike(l: Locale, p: Pattern, items: seq<Item>)
    ensures Write(l.(positive := p), items) == Write(l, items)
  {
    if items != [] {
      WritesAlike(l, p, items[1..]);
    }
  }

  lemma AssociateFour(a: string, b: string, c: string, d: string)
    ensures ((a + b) + c) + d == a + ((b + c) + d)
  {
  }

  /** Where the pattern puts the sign next to the number, the symbol stands
      there, with the locale's spacing between exactly when it asks for it. */
  lemma SymbolBeside(l: Locale, minor: I64, items: seq<Item>)
    requires Printable(l)
    ensures Chosen(l, minor < 0).prefix == items + [Sign] ==>
              FormatMoney(l, minor) == Write(l, items) + l.symbol + (if l.spaceAfterSign then l.spacing else "")
                                       + FormatBody(l, minor) + FormatSuffix(l, Chosen(l, minor < 0))
    ensures Chosen(l, minor < 0).suffix == [Sign] + items ==>
              FormatMoney(l, minor) == FormatPrefix(l, Chosen(l, minor < 0)) + FormatBody(l, minor)
                                       + (if l.spaceBeforeSign then l.spacing else "") + l.symbol + Write(l, items)
  {
    var p := Chosen(l, minor < 0);
    WriteConcat(l, items, [Sign]);
    WriteConcat(l, [Sign], items);
    WriteOne(l, Sign);
    if p.suffix == [Sign] + items {
      var space := if l.spaceBeforeSign then l.spacing else "";
      AssociateBehind(FormatPrefix(l, p) + FormatBody(l, minor), space, l.symbol, Write(l, items));
    }
  }

  lemma AssociateBehind(a: string, b: string, c: string, d: string)
    ensures a + (b + (c + d)) == ((a + b) + c) + d
  {
  }

  // ---------- Cleaned text ----------

  const DIRECTION_MARKS := {
    '\U{061C}', '\U{200E}', '\U{200F}', '\U{202A}', '\U{202B}', '\U{202C}', '\U{202D}', '\U{202E}',
    '\U{2066}', '\U{2067}', '\U{2068}', '\U{2069}'}

  const SPACE_RUNES := {
    '\U{0009}', '\U{000A}', '\U{000B}', '\U{000C}', '\U{000D}', '\U{0020}', '\U{0085}', '\U{00A0}', '\U{1680}',
    '\U{2000}', '\U{2001}', '\U{2002}', '\U{2003}', '\U{2004}', '\U{2005}', '\U{2006}', '\U{2007}', '\U{2008}',
    '\U{2009}', '\U{200A}', '\U{2028}', '\U{2029}', '\U{202F}', '\U{205F}', '\U{3000}'}

  /** Cleaning drops a direction mark, makes any space U+0020 and keeps every
      other rune, wherever it stands. */
  lemma FoldsExactly(a: string, c: char, b: string)
    ensures Fold(a + ([c] + b)) == Fold(a) + ((if c in DIRECTION_MARKS then "" else if c in SPACE_RUNES then " " else [c]) + Fold(b))
    ensures Fold("") == ""
  {
    FoldConcat(a, [c] + b);
    MarksAre(c);
    assert ([c] + b)[0] == c && ([c] + b)[1..] == b;
  }

  lemma MarksAre(c: char)
    ensures Bidi(c) <==> c in DIRECTION_MARKS
    ensures IsSpace(c) <==> c in SPACE_RUNES
  {
  }

  lemma {:induction false} TrimLeftTakes(s: string) returns (before: string)
    ensures s == before + TrimLeft(s) && AllSpace(before)
  {
    before := "";
    if s != "" && IsSpace(s[0]) {
      var rest := TrimLeftTakes(s[1..]);
      before := [s[0]] + rest;
      assert s == [s[0]] + s[1..];
    }
  }

  lemma {:induction false} TrimRightTakes(s: string) returns (after: string)
    ensures s == TrimRight(s) + after && AllSpace(after)
  {
    after := "";
    if s != "" && IsSpace(s[|s| - 1]) {
      var rest := TrimRightTakes(s[..|s| - 1]);
      after := rest + [s[|s| - 1]];
      assert s == s[..|s| - 1] + [s[|s| - 1]];
    }
  }

  lemma {:induction false} TrimLeftTight(s: string)
    ensures TrimLeft(s) == "" || !IsSpace(TrimLeft(s)[0])
  {
    if s != "" && IsSpace(s[0]) {
      TrimLeftTight(s[1..]);
    }
  }

  lemma {:induction false} TrimRightTight(s: string)
    requires s == "" || !IsSpace(s[0])
    ensures TrimRight(s) == "" || Tight(TrimRight(s))
  {
    if s != "" && IsSpace(s[|s| - 1]) {
      TrimRightTight(s[..|s| - 1]);
    }
  }

  /** And then exactly the spaces at the ends go. */
  lemma CleansExactly(s: string) returns (before: string, after: string)
    ensures Fold(s) == before + (Clean(s) + after) && AllSpace(before) && AllSpace(after)
    ensures Clean(s) == "" || Tight(Clean(s))
  {
    before := TrimLeftTakes(Fold(s));
    after := TrimRightTakes(TrimLeft(Fold(s)));
    TrimLeftTight(Fold(s));
    TrimRightTight(TrimLeft(Fold(s)));
  }
}
