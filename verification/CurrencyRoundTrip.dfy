/** Format's grouped, signed, symbol-marked text reads back as the amount it
    was printed from, wherever the locale puts its sign and its symbol. */
module CurrencyRoundTrip {
  import opened Digits
  import opened Text
  import opened Money
  import opened CurrencyLocale
  import opened CurrencyParse

  // ---------- Patterns that read back ----------

  /** A pattern's affix without the runes written as they are. */
  function Shape(items: seq<Item>): seq<Item> {
    if items == [] then []
    else (if items[0].Literal? then [] else [items[0]]) + Shape(items[1..])
  }

  predicate BlankLiterals(items: seq<Item>) {
    forall i | 0 <= i < |items| && items[i].Literal? :: Blank(items[i].rune)
  }

  /** One currency sign, on either side. */
  predicate GoodPositive(p: Pattern) {
    && BlankLiterals(p.prefix) && BlankLiterals(p.suffix)
    && ((Shape(p.prefix) == [Sign] && Shape(p.suffix) == []) || (Shape(p.prefix) == [] && Shape(p.suffix) == [Sign]))
  }

  /** One currency sign and one minus sign, in any order on any sides. */
  predicate GoodNegative(p: Pattern) {
    && BlankLiterals(p.prefix) && BlankLiterals(p.suffix)
    && var a, b := Shape(p.prefix), Shape(p.suffix);
       || (a == [Minus, Sign] && b == []) || (a == [Sign, Minus] && b == [])
       || (a == [Minus] && b == [Sign]) || (a == [Sign] && b == [Minus])
       || (a == [] && b == [Minus, Sign]) || (a == [] && b == [Sign, Minus])
  }

  /** A well-formed locale whose patterns hold nothing but the symbol, one
      minus sign for a negative amount, spaces and direction marks. */
  predicate WellFormedPatterns(l: Locale) {
    && WellFormed(l)
    && |Fold(l.minus)| == 1 && IsMinus(Fold(l.minus)[0])
    && Blanks(l.spacing)
    && GoodPositive(Chosen(l, false)) && GoodNegative(Chosen(l, true))
  }

  // ---------- The body ----------

  lemma {:induction false} JoinAppend(parts: seq<string>, sep: string, last: string)
    requires parts != []
    ensures Join(parts + [last], sep) == Join(parts, sep) + sep + last
  {
    assert (parts + [last])[1..] == parts[1..] + [last];
    if |parts| > 1 {
      JoinAppend(parts[1..], sep, last);
      assert parts[0] + sep + (Join(parts[1..], sep) + sep + last) == (parts[0] + sep + Join(parts[1..], sep)) + sep + last;
    } else {
      assert parts[1..] + [last] == [last];
    }
  }

  lemma RunFolds(l: Locale, run: string)
    requires GoodDigits(l) && GoodMarks(l) && AllDigits(run)
    ensures Fold(LocalDigits(l, run)) == LocalDigits(l, run)
  {
    LocalPlain(l, run);
    FoldKeeps(LocalDigits(l, run));
  }

  lemma FoldOne(c: char)
    ensures Fold([c]) == FoldRune(c)
  {
    assert [c][1..] == "";
    assert FoldRune(c) + "" == FoldRune(c);
  }

  lemma LocalJoin(l: Locale, joined: string, run: string)
    requires GoodDigits(l) && GoodMarks(l)
    ensures LocalDigits(l, joined + [l.group] + run) == LocalDigits(l, joined) + [l.group] + LocalDigits(l, run)
  {
    LocalConcat(l, joined + [l.group], run);
    LocalConcat(l, joined, [l.group]);
    assert LocalDigits(l, [l.group]) == [l.group];
  }

  lemma JoinStep(l: Locale, front: seq<string>, run: string)
    requires GoodDigits(l) && GoodMarks(l) && front != [] && AllDigits(run)
    ensures Fold(LocalDigits(l, Join(front + [run], [l.group])))
         == Fold(LocalDigits(l, Join(front, [l.group]))) + ([Mark(l)] + LocalDigits(l, run))
  {
    var joined := Join(front, [l.group]);
    JoinAppend(front, [l.group], run);
    LocalJoin(l, joined, run);
    RunFolds(l, run);
    FoldOne(l.group);
    FoldThree(LocalDigits(l, joined), [l.group], LocalDigits(l, run));
    Associate(Fold(LocalDigits(l, joined)), [Mark(l)], LocalDigits(l, run));
  }

  lemma {:induction false} JoinFolds(l: Locale, parts: seq<string>)
    requires GoodDigits(l) && GoodMarks(l) && parts != [] && DigitRuns(parts)
    ensures Fold(LocalDigits(l, Join(parts, [l.group]))) == Spread(l, parts)
    decreases |parts|
  {
    if |parts| == 1 {
      RunFolds(l, parts[0]);
    } else {
      var n := |parts| - 1;
      assert parts == parts[..n] + [parts[n]];
      JoinFolds(l, parts[..n]);
      JoinStep(l, parts[..n], parts[n]);
    }
  }

  lemma FoldThree(a: string, b: string, c: string)
    ensures Fold((a + b) + c) == (Fold(a) + Fold(b)) + Fold(c)
  {
    FoldConcat(a + b, c);
    FoldConcat(a, b);
  }

  function PartsOf(l: Locale, minor: I64): seq<string>
    requires Printable(l)
  {
    Parts(SplitDigits(minor, l.exp).0, l.primary, l.secondary, l.minGroup)
  }

  lemma {:induction false} ConcatRuns(parts: seq<string>)
    requires AllDigits(Concat(parts))
    ensures forall i | 0 <= i < |parts| :: AllDigits(parts[i])
  {
    if parts != [] {
      var all := Concat(parts);
      assert parts[0] == all[..|parts[0]|] && Concat(parts[1..]) == all[|parts[0]|..];
      ConcatRuns(parts[1..]);
    }
  }

  lemma BodyFolds(l: Locale, minor: I64)
    requires WellFormed(l)
    ensures var parts := PartsOf(l, minor);
            && parts != [] && DigitRuns(parts) && Concat(parts) == SplitDigits(minor, l.exp).0
            && (|parts| > 1 ==> ValidGroups(parts, l.primary, l.secondary))
            && Fold(FormatBody(l, minor)) == BodyText(l, parts, SplitDigits(minor, l.exp).1)
  {
    var (whole, frac) := SplitDigits(minor, l.exp);
    SplitDigitsExact(minor, l.exp);
    var parts := PartsOf(l, minor);
    PartsValid(whole, l.primary, l.secondary, l.minGroup);
    ConcatRuns(parts);
    JoinFolds(l, parts);
    var grouped := Join(parts, [l.group]);
    var tail := if l.exp > 0 then [l.decimal] + frac else "";
    LocalConcat(l, grouped, tail);
    FoldConcat(LocalDigits(l, grouped), LocalDigits(l, tail));
    TailFolds(l, frac);
  }

  lemma TailFolds(l: Locale, frac: string)
    requires WellFormed(l) && AllDigits(frac)
    ensures Fold(LocalDigits(l, [l.decimal] + frac)) == [l.decimal] + LocalDigits(l, frac)
    ensures Fold(LocalDigits(l, "")) == ""
  {
    LocalPlain(l, [l.decimal] + frac);
    FoldKeeps(LocalDigits(l, [l.decimal] + frac));
    LocalConcat(l, [l.decimal], frac);
    assert LocalDigits(l, [l.decimal]) == [l.decimal];
  }

  // ---------- The affixes ----------

  /** What an affix atom leaves once folded and trimmed. */
  function Core(l: Locale, x: Item): string {
    match x
    case Sign => Clean(l.symbol)
    case Minus => Fold(l.minus)
    case Literal(c) => [c]
  }

  lemma {:induction false} WriteConcat(l: Locale, a: seq<Item>, b: seq<Item>)
    ensures Write(l, a + b) == Write(l, a) + Write(l, b)
  {
    if a == [] {
      assert a + b == b;
    } else {
      assert (a + b)[1..] == a[1..] + b;
      WriteConcat(l, a[1..], b);
    }
  }

  lemma {:induction false} BlanksFold(s: string)
    requires Blanks(s)
    ensures AllSpace(Fold(s))
  {
    if s != "" {
      BlanksFold(s[1..]);
    }
  }

  lemma {:induction false} BlankAffix(l: Locale, items: seq<Item>)
    requires Shape(items) == [] && BlankLiterals(items)
    ensures Blanks(Write(l, items))
  {
    if items != [] {
      assert items[0].Literal?;
      BlankAffix(l, items[1..]);
    }
  }

  lemma {:induction false} Peel(items: seq<Item>) returns (k: nat)
    requires Shape(items) != []
    ensures k < |items| && items[k] == Shape(items)[0] && !items[k].Literal?
    ensures Shape(items[..k]) == [] && Shape(items[k + 1..]) == Shape(items)[1..]
  {
    if items[0].Literal? {
      var j := Peel(items[1..]);
      k := j + 1;
      assert items[..k][1..] == items[1..][..j];
      assert items[k + 1..] == items[1..][j + 1..];
    } else {
      k := 0;
    }
  }

  lemma AtomFolds(l: Locale, x: Item) returns (before: string, after: string)
    requires WellFormedPatterns(l) && !x.Literal?
    ensures AllSpace(before) && AllSpace(after)
    ensures Fold(Atom(l, x)) == before + Core(l, x) + after
  {
    if x == Sign {
      before, after := TrimSplits(Fold(l.symbol));
    } else {
      before, after := "", "";
    }
  }

  function Atom(l: Locale, x: Item): string {
    if x == Sign then l.symbol else l.minus
  }

  lemma SplitAt(l: Locale, items: seq<Item>, k: nat)
    requires k < |items| && !items[k].Literal?
    ensures Write(l, items) == Write(l, items[..k]) + (Atom(l, items[k]) + Write(l, items[k + 1..]))
  {
    assert items == items[..k] + ([items[k]] + items[k + 1..]);
    WriteConcat(l, items[..k], [items[k]] + items[k + 1..]);
    assert ([items[k]] + items[k + 1..])[1..] == items[k + 1..];
  }

  lemma Reassociate(p: string, b1: string, x: string, b2: string, rest: string)
    ensures p + ((b1 + x + b2) + rest) == (p + b1) + x + (b2 + rest)
  {
  }

  /** An affix is spaces, its first atom and the rest. */
  lemma AffixFolds(l: Locale, items: seq<Item>) returns (before: string, after: string, rest: seq<Item>)
    requires WellFormedPatterns(l) && BlankLiterals(items) && Shape(items) != []
    ensures AllSpace(before) && AllSpace(after)
    ensures BlankLiterals(rest) && Shape(rest) == Shape(items)[1..]
    ensures Fold(Write(l, items)) == before + Core(l, Shape(items)[0]) + (after + Fold(Write(l, rest)))
  {
    var k := Peel(items);
    rest := items[k + 1..];
    SplitAt(l, items, k);
    var front, atom := Write(l, items[..k]), Atom(l, items[k]);
    FoldConcat(front, atom + Write(l, rest));
    FoldConcat(atom, Write(l, rest));
    EmptyAffix(l, items[..k]);
    var b1, b2 := AtomFolds(l, items[k]);
    before, after := Fold(front) + b1, b2;
    Reassociate(Fold(front), b1, Core(l, items[k]), b2, Fold(Write(l, rest)));
  }

  lemma EmptyAffix(l: Locale, items: seq<Item>)
    requires Shape(items) == [] && BlankLiterals(items)
    ensures AllSpace(Fold(Write(l, items)))
  {
    BlankAffix(l, items);
    BlanksFold(Write(l, items));
  }

  lemma OneAtom(l: Locale, items: seq<Item>, x: Item) returns (a: string, b: string)
    requires WellFormedPatterns(l) && BlankLiterals(items) && Shape(items) == [x]
    ensures AllSpace(a) && AllSpace(b) && Fold(Write(l, items)) == a + Core(l, x) + b
  {
    var after, rest;
    a, after, rest := AffixFolds(l, items);
    EmptyAffix(l, rest);
    b := after + Fold(Write(l, rest));
  }

  lemma TwoAtoms(l: Locale, items: seq<Item>, x: Item, y: Item) returns (a: string, b: string, c: string)
    requires WellFormedPatterns(l) && BlankLiterals(items) && Shape(items) == [x, y]
    ensures AllSpace(a) && AllSpace(b) && AllSpace(c)
    ensures Fold(Write(l, items)) == a + Core(l, x) + (b + Core(l, y) + c)
  {
    var after, rest, inner;
    a, after, rest := AffixFolds(l, items);
    inner, c := OneAtom(l, rest, y);
    b := after + inner;
    Associate(after, inner + Core(l, y), c);
    Associate(after, inner, Core(l, y));
  }

  // ---------- Undressing ----------

  lemma SignInFront(c: char, sp: string, s: string)
    requires IsMinus(c) && AllSpace(sp) && Tight(s)
    ensures TakeSign([c] + sp + s, false) == (s, true)
  {
    assert ([c] + sp + s)[1..] == sp + s + "";
    TrimAround(sp, s, "");
  }

  lemma SignBehind(s: string, sp: string, c: char)
    requires IsMinus(c) && AllSpace(sp) && Tight(s) && !IsMinus(s[0])
    ensures TakeSign(s + sp + [c], false) == (s, true)
  {
    var t := s + sp + [c];
    assert t[0] == s[0] && t[..|t| - 1] == "" + s + sp;
    TrimAround("", s, sp);
  }

  lemma SymbolInFront(l: Locale, sp: string, s: string, negative: bool)
    requires WellFormed(l) && AllSpace(sp) && Tight(s)
    ensures TakeMarker(Clean(l.symbol) + sp + s, negative, [Clean(l.symbol), l.code], l.code) == TakeSign(s, negative)
  {
    var m := Clean(l.symbol);
    var t := m + sp + s;
    assert t[..|m|] == m && t[|m|..] == sp + s + "";
    TrimAround(sp, s, "");
  }

  lemma SymbolBehind(l: Locale, s: string, sp: string, negative: bool)
    requires WellFormed(l) && AllSpace(sp) && Tight(s) && s[0] in l.digitValue
    ensures TakeMarker(s + sp + Clean(l.symbol), negative, [Clean(l.symbol), l.code], l.code) == TakeSign(s, negative)
  {
    var m := Clean(l.symbol);
    var t := s + sp + m;
    assert t[0] == s[0];
    assert t[..|m|][0] == s[0];
    assert !PrefixMarker(t, m, l.code) by {
      assert m == l.code ==> Upper(m[0]) == m[0];
    }
    assert t[|t| - |m|..] == m && t[..|t| - |m|] == "" + s + sp;
    TrimAround("", s, sp);
  }

  lemma SymbolEnds(l: Locale)
    requires WellFormed(l)
    ensures Tight(Clean(l.symbol)) && !IsMinus(Clean(l.symbol)[0]) && !IsMinus(Clean(l.symbol)[|Clean(l.symbol)| - 1])
  {
    var a, b := TrimSplits(Fold(l.symbol));
  }

  lemma UndressSign(l: Locale, a: string, f: string)
    requires WellFormed(l) && AllSpace(a) && Tight(f) && DigitEnds(l, f)
    ensures Undress(l, Clean(l.symbol) + a + f) == (f, false)
    ensures Undress(l, f + a + Clean(l.symbol)) == (f, false)
  {
    SymbolEnds(l);
    SymbolInFront(l, a, f, false);
    SymbolBehind(l, f, a, false);
  }

  lemma UndressMinusSign(l: Locale, c: char, a: string, b: string, f: string)
    requires WellFormed(l) && IsMinus(c) && AllSpace(a) && AllSpace(b) && Tight(f) && DigitEnds(l, f)
    ensures Undress(l, [c] + a + (Clean(l.symbol) + b + f)) == (f, true)
  {
    SymbolEnds(l);
    SignInFront(c, a, Clean(l.symbol) + b + f);
    SymbolInFront(l, b, f, true);
  }

  lemma UndressSignMinus(l: Locale, c: char, a: string, b: string, f: string)
    requires WellFormed(l) && IsMinus(c) && AllSpace(a) && AllSpace(b) && Tight(f) && DigitEnds(l, f)
    ensures Undress(l, Clean(l.symbol) + a + ([c] + b + f)) == (f, true)
  {
    SymbolEnds(l);
    SymbolInFront(l, a, [c] + b + f, false);
    SignInFront(c, b, f);
  }

  lemma UndressMinusBodySign(l: Locale, c: char, a: string, b: string, f: string)
    requires WellFormed(l) && IsMinus(c) && AllSpace(a) && AllSpace(b) && Tight(f) && DigitEnds(l, f)
    ensures Undress(l, [c] + a + (f + b + Clean(l.symbol))) == (f, true)
  {
    SymbolEnds(l);
    SignInFront(c, a, f + b + Clean(l.symbol));
    SymbolBehind(l, f, b, true);
  }

  lemma UndressSignBodyMinus(l: Locale, c: char, a: string, b: string, f: string)
    requires WellFormed(l) && IsMinus(c) && AllSpace(a) && AllSpace(b) && Tight(f) && DigitEnds(l, f)
    ensures Undress(l, (Clean(l.symbol) + a + f) + b + [c]) == (f, true)
  {
    SymbolEnds(l);
    SignBehind(Clean(l.symbol) + a + f, b, c);
    SymbolInFront(l, a, f, true);
  }

  lemma UndressBodyMinusSign(l: Locale, c: char, a: string, b: string, f: string)
    requires WellFormed(l) && IsMinus(c) && AllSpace(a) && AllSpace(b) && Tight(f) && DigitEnds(l, f)
    ensures Undress(l, (f + a + [c]) + b + Clean(l.symbol)) == (f, true)
  {
    SymbolEnds(l);
    SymbolBehind(l, f + a + [c], b, false);
    SignBehind(f, a, c);
  }

  lemma UndressBodySignMinus(l: Locale, c: char, a: string, b: string, f: string)
    requires WellFormed(l) && IsMinus(c) && AllSpace(a) && AllSpace(b) && Tight(f) && DigitEnds(l, f)
    ensures Undress(l, (f + a + Clean(l.symbol)) + b + [c]) == (f, true)
  {
    SymbolEnds(l);
    SignBehind(f + a + Clean(l.symbol), b, c);
    SymbolBehind(l, f, a, true);
  }

  // ---------- The round trip ----------

  function Literals(s: string): seq<Item> {
    seq(|s|, i requires 0 <= i < |s| => Literal(s[i]))
  }

  lemma {:induction false} LiteralsWrite(l: Locale, s: string)
    ensures Write(l, Literals(s)) == s && Shape(Literals(s)) == []
  {
    if s != "" {
      assert Literals(s)[1..] == Literals(s[1..]);
      LiteralsWrite(l, s[1..]);
    }
  }

  lemma {:induction false} ShapeConcat(a: seq<Item>, b: seq<Item>)
    ensures Shape(a + b) == Shape(a) + Shape(b)
  {
    if a == [] {
      assert a + b == b;
    } else {
      assert (a + b)[1..] == a[1..] + b;
      ShapeConcat(a[1..], b);
    }
  }

  /** Currency spacing only adds spaces to an affix. */
  lemma SpacedAffixes(l: Locale, p: Pattern) returns (a: seq<Item>, c: seq<Item>)
    requires Blanks(l.spacing) && BlankLiterals(p.prefix) && BlankLiterals(p.suffix)
    ensures BlankLiterals(a) && Shape(a) == Shape(p.prefix) && Write(l, a) == FormatPrefix(l, p)
    ensures BlankLiterals(c) && Shape(c) == Shape(p.suffix) && Write(l, c) == FormatSuffix(l, p)
  {
    var gap := Literals(l.spacing);
    LiteralsWrite(l, l.spacing);
    a, c := p.prefix, p.suffix;
    assert Write(l, a) + "" == Write(l, a) && "" + Write(l, c) == Write(l, c);
    if l.spaceAfterSign && p.prefix != [] && p.prefix[|p.prefix| - 1] == Sign {
      a := p.prefix + gap;
      WriteConcat(l, p.prefix, gap);
      ShapeConcat(p.prefix, gap);
    }
    if l.spaceBeforeSign && p.suffix != [] && p.suffix[0] == Sign {
      c := gap + p.suffix;
      WriteConcat(l, gap, p.suffix);
      ShapeConcat(gap, p.suffix);
    }
  }

  /** What Undress must do with a printed amount. */
  ghost predicate Undresses(l: Locale, text: string, body: string, negative: bool) {
    Trim(text) != "" && Undress(l, Trim(text)) == (body, negative)
  }

  lemma TrimTo(l: Locale, text: string, a: string, core: string, b: string, body: string, negative: bool)
    requires text == a + core + b && AllSpace(a) && AllSpace(b) && Tight(core)
    requires Undress(l, core) == (body, negative)
    ensures Undresses(l, text, body, negative)
  {
    TrimAround(a, core, b);
  }

  lemma Regroup1(x: string, m: string, y: string, f: string, e: string)
    ensures (x + m + y) + f + e == x + (m + y + f) + e
  {
  }

  lemma Regroup2(e: string, f: string, x: string, m: string, y: string)
    ensures e + f + (x + m + y) == e + (f + x + m) + y
  {
  }

  lemma Regroup3(e: string, f: string, x: string, m: string, y: string, n: string, z: string)
    ensures e + f + (x + m + (y + n + z)) == e + ((f + x + m) + y + n) + z
  {
  }

  lemma SignThenBody(l: Locale, x: string, y: string, e: string, f: string)
    requires WellFormed(l) && AllSpace(x) && AllSpace(y) && AllSpace(e) && Tight(f) && DigitEnds(l, f)
    ensures Undresses(l, (x + Clean(l.symbol) + y) + f + e, f, false)
  {
    var m := Clean(l.symbol);
    var text, core := (x + m + y) + f + e, m + y + f;
    SymbolEnds(l);
    UndressSign(l, y, f);
    Regroup1(x, m, y, f, e);
    TrimTo(l, text, x, core, e, f, false);
  }

  lemma BodyThenSign(l: Locale, e: string, x: string, y: string, f: string)
    requires WellFormed(l) && AllSpace(e) && AllSpace(x) && AllSpace(y) && Tight(f) && DigitEnds(l, f)
    ensures Undresses(l, e + f + (x + Clean(l.symbol) + y), f, false)
  {
    var m := Clean(l.symbol);
    var text, core := e + f + (x + m + y), f + x + m;
    SymbolEnds(l);
    UndressSign(l, x, f);
    Regroup2(e, f, x, m, y);
    TrimTo(l, text, e, core, y, f, false);
  }

  lemma MinusSignBody(l: Locale, c: char, x: string, y: string, z: string, e: string, f: string)
    requires WellFormed(l) && IsMinus(c) && AllSpace(x) && AllSpace(y) && AllSpace(z) && AllSpace(e) && Tight(f) && DigitEnds(l, f)
    ensures Undresses(l, (x + [c] + (y + Clean(l.symbol) + z)) + f + e, f, true)
  {
    var m := Clean(l.symbol);
    var text, core := (x + [c] + (y + m + z)) + f + e, [c] + y + (m + z + f);
    SymbolEnds(l);
    UndressMinusSign(l, c, y, z, f);
    assert text == x + core + e;
    TrimTo(l, text, x, core, e, f, true);
  }

  lemma SignMinusBody(l: Locale, c: char, x: string, y: string, z: string, e: string, f: string)
    requires WellFormed(l) && IsMinus(c) && AllSpace(x) && AllSpace(y) && AllSpace(z) && AllSpace(e) && Tight(f) && DigitEnds(l, f)
    ensures Undresses(l, (x + Clean(l.symbol) + (y + [c] + z)) + f + e, f, true)
  {
    var m := Clean(l.symbol);
    var text, core := (x + m + (y + [c] + z)) + f + e, m + y + ([c] + z + f);
    SymbolEnds(l);
    UndressSignMinus(l, c, y, z, f);
    assert text == x + core + e;
    TrimTo(l, text, x, core, e, f, true);
  }

  lemma MinusBodySign(l: Locale, c: char, x: string, y: string, z: string, e: string, f: string)
    requires WellFormed(l) && IsMinus(c) && AllSpace(x) && AllSpace(y) && AllSpace(z) && AllSpace(e) && Tight(f) && DigitEnds(l, f)
    ensures Undresses(l, (x + [c] + y) + f + (z + Clean(l.symbol) + e), f, true)
  {
    var m := Clean(l.symbol);
    var text, core := (x + [c] + y) + f + (z + m + e), [c] + y + (f + z + m);
    SymbolEnds(l);
    UndressMinusBodySign(l, c, y, z, f);
    assert text == x + core + e;
    TrimTo(l, text, x, core, e, f, true);
  }

  lemma SignBodyMinus(l: Locale, c: char, x: string, y: string, z: string, e: string, f: string)
    requires WellFormed(l) && IsMinus(c) && AllSpace(x) && AllSpace(y) && AllSpace(z) && AllSpace(e) && Tight(f) && DigitEnds(l, f)
    ensures Undresses(l, (x + Clean(l.symbol) + y) + f + (z + [c] + e), f, true)
  {
    var m := Clean(l.symbol);
    var text, core := (x + m + y) + f + (z + [c] + e), (m + y + f) + z + [c];
    SymbolEnds(l);
    UndressSignBodyMinus(l, c, y, z, f);
    assert text == x + core + e;
    TrimTo(l, text, x, core, e, f, true);
  }

  lemma BodyMinusSign(l: Locale, c: char, e: string, x: string, y: string, z: string, f: string)
    requires WellFormed(l) && IsMinus(c) && AllSpace(e) && AllSpace(x) && AllSpace(y) && AllSpace(z) && Tight(f) && DigitEnds(l, f)
    ensures Undresses(l, e + f + (x + [c] + (y + Clean(l.symbol) + z)), f, true)
  {
    var m := Clean(l.symbol);
    var text, core := e + f + (x + [c] + (y + m + z)), (f + x + [c]) + y + m;
    SymbolEnds(l);
    UndressBodyMinusSign(l, c, x, y, f);
    Regroup3(e, f, x, [c], y, m, z);
    TrimTo(l, text, e, core, z, f, true);
  }

  lemma BodySignMinus(l: Locale, c: char, e: string, x: string, y: string, z: string, f: string)
    requires WellFormed(l) && IsMinus(c) && AllSpace(e) && AllSpace(x) && AllSpace(y) && AllSpace(z) && Tight(f) && DigitEnds(l, f)
    ensures Undresses(l, e + f + (x + Clean(l.symbol) + (y + [c] + z)), f, true)
  {
    var m := Clean(l.symbol);
    var text, core := e + f + (x + m + (y + [c] + z)), (f + x + m) + y + [c];
    SymbolEnds(l);
    UndressBodySignMinus(l, c, x, y, f);
    Regroup3(e, f, x, m, y, [c], z);
    TrimTo(l, text, e, core, z, f, true);
  }

  ghost predicate Dressed(l: Locale, a: seq<Item>, c: seq<Item>, f: string) {
    WellFormedPatterns(l) && BlankLiterals(a) && BlankLiterals(c) && Tight(f) && DigitEnds(l, f)
  }

  function Folded(l: Locale, a: seq<Item>, f: string, c: seq<Item>): string {
    Fold(Write(l, a)) + f + Fold(Write(l, c))
  }

  lemma PositiveUndresses(l: Locale, a: seq<Item>, c: seq<Item>, f: string)
    requires Dressed(l, a, c, f) && GoodPositive(Pattern(a, c))
    ensures Undresses(l, Folded(l, a, f, c), f, false)
  {
    if Shape(a) == [Sign] {
      var x, y := OneAtom(l, a, Sign);
      EmptyAffix(l, c);
      SignThenBody(l, x, y, Fold(Write(l, c)), f);
    } else {
      var x, y := OneAtom(l, c, Sign);
      EmptyAffix(l, a);
      BodyThenSign(l, Fold(Write(l, a)), x, y, f);
    }
  }

  lemma PrefixedUndresses(l: Locale, a: seq<Item>, c: seq<Item>, f: string)
    requires Dressed(l, a, c, f) && Shape(c) == [] && (Shape(a) == [Minus, Sign] || Shape(a) == [Sign, Minus])
    ensures Undresses(l, Folded(l, a, f, c), f, true)
  {
    var minus := Fold(l.minus)[0];
    assert Fold(l.minus) == [minus];
    EmptyAffix(l, c);
    if Shape(a) == [Minus, Sign] {
      var x, y, z := TwoAtoms(l, a, Minus, Sign);
      MinusSignBody(l, minus, x, y, z, Fold(Write(l, c)), f);
    } else {
      var x, y, z := TwoAtoms(l, a, Sign, Minus);
      SignMinusBody(l, minus, x, y, z, Fold(Write(l, c)), f);
    }
  }

  lemma EnclosedUndresses(l: Locale, a: seq<Item>, c: seq<Item>, f: string)
    requires Dressed(l, a, c, f)
    requires (Shape(a) == [Minus] && Shape(c) == [Sign]) || (Shape(a) == [Sign] && Shape(c) == [Minus])
    ensures Undresses(l, Folded(l, a, f, c), f, true)
  {
    var minus := Fold(l.minus)[0];
    assert Fold(l.minus) == [minus];
    if Shape(a) == [Minus] {
      var x, y := OneAtom(l, a, Minus);
      var z, e := OneAtom(l, c, Sign);
      MinusBodySign(l, minus, x, y, z, e, f);
    } else {
      var x, y := OneAtom(l, a, Sign);
      var z, e := OneAtom(l, c, Minus);
      SignBodyMinus(l, minus, x, y, z, e, f);
    }
  }

  lemma SuffixedUndresses(l: Locale, a: seq<Item>, c: seq<Item>, f: string)
    requires Dressed(l, a, c, f) && Shape(a) == [] && (Shape(c) == [Minus, Sign] || Shape(c) == [Sign, Minus])
    ensures Undresses(l, Folded(l, a, f, c), f, true)
  {
    var minus := Fold(l.minus)[0];
    assert Fold(l.minus) == [minus];
    EmptyAffix(l, a);
    if Shape(c) == [Minus, Sign] {
      var x, y, z := TwoAtoms(l, c, Minus, Sign);
      BodyMinusSign(l, minus, Fold(Write(l, a)), x, y, z, f);
    } else {
      var x, y, z := TwoAtoms(l, c, Sign, Minus);
      BodySignMinus(l, minus, Fold(Write(l, a)), x, y, z, f);
    }
  }

  /** Parse gives back every amount Format prints, grouped, signed and marked
      with the symbol, over all of int64. */
  lemma PrintedReadsBack(l: Locale, minor: I64)
    requires WellFormedPatterns(l)
    ensures Parse(l, FormatMoney(l, minor)) == Ok(minor)
  {
    var p := Chosen(l, minor < 0);
    var a, c := SpacedAffixes(l, p);
    var body := FormatBody(l, minor);
    BodyFolds(l, minor);
    var parts, frac := PartsOf(l, minor), SplitDigits(minor, l.exp).1;
    SplitDigitsExact(minor, l.exp);
    var f := BodyText(l, parts, frac);
    BodyEnds(l, parts, frac);
    FoldThree(Write(l, a), body, Write(l, c));
    if minor >= 0 {
      PositiveUndresses(l, a, c, f);
    } else if |Shape(a)| == 2 {
      PrefixedUndresses(l, a, c, f);
    } else if |Shape(a)| == 1 {
      EnclosedUndresses(l, a, c, f);
    } else {
      SuffixedUndresses(l, a, c, f);
    }
    BodyReadsBack(l, minor, parts);
  }
}
