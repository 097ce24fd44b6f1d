/** The two amounts offered for an ambiguity (Choices and writeChoice in
    currency/normalize.go): however they are read, in whatever locale, each is
    the reading it was written from. */
module CurrencyChoices {
  import opened Digits
  import opened Text
  import opened Money
  import opened CurrencyLocale
  import opened CurrencyReadings
  import opened CurrencyAmbiguity
  import opened CurrencyVerdict
  import P = CurrencyParse

  // ---------- Writing ----------

  predicate CommonMark(c: char) {
    c == '.' || c == ',' || c == '\U{066B}'
  }

  /** The reader's decimal mark, unless only that locale reads it as one. */
  function ChoiceMark(l: Locale): char {
    if CommonMark(l.decimal) then l.decimal else l.plainDecimal
  }

  /** Three digits after a mark are what a thousands group looks like. */
  function ChoiceFrac(frac: string): string {
    if |frac| == 3 then frac + "0" else frac
  }

  function ChoiceBody(l: Locale, whole: string, frac: string): string
    requires IsDigitsOf(l)
  {
    LocalDigits(l, whole + if frac != "" then [ChoiceMark(l)] + ChoiceFrac(frac) else "")
  }

  /** The choice's text for a decimal without its sign. */
  function UnsignedChoice(l: Locale, dec: string): string
    requires IsDigitsOf(l)
  {
    var dot := IndexOf(dec, '.');
    ChoiceBody(l, dec[..dot], if dot < |dec| then dec[dot + 1..] else "")
  }

  function WriteChoice(l: Locale, r: Reading): string
    requires IsDigitsOf(l)
  {
    var negative := r.decimal != "" && r.decimal[0] == '-';
    (if negative then "-" else "") + UnsignedChoice(l, if negative then r.decimal[1..] else r.decimal) + " " + l.code
  }

  // ---------- Who may write and who may read ----------

  predicate IsCode(code: string) {
    |code| == 3 && forall i | 0 <= i < 3 :: 'A' <= code[i] <= 'Z'
  }

  /** What reading needs of a locale: its tables of digits and letters are
      sane. Nothing is asked of its marks. */
  predicate Reads(l: Locale) {
    && IsCode(l.code) && ' ' !in l.letters
    && (forall c | 'A' <= c <= 'Z' :: c in l.letters)
    && (forall c | c in l.digitValue :: P.PlainRune(c) && c != '+' && c != '(' && !CommonMark(c)
          && !('A' <= P.Upper(c) <= 'Z'))
    && (l.primary == 0 || l.primary == 3)
  }

  /** What writing needs: ten digits the reader knows, and a mark that is a
      decimal mark to somebody else too. */
  predicate WritesFor(from: Locale, l: Locale) {
    && |from.digits| == 10 && from.code == l.code && from.exp == l.exp && CommonMark(ChoiceMark(from))
    && forall i | 0 <= i < 10 :: from.digits[i] in l.digitValue && l.digitValue[from.digits[i]] == i
  }

  /** A table of spellings: cleaned text without digits, the currency's code
      among them and its own. */
  predicate GoodSpellings(l: Locale, sp: Spellings) {
    && (forall t | t in sp.order :: Tight(t) && forall i | 0 <= i < |t| :: t[i] !in l.digitValue)
    && l.code in sp.order && l.code in sp.owners && l.code in sp.owners[l.code]
  }

  // ---------- The tokens of a choice ----------

  function ChoiceToks(from: Locale, w: string, f: string): seq<Tok> {
    if f == "" then [Run(w)] else [Run(w), Sep(ChoiceMark(from)), Run(ChoiceFrac(f))]
  }

  predicate AfterMark(toks: seq<Tok>) {
    toks == [] || toks[|toks| - 1].Sep?
  }

  lemma ReadsDigit(from: Locale, l: Locale, s: string, toks: seq<Tok>, d: char)
    requires WritesFor(from, l) && IsDigit(d) && Tokenize(l, s) == Some(toks)
    ensures Tokenize(l, s + LocalDigits(from, [d])) == Some(AddTok(toks, d))
  {
    var c := LocalDigits(from, [d])[0];
    assert LocalDigits(from, [d]) == [c] && (s + [c])[..|s|] == s;
    assert P.DigitIn(l, c) == d;
  }

  lemma RunSplits(from: Locale, s: string, front: string, d: char)
    requires IsDigitsOf(from)
    ensures s + LocalDigits(from, front + [d]) == (s + LocalDigits(from, front)) + LocalDigits(from, [d])
    ensures front == "" ==> s + LocalDigits(from, front) == s
  {
    LocalConcat(from, front, [d]);
    Associate(s, LocalDigits(from, front), LocalDigits(from, [d]));
  }

  lemma {:induction false} ReadsRun(from: Locale, l: Locale, s: string, toks: seq<Tok>, run: string)
    requires WritesFor(from, l) && AllDigits(run) && run != "" && Tokenize(l, s) == Some(toks) && AfterMark(toks)
    ensures Tokenize(l, s + LocalDigits(from, run)) == Some(toks + [Run(run)])
    decreases |run|
  {
    var front, d := run[..|run| - 1], run[|run| - 1];
    assert run == front + [d];
    RunSplits(from, s, front, d);
    if front == "" {
      ReadsDigit(from, l, s, toks, d);
      assert [d] == run;
    } else {
      ReadsRun(from, l, s, toks, front);
      ReadsDigit(from, l, s + LocalDigits(from, front), toks + [Run(front)], d);
      GrowsRun(toks, front, d);
    }
  }

  lemma GrowsRun(toks: seq<Tok>, front: string, d: char)
    ensures AddTok(toks + [Run(front)], d) == toks + [Run(front + [d])]
  {
    assert (toks + [Run(front)])[|toks| := Run(front + [d])] == toks + [Run(front + [d])];
  }

  lemma ReadsMark(l: Locale, s: string, toks: seq<Tok>, mark: char)
    requires CommonMark(mark) && mark !in l.digitValue && Tokenize(l, s) == Some(toks)
    ensures Tokenize(l, s + [mark]) == Some(toks + [Sep(mark)])
  {
    assert (s + [mark])[..|s|] == s;
  }

  lemma ReadsWhole(from: Locale, l: Locale, w: string)
    requires WritesFor(from, l) && AllDigits(w) && w != ""
    ensures Tokenize(l, LocalDigits(from, w)) == Some([Run(w)])
  {
    ReadsRun(from, l, "", [], w);
    assert "" + LocalDigits(from, w) == LocalDigits(from, w);
    assert [] + [Run(w)] == [Run(w)];
  }

  lemma ReadsMarked(from: Locale, l: Locale, w: string, m: char, g: string)
    requires WritesFor(from, l) && AllDigits(w) && w != "" && AllDigits(g) && g != ""
    requires CommonMark(m) && m !in l.digitValue
    ensures Tokenize(l, (LocalDigits(from, w) + [m]) + LocalDigits(from, g)) == Some([Run(w), Sep(m), Run(g)])
  {
    ReadsWhole(from, l, w);
    ReadsMark(l, LocalDigits(from, w), [Run(w)], m);
    assert [Run(w)] + [Sep(m)] == [Run(w), Sep(m)];
    ReadsRun(from, l, LocalDigits(from, w) + [m], [Run(w), Sep(m)], g);
    assert [Run(w), Sep(m)] + [Run(g)] == [Run(w), Sep(m), Run(g)];
  }

  lemma ChoiceTokenizes(from: Locale, l: Locale, w: string, f: string)
    requires Reads(l) && WritesFor(from, l) && AllDigits(w) && AllDigits(f) && w != ""
    ensures Tokenize(l, ChoiceBody(from, w, f)) == Some(ChoiceToks(from, w, f))
  {
    if f == "" {
      ReadsWhole(from, l, w);
      assert w + "" == w;
    } else {
      ReadsMarked(from, l, w, ChoiceMark(from), ChoiceFrac(f));
      MarkedBody(from, w, ChoiceFrac(f));
    }
  }

  lemma MarkedBody(from: Locale, w: string, g: string)
    requires |from.digits| == 10 && CommonMark(ChoiceMark(from))
    ensures LocalDigits(from, w + ([ChoiceMark(from)] + g))
         == (LocalDigits(from, w) + [ChoiceMark(from)]) + LocalDigits(from, g)
  {
  }

  // ---------- Its readings ----------

  /** However the mark is taken, the tokens read as their own digits or not
      at all. */
  lemma ChoiceReads(from: Locale, w: string, f: string, t: Try)
    requires AllDigits(w) && AllDigits(f) && w != "" && (t.grouping.0 == 0 || t.grouping.0 == 3)
    ensures var r := ReadUnder(ChoiceToks(from, w, f), t);
            r.None? || r == Some((w, ChoiceTail(f)))
    ensures f == "" || ChoiceMark(from) in t.convention.decimal ==> ReadUnder(ChoiceToks(from, w, f), t).Some?
  {
    OneGroup(w);
    if f == "" {
      RunAlone(w, t.convention);
      assert ChoiceToks(from, w, f) == [Run(w)];
    } else {
      var m, g := ChoiceMark(from), ChoiceFrac(f);
      RunMarkRun(w, m, g, t.convention);
      assert ChoiceToks(from, w, f) == [Run(w), Sep(m), Run(g)];
    }
  }

  lemma OneGroup(w: string)
    ensures Concat([w]) == w
  {
    assert [w][1..] == [];
    assert w + "" == w;
  }

  lemma RunAlone(w: string, c: Convention)
    requires AllDigits(w) && w != ""
    ensures ReadToks([Run(w)], c) == Some(Reader([w], None, InDigits, false, ""))
  {
    assert [Run(w)][..0] == [];
    assert ReadToks([], c) == Some(Reader([], None, Start, false, ""));
    assert [] + [w] == [w];
  }

  lemma RunMark(w: string, m: char, c: Convention)
    requires AllDigits(w) && w != ""
    ensures ReadToks([Run(w), Sep(m)], c) ==
      if m in c.decimal then Some(Reader([w], None, AfterDecimal, true, ""))
      else if m in c.group then Some(Reader([w], Some(m), AfterGroup, false, ""))
      else None
  {
    RunAlone(w, c);
    assert [Run(w), Sep(m)][..1] == [Run(w)];
  }

  lemma RunMarkRun(w: string, m: char, g: string, c: Convention)
    requires AllDigits(w) && w != "" && AllDigits(g) && g != ""
    ensures ReadToks([Run(w), Sep(m), Run(g)], c) ==
      if m in c.decimal then Some(Reader([w], None, InDigits, true, g))
      else if m in c.group then Some(Reader([w, g], Some(m), InDigits, false, ""))
      else None
  {
    RunMark(w, m, c);
    assert [Run(w), Sep(m), Run(g)][..2] == [Run(w), Sep(m)];
    assert [w] + [g] == [w, g];
  }

  // ---------- Its amount ----------

  /** r is a reading the maker of readings can make. */
  ghost predicate Made(r: Reading, exp: nat) {
    exists whole, frac, negative :: AllDigits(whole) && AllDigits(frac) && MakeReading(whole, frac, negative, exp) == Some(r)
  }

  lemma NormalWholeKeeps(w: string)
    requires Plain(w)
    ensures NormalWhole(w) == w
  {
    if w[0] == '0' {
      assert w[1..] == "";
      assert DropZeros(w) == DropZeros(w[1..]);
    }
  }

  lemma CutZerosKeeps(f: string)
    requires f != "" ==> f[|f| - 1] != '0'
    ensures CutZeros(f) == f && CutZeros(ChoiceFrac(f)) == f
  {
    assert (f + "0")[..|f + "0"| - 1] == f;
  }

  /** The digits after a choice's mark. */
  function ChoiceTail(f: string): string {
    if f == "" then "" else ChoiceFrac(f)
  }

  lemma MakesAgain(negative: bool, w: string, f: string, exp: nat)
    requires Normal(negative, w, f)
    ensures MakeReading(w, ChoiceTail(f), negative, exp) == NormalReading(negative, w, f, exp)
  {
    NormalWholeKeeps(w);
    CutZerosKeeps(f);
    assert CutZeros(ChoiceTail(f)) == f;
  }

  lemma MakesNormal(whole: string, frac: string, negative: bool, exp: nat)
    ensures MakeReading(whole, frac, negative, exp)
         == NormalReading(StaysNegative(whole, frac, negative), NormalWhole(whole), CutZeros(frac), exp)
  {
  }

  /** The choice's digits make the reading again. */
  lemma MadeAgain(r: Reading, exp: nat) returns (negative: bool, w: string, f: string)
    requires Made(r, exp)
    ensures Normal(negative, w, f) && r.decimal == DecimalText(negative, w, f)
    ensures MakeReading(w, ChoiceTail(f), negative, exp) == Some(r)
  {
    var whole, frac, sign :| AllDigits(whole) && AllDigits(frac) && MakeReading(whole, frac, sign, exp) == Some(r);
    negative, w, f := StaysNegative(whole, frac, sign), NormalWhole(whole), CutZeros(frac);
    ReadingIsExact(whole, frac, sign, exp);
    MakesNormal(whole, frac, sign, exp);
    MakesAgain(negative, w, f, exp);
  }

  lemma UnsignedWrittenAs(from: Locale, w: string, f: string)
    requires IsDigitsOf(from) && AllDigits(w)
    ensures UnsignedChoice(from, PointText(w, f)) == ChoiceBody(from, w, f)
  {
    BodyDot(w, f);
  }

  lemma WrittenAs(from: Locale, r: Reading, negative: bool, w: string, f: string)
    requires IsDigitsOf(from) && Plain(w) && AllDigits(f) && r.decimal == DecimalText(negative, w, f)
    ensures WriteChoice(from, r) == (if negative then "-" else "") + ChoiceBody(from, w, f) + " " + from.code
  {
    UnsignedWrittenAs(from, w, f);
    PointTextStarts(w, f);
    SignedText(negative, PointText(w, f));
  }

  // ---------- Sign and code come off ----------

  lemma {:induction false} FoldsToItself(s: string)
    requires forall i | 0 <= i < |s| :: s[i] == ' ' || !P.Blank(s[i])
    ensures Fold(s) == s
  {
    if s != "" {
      FoldsToItself(s[1..]);
      assert FoldRune(s[0]) == [s[0]];
      assert s == [s[0]] + s[1..];
    }
  }

  /** A body: no blanks, a digit at each end, and no letters. */
  predicate Body(l: Locale, b: string) {
    && b != "" && b[0] in l.digitValue && b[|b| - 1] in l.digitValue
    && forall i | 0 <= i < |b| :: b[i] in l.digitValue || CommonMark(b[i])
  }

  lemma ChoiceBodyIsBody(from: Locale, l: Locale, w: string, f: string)
    requires WritesFor(from, l) && AllDigits(w) && AllDigits(f) && w != ""
    ensures Body(l, ChoiceBody(from, w, f))
  {
    var ascii := w + if f != "" then [ChoiceMark(from)] + ChoiceFrac(f) else "";
    assert forall i | 0 <= i < |ascii| :: IsDigit(ascii[i]) || ascii[i] == ChoiceMark(from);
    assert IsDigit(ascii[|ascii| - 1]) && IsDigit(ascii[0]);
    assert !IsDigit(ChoiceMark(from));
  }

  lemma BodyIsPlain(l: Locale, b: string)
    requires Reads(l) && Body(l, b)
    ensures Tight(b) && b[0] != '(' && FindSign(b).None? && forall i | 0 <= i < |b| :: !P.Blank(b[i])
  {
  }

  /** No spelling starts or ends with a digit. */
  lemma {:induction false} NoSpellingAtDigit(l: Locale, order: seq<string>, s: string)
    requires forall t | t in order :: t != "" && forall i | 0 <= i < |t| :: t[i] !in l.digitValue
    requires forall c | c in l.digitValue :: !('A' <= P.Upper(c) <= 'Z')
    requires s != ""
    ensures s[0] in l.digitValue ==> Match(l, order, s, true).None?
    ensures s[|s| - 1] in l.digitValue ==> Match(l, order, s, false).None?
  {
    if order != [] {
      var t := order[0];
      assert t in order;
      if |t| <= |s| {
        assert s[..|t|][0] == s[0] && s[|s| - |t|..][|t| - 1] == s[|s| - 1];
      }
      assert forall u | u in order[1..] :: u in order;
      NoSpellingAtDigit(l, order[1..], s);
    }
  }

  /** A body, a space and the code. */
  function Coded(l: Locale, b: string): string {
    b + " " + l.code
  }

  lemma CodedRunes(l: Locale, b: string)
    requires IsCode(l.code) && b != ""
    ensures var s := Coded(l, b); var n := |s|;
            && n == |b| + 4 && s[n - 3..] == l.code && s[n - 4] == ' ' && s[n - 5] == b[|b| - 1] && s[0] == b[0]
            && s[n - 1] == l.code[2] && s[n - 2] == l.code[1] && s[n - 3] == l.code[0]
            && s[..n - 3] == b + " "
  {
  }

  lemma CodeMatches(l: Locale, b: string)
    requires Reads(l) && Body(l, b)
    ensures MatchesBack(l, l.code, Coded(l, b))
  {
    CodedRunes(l, b);
  }

  /** A longer spelling would hold a space, or a digit before the space, at
      its edge. */
  lemma LongSpelling(l: Locale, b: string, t: string)
    requires IsCode(l.code) && b != "" && 3 < |t| <= |Coded(l, b)|
    requires Spelt(Coded(l, b)[|Coded(l, b)| - |t|..], t)
    ensures t[|t| - 4] == ' ' && (|t| > 4 ==> t[|t| - 5] == b[|b| - 1])
  {
    CodedRunes(l, b);
  }

  /** A shorter one would cut a word. */
  lemma ShortSpelling(l: Locale, b: string, t: string)
    requires Reads(l) && b != "" && 1 <= |t| < 3 && Spelt(Coded(l, b)[|Coded(l, b)| - |t|..], t)
    ensures t[0] in l.letters && Coded(l, b)[|Coded(l, b)| - |t| - 1] in l.letters
  {
    var s := Coded(l, b);
    CodedRunes(l, b);
    assert s[|s| - |t|..][0] == s[|s| - |t|];
  }

  lemma ThreeSpelling(l: Locale, b: string, t: string)
    requires IsCode(l.code) && b != "" && |t| == 3 && Spelt(Coded(l, b)[|Coded(l, b)| - 3..], t)
    ensures t == l.code
  {
    CodedRunes(l, b);
    assert forall i | 0 <= i < 3 :: P.Upper(l.code[i]) == l.code[i];
  }

  /** Only the code matches at the end of a coded body. */
  lemma OnlyCodeMatches(l: Locale, b: string, t: string)
    requires Reads(l) && Body(l, b) && Tight(t) && forall i | 0 <= i < |t| :: t[i] !in l.digitValue
    requires MatchesBack(l, t, Coded(l, b))
    ensures t == l.code
  {
    if |t| > 3 {
      LongSpelling(l, b, t);
    } else if |t| == 3 {
      ThreeSpelling(l, b, t);
    } else {
      CodedRunes(l, b);
      ShortSpelling(l, b, t);
    }
  }

  lemma {:induction false} BackIsCode(l: Locale, order: seq<string>, b: string)
    requires Reads(l) && Body(l, b) && l.code in order
    requires forall t | t in order :: Tight(t) && forall i | 0 <= i < |t| :: t[i] !in l.digitValue
    ensures Match(l, order, Coded(l, b), false) == Some(l.code)
  {
    if MatchesBack(l, order[0], Coded(l, b)) {
      assert order[0] in order;
      OnlyCodeMatches(l, b, order[0]);
    } else {
      CodeMatches(l, b);
      assert forall u | u in order[1..] :: u in order;
      assert order == [order[0]] + order[1..];
      BackIsCode(l, order[1..], b);
    }
  }

  lemma FrontIsNone(l: Locale, sp: Spellings, s: string)
    requires Reads(l) && GoodSpellings(l, sp) && s != "" && s[0] in l.digitValue
    ensures Match(l, sp.order, s, true).None?
  {
    NoSpellingAtDigit(l, sp.order, s);
  }

  /** The code comes off a coded body. */
  lemma CodeComesOff(l: Locale, sp: Spellings, b: string, negative: bool)
    requires Reads(l) && GoodSpellings(l, sp) && Body(l, b)
    ensures StripSpelling(l, sp, Stripped(Coded(l, b), negative, negative, false))
         == Done(Stripped(b + " ", negative, negative, true))
  {
    CodedRunes(l, b);
    FrontIsNone(l, sp, Coded(l, b));
    BackIsCode(l, sp.order, b);
  }

  /** A bare body has nothing more to lose. */
  lemma BodyStays(l: Locale, sp: Spellings, b: string, negative: bool)
    requires Reads(l) && GoodSpellings(l, sp) && Body(l, b)
    ensures StripAll(l, sp, Stripped(b + " ", negative, negative, true)) == Done(Stripped(b, negative, negative, true))
  {
    BodyIsPlain(l, b);
    assert "" + b + " " == b + " ";
    TrimAround("", b, " ");
    NoSpellingAtDigit(l, sp.order, b);
  }

  function ChoiceText(l: Locale, b: string, negative: bool): string {
    (if negative then "-" else "") + Coded(l, b)
  }

  lemma Dashed(s: string)
    requires s != ""
    ensures ("-" + s)[0] == '-' && ("-" + s)[|s|] == s[|s| - 1] && ("-" + s)[1..] == s && ("" + s) == s && s[0..] == s
  {
  }

  lemma CodedEnds(l: Locale, b: string)
    requires IsCode(l.code) && b != ""
    ensures var s := Coded(l, b); |s| > 1 && s[0] == b[0] && s[|s| - 1] == l.code[2]
  {
    CodedRunes(l, b);
  }

  lemma ChoiceTextEnds(l: Locale, b: string, negative: bool)
    requires Reads(l) && Body(l, b)
    ensures var s := ChoiceText(l, b, negative);
            && |s| > 1 && s[0] == (if negative then '-' else b[0]) && s[|s| - 1] == l.code[2]
            && s[if negative then 1 else 0..] == Coded(l, b)
            && Tight(s)
  {
    CodedEnds(l, b);
    Dashed(Coded(l, b));
  }

  lemma ChoiceTextPlain(l: Locale, b: string, negative: bool)
    requires Reads(l) && Body(l, b)
    ensures var s := ChoiceText(l, b, negative); forall i | 0 <= i < |s| :: s[i] == ' ' || !P.Blank(s[i])
  {
    BodyIsPlain(l, b);
  }

  lemma ChoiceTextClean(l: Locale, b: string, negative: bool)
    requires Reads(l) && Body(l, b)
    ensures Clean(ChoiceText(l, b, negative)) == ChoiceText(l, b, negative)
    ensures Trim(ChoiceText(l, b, negative)) == ChoiceText(l, b, negative)
  {
    var s := ChoiceText(l, b, negative);
    ChoiceTextEnds(l, b, negative);
    ChoiceTextPlain(l, b, negative);
    FoldsToItself(s);
    P.TrimKeeps(s);
  }

  lemma FrontSign(s: string)
    requires s != "" && s[0] == '-'
    ensures StripSign(Stripped(s, false, false, false)) == Done(Stripped(s[1..], true, true, false))
  {
    assert s[1..|s| - 0] == s[1..];
  }

  lemma NoSign(s: string)
    requires s != "" && s[0] != '-' && s[0] != '\U{2212}' && s[0] != '+' && s[|s| - 1] != '-' && s[|s| - 1] != '\U{2212}'
    ensures StripSign(Stripped(s, false, false, false)) == Done(Stripped(s, false, false, false))
  {
  }

  lemma ChoiceTextSign(l: Locale, b: string, negative: bool)
    requires Reads(l) && Body(l, b)
    ensures StripSign(Stripped(ChoiceText(l, b, negative), false, false, false))
         == Done(Stripped(Coded(l, b), negative, negative, false))
  {
    CodedEnds(l, b);
    Dashed(Coded(l, b));
    if negative {
      FrontSign("-" + Coded(l, b));
    } else {
      NoSign(Coded(l, b));
    }
  }

  lemma ChoiceRound(l: Locale, sp: Spellings, b: string, negative: bool)
    requires Reads(l) && GoodSpellings(l, sp) && Body(l, b)
    ensures StripRound(l, sp, Stripped(ChoiceText(l, b, negative), false, false, false))
         == Done(Stripped(b + " ", negative, negative, true))
  {
    ChoiceTextClean(l, b, negative);
    ChoiceTextSign(l, b, negative);
    CodeComesOff(l, sp, b, negative);
  }

  lemma RoundThenAll(l: Locale, sp: Spellings, st: Stripped, next: Stripped)
    requires StripRound(l, sp, st) == Done(next) && next.spelled != st.spelled
    ensures StripAll(l, sp, st) == StripAll(l, sp, next)
  {
    assert next != st.(s := Trim(st.s));
  }

  /** Sign and code come off a written choice and leave its body. */
  lemma ChoiceStrips(l: Locale, sp: Spellings, b: string, negative: bool)
    requires Reads(l) && GoodSpellings(l, sp) && Body(l, b)
    ensures Strip(l, sp, ChoiceText(l, b, negative)) == Done(Stripped(b, negative, negative, true))
  {
    ChoiceTextEnds(l, b, negative);
    ChoiceRound(l, sp, b, negative);
    RoundThenAll(l, sp, Stripped(ChoiceText(l, b, negative), false, false, false),
                 Stripped(b + " ", negative, negative, true));
    BodyStays(l, sp, b, negative);
  }

  // ---------- The choice ----------

  lemma ChoicePrepares(from: Locale, l: Locale, sp: Spellings, w: string, f: string, negative: bool)
    requires Reads(l) && WritesFor(from, l) && GoodSpellings(l, sp) && AllDigits(w) && AllDigits(f) && w != ""
    ensures var s := ChoiceText(l, ChoiceBody(from, w, f), negative);
            && Clean(s) == s && s != ""
            && Prepare(l, sp, s) == Done((ChoiceToks(from, w, f), negative))
  {
    var b := ChoiceBody(from, w, f);
    ChoiceBodyIsBody(from, l, w, f);
    ChoiceTextEnds(l, b, negative);
    ChoiceTextClean(l, b, negative);
    ChoiceStrips(l, sp, b, negative);
    BodyIsPlain(l, b);
    P.TrimKeeps(b);
    ChoiceTokenizes(from, l, w, f);
  }

  /** A choice, written in one locale and read in another or the same, can
      only be read as the reading it was written from. The normalising reader
      gives back that reading's minor units, or says it is too precise. */
  lemma ChoiceReadsBack(from: Locale, l: Locale, sp: Spellings, r: Reading)
    requires Reads(l) && WritesFor(from, l) && GoodSpellings(l, sp) && Made(r, l.exp)
    ensures var text := WriteChoice(from, r);
            && Clean(text) != "" && Prepare(l, sp, Clean(text)).Done?
            && (var (toks, negative) := Prepare(l, sp, Clean(text)).value;
                OnlyReading(l, toks, negative, r))
            && ParseNormalized(l, sp, text) == if r.storable then Done(r.minor) else Failed(Unreadable(P.Precision))
  {
    var negative, w, f := MadeAgain(r, l.exp);
    WrittenText(from, l, r, negative, w, f);
    ChoicePrepares(from, l, sp, w, f, negative);
    ChoiceIsOnly(from, l, w, f, negative, r);
    OnlyReadingDecides(l, sp, WriteChoice(from, r), r);
  }

  lemma WrittenText(from: Locale, l: Locale, r: Reading, negative: bool, w: string, f: string)
    requires WritesFor(from, l) && Plain(w) && AllDigits(f) && r.decimal == DecimalText(negative, w, f)
    ensures WriteChoice(from, r) == ChoiceText(l, ChoiceBody(from, w, f), negative)
  {
    WrittenAs(from, r, negative, w, f);
    Regrouped(if negative then "-" else "", ChoiceBody(from, w, f), " ", l.code);
  }

  lemma Regrouped(sign: string, b: string, space: string, code: string)
    ensures sign + b + space + code == sign + (b + space + code)
  {
  }

  lemma TriesHave(l: Locale, t: Try)
    requires t in Tries(l)
    ensures t.grouping == (l.primary, l.secondary) || t.grouping.0 == 3
  {
  }

  lemma ChoiceReadsAs(from: Locale, l: Locale, w: string, f: string, negative: bool, r: Reading, t: Try)
    requires Reads(l) && WritesFor(from, l) && Normal(negative, w, f) && GoodToks(ChoiceToks(from, w, f))
    requires MakeReading(w, ChoiceTail(f), negative, l.exp) == Some(r) && t in Tries(l)
    ensures var got := ReadsAs(l, ChoiceToks(from, w, f), negative, t);
            && (got.None? || got == Some(r))
            && (ChoiceMark(from) in t.convention.decimal ==> got == Some(r))
  {
    TriesHave(l, t);
    ChoiceReads(from, w, f, t);
  }

  lemma AllReadOne(l: Locale, toks: seq<Tok>, negative: bool, r: Reading, t: Try)
    requires GoodToks(toks) && t in Tries(l) && ReadsAs(l, toks, negative, t) == Some(r)
    requires forall u | u in Tries(l) :: ReadsAs(l, toks, negative, u) in {None, Some(r)}
    ensures OnlyReading(l, toks, negative, r)
  {
  }

  lemma ChoiceIsOnly(from: Locale, l: Locale, w: string, f: string, negative: bool, r: Reading)
    requires Reads(l) && WritesFor(from, l) && Normal(negative, w, f)
    requires MakeReading(w, ChoiceTail(f), negative, l.exp) == Some(r)
    ensures GoodToks(ChoiceToks(from, w, f)) && OnlyReading(l, ChoiceToks(from, w, f), negative, r)
  {
    var toks := ChoiceToks(from, w, f);
    forall u | u in Tries(l)
      ensures ReadsAs(l, toks, negative, u) in {None, Some(r)}
    {
      ChoiceReadsAs(from, l, w, f, negative, r, u);
    }
    var t := MarkIsDecimal(l, ChoiceMark(from));
    ChoiceReadsAs(from, l, w, f, negative, r, t);
    AllReadOne(l, toks, negative, r, t);
  }

  /** Some convention takes each common mark for a decimal mark. */
  lemma MarkIsDecimal(l: Locale, m: char) returns (t: Try)
    requires CommonMark(m)
    ensures t in Tries(l) && m in t.convention.decimal
  {
    var cs, gs := Conventions(l), Groupings(l);
    var k := if m == ',' then 2 else 1;
    t := Try(cs[k], gs[0]);
    assert Under(cs[k], gs)[0] == t;
    assert t in Under(cs[k], gs);
  }

  lemma DecideOne(l: Locale, r: Reading, own: Option<Reading>, overflowed: bool)
    ensures Decide(l, [r], own, overflowed) == if r.storable then Done(r.minor) else Failed(Unreadable(P.Precision))
  {
    assert [r][0] == r;
  }

  lemma ParsesToDecision(l: Locale, sp: Spellings, s: string, toks: seq<Tok>, negative: bool)
    requires Clean(s) != "" && Prepare(l, sp, Clean(s)) == Done((toks, negative)) && GoodToks(toks)
    ensures ParseNormalized(l, sp, s) == Decide(l, Readings(l, toks, negative), Grouped(l, toks, negative),
                                                SomeOverflow(l, toks, negative, Tries(l)))
  {
  }

  lemma OnlyReadingIsList(l: Locale, toks: seq<Tok>, negative: bool, r: Reading)
    requires GoodToks(toks) && OnlyReading(l, toks, negative, r)
    ensures Readings(l, toks, negative) == [r]
  {
    ReadingsAreAll(l, toks, negative);
    OnlyOne(Readings(l, toks, negative), r);
  }

  /** Text with a single reading is answered with it. */
  lemma OnlyReadingDecides(l: Locale, sp: Spellings, s: string, r: Reading)
    requires Clean(s) != "" && Prepare(l, sp, Clean(s)).Done?
    requires var (toks, negative) := Prepare(l, sp, Clean(s)).value; OnlyReading(l, toks, negative, r)
    ensures ParseNormalized(l, sp, s) == if r.storable then Done(r.minor) else Failed(Unreadable(P.Precision))
  {
    var (toks, negative) := Prepare(l, sp, Clean(s)).value;
    ParsesToDecision(l, sp, s, toks, negative);
    OnlyReadingIsList(l, toks, negative, r);
    DecideOne(l, r, Grouped(l, toks, negative), SomeOverflow(l, toks, negative, Tries(l)));
  }

  lemma TwoDiffer(rs: seq<Reading>)
    requires StrictlyAscending(rs) && |rs| > 1
    ensures rs[0] in rs && rs[1] in rs && rs[0] != rs[1]
  {
    assert Less(rs[0], rs[1]);
  }

  lemma OnlyOne(rs: seq<Reading>, r: Reading)
    requires StrictlyAscending(rs) && r in rs && forall q | q in rs :: q == r
    ensures rs == [r]
  {
    if |rs| > 1 {
      TwoDiffer(rs);
    }
  }

  lemma ReadingIsMade(l: Locale, toks: seq<Tok>, negative: bool, r: Reading)
    requires GoodToks(toks) && IsReading(l, toks, negative, r)
    ensures Made(r, l.exp)
  {
    var t :| t in Tries(l) && ReadsAs(l, toks, negative, t) == Some(r);
    var (whole, frac) := ReadUnder(toks, t).value;
    assert MakeReading(whole, frac, negative, l.exp) == Some(r);
  }

  /** What the message of an ambiguity offers: the only two amounts there
      are, each read back, in any locale, as the one it was written from. */
  lemma ChoicesSettle(page: Locale, table: Spellings, s: string, rs: seq<Reading>, l: Locale, sp: Spellings)
    requires ParseNormalized(page, table, s) == Failed(Ambiguous(rs))
    requires Reads(l) && WritesFor(page, l) && GoodSpellings(l, sp)
    ensures |rs| == 2 && Less(rs[0], rs[1])
    ensures forall r | r in rs :: ParseNormalized(l, sp, WriteChoice(page, r))
                                 == if r.storable then Done(r.minor) else Failed(Unreadable(P.Precision))
  {
    AmbiguousIsTwo(page, table, s, rs);
    AmbiguousWasRead(page, table, s, rs);
    NeverGuesses(page, table, s);
    var (toks, negative) := Prepare(page, table, Clean(s)).value;
    forall r | r in rs
      ensures ParseNormalized(l, sp, WriteChoice(page, r))
           == if r.storable then Done(r.minor) else Failed(Unreadable(P.Precision))
    {
      ReadingIsMade(page, toks, negative, r);
      ChoiceReadsBack(page, l, sp, r);
    }
  }
}
