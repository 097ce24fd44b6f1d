/** The strict parser of typed amounts (currency/parse.go): signs and markers
    off either end, one pass into digit runs and separators, and the locale's
    own grouping. */
module CurrencyParse {
  import opened Digits
  import opened Text
  import opened Money
  import opened CurrencyLocale

  datatype Error = Invalid | Precision | DecimalComma | DecimalPoint | CurrencySign

  datatype Result<+T> = Ok(value: T) | Err(error: Error)

  // ---------- Signs and markers ----------

  predicate IsMinus(c: char) {
    c == '-' || c == '\U{2212}'
  }

  /** One sign off either end, unless one was already taken. */
  function TakeSign(s: string, negative: bool): (string, bool) {
    if negative || s == "" then (s, negative)
    else if IsMinus(s[0]) then (Trim(s[1..]), true)
    else if IsMinus(s[|s| - 1]) then (Trim(s[..|s| - 1]), true)
    else (s, false)
  }

  function Upper(c: char): char {
    if 'a' <= c <= 'z' then 'A' + (c - 'a') else c
  }

  /** The ISO code in any case. */
  predicate SameCode(s: string, code: string) {
    |s| == |code| && forall i | 0 <= i < |s| :: Upper(s[i]) == code[i]
  }

  predicate PrefixMarker(s: string, m: string, code: string) {
    |m| <= |s| && (s[..|m|] == m || (m == code && SameCode(s[..|m|], code)))
  }

  predicate SuffixMarker(s: string, m: string, code: string) {
    |m| <= |s| && (s[|s| - |m|..] == m || (m == code && SameCode(s[|s| - |m|..], code)))
  }

  /** s without the first of the markers found at either end, and the sign
      behind it. */
  function TakeMarker(s: string, negative: bool, markers: seq<string>, code: string): (string, bool) {
    if markers == [] then (s, negative)
    else
      var m := markers[0];
      if m == "" then TakeMarker(s, negative, markers[1..], code)
      else if PrefixMarker(s, m, code) then TakeSign(Trim(s[|m|..]), negative)
      else if SuffixMarker(s, m, code) then TakeSign(Trim(s[..|s| - |m|]), negative)
      else TakeMarker(s, negative, markers[1..], code)
  }

  /** An amount's body and whether it is negative. */
  function Undress(l: Locale, s: string): (string, bool) {
    var (rest, negative) := TakeSign(s, false);
    TakeMarker(rest, negative, [Clean(l.symbol), l.code], l.code)
  }

  // ---------- Digit runs and separators ----------

  /** runs has one entry more than seps: digits, separator, digits, ... */
  datatype Tokens = Tokens(runs: seq<string>, seps: string)

  function Mark(l: Locale): char {
    FoldMark(l.group)
  }

  predicate IsDecimal(l: Locale, c: char) {
    c != Mark(l) && (c == l.decimal || c == l.plainDecimal || (Mark(l) != '.' && c == '.'))
  }

  predicate IsSeparator(l: Locale, c: char) {
    || c == ' ' || c == Mark(l) || IsDecimal(l, c)
    || c == '.' || c == ',' || c == '\'' || c == '\U{2019}'
  }

  /** de-CH groups with U+2019; a keyboard types U+0027. */
  function SeparatorOf(l: Locale, c: char): char {
    if c == '\'' && Mark(l) == '\U{2019}' then Mark(l) else c
  }

  function DigitIn(l: Locale, c: char): char
    requires c in l.digitValue
  {
    if l.digitValue[c] < 10 then DigitOf(l.digitValue[c]) else '0'
  }

  function AddRune(l: Locale, t: Tokens, c: char): Result<Tokens>
    requires t.runs != []
  {
    if c in l.digitValue then
      var n := |t.runs| - 1;
      Ok(Tokens(t.runs[n := t.runs[n] + [DigitIn(l, c)]], t.seps))
    else if IsSeparator(l, c) then Ok(Tokens(t.runs + [""], t.seps + [SeparatorOf(l, c)]))
    else if c in l.letters || c in l.currencySigns then Err(CurrencySign)
    else Err(Invalid)
  }

  function Tokenize(l: Locale, s: string): (r: Result<Tokens>)
    ensures r.Ok? ==> |r.value.runs| == |r.value.seps| + 1
    ensures r.Ok? ==> forall i | 0 <= i < |r.value.runs| :: AllDigits(r.value.runs[i])
  {
    if s == "" then Ok(Tokens([""], ""))
    else match Tokenize(l, s[..|s| - 1])
      case Err(e) => Err(e)
      case Ok(t) => AddRune(l, t, s[|s| - 1])
  }

  /** What the locale's decimal mark makes of a misplaced separator. */
  function SeparatorError(l: Locale): Error {
    if l.decimal == ',' then DecimalComma else if l.decimal == '.' then DecimalPoint else Invalid
  }

  datatype Split = Split(groups: seq<string>, frac: Option<string>)

  /** The first n runs, assigned to groups and fraction. */
  function Walk(l: Locale, t: Tokens, n: nat): (r: Result<Split>)
    requires 1 <= n <= |t.runs| == |t.seps| + 1
    ensures r.Ok? ==> r.value.groups != []
  {
    if n == 1 then Ok(Split([t.runs[0]], None))
    else
      var before := Walk(l, t, n - 1);
      if before.Err? then before
      else
        var sep := t.seps[n - 2];
        if before.value.frac.Some? then Err(SeparatorError(l))
        else if IsDecimal(l, sep) && n == |t.runs| then Ok(before.value.(frac := Some(t.runs[n - 1])))
        else if sep == Mark(l) then Ok(before.value.(groups := before.value.groups + [t.runs[n - 1]]))
        else if sep == '.' || sep == ',' then Err(SeparatorError(l))
        else Err(Invalid)
  }

  function FracOf(s: Split): string {
    match s.frac
    case Some(f) => f
    case None => ""
  }

  function Finish(l: Locale, s: Split, negative: bool): Result<I64>
    requires s.groups != []
  {
    var whole, frac := Concat(s.groups), FracOf(s);
    if |s.groups| > 1 && !ValidGroups(s.groups, l.primary, l.secondary) then Err(SeparatorError(l))
    else if whole == "" && frac == "" then Err(Invalid)
    else if |frac| > l.exp then Err(Precision)
    else
      var text := (if negative then "-" else "") + (if whole == "" then "0" else whole) + "." + frac;
      match ParseDecimal(text, l.exp)
      case Some(v) => Ok(v)
      case None => Err(Invalid)
  }

  function ReadBody(l: Locale, s: string, negative: bool): Result<I64> {
    match Tokenize(l, s)
    case Err(e) => Err(e)
    case Ok(t) =>
      match Walk(l, t, |t.runs|)
      case Err(e) => Err(e)
      case Ok(split) => Finish(l, split, negative)
  }

  /** Parse. Blank input is 0: what blank means is the caller's decision. */
  function Parse(l: Locale, s: string): Result<I64> {
    var c := Clean(s);
    if c == "" then Ok(0)
    else
      var (body, negative) := Undress(l, c);
      ReadBody(l, body, negative)
  }

  /** The same parser with its loops. */
  method ParseText(l: Locale, text: string) returns (r: Result<I64>)
    ensures r == Parse(l, text)
  {
    var s := CleanText(text);
    if s == "" {
      return Ok(0);
    }
    var (body, negative) := Undress(l, s);
    var tokens := ReadTokens(l, body);
    if tokens.Err? {
      return Err(tokens.error);
    }
    var split := WalkTokens(l, tokens.value);
    if split.Err? {
      return Err(split.error);
    }
    r := Finish(l, split.value, negative);
  }

  method ReadTokens(l: Locale, body: string) returns (r: Result<Tokens>)
    ensures r == Tokenize(l, body)
  {
    var t := Tokens([""], "");
    for i := 0 to |body|
      invariant Tokenize(l, body[..i]) == Ok(t)
    {
      assert body[..i + 1][..i] == body[..i];
      var added := AddRune(l, t, body[i]);
      if added.Err? {
        ErrorStays(l, body, i + 1);
        return Err(added.error);
      }
      t := added.value;
    }
    assert body[..|body|] == body;
    r := Ok(t);
  }

  method WalkTokens(l: Locale, t: Tokens) returns (r: Result<Split>)
    requires |t.runs| == |t.seps| + 1
    ensures r == Walk(l, t, |t.runs|)
  {
    var split := Split([t.runs[0]], None);
    for i := 1 to |t.runs|
      invariant Walk(l, t, i) == Ok(split)
    {
      var sep := t.seps[i - 1];
      var next: Result<Split>;
      if split.frac.Some? {
        next := Err(SeparatorError(l));
      } else if IsDecimal(l, sep) && i == |t.runs| - 1 {
        next := Ok(split.(frac := Some(t.runs[i])));
      } else if sep == Mark(l) {
        next := Ok(split.(groups := split.groups + [t.runs[i]]));
      } else if sep == '.' || sep == ',' {
        next := Err(SeparatorError(l));
      } else {
        next := Err(Invalid);
      }
      if next.Err? {
        WalkErrorStays(l, t, i + 1, |t.runs|);
        return Err(next.error);
      }
      split := next.value;
    }
    r := Ok(split);
  }

  lemma {:induction false} ErrorStays(l: Locale, s: string, n: nat)
    requires n <= |s| && Tokenize(l, s[..n]).Err?
    ensures Tokenize(l, s) == Tokenize(l, s[..n])
  {
    if n == |s| {
      assert s[..n] == s;
    } else {
      assert s[..|s| - 1][..n] == s[..n];
      ErrorStays(l, s[..|s| - 1], n);
    }
  }

  lemma {:induction false} WalkErrorStays(l: Locale, t: Tokens, n: nat, m: nat)
    requires 1 <= n <= m <= |t.runs| == |t.seps| + 1 && Walk(l, t, n).Err?
    ensures Walk(l, t, m) == Walk(l, t, n)
  {
    if n < m {
      WalkErrorStays(l, t, n, m - 1);
    }
  }

  // ---------- Locales whose text reads back ----------

  predicate Blank(c: char) {
    IsSpace(c) || Bidi(c)
  }

  predicate Blanks(s: string) {
    forall i | 0 <= i < |s| :: Blank(s[i])
  }

  /** The runes a digit, mark or symbol must not be taken for. */
  predicate PlainRune(c: char) {
    !Blank(c) && !IsMinus(c)
  }

  predicate GoodDigits(l: Locale) {
    && |l.digits| == 10
    && (forall i | 0 <= i < 10 :: l.digits[i] in l.digitValue && l.digitValue[l.digits[i]] == i)
    && (forall c | IsDigit(c) :: c in l.digitValue)
    && (forall c | c in l.digitValue :: PlainRune(c) && !('A' <= Upper(c) <= 'Z'))
  }

  predicate GoodMarks(l: Locale) {
    && PlainRune(l.decimal) && l.decimal !in l.digitValue && l.decimal != '\'' && l.decimal != Mark(l)
    && !Bidi(l.group) && !IsMinus(l.group) && l.group !in l.digitValue
  }

  predicate GoodSymbol(l: Locale) {
    var m := Clean(l.symbol);
    && m != "" && !IsMinus(m[0]) && !IsMinus(m[|m| - 1])
    && m[0] !in l.digitValue && m[|m| - 1] !in l.digitValue
    && |l.code| == 3 && (forall i | 0 <= i < 3 :: 'A' <= l.code[i] <= 'Z')
  }

  predicate GoodGroups(l: Locale) {
    l.minGroup >= 1 && (l.primary > 0 ==> 1 <= l.secondary <= l.primary)
  }

  /** A locale whose seeds are read back. */
  predicate WellFormed(l: Locale) {
    GoodDigits(l) && GoodMarks(l) && GoodSymbol(l) && GoodGroups(l)
  }

  // ---------- Bodies read back ----------

  /** Digit groups in the locale's digits, its folded group mark between. */
  function Spread(l: Locale, parts: seq<string>): string
    requires IsDigitsOf(l) && parts != []
  {
    var last := LocalDigits(l, parts[|parts| - 1]);
    if |parts| == 1 then last else Spread(l, parts[..|parts| - 1]) + ([Mark(l)] + last)
  }

  function BodyText(l: Locale, parts: seq<string>, frac: string): string
    requires IsDigitsOf(l) && parts != []
  {
    Spread(l, parts) + if l.exp > 0 then [l.decimal] + LocalDigits(l, frac) else ""
  }

  predicate DigitRuns(parts: seq<string>) {
    forall i | 0 <= i < |parts| :: AllDigits(parts[i]) && parts[i] != ""
  }

  function Marks(l: Locale, n: nat): string {
    seq(n, _ => Mark(l))
  }

  /** t with a run of digits added to its last run. */
  function Extended(t: Tokens, run: string): Tokens
    requires t.runs != []
  {
    Tokens(t.runs[|t.runs| - 1 := t.runs[|t.runs| - 1] + run], t.seps)
  }

  lemma ReadsDigit(l: Locale, s: string, t: Tokens, d: char)
    requires GoodDigits(l) && IsDigit(d) && Tokenize(l, s) == Ok(t)
    ensures Tokenize(l, s + LocalDigits(l, [d])) == Ok(Extended(t, [d]))
  {
    var c := LocalDigits(l, [d])[0];
    assert LocalDigits(l, [d]) == [c] && (s + [c])[..|s|] == s;
    assert DigitIn(l, c) == d;
  }

  lemma ExtendedTwice(t: Tokens, a: string, b: string)
    requires t.runs != []
    ensures Extended(Extended(t, a), b) == Extended(t, a + b)
  {
    var n := |t.runs| - 1;
    assert (t.runs[n] + a) + b == t.runs[n] + (a + b);
    assert t.runs[n := t.runs[n] + a][n := t.runs[n] + (a + b)] == t.runs[n := t.runs[n] + (a + b)];
  }

  lemma ReadsNothing(l: Locale, s: string, t: Tokens)
    requires IsDigitsOf(l) && t.runs != []
    ensures s + LocalDigits(l, "") == s && Extended(t, "") == t
  {
    var n := |t.runs| - 1;
    assert t.runs[n] + "" == t.runs[n];
    assert t.runs[n := t.runs[n]] == t.runs;
  }

  lemma {:induction false} ReadsRun(l: Locale, s: string, t: Tokens, run: string)
    requires GoodDigits(l) && AllDigits(run) && Tokenize(l, s) == Ok(t)
    ensures Tokenize(l, s + LocalDigits(l, run)) == Ok(Extended(t, run))
    decreases |run|
  {
    if run == "" {
      ReadsNothing(l, s, t);
    } else {
      var front, d := run[..|run| - 1], run[|run| - 1];
      assert run == front + [d];
      ReadsRun(l, s, t, front);
      ReadsDigit(l, s + LocalDigits(l, front), Extended(t, front), d);
      ExtendedTwice(t, front, [d]);
      LocalConcat(l, front, [d]);
      Associate(s, LocalDigits(l, front), LocalDigits(l, [d]));
    }
  }

  lemma ReadsSeparator(l: Locale, s: string, t: Tokens, c: char)
    requires Tokenize(l, s) == Ok(t) && c !in l.digitValue && IsSeparator(l, c)
    ensures Tokenize(l, s + [c]) == Ok(Tokens(t.runs + [""], t.seps + [SeparatorOf(l, c)]))
  {
    assert (s + [c])[..|s|] == s;
  }

  lemma ReadsPart(l: Locale, s: string, t: Tokens, c: char, run: string)
    requires GoodDigits(l) && AllDigits(run) && Tokenize(l, s) == Ok(t)
    requires c !in l.digitValue && IsSeparator(l, c)
    ensures Tokenize(l, s + ([c] + LocalDigits(l, run))) == Ok(Tokens(t.runs + [run], t.seps + [SeparatorOf(l, c)]))
  {
    var next := Tokens(t.runs + [""], t.seps + [SeparatorOf(l, c)]);
    ReadsSeparator(l, s, t, c);
    ReadsRun(l, s + [c], next, run);
    Associate(s, [c], LocalDigits(l, run));
    ExtendedEmpty(t.runs, next.seps, run);
  }

  lemma ExtendedEmpty(runs: seq<string>, seps: string, run: string)
    ensures Extended(Tokens(runs + [""], seps), run) == Tokens(runs + [run], seps)
  {
    assert "" + run == run;
    assert (runs + [""])[|runs| := run] == runs + [run];
  }

  lemma ReadsFirst(l: Locale, parts: seq<string>)
    requires GoodDigits(l) && |parts| == 1 && AllDigits(parts[0])
    ensures Tokenize(l, LocalDigits(l, parts[0])) == Ok(Tokens(parts, ""))
  {
    assert Tokenize(l, "") == Ok(Tokens([""], ""));
    ReadsRun(l, "", Tokens([""], ""), parts[0]);
    assert "" + LocalDigits(l, parts[0]) == LocalDigits(l, parts[0]);
    assert "" + parts[0] == parts[0];
    assert [""][0 := parts[0]] == parts;
  }

  lemma {:induction false} ReadsSpread(l: Locale, parts: seq<string>)
    requires GoodDigits(l) && GoodMarks(l) && parts != [] && DigitRuns(parts)
    ensures Tokenize(l, Spread(l, parts)) == Ok(Tokens(parts, Marks(l, |parts| - 1)))
    decreases |parts|
  {
    if |parts| == 1 {
      ReadsFirst(l, parts);
      assert Marks(l, 0) == "";
    } else {
      var n := |parts| - 1;
      var front := parts[..n];
      assert parts[..n] + [parts[n]] == parts;
      ReadsSpread(l, front);
      ReadsPart(l, Spread(l, front), Tokens(front, Marks(l, n - 1)), Mark(l), parts[n]);
      assert Marks(l, n - 1) + [Mark(l)] == Marks(l, n);
    }
  }

  lemma {:induction false} WalksGroups(l: Locale, t: Tokens, n: nat)
    requires 1 <= n <= |t.runs| == |t.seps| + 1
    requires forall i | 0 <= i < n - 1 :: t.seps[i] == Mark(l)
    ensures Walk(l, t, n) == Ok(Split(t.runs[..n], None))
  {
    if n > 1 {
      WalksGroups(l, t, n - 1);
      assert t.runs[..n] == t.runs[..n - 1] + [t.runs[n - 1]];
    } else {
      assert t.runs[..1] == [t.runs[0]];
    }
  }

  lemma WalksFraction(l: Locale, parts: seq<string>, frac: string)
    requires parts != [] && IsDecimal(l, l.decimal)
    ensures Walk(l, Tokens(parts + [frac], Marks(l, |parts| - 1) + [l.decimal]), |parts| + 1) == Ok(Split(parts, Some(frac)))
  {
    var t := Tokens(parts + [frac], Marks(l, |parts| - 1) + [l.decimal]);
    WalksGroups(l, t, |parts|);
    assert t.runs[..|parts|] == parts;
  }

  lemma WalksWhole(l: Locale, parts: seq<string>)
    requires parts != []
    ensures Walk(l, Tokens(parts, Marks(l, |parts| - 1)), |parts|) == Ok(Split(parts, None))
  {
    WalksGroups(l, Tokens(parts, Marks(l, |parts| - 1)), |parts|);
    assert parts[..|parts|] == parts;
  }

  lemma FractionReadsBack(l: Locale, minor: I64, parts: seq<string>, frac: string, s: string)
    requires GoodDigits(l) && IsDecimal(l, l.decimal) && SeparatorOf(l, l.decimal) == l.decimal && l.decimal !in l.digitValue
    requires parts != [] && AllDigits(frac)
    requires Tokenize(l, s) == Ok(Tokens(parts, Marks(l, |parts| - 1)))
    requires Finish(l, Split(parts, Some(frac)), minor < 0) == Ok(minor)
    ensures ReadBody(l, s + ([l.decimal] + LocalDigits(l, frac)), minor < 0) == Ok(minor)
  {
    ReadsPart(l, s, Tokens(parts, Marks(l, |parts| - 1)), l.decimal, frac);
    WalksFraction(l, parts, frac);
  }

  /** A printed body, grouped or not, reads as the amount it was printed
      from. */
  lemma BodyReadsBack(l: Locale, minor: I64, parts: seq<string>)
    requires WellFormed(l) && parts != [] && DigitRuns(parts) && Concat(parts) == SplitDigits(minor, l.exp).0
    requires |parts| > 1 ==> ValidGroups(parts, l.primary, l.secondary)
    ensures ReadBody(l, BodyText(l, parts, SplitDigits(minor, l.exp).1), minor < 0) == Ok(minor)
  {
    var frac := SplitDigits(minor, l.exp).1;
    SplitDigitsExact(minor, l.exp);
    ReadsSpread(l, parts);
    if l.exp > 0 {
      FinishExact(l, Split(parts, Some(frac)), minor);
      FractionReadsBack(l, minor, parts, frac, Spread(l, parts));
    } else {
      FinishExact(l, Split(parts, None), minor);
      assert Spread(l, parts) + "" == Spread(l, parts);
      WalksWhole(l, parts);
    }
  }

  lemma FinishExact(l: Locale, s: Split, minor: I64)
    requires s.groups != [] && Concat(s.groups) == SplitDigits(minor, l.exp).0 && FracOf(s) == SplitDigits(minor, l.exp).1
    requires |s.groups| > 1 ==> ValidGroups(s.groups, l.primary, l.secondary)
    ensures Finish(l, s, minor < 0) == Ok(minor)
  {
    var (whole, frac) := SplitDigits(minor, l.exp);
    SplitDigitsExact(minor, l.exp);
    DecimalText(minor < 0, whole, frac, l.exp);
  }

  lemma CutsAtDot(whole: string, frac: string)
    requires AllDigits(whole)
    ensures var body := whole + "." + frac;
            IndexOf(body, '.') == |whole| && body[..|whole|] == whole && body[|whole| + 1..] == frac
  {
    var body := whole + "." + frac;
    assert forall i | 0 <= i < |whole| :: body[i] == whole[i] && IsDigit(whole[i]);
    assert body[|whole|] == '.';
  }

  /** ParseDecimal reads the text the parsers hand it. */
  lemma DecimalText(negative: bool, whole: string, frac: string, exp: nat)
    requires AllDigits(whole) && AllDigits(frac) && whole != ""
    ensures ParseDecimal((if negative then "-" else "") + whole + "." + frac, exp) == Amount(negative, whole, frac, exp)
  {
    var text := (if negative then "-" else "") + whole + "." + frac;
    var body := whole + "." + frac;
    CutsAtDot(whole, frac);
    if negative {
      assert text == "-" + body && text[1..] == body;
    } else {
      assert text == body && text[0] == whole[0] && IsDigit(whole[0]);
    }
  }

  // ---------- Seeds read back ----------

  lemma {:induction false} FoldKeeps(s: string)
    requires forall i | 0 <= i < |s| :: !Blank(s[i])
    ensures Fold(s) == s
  {
    if s != "" {
      FoldKeeps(s[1..]);
    }
  }

  lemma TrimKeeps(s: string)
    requires Tight(s)
    ensures Trim(s) == s
  {
    assert "" + s + "" == s;
    TrimAround("", s, "");
  }

  /** Text that begins and ends with a digit of the locale. */
  predicate DigitEnds(l: Locale, s: string) {
    s != "" && s[0] in l.digitValue && s[|s| - 1] in l.digitValue
  }

  lemma {:induction false} SpreadEnds(l: Locale, parts: seq<string>)
    requires GoodDigits(l) && parts != [] && DigitRuns(parts)
    ensures DigitEnds(l, Spread(l, parts))
  {
    var last := LocalDigits(l, parts[|parts| - 1]);
    assert DigitEnds(l, last);
    if |parts| > 1 {
      SpreadEnds(l, parts[..|parts| - 1]);
    }
  }

  lemma BodyEnds(l: Locale, parts: seq<string>, frac: string)
    requires GoodDigits(l) && parts != [] && DigitRuns(parts) && AllDigits(frac) && |frac| == l.exp
    ensures DigitEnds(l, BodyText(l, parts, frac)) && Tight(BodyText(l, parts, frac))
  {
    SpreadEnds(l, parts);
  }

  /** A body has no marker to lose. */
  lemma NoMarker(l: Locale, s: string, negative: bool)
    requires WellFormed(l) && DigitEnds(l, s)
    ensures TakeSign(s, negative) == (s, negative)
    ensures TakeMarker(s, negative, [Clean(l.symbol), l.code], l.code) == (s, negative)
  {
    var m := Clean(l.symbol);
    if |m| <= |s| {
      assert s[..|m|][0] == s[0];
      assert s[|s| - |m|..][|m| - 1] == s[|s| - 1];
    }
    NoCode(l, s);
    assert !PrefixMarker(s, m, l.code) && !SuffixMarker(s, m, l.code);
    assert [m, l.code][1..] == [l.code] && [l.code][1..] == [];
    assert TakeMarker(s, negative, [], l.code) == (s, negative);
    assert TakeMarker(s, negative, [l.code], l.code) == (s, negative);
  }

  lemma NoCode(l: Locale, s: string)
    requires WellFormed(l) && DigitEnds(l, s)
    ensures !PrefixMarker(s, l.code, l.code) && !SuffixMarker(s, l.code, l.code)
  {
    assert Upper(l.code[0]) == l.code[0] && Upper(l.code[2]) == l.code[2];
    if |s| >= 3 {
      assert s[..3][0] == s[0];
      assert s[|s| - 3..][2] == s[|s| - 1];
    }
  }

  /** Parse gives back every amount InputValue prints: all of int64, in any
      well-formed locale. */
  lemma SeedReadsBack(l: Locale, minor: I64)
    requires WellFormed(l)
    ensures Parse(l, InputValue(l, minor)) == Ok(minor)
    ensures Tight(InputValue(l, minor))
  {
    var (whole, frac) := SplitDigits(minor, l.exp);
    SplitDigitsExact(minor, l.exp);
    var body := Magnified(l, minor);
    SeedBody(l, minor);
    BodyEnds(l, [whole], frac);
    assert Concat([whole]) == whole by {
      assert [whole][1..] == [];
      assert whole + "" == whole;
    }
    BodyReadsBack(l, minor, [whole]);
    SeedPlain(l, minor);
    var s := InputValue(l, minor);
    FoldKeeps(s);
    TrimKeeps(s);
    NoMarker(l, body, minor < 0);
    if minor < 0 {
      assert s[1..] == body;
      TrimKeeps(body);
    } else {
      assert s == body;
    }
  }

  lemma SeedBody(l: Locale, minor: I64)
    requires WellFormed(l)
    ensures Magnified(l, minor) == BodyText(l, [SplitDigits(minor, l.exp).0], SplitDigits(minor, l.exp).1)
  {
    var (whole, frac) := SplitDigits(minor, l.exp);
    var tail := if l.exp > 0 then [l.decimal] + frac else "";
    LocalConcat(l, whole, tail);
    LocalConcat(l, [l.decimal], frac);
    assert LocalDigits(l, [l.decimal]) == [l.decimal];
    assert LocalDigits(l, "") == "";
  }

  lemma LocalPlain(l: Locale, ascii: string)
    requires GoodDigits(l) && GoodMarks(l) && AsciiBody(l, ascii)
    ensures var r := LocalDigits(l, ascii); forall i | 0 <= i < |r| :: !Blank(r[i])
  {
    var r := LocalDigits(l, ascii);
    forall i | 0 <= i < |r|
      ensures !Blank(r[i])
    {
      assert r[i] in l.digitValue || r[i] == l.decimal;
    }
  }

  /** ASCII digits and the decimal mark. */
  predicate AsciiBody(l: Locale, ascii: string) {
    forall i | 0 <= i < |ascii| :: IsDigit(ascii[i]) || ascii[i] == l.decimal
  }

  lemma SeedAscii(l: Locale, whole: string, frac: string)
    requires AllDigits(whole) && AllDigits(frac)
    ensures AsciiBody(l, whole + ([l.decimal] + frac)) && AsciiBody(l, whole + "")
  {
  }

  lemma SeedPlain(l: Locale, minor: I64)
    requires WellFormed(l)
    ensures var s := InputValue(l, minor); forall i | 0 <= i < |s| :: !Blank(s[i])
  {
    var (whole, frac) := SplitDigits(minor, l.exp);
    SplitDigitsExact(minor, l.exp);
    SeedAscii(l, whole, frac);
    LocalPlain(l, whole + if l.exp > 0 then [l.decimal] + frac else "");
  }
}
