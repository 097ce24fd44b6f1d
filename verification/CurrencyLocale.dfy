/** One locale's conventions for one currency, cleaning of typed text, digit
    grouping and the printers (currency/format.go, Clean in
    currency/parse.go). */
module CurrencyLocale {
  import opened Digits
  import opened Text
  import opened Money

  // ---------- Data ----------

  /** A pattern's prefix or suffix: the currency sign, the minus sign, and
      runes written as they are. */
  datatype Item = Sign | Minus | Literal(rune: char)

  datatype Pattern = Pattern(prefix: seq<Item>, suffix: seq<Item>)

  /** The locale's data for one currency, its overrides applied and its
      pattern chosen. digitValue covers every numbering system a person may
      type; letters and currencySigns are the Unicode tables. */
  datatype Locale = Locale(
    decimal: char, group: char, plainDecimal: char,
    digits: string, minus: string, spacing: string,
    minGroup: nat, primary: nat, secondary: nat,
    symbol: string, code: string, exp: nat,
    positive: Pattern, negative: Option<Pattern>,
    spaceAfterSign: bool, spaceBeforeSign: bool,
    digitValue: map<char, nat>, letters: set<char>, currencySigns: set<char>)

  // ---------- Clean ----------

  /** The direction marks a pasted amount carries. */
  predicate Bidi(c: char) {
    || c == '\U{200E}' || c == '\U{200F}' || c == '\U{061C}'
    || '\U{202A}' <= c <= '\U{202E}' || '\U{2066}' <= c <= '\U{2069}'
  }

  function FoldRune(c: char): string {
    if Bidi(c) then "" else if IsSpace(c) then " " else [c]
  }

  /** Direction marks dropped, every space made U+0020. */
  function Fold(s: string): string {
    if s == "" then "" else FoldRune(s[0]) + Fold(s[1..])
  }

  function TrimLeft(s: string): string {
    if s != "" && IsSpace(s[0]) then TrimLeft(s[1..]) else s
  }

  function TrimRight(s: string): string {
    if s != "" && IsSpace(s[|s| - 1]) then TrimRight(s[..|s| - 1]) else s
  }

  function Trim(s: string): string {
    TrimRight(TrimLeft(s))
  }

  function Clean(s: string): string {
    Trim(Fold(s))
  }

  method CleanText(s: string) returns (r: string)
    ensures r == Clean(s)
  {
    var b := "";
    for i := 0 to |s|
      invariant b + Fold(s[i..]) == Fold(s)
    {
      var c := s[i];
      assert s[i..][0] == c && s[i..][1..] == s[i + 1..];
      assert (b + FoldRune(c)) + Fold(s[i + 1..]) == b + (FoldRune(c) + Fold(s[i + 1..]));
      if Bidi(c) {
        assert b + "" == b;
      } else if IsSpace(c) {
        b := b + " ";
      } else {
        b := b + [c];
      }
    }
    assert b == Fold(s);
    r := Trim(b);
  }

  /** foldSpace, for a group mark. */
  function FoldMark(c: char): char {
    if IsSpace(c) then ' ' else c
  }

  predicate AllSpace(s: string) {
    forall i | 0 <= i < |s| :: IsSpace(s[i])
  }

  /** Non-empty text with no space at either end. */
  predicate Tight(s: string) {
    s != "" && !IsSpace(s[0]) && !IsSpace(s[|s| - 1])
  }

  lemma {:induction false} FoldConcat(a: string, b: string)
    ensures Fold(a + b) == Fold(a) + Fold(b)
  {
    if a == "" {
      assert a + b == b;
    } else {
      assert (a + b)[1..] == a[1..] + b;
      FoldConcat(a[1..], b);
    }
  }

  lemma {:induction false} TrimLeftSpaces(spaces: string, s: string)
    requires AllSpace(spaces) && (s == "" || !IsSpace(s[0]))
    ensures TrimLeft(spaces + s) == s
  {
    if spaces == "" {
      assert spaces + s == s;
    } else {
      assert (spaces + s)[1..] == spaces[1..] + s;
      TrimLeftSpaces(spaces[1..], s);
    }
  }

  lemma {:induction false} TrimRightSpaces(s: string, spaces: string)
    requires AllSpace(spaces) && (s == "" || !IsSpace(s[|s| - 1]))
    ensures TrimRight(s + spaces) == s
  {
    if spaces == "" {
      assert s + spaces == s;
    } else {
      var front := spaces[..|spaces| - 1];
      assert (s + spaces)[..|s + spaces| - 1] == s + front;
      TrimRightSpaces(s, front);
    }
  }

  lemma TrimAround(before: string, s: string, after: string)
    requires AllSpace(before) && AllSpace(after) && Tight(s)
    ensures Trim(before + s + after) == s
  {
    assert (before + s) + after == before + (s + after);
    TrimLeftSpaces(before, s + after);
    TrimRightSpaces(s, after);
  }

  /** Any text is its trimmed part with spaces around it. */
  lemma {:induction false} TrimLeftSplits(s: string) returns (spaces: string)
    ensures AllSpace(spaces) && s == spaces + TrimLeft(s)
    ensures TrimLeft(s) == "" || !IsSpace(TrimLeft(s)[0])
  {
    if s != "" && IsSpace(s[0]) {
      var rest := TrimLeftSplits(s[1..]);
      spaces := [s[0]] + rest;
      assert s == [s[0]] + s[1..];
    } else {
      spaces := "";
    }
  }

  lemma {:induction false} TrimRightSplits(s: string) returns (spaces: string)
    ensures AllSpace(spaces) && s == TrimRight(s) + spaces
    ensures TrimRight(s) == "" || !IsSpace(TrimRight(s)[|TrimRight(s)| - 1])
    ensures TrimRight(s) != "" ==> TrimRight(s)[0] == s[0]
  {
    if s != "" && IsSpace(s[|s| - 1]) {
      var rest := TrimRightSplits(s[..|s| - 1]);
      spaces := rest + [s[|s| - 1]];
      assert s == s[..|s| - 1] + [s[|s| - 1]];
    } else {
      spaces := "";
    }
  }

  lemma TrimSplits(s: string) returns (before: string, after: string)
    requires Trim(s) != ""
    ensures AllSpace(before) && AllSpace(after) && s == before + Trim(s) + after && Tight(Trim(s))
  {
    before := TrimLeftSplits(s);
    after := TrimRightSplits(TrimLeft(s));
  }

  // ---------- Digits and groups ----------

  /** splitDigits: the digits before and after the decimal mark. */
  function SplitDigits(minor: I64, exp: nat): (string, string) {
    var padded := Padded(Magnitude(minor), exp);
    (padded[..|padded| - exp], padded[|padded| - exp..])
  }

  /** n in at least exp + 1 digits. */
  function Padded(n: nat, exp: nat): (s: string)
    ensures |s| > exp
  {
    var s := Format(n);
    if |s| <= exp then Zeros(exp + 1 - |s|) + s else s
  }

  /** The uint64 magnitude, exact for the least int64 too. */
  function Magnitude(minor: I64): nat {
    if minor < 0 then 0 - minor else minor
  }

  lemma ZerosValue(n: nat, s: string)
    requires AllDigits(s)
    ensures AllDigits(Zeros(n) + s) && Value(Zeros(n) + s) == Value(s)
  {
    ZerosAreZero(n);
    ValueConcat(Zeros(n), s);
  }

  lemma {:induction false} ZerosAreZero(n: nat)
    ensures Value(Zeros(n)) == 0
  {
    if n > 0 {
      assert Zeros(n)[..n - 1] == Zeros(n - 1);
      ZerosAreZero(n - 1);
    }
  }

  /** The split loses nothing: whole and fraction together write the
      magnitude, with exactly exp digits after the mark. */
  lemma SplitDigitsExact(minor: I64, exp: nat)
    ensures var (whole, frac) := SplitDigits(minor, exp);
            && AllDigits(whole) && AllDigits(frac) && whole != "" && |frac| == exp
            && Amount(minor < 0, whole, frac, exp) == Some(minor)
  {
    var (whole, frac) := SplitDigits(minor, exp);
    PaddedValue(Magnitude(minor), exp);
    assert whole + frac == Padded(Magnitude(minor), exp);
    assert Zeros(0) == "";
    assert Scaled(frac, exp) == frac;
  }

  lemma PaddedValue(n: nat, exp: nat)
    ensures AllDigits(Padded(n, exp)) && Value(Padded(n, exp)) == n
  {
    FormatRoundTrip(n);
    if |Format(n)| <= exp {
      ZerosValue(exp + 1 - |Format(n)|, Format(n));
    }
  }

  predicate IsDigitsOf(l: Locale) {
    |l.digits| == 10
  }

  /** localDigits: ASCII digits become the locale's own. */
  function LocalDigits(l: Locale, s: string): (r: string)
    requires IsDigitsOf(l)
    ensures |r| == |s|
  {
    seq(|s|, i requires 0 <= i < |s| => if IsDigit(s[i]) then l.digits[s[i] as nat - '0' as nat] else s[i])
  }

  lemma LocalConcat(l: Locale, a: string, b: string)
    requires IsDigitsOf(l)
    ensures LocalDigits(l, a + b) == LocalDigits(l, a) + LocalDigits(l, b)
  {
  }

  function Concat(parts: seq<string>): string {
    if parts == [] then "" else parts[0] + Concat(parts[1..])
  }

  /** strings.Join. */
  function Join(parts: seq<string>, sep: string): string {
    if parts == [] then ""
    else if |parts| == 1 then parts[0]
    else parts[0] + sep + Join(parts[1..], sep)
  }

  /** Secondary groups from the right, the remainder first. */
  function Chunks(whole: string, size: nat): seq<string>
    requires size >= 1
  {
    if whole == "" then []
    else if |whole| <= size then [whole]
    else Chunks(whole[..|whole| - size], size) + [whole[|whole| - size..]]
  }

  function Parts(whole: string, primary: nat, secondary: nat, minGroup: nat): seq<string>
    requires primary > 0 ==> secondary >= 1
  {
    if primary == 0 || |whole| < primary + minGroup then [whole]
    else Chunks(whole[..|whole| - primary], secondary) + [whole[|whole| - primary..]]
  }

  /** group, cutting primary and then secondary groups off the right. */
  method GroupParts(digits: string, primary: nat, secondary: nat, minGroup: nat) returns (parts: seq<string>)
    requires primary > 0 ==> secondary >= 1
    ensures parts == Parts(digits, primary, secondary, minGroup)
  {
    if primary == 0 || |digits| < primary + minGroup {
      return [digits];
    }
    var whole := digits[..|digits| - primary];
    ghost var head := whole;
    parts := [digits[|digits| - primary..]];
    ghost var last := parts;
    ghost var done: seq<string> := [];
    while |whole| > secondary
      invariant parts == done + last
      invariant Chunks(head, secondary) == Chunks(whole, secondary) + done
      invariant |digits| > primary ==> |head| > 0
    {
      done := [whole[|whole| - secondary..]] + done;
      parts := [whole[|whole| - secondary..]] + parts;
      whole := whole[..|whole| - secondary];
    }
    if whole != "" {
      parts := [whole] + parts;
    }
  }

  /** validGroups, as the strict and the normalising parser both use it. */
  predicate ValidGroups(groups: seq<string>, primary: nat, secondary: nat)
    requires groups != []
  {
    var n := |groups|;
    && primary != 0 && |groups[n - 1]| == primary
    && (forall i | 1 <= i < n - 1 :: |groups[i]| == secondary)
    && 1 <= |groups[0]| <= (if n == 2 then primary else secondary)
  }

  lemma {:induction false} ConcatAppend(parts: seq<string>, last: string)
    ensures Concat(parts + [last]) == Concat(parts) + last
  {
    if parts == [] {
      assert [last][1..] == [];
      assert Concat([last]) == last + "";
      assert parts + [last] == [last];
    } else {
      assert (parts + [last])[1..] == parts[1..] + [last];
      ConcatAppend(parts[1..], last);
    }
  }

  lemma {:induction false} ChunksSound(whole: string, size: nat)
    requires size >= 1
    ensures var c := Chunks(whole, size);
            && Concat(c) == whole
            && (whole != "" ==> c != [] && 1 <= |c[0]| <= size)
            && forall i | 1 <= i < |c| :: |c[i]| == size
  {
    if |whole| > size {
      var front := whole[..|whole| - size];
      ChunksSound(front, size);
      ConcatAppend(Chunks(front, size), whole[|whole| - size..]);
    } else if whole != "" {
      assert [whole][1..] == [];
      assert Concat([whole]) == whole + "";
    }
  }

  /** Groups a locale prints always pass the parsers' check and join back to
      the digits. */
  lemma PartsValid(whole: string, primary: nat, secondary: nat, minGroup: nat)
    requires primary > 0 ==> 1 <= secondary <= primary
    requires minGroup >= 1
    ensures var parts := Parts(whole, primary, secondary, minGroup);
            && parts != [] && Concat(parts) == whole
            && (|parts| > 1 ==> ValidGroups(parts, primary, secondary))
            && (whole != "" ==> forall i | 0 <= i < |parts| :: parts[i] != "")
  {
    if primary == 0 || |whole| < primary + minGroup {
      assert [whole][1..] == [];
      assert Concat([whole]) == whole + "";
    } else {
      var head := whole[..|whole| - primary];
      ChunksSound(head, secondary);
      ConcatAppend(Chunks(head, secondary), whole[|whole| - primary..]);
    }
  }

  // ---------- The printers ----------

  function Magnified(l: Locale, minor: I64): string
    requires IsDigitsOf(l)
  {
    var (whole, frac) := SplitDigits(minor, l.exp);
    LocalDigits(l, whole + if l.exp > 0 then [l.decimal] + frac else "")
  }

  /** InputValue: what a form is seeded with. */
  function InputValue(l: Locale, minor: I64): string
    requires IsDigitsOf(l)
  {
    (if minor < 0 then "-" else "") + Magnified(l, minor)
  }

  predicate Printable(l: Locale) {
    IsDigitsOf(l) && (l.primary > 0 ==> l.secondary >= 1)
  }

  function FormatBody(l: Locale, minor: I64): string
    requires Printable(l)
  {
    var (whole, frac) := SplitDigits(minor, l.exp);
    var grouped := Join(Parts(whole, l.primary, l.secondary, l.minGroup), [l.group]);
    LocalDigits(l, grouped + if l.exp > 0 then [l.decimal] + frac else "")
  }

  function Write(l: Locale, items: seq<Item>): string {
    if items == [] then ""
    else (match items[0]
          case Sign => l.symbol
          case Minus => l.minus
          case Literal(c) => [c]) + Write(l, items[1..])
  }

  /** The subpattern for an amount's sign. */
  function Chosen(l: Locale, negative: bool): Pattern {
    if !negative then l.positive
    else if l.negative.Some? then l.negative.value
    else Pattern([Minus] + l.positive.prefix, l.positive.suffix)
  }

  function FormatPrefix(l: Locale, p: Pattern): string {
    Write(l, p.prefix) +
    if l.spaceAfterSign && p.prefix != [] && p.prefix[|p.prefix| - 1] == Sign then l.spacing else ""
  }

  function FormatSuffix(l: Locale, p: Pattern): string {
    (if l.spaceBeforeSign && p.suffix != [] && p.suffix[0] == Sign then l.spacing else "") + Write(l, p.suffix)
  }

  /** Format: an amount in the locale's pattern, grouped and signed. */
  function FormatMoney(l: Locale, minor: I64): string
    requires Printable(l)
  {
    var p := Chosen(l, minor < 0);
    FormatPrefix(l, p) + FormatBody(l, minor) + FormatSuffix(l, p)
  }
}
