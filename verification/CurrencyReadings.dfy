/** The reader that refuses ambiguity (currency/normalize.go): every reading of
    an amount under three conventions and several groupings, and the one rule
    by which it answers. */
module CurrencyReadings {
  import opened Digits
  import opened Text
  import opened Money
  import opened CurrencyLocale
  import P = CurrencyParse

  /** One interpretation of the input's digits and separators. */
  datatype Reading = Reading(decimal: string, storable: bool, minor: I64)

  datatype Failure =
    | WrongCurrency
    | Unreadable(error: P.Error)
    | Ambiguous(readings: seq<Reading>)

  datatype Outcome<+T> = Done(value: T) | Failed(failure: Failure)

  // ---------- Conventions ----------

  /** Which marks are decimals and which group. */
  datatype Convention = Convention(decimal: set<char>, group: set<char>)

  function Common(decimals: set<char>): Convention {
    Convention({'\U{066B}'} + decimals, {' ', '\'', '\U{2019}', '\U{066C}'})
  }

  /** The locale's own convention, exactly the strict parser's. */
  function Local(l: Locale): Convention {
    var g := P.Mark(l);
    var c := Common({l.decimal, l.plainDecimal} + if g != '.' then {'.'} else {});
    Convention(c.decimal - {g}, c.group + {g})
  }

  function Conventions(l: Locale): seq<Convention> {
    var point, comma := Common({'.'}), Common({','});
    [Local(l), point.(group := point.group + {','}), comma.(group := comma.group + {'.'})]
  }

  /** A primary and a secondary group size. */
  type Grouping = (nat, nat)

  /** The locale's own grouping and the two people type anywhere. */
  function Groupings(l: Locale): seq<Grouping> {
    var own := [(l.primary, l.secondary)];
    var more := if (3, 3) in own then own else own + [(3, 3)];
    if (3, 2) in more then more else more + [(3, 2)]
  }

  datatype Try = Try(convention: Convention, grouping: Grouping)

  function Under(c: Convention, gs: seq<Grouping>): seq<Try> {
    seq(|gs|, i requires 0 <= i < |gs| => Try(c, gs[i]))
  }

  /** Every convention with every grouping, in the order they are read. */
  function Tries(l: Locale): seq<Try> {
    var cs, gs := Conventions(l), Groupings(l);
    Under(cs[0], gs) + Under(cs[1], gs) + Under(cs[2], gs)
  }

  // ---------- Signs and spellings off the ends ----------

  /** Every currency spelling known here, in the order they are tried, and
      the currencies each one names. */
  datatype Spellings = Spellings(order: seq<string>, owners: map<string, set<string>>)

  predicate IsCodeSpelling(t: string) {
    |t| == 3 && forall i | 0 <= i < 3 :: 'A' <= t[i] <= 'Z'
  }

  predicate IsOwnMark(local: Convention, t: string) {
    |t| == 1 && (t[0] in local.decimal || t[0] in local.group)
  }

  predicate Spelt(part: string, t: string) {
    part == t || (IsCodeSpelling(t) && P.SameCode(part, t))
  }

  predicate MatchesFront(l: Locale, t: string, s: string) {
    && t != "" && |t| <= |s| && !IsOwnMark(Local(l), t) && Spelt(s[..|t|], t)
    && !(|t| < |s| && t[|t| - 1] in l.letters && s[|t|] in l.letters)
  }

  predicate MatchesBack(l: Locale, t: string, s: string) {
    && t != "" && |t| <= |s| && !IsOwnMark(Local(l), t) && Spelt(s[|s| - |t|..], t)
    && !(|t| < |s| && t[0] in l.letters && s[|s| - |t| - 1] in l.letters)
  }

  /** match: the first spelling of the list at one end of s. */
  function Match(l: Locale, order: seq<string>, s: string, front: bool): (r: Option<string>)
    ensures r.Some? ==> r.value in order && if front then MatchesFront(l, r.value, s) else MatchesBack(l, r.value, s)
  {
    if order == [] then None
    else if (if front then MatchesFront(l, order[0], s) else MatchesBack(l, order[0], s)) then Some(order[0])
    else Match(l, order[1..], s, front)
  }

  datatype Stripped = Stripped(s: string, negative: bool, signed: bool, spelled: bool)

  /** The sign found at an end of s, as how many runes to cut off the front
      and the back and whether it is a minus. */
  function FindSign(s: string): Option<(nat, nat, bool)> {
    if s == "" then None
    else if s[0] == '-' then Some((1, 0, true))
    else if s[|s| - 1] == '-' then Some((0, 1, true))
    else if s[0] == '\U{2212}' then Some((1, 0, true))
    else if s[|s| - 1] == '\U{2212}' then Some((0, 1, true))
    else if s[0] == '+' then Some((1, 0, false))
    else None
  }

  function StripSign(st: Stripped): (r: Outcome<Stripped>)
    ensures r.Done? ==> |r.value.s| <= |st.s| && (r.value == st || |r.value.s| < |st.s|)
  {
    match FindSign(st.s)
    case None => Done(st)
    case Some((front, back, minus)) =>
      if st.signed then Failed(Unreadable(P.Invalid))
      else Done(Stripped(st.s[front..|st.s| - back], minus, true, st.spelled))
  }

  function StripSpelling(l: Locale, sp: Spellings, st: Stripped): (r: Outcome<Stripped>)
    ensures r.Done? ==> |r.value.s| <= |st.s| && (r.value == st || |r.value.s| < |st.s|)
  {
    var front := Match(l, sp.order, st.s, true);
    var found := if front.Some? then front else Match(l, sp.order, st.s, false);
    if found.None? then Done(st)
    else
      var t := found.value;
      if !(t in sp.owners && l.code in sp.owners[t]) then Failed(WrongCurrency)
      else if st.spelled then Failed(Unreadable(P.Invalid))
      else Done(Stripped(if front.Some? then st.s[|t|..] else st.s[..|st.s| - |t|], st.negative, st.signed, true))
  }

  lemma {:induction false} TrimShorter(s: string)
    ensures |TrimLeft(s)| <= |s| && |TrimRight(s)| <= |s|
  {
    if s != "" {
      if IsSpace(s[0]) {
        TrimLeftShorter(s[1..]);
      }
      if IsSpace(s[|s| - 1]) {
        TrimShorter(s[..|s| - 1]);
      }
    }
  }

  lemma {:induction false} TrimLeftShorter(s: string)
    ensures |TrimLeft(s)| <= |s|
  {
    if s != "" && IsSpace(s[0]) {
      TrimLeftShorter(s[1..]);
    }
  }

  lemma TrimShortens(s: string)
    ensures |Trim(s)| <= |s|
  {
    TrimShorter(s);
    TrimShorter(TrimLeft(s));
  }

  /** One round: trim, at most one sign, at most one spelling. */
  function StripRound(l: Locale, sp: Spellings, st: Stripped): (r: Outcome<Stripped>)
    ensures r.Done? ==> |r.value.s| <= |st.s| && (|r.value.s| < |st.s| || r.value == st.(s := Trim(st.s)))
  {
    TrimShortens(st.s);
    match StripSign(st.(s := Trim(st.s)))
    case Failed(f) => Failed(f)
    case Done(next) => StripSpelling(l, sp, next)
  }

  /** Rounds until one changes nothing. */
  function StripAll(l: Locale, sp: Spellings, st: Stripped): Outcome<Stripped>
    decreases |st.s|
  {
    match StripRound(l, sp, st)
    case Failed(f) => Failed(f)
    case Done(next) =>
      if next == st.(s := Trim(st.s)) then Done(next)
      else StripAll(l, sp, next)
  }

  function Strip(l: Locale, sp: Spellings, s: string): Outcome<Stripped> {
    if |s| >= 2 && s[0] == '(' && s[|s| - 1] == ')'
    then StripAll(l, sp, Stripped(s[1..|s| - 1], true, true, false))
    else StripAll(l, sp, Stripped(s, false, false, false))
  }

  // ---------- Tokens ----------

  datatype Tok = Run(digits: string) | Sep(mark: char)

  predicate IsMark(l: Locale, c: char) {
    || c == '.' || c == ',' || c == '\'' || c == ' ' || c == '\U{2019}' || c == '\U{066B}' || c == '\U{066C}'
    || c in Local(l).decimal || c in Local(l).group
  }

  predicate GoodToks(toks: seq<Tok>) {
    forall i | 0 <= i < |toks| && toks[i].Run? :: toks[i].digits != "" && AllDigits(toks[i].digits)
  }

  function AddTok(toks: seq<Tok>, d: char): seq<Tok> {
    var n := |toks| - 1;
    if n >= 0 && toks[n].Run? then toks[n := Run(toks[n].digits + [d])] else toks + [Run([d])]
  }

  function Tokenize(l: Locale, s: string): (r: Option<seq<Tok>>)
    ensures r.Some? ==> GoodToks(r.value)
  {
    if s == "" then Some([])
    else match Tokenize(l, s[..|s| - 1])
      case None => None
      case Some(toks) =>
        var c := s[|s| - 1];
        if c in l.digitValue then Some(AddTok(toks, P.DigitIn(l, c)))
        else if IsMark(l, c) then Some(toks + [Sep(c)])
        else None
  }

  // ---------- One reading ----------

  datatype Prev = Start | InDigits | AfterGroup | AfterDecimal

  datatype Reader = Reader(groups: seq<string>, mark: Option<char>, prev: Prev, sawDecimal: bool, frac: string)

  function ReadTok(r: Reader, t: Tok, c: Convention): Option<Reader> {
    match t
    case Run(digits) =>
      if r.sawDecimal then Some(r.(frac := digits, prev := InDigits))
      else Some(r.(groups := r.groups + [digits], prev := InDigits))
    case Sep(m) =>
      if m in c.decimal then
        if r.sawDecimal || r.prev == AfterGroup then None else Some(r.(sawDecimal := true, prev := AfterDecimal))
      else if m in c.group then
        if r.prev != InDigits || r.sawDecimal || (r.mark.Some? && r.mark.value != m) then None
        else Some(r.(mark := Some(m), prev := AfterGroup))
      else None
  }

  predicate GoodReader(r: Reader) {
    AllDigits(r.frac) && (r.frac != "" ==> r.sawDecimal)
    && forall i | 0 <= i < |r.groups| :: AllDigits(r.groups[i])
  }

  function ReadToks(toks: seq<Tok>, c: Convention): (r: Option<Reader>)
    requires GoodToks(toks)
    ensures r.Some? ==> GoodReader(r.value)
  {
    if toks == [] then Some(Reader([], None, Start, false, ""))
    else match ReadToks(toks[..|toks| - 1], c)
      case None => None
      case Some(r) => ReadTok(r, toks[|toks| - 1], c)
  }

  lemma {:induction false} ConcatDigits(groups: seq<string>)
    requires forall i | 0 <= i < |groups| :: AllDigits(groups[i])
    ensures AllDigits(Concat(groups))
  {
    if groups != [] {
      ConcatDigits(groups[1..]);
    }
  }

  /** reading: the whole and fraction digits under one convention and
      grouping, if it reads the tokens at all. */
  function ReadUnder(toks: seq<Tok>, t: Try): (r: Option<(string, string)>)
    requires GoodToks(toks)
    ensures r.Some? ==> AllDigits(r.value.0) && AllDigits(r.value.1) && (r.value.0 != "" || r.value.1 != "")
  {
    match ReadToks(toks, t.convention)
    case None => None
    case Some(r) =>
      ConcatDigits(r.groups);
      if r.prev == AfterGroup || r.prev == Start then None
      else if |r.groups| > 1 && !ValidGroups(r.groups, t.grouping.0, t.grouping.1) then None
      else if Concat(r.groups) == "" && r.frac == "" then None
      else Some((Concat(r.groups), r.frac))
  }

  // ---------- A reading's amount ----------

  function DropZeros(s: string): string {
    if s != "" && s[0] == '0' then DropZeros(s[1..]) else s
  }

  function CutZeros(s: string): string {
    if s != "" && s[|s| - 1] == '0' then CutZeros(s[..|s| - 1]) else s
  }

  function PointText(whole: string, frac: string): string {
    whole + if frac != "" then "." + frac else ""
  }

  function DecimalText(negative: bool, whole: string, frac: string): string {
    (if negative then "-" else "") + PointText(whole, frac)
  }

  function NormalWhole(whole: string): string {
    if DropZeros(whole) == "" then "0" else DropZeros(whole)
  }

  /** The reading of normal digits; None when the amount does not fit in an
      int64. */
  function NormalReading(minus: bool, w: string, f: string, exp: nat): Option<Reading> {
    var dec := DecimalText(minus, w, f);
    if |f| > exp then Some(Reading(dec, false, 0))
    else match ParseDecimal(dec, exp)
      case None => None
      case Some(v) => Some(Reading(dec, true, v))
  }

  /** makeReading: zeros that say nothing are dropped, and so is the sign of
      zero. */
  function MakeReading(whole: string, frac: string, negative: bool, exp: nat): Option<Reading> {
    var w, f := NormalWhole(whole), CutZeros(frac);
    NormalReading(negative && !(w == "0" && f == ""), w, f, exp)
  }

  /** The reading of the tokens one try gives, when in range. */
  function ReadsAs(l: Locale, toks: seq<Tok>, negative: bool, t: Try): Option<Reading>
    requires GoodToks(toks)
  {
    match ReadUnder(toks, t)
    case None => None
    case Some((whole, frac)) => MakeReading(whole, frac, negative, l.exp)
  }

  /** A try reads the tokens, and its amount is out of range. */
  predicate Overflows(l: Locale, toks: seq<Tok>, negative: bool, t: Try)
    requires GoodToks(toks)
  {
    ReadUnder(toks, t).Some? && ReadsAs(l, toks, negative, t).None?
  }

  // ---------- All readings ----------

  predicate HasDecimal(rs: seq<Reading>, decimal: string) {
    exists i :: 0 <= i < |rs| && rs[i].decimal == decimal
  }

  function Collect(l: Locale, toks: seq<Tok>, negative: bool, tries: seq<Try>): seq<Reading>
    requires GoodToks(toks)
  {
    if tries == [] then []
    else
      var before := Collect(l, toks, negative, tries[..|tries| - 1]);
      match ReadsAs(l, toks, negative, tries[|tries| - 1])
      case None => before
      case Some(r) => if HasDecimal(before, r.decimal) then before else before + [r]
  }

  /** The number a decimal text without its sign denotes. */
  function UnsignedNumber(negative: bool, body: string): real {
    var dot := IndexOf(body, '.');
    var whole, frac := body[..dot], if dot < |body| then body[dot + 1..] else "";
    if AllDigits(whole) && AllDigits(frac) then Quotient(Signed(negative, Value(whole + frac)), |frac|) else 0.0
  }

  /** The number a decimal text denotes. */
  function Denotes(dec: string): real {
    var negative := dec != "" && dec[0] == '-';
    UnsignedNumber(negative, if negative then dec[1..] else dec)
  }

  /** n with its decimal point moved left. */
  function Quotient(n: int, places: nat): real {
    if places == 0 then n as real else Quotient(n, places - 1) / 10.0
  }

  function Insert(rs: seq<Reading>, r: Reading): seq<Reading> {
    if rs == [] || Denotes(r.decimal) < Denotes(rs[0].decimal) then [r] + rs
    else [rs[0]] + Insert(rs[1..], r)
  }

  function Sort(rs: seq<Reading>): seq<Reading> {
    if rs == [] then [] else Insert(Sort(rs[..|rs| - 1]), rs[|rs| - 1])
  }

  /** allGroups: there are separators, and the locale takes each for a group
      mark. */
  predicate AllGroups(l: Locale, toks: seq<Tok>) {
    && (exists i :: 0 <= i < |toks| && toks[i].Sep?)
    && forall i | 0 <= i < |toks| && toks[i].Sep? :: toks[i].mark in Local(l).group
  }

  function OwnTry(l: Locale): Try {
    Try(Local(l), (l.primary, l.secondary))
  }

  function Grouped(l: Locale, toks: seq<Tok>, negative: bool): Option<Reading>
    requires GoodToks(toks)
  {
    if AllGroups(l, toks) then ReadsAs(l, toks, negative, OwnTry(l)) else None
  }

  /** The body of an amount and its sign, ready to be read. */
  function Prepare(l: Locale, sp: Spellings, s: string): (r: Outcome<(seq<Tok>, bool)>)
    ensures r.Done? ==> GoodToks(r.value.0)
  {
    match Strip(l, sp, s)
    case Failed(f) => Failed(f)
    case Done(st) =>
      var body := Trim(st.s);
      if body == "" then Failed(Unreadable(P.Invalid))
      else match Tokenize(l, body)
        case None => Failed(Unreadable(P.Invalid))
        case Some(toks) => Done((toks, st.negative))
  }

  predicate SomeOverflow(l: Locale, toks: seq<Tok>, negative: bool, tries: seq<Try>)
    requires GoodToks(toks)
  {
    exists t :: t in tries && Overflows(l, toks, negative, t)
  }

  /** The one rule: a single storable reading, or the page's own all-groups
      reading, or an error that says why not. */
  function Decide(l: Locale, rs: seq<Reading>, grouped: Option<Reading>, overflowed: bool): Outcome<I64> {
    var storable := exists i :: 0 <= i < |rs| && rs[i].storable;
    if |rs| == 1 && storable then Done(rs[0].minor)
    else if |rs| > 1 && grouped.Some? && grouped.value.storable then Done(grouped.value.minor)
    else if |rs| > 1 && storable then Failed(Ambiguous(rs))
    else if |rs| > 0 then Failed(Unreadable(P.Precision))
    else if overflowed then Failed(Unreadable(P.Invalid))
    else Failed(Unreadable(P.SeparatorError(l)))
  }

  function Readings(l: Locale, toks: seq<Tok>, negative: bool): seq<Reading>
    requires GoodToks(toks)
  {
    Sort(Collect(l, toks, negative, Tries(l)))
  }

  function ParseNormalized(l: Locale, sp: Spellings, s: string): Outcome<I64> {
    if Clean(s) == "" then Done(0)
    else match Prepare(l, sp, Clean(s))
      case Failed(f) => Failed(f)
      case Done((toks, negative)) =>
        Decide(l, Readings(l, toks, negative), Grouped(l, toks, negative),
               SomeOverflow(l, toks, negative, Tries(l)))
  }
}
