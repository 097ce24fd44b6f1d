/** The normalising reader as it runs: its loops over runes, tokens and
    conventions, each proved to compute the reading rules. */
module CurrencyNormalize {
  import opened Digits
  import opened Text
  import opened Money
  import opened CurrencyLocale
  import opened CurrencyReadings
  import opened CurrencyVerdict
  import P = CurrencyParse

  // ---------- strip ----------

  /** match's walk over the spellings filed under one edge. */
  method MatchSpelling(l: Locale, order: seq<string>, s: string, front: bool) returns (r: Option<string>)
    ensures r == Match(l, order, s, front)
  {
    for i := 0 to |order|
      invariant Match(l, order, s, front) == Match(l, order[i..], s, front)
    {
      assert order[i..][0] == order[i] && order[i..][1..] == order[i + 1..];
      if (if front then MatchesFront(l, order[i], s) else MatchesBack(l, order[i], s)) {
        return Some(order[i]);
      }
    }
    assert order[|order|..] == [];
    r := None;
  }

  /** One spelling matches at one end. */
  predicate Fits(l: Locale, t: string, s: string, front: bool) {
    if front then MatchesFront(l, t, s) else MatchesBack(l, t, s)
  }

  /** What byFirst and byLast file a spelling, and a text, under. */
  function Edge(upper: char -> char, s: string, front: bool): char
    requires s != ""
  {
    upper(if front then s[0] else s[|s| - 1])
  }

  /** unicode.ToUpper, as far as a code's letters go. */
  ghost predicate Uppers(upper: char -> char) {
    forall c: char | 'A' <= c <= 'Z' || 'a' <= c <= 'z' :: upper(c) == if c >= 'a' then c - ' ' else c
  }

  /** The spellings filed under an edge, in the order they had. */
  function Filed(order: seq<string>, upper: char -> char, edge: char, front: bool): seq<string> {
    if order == [] then []
    else
      var rest := Filed(order[1..], upper, edge, front);
      if order[0] != "" && Edge(upper, order[0], front) == edge then [order[0]] + rest else rest
  }

  lemma FitsAtEdge(l: Locale, upper: char -> char, t: string, s: string, front: bool)
    requires Uppers(upper) && Fits(l, t, s, front)
    ensures t != "" && s != "" && Edge(upper, t, front) == Edge(upper, s, front)
  {
    var part := if front then s[..|t|] else s[|s| - |t|..];
    var i := if front then 0 else |t| - 1;
    assert part[i] == if front then s[0] else s[|s| - 1];
    if part != t {
      assert P.SameCode(part, t);
    }
  }

  /** Looking only at the spellings filed under the text's edge rune finds
      what looking at all of them would. */
  lemma {:induction false} FilingLosesNothing(l: Locale, order: seq<string>, upper: char -> char, s: string, front: bool)
    requires Uppers(upper) && s != ""
    ensures Match(l, Filed(order, upper, Edge(upper, s, front), front), s, front) == Match(l, order, s, front)
  {
    if order != [] {
      FilingLosesNothing(l, order[1..], upper, s, front);
      var rest := Filed(order[1..], upper, Edge(upper, s, front), front);
      if Fits(l, order[0], s, front) {
        FitsAtEdge(l, upper, order[0], s, front);
      }
      assert ([order[0]] + rest)[1..] == rest;
    }
  }

  /** Longest first, by whatever measures a spelling. */
  predicate LongestFirst(order: seq<string>, size: string -> nat) {
    forall i, j | 0 <= i < j < |order| :: size(order[i]) >= size(order[j])
  }

  /** In a list filed longest first, match finds a longest spelling that is
      there, and none exactly when none is: "US$" before "$". */
  lemma {:induction false} LongestMatch(l: Locale, order: seq<string>, size: string -> nat, s: string, front: bool)
    requires LongestFirst(order, size)
    ensures match Match(l, order, s, front)
            case None => forall t | t in order :: !Fits(l, t, s, front)
            case Some(m) => m in order && Fits(l, m, s, front)
                            && forall t | t in order && Fits(l, t, s, front) :: size(t) <= size(m)
  {
    if order != [] {
      LongestMatch(l, order[1..], size, s, front);
      assert order == [order[0]] + order[1..];
    }
  }

  /** The first half of a round: at most one sign. */
  method SignOff(st: Stripped) returns (r: Outcome<Stripped>, changed: bool)
    ensures r == StripSign(st) && (r.Done? ==> (changed <==> r.value != st))
  {
    var sign := FindSign(st.s);
    if sign.None? {
      return Done(st), false;
    }
    if st.signed {
      return Failed(Unreadable(P.Invalid)), false;
    }
    var (front, back, minus) := sign.value;
    return Done(Stripped(st.s[front..|st.s| - back], minus, true, st.spelled)), true;
  }

  /** The second half: at most one spelling, the front tried first. */
  method SpellingOff(l: Locale, sp: Spellings, st: Stripped) returns (r: Outcome<Stripped>, changed: bool)
    ensures r == StripSpelling(l, sp, st) && (r.Done? ==> (changed <==> r.value != st))
  {
    var front := MatchSpelling(l, sp.order, st.s, true);
    var found := front;
    if front.None? {
      found := MatchSpelling(l, sp.order, st.s, false);
    }
    if found.None? {
      return Done(st), false;
    }
    var t := found.value;
    if !(t in sp.owners && l.code in sp.owners[t]) {
      return Failed(WrongCurrency), false;
    }
    if st.spelled {
      return Failed(Unreadable(P.Invalid)), false;
    }
    var rest := if front.Some? then st.s[|t|..] else st.s[..|st.s| - |t|];
    return Done(Stripped(rest, st.negative, st.signed, true)), true;
  }

  lemma NextRound(l: Locale, sp: Spellings, st: Stripped, signed: Stripped, next: Stripped)
    requires StripSign(st.(s := Trim(st.s))) == Done(signed) && StripSpelling(l, sp, signed) == Done(next)
    ensures StripAll(l, sp, st) == if next == st.(s := Trim(st.s)) then Done(next) else StripAll(l, sp, next)
    ensures |next.s| <= |signed.s| <= |Trim(st.s)| <= |st.s|
    ensures next == st.(s := Trim(st.s)) <==> signed == st.(s := Trim(st.s)) && next == signed
  {
    TrimShortens(st.s);
  }

  /** strip's loop: rounds of a sign and a spelling, until nothing changes. */
  method StripText(l: Locale, sp: Spellings, text: string) returns (r: Outcome<Stripped>)
    ensures r == Strip(l, sp, text)
  {
    var st := Stripped(text, false, false, false);
    if |text| >= 2 && text[0] == '(' && text[|text| - 1] == ')' {
      st := Stripped(text[1..|text| - 1], true, true, false);
    }
    var changed := true;
    while changed
      invariant Strip(l, sp, text) == if changed then StripAll(l, sp, st) else Done(st)
      decreases |st.s|, changed
    {
      var signed, signOff := SignOff(st.(s := Trim(st.s)));
      if signed.Failed? {
        return signed;
      }
      var spelled, spellingOff := SpellingOff(l, sp, signed.value);
      if spelled.Failed? {
        return spelled;
      }
      NextRound(l, sp, st, signed.value, spelled.value);
      st, changed := spelled.value, signOff || spellingOff;
    }
    r := Done(st);
  }

  // ---------- tokenize ----------

  /** The tokens so far, the unfinished run of digits among them. */
  function Flushed(out: seq<Tok>, run: string): seq<Tok> {
    if run == "" then out else out + [Run(run)]
  }

  lemma {:induction false} JunkStays(l: Locale, s: string, n: nat)
    requires n <= |s| && Tokenize(l, s[..n]).None?
    ensures Tokenize(l, s).None?
  {
    if n == |s| {
      assert s[..n] == s;
    } else {
      assert s[..|s| - 1][..n] == s[..n];
      JunkStays(l, s[..|s| - 1], n);
    }
  }

  lemma RunGrows(out: seq<Tok>, run: string, d: char)
    requires out != [] ==> out[|out| - 1].Sep?
    ensures AddTok(Flushed(out, run), d) == Flushed(out, run + [d])
  {
    if run == "" {
      assert run + [d] == [d];
    } else {
      assert (out + [Run(run)])[|out| := Run(run + [d])] == out + [Run(run + [d])];
    }
  }

  /** tokenize, with its builder for the run being read. */
  method TokenizeText(l: Locale, s: string) returns (r: Option<seq<Tok>>)
    ensures r == Tokenize(l, s)
  {
    var out: seq<Tok>, run := [], "";
    for i := 0 to |s|
      invariant out != [] ==> out[|out| - 1].Sep?
      invariant Tokenize(l, s[..i]) == Some(Flushed(out, run))
    {
      var c := s[i];
      assert s[..i + 1][..i] == s[..i];
      if c in l.digitValue {
        RunGrows(out, run, P.DigitIn(l, c));
        run := run + [P.DigitIn(l, c)];
      } else if IsMark(l, c) {
        out, run := Flushed(out, run) + [Sep(c)], "";
      } else {
        JunkStays(l, s, i + 1);
        return None;
      }
    }
    assert s[..|s|] == s;
    r := Some(Flushed(out, run));
  }

  // ---------- reading ----------

  lemma {:induction false} UnreadStays(toks: seq<Tok>, c: Convention, n: nat)
    requires GoodToks(toks) && n <= |toks| && ReadToks(toks[..n], c).None?
    ensures ReadToks(toks, c).None?
  {
    if n == |toks| {
      assert toks[..n] == toks;
    } else {
      assert toks[..|toks| - 1][..n] == toks[..n];
      UnreadStays(toks[..|toks| - 1], c, n);
    }
  }

  /** reading: the walk over the tokens under one convention. */
  method ReadTokens(toks: seq<Tok>, t: Try) returns (r: Option<(string, string)>)
    requires GoodToks(toks)
    ensures r == ReadUnder(toks, t)
  {
    var groups: seq<string>, mark, prev, sawDecimal, frac := [], None, Start, false, "";
    for i := 0 to |toks|
      invariant ReadToks(toks[..i], t.convention) == Some(Reader(groups, mark, prev, sawDecimal, frac))
    {
      assert toks[..i + 1][..i] == toks[..i];
      match toks[i] {
        case Run(digits) =>
          if sawDecimal {
            frac := digits;
          } else {
            groups := groups + [digits];
          }
          prev := InDigits;
        case Sep(m) =>
          if m in t.convention.decimal {
            if sawDecimal || prev == AfterGroup {
              UnreadStays(toks, t.convention, i + 1);
              return None;
            }
            sawDecimal, prev := true, AfterDecimal;
          } else if m in t.convention.group {
            if prev != InDigits || sawDecimal || (mark.Some? && mark.value != m) {
              UnreadStays(toks, t.convention, i + 1);
              return None;
            }
            mark, prev := Some(m), AfterGroup;
          } else {
            UnreadStays(toks, t.convention, i + 1);
            return None;
          }
      }
    }
    assert toks[..|toks|] == toks;
    if prev == AfterGroup || prev == Start {
      return None;
    }
    if |groups| > 1 && !ValidGroups(groups, t.grouping.0, t.grouping.1) {
      return None;
    }
    var whole := Concat(groups);
    if whole == "" && frac == "" {
      return None;
    }
    r := Some((whole, frac));
  }

  // ---------- interpret ----------

  method ReadTry(l: Locale, toks: seq<Tok>, negative: bool, t: Try) returns (r: Option<Reading>, tooLarge: bool)
    requires GoodToks(toks)
    ensures r == ReadsAs(l, toks, negative, t) && tooLarge == Overflows(l, toks, negative, t)
  {
    var digits := ReadTokens(toks, t);
    if digits.None? {
      return None, false;
    }
    r := MakeReading(digits.value.0, digits.value.1, negative, l.exp);
    tooLarge := r.None?;
  }

  function Added(out: seq<Reading>, r: Option<Reading>): seq<Reading> {
    if r.None? || HasDecimal(out, r.value.decimal) then out else out + [r.value]
  }

  lemma OneMoreCollected(l: Locale, toks: seq<Tok>, negative: bool, tries: seq<Try>, n: nat)
    requires GoodToks(toks) && n < |tries|
    ensures Collect(l, toks, negative, tries[..n + 1])
         == Added(Collect(l, toks, negative, tries[..n]), ReadsAs(l, toks, negative, tries[n]))
  {
    assert tries[..n + 1][..n] == tries[..n];
  }

  /** interpret's loop over every convention and grouping: the distinct
      readings in the order they are met, and whether one was dropped because
      it does not fit. */
  method CollectReadings(l: Locale, toks: seq<Tok>, negative: bool, tries: seq<Try>)
    returns (out: seq<Reading>, overflowed: bool)
    requires GoodToks(toks)
    ensures out == Collect(l, toks, negative, tries)
    ensures overflowed == SomeOverflow(l, toks, negative, tries)
  {
    out, overflowed := [], false;
    for i := 0 to |tries|
      invariant out == Collect(l, toks, negative, tries[..i])
      invariant overflowed == SomeOverflow(l, toks, negative, tries[..i])
    {
      OneMoreCollected(l, toks, negative, tries, i);
      OneMoreOverflow(l, toks, negative, tries, i);
      var r, tooLarge := ReadTry(l, toks, negative, tries[i]);
      overflowed := overflowed || tooLarge;
      if r.Some? && !HasDecimal(out, r.value.decimal) {
        out := out + [r.value];
      }
    }
    assert tries[..|tries|] == tries;
  }

  lemma OneMore(tries: seq<Try>, n: nat, t: Try)
    requires n < |tries|
    ensures t in tries[..n + 1] <==> t in tries[..n] || t == tries[n]
  {
    assert tries[..n + 1] == tries[..n] + [tries[n]];
  }

  lemma OneMoreOverflow(l: Locale, toks: seq<Tok>, negative: bool, tries: seq<Try>, n: nat)
    requires GoodToks(toks) && n < |tries|
    ensures SomeOverflow(l, toks, negative, tries[..n + 1])
       <==> SomeOverflow(l, toks, negative, tries[..n]) || Overflows(l, toks, negative, tries[n])
  {
    forall t
      ensures t in tries[..n + 1] <==> t in tries[..n] || t == tries[n]
    {
      OneMore(tries, n, t);
    }
  }

  /** ParseNormalized, step by step. */
  method ParseNormalizedText(l: Locale, sp: Spellings, text: string) returns (r: Outcome<I64>)
    ensures r == ParseNormalized(l, sp, text)
  {
    var s := CleanText(text);
    if s == "" {
      return Done(0);
    }
    var stripped := StripText(l, sp, s);
    if stripped.Failed? {
      return Failed(stripped.failure);
    }
    var body := Trim(stripped.value.s);
    if body == "" {
      return Failed(Unreadable(P.Invalid));
    }
    var toks := TokenizeText(l, body);
    if toks.None? {
      return Failed(Unreadable(P.Invalid));
    }
    var negative := stripped.value.negative;
    var out, overflowed := CollectReadings(l, toks.value, negative, Tries(l));
    r := Decide(l, Sort(out), Grouped(l, toks.value, negative), overflowed);
  }
}
