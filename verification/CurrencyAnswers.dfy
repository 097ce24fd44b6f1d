/** How far the normalising reader's answer is settled (currency/normalize.go):
    by the set of readings alone, and they by the tries there are. */
module CurrencyAnswers {
  import opened Digits
  import opened Text
  import opened CurrencyLocale
  import opened CurrencyReadings
  import opened CurrencySigns
  import opened CurrencyTokens
  import opened CurrencyVerdict
  import opened CurrencyDressed
  import P = CurrencyParse

  // ---------- One answer ----------

  lemma HeadOrAbove(rs: seq<Reading>, q: Reading)
    requires rs != [] && StrictlyAscending(rs) && q in rs
    ensures q == rs[0] || Less(rs[0], q)
  {
    var k :| 0 <= k < |rs| && rs[k] == q;
    assert k > 0 ==> Less(rs[0], rs[k]);
  }

  lemma LeastFirst(rs: seq<Reading>, qs: seq<Reading>)
    requires rs != [] && qs != [] && StrictlyAscending(rs) && StrictlyAscending(qs)
    requires forall r :: r in rs <==> r in qs
    ensures rs[0] == qs[0]
  {
    HeadOrAbove(rs, qs[0]);
    HeadOrAbove(qs, rs[0]);
  }

  lemma AscendingTail(rs: seq<Reading>)
    requires rs != [] && StrictlyAscending(rs)
    ensures StrictlyAscending(rs[1..]) && forall r :: r in rs[1..] <==> r in rs && r != rs[0]
  {
    HeadIsLeast(rs);
    forall r | r in rs && r != rs[0]
      ensures r in rs[1..]
    {
      assert rs == [rs[0]] + rs[1..];
    }
  }

  lemma SomeListed(rs: seq<Reading>)
    ensures rs == [] <==> forall r :: r !in rs
  {
    if rs != [] {
      assert rs[0] in rs;
    }
  }

  lemma {:induction false} OneList(rs: seq<Reading>, qs: seq<Reading>)
    requires StrictlyAscending(rs) && StrictlyAscending(qs) && forall r :: r in rs <==> r in qs
    ensures rs == qs
  {
    SomeListed(rs);
    SomeListed(qs);
    if rs != [] {
      LeastFirst(rs, qs);
      AscendingTail(rs);
      AscendingTail(qs);
      OneList(rs[1..], qs[1..]);
      assert rs == [rs[0]] + rs[1..] && qs == [qs[0]] + qs[1..];
    }
  }

  /** Two listed, so none is the only one. */
  lemma TwoListed(l: Locale, toks: seq<Tok>, negative: bool, rs: seq<Reading>, r: Reading)
    requires GoodToks(toks) && |rs| >= 2 && StrictlyAscending(rs)
    requires forall q :: q in rs <==> IsReading(l, toks, negative, q)
    ensures !OnlyReading(l, toks, negative, r)
  {
    assert rs[0] in rs && rs[1] in rs && Less(rs[0], rs[1]);
  }

  lemma ReturnIsNoQuestion(l: Locale, toks: seq<Tok>, negative: bool, v: I64, rs: seq<Reading>)
    requires GoodToks(toks) && MayReturn(l, toks, negative, v)
    ensures !MayAsk(l, toks, negative, rs)
  {
    var r :| && IsReading(l, toks, negative, r) && r.storable && r.minor == v
             && (OnlyReading(l, toks, negative, r) || Grouped(l, toks, negative) == Some(r));
    if |rs| >= 2 && StrictlyAscending(rs) && forall q :: q in rs <==> IsReading(l, toks, negative, q) {
      TwoListed(l, toks, negative, rs, r);
    }
  }

  lemma ReturnIsNoRefusal(l: Locale, toks: seq<Tok>, negative: bool, v: I64, e: P.Error)
    requires GoodToks(toks) && MayReturn(l, toks, negative, v)
    ensures !MayRefuse(l, toks, negative, e)
  {
  }

  lemma QuestionIsNoRefusal(l: Locale, toks: seq<Tok>, negative: bool, rs: seq<Reading>, e: P.Error)
    requires GoodToks(toks) && MayAsk(l, toks, negative, rs)
    ensures !MayRefuse(l, toks, negative, e)
  {
  }

  /** The promise leaves one answer: amount, question or refusal. */
  lemma OneJustifiedAnswer(l: Locale, toks: seq<Tok>, negative: bool, a: Outcome<I64>, b: Outcome<I64>)
    requires GoodToks(toks) && Justified(l, toks, negative, a) && Justified(l, toks, negative, b)
    ensures a == b
  {
    match (a, b)
    case (Done(v), Done(u)) => OneJustifiedAmount(l, toks, negative, v, u);
    case (Failed(Ambiguous(rs)), Failed(Ambiguous(qs))) => OneList(rs, qs);
    case (Done(v), Failed(Ambiguous(rs))) => ReturnIsNoQuestion(l, toks, negative, v, rs);
    case (Failed(Ambiguous(rs)), Done(v)) => ReturnIsNoQuestion(l, toks, negative, v, rs);
    case (Done(v), Failed(Unreadable(e))) => ReturnIsNoRefusal(l, toks, negative, v, e);
    case (Failed(Unreadable(e)), Done(v)) => ReturnIsNoRefusal(l, toks, negative, v, e);
    case (Failed(Ambiguous(rs)), Failed(Unreadable(e))) => QuestionIsNoRefusal(l, toks, negative, rs, e);
    case (Failed(Unreadable(e)), Failed(Ambiguous(rs))) => QuestionIsNoRefusal(l, toks, negative, rs, e);
    case _ =>
  }

  /** So the reader's answer is a if and only if a is justified by the set of
      readings. */
  lemma AnswersExactlyWhen(l: Locale, sp: Spellings, s: string, a: Outcome<I64>)
    requires Clean(s) != "" && Prepare(l, sp, Clean(s)).Done?
    ensures var (toks, negative) := Prepare(l, sp, Clean(s)).value;
            ParseNormalized(l, sp, s) == a <==> Justified(l, toks, negative, a)
  {
    var (toks, negative) := Prepare(l, sp, Clean(s)).value;
    NeverGuesses(l, sp, s);
    if Justified(l, toks, negative, a) {
      OneJustifiedAnswer(l, toks, negative, ParseNormalized(l, sp, s), a);
    }
  }

  // ---------- The tries there are ----------

  /** Marks that group, and that part a fraction, under every convention. */
  const SPACES := {' ', '\'', '\U{2019}', '\U{066C}'}
  const ARABIC := '\U{066B}'

  lemma InTries(l: Locale, t: Try) returns (i: nat, j: nat)
    requires t in Tries(l)
    ensures i < 3 && j < |Groupings(l)| && t == Try(Conventions(l)[i], Groupings(l)[j])
  {
    var cs, gs := Conventions(l), Groupings(l);
    var a, b, c := Under(cs[0], gs), Under(cs[1], gs), Under(cs[2], gs);
    assert t in a || t in b || t in c;
    if t in a {
      i := 0;
      j :| 0 <= j < |gs| && a[j] == t;
    } else if t in b {
      i := 1;
      j :| 0 <= j < |gs| && b[j] == t;
    } else {
      i := 2;
      j :| 0 <= j < |gs| && c[j] == t;
    }
  }

  lemma GroupingsAre(l: Locale, g: Grouping)
    ensures g in Groupings(l) <==> g == (l.primary, l.secondary) || g == (3, 3) || g == (3, 2)
  {
  }

  lemma ConventionsAre(l: Locale, c: Convention)
    ensures c in Conventions(l) <==>
              || c == Local(l)
              || c == Convention({ARABIC, '.'}, SPACES + {','})
              || c == Convention({ARABIC, ','}, SPACES + {'.'})
  {
    assert {ARABIC} + {'.'} == {ARABIC, '.'} && {ARABIC} + {','} == {ARABIC, ','};
  }

  /** A text is tried under the page's own marks, with the point and with the
      comma for a decimal, each with the page's own group sizes, in threes and
      in three and then twos, and under nothing else. */
  lemma TriesExactly(l: Locale, t: Try)
    ensures t in Tries(l) <==>
              && (|| t.convention == Local(l)
                  || t.convention == Convention({ARABIC, '.'}, SPACES + {','})
                  || t.convention == Convention({ARABIC, ','}, SPACES + {'.'}))
              && (t.grouping == (l.primary, l.secondary) || t.grouping == (3, 3) || t.grouping == (3, 2))
  {
    ConventionsAre(l, t.convention);
    GroupingsAre(l, t.grouping);
    if t in Tries(l) {
      var i, j := InTries(l, t);
      assert Conventions(l)[i] in Conventions(l) && Groupings(l)[j] in Groupings(l);
    } else if t.convention in Conventions(l) && t.grouping in Groupings(l) {
      var i :| 0 <= i < 3 && Conventions(l)[i] == t.convention;
      var j :| 0 <= j < |Groupings(l)| && Groupings(l)[j] == t.grouping;
      TryThere(l, i, j);
    }
  }

  /** The page's own reading of a text that has marks and takes each of them
      for one between groups of its own sizes. */
  lemma GroupedExactlyWhen(l: Locale, toks: seq<Tok>, negative: bool, r: Reading)
    requires GoodToks(toks) && RunsApart(toks)
    ensures Grouped(l, toks, negative) == Some(r) <==>
              && (exists i :: 0 <= i < |toks| && toks[i].Sep?)
              && (forall i | 0 <= i < |toks| && toks[i].Sep? :: toks[i].mark == P.Mark(l) || toks[i].mark in SPACES)
              && exists y, w, f :: Reads(toks, OwnTry(l), y, w, f) && MakeReading(w, f, negative, l.exp) == Some(r)
  {
    forall i | 0 <= i < |toks| && toks[i].Sep?
      ensures toks[i].mark in Local(l).group <==> toks[i].mark == P.Mark(l) || toks[i].mark in SPACES
    {
      LocalIsStrict(l, toks[i].mark);
    }
    if ReadsAs(l, toks, negative, OwnTry(l)) == Some(r) {
      var (w, f) := ReadUnder(toks, OwnTry(l)).value;
      ReadsExactlyWhen(toks, OwnTry(l), w, f);
    }
    if y, w, f :| Reads(toks, OwnTry(l), y, w, f) && MakeReading(w, f, negative, l.exp) == Some(r) {
      ReadsExactlyWhen(toks, OwnTry(l), w, f);
    }
  }

  // ---------- Spellings at an end ----------

  /** A spelling's own text, or for a code its letters in any case. */
  predicate SpeltLike(part: string, t: string) {
    || part == t
    || (|t| == 3 && |part| == 3 && forall i | 0 <= i < 3 :: 'A' <= t[i] <= 'Z' && (part[i] == t[i] || (part[i] as int) == (t[i] as int) + 32))
  }

  lemma SpeltIs(part: string, t: string)
    ensures Spelt(part, t) <==> SpeltLike(part, t)
  {
  }

  /** A text begins with a spelling exactly when it is there in full, or as a
      code in any case, does not run on as a word, and is not the mark the
      page's own numbers use. */
  lemma BeginsExactlyWhen(l: Locale, t: string, part: string, rest: string)
    requires |part| == |t|
    ensures Match(l, [t], part + rest, true) == Some(t) <==>
              && t != "" && SpeltLike(part, t)
              && !(rest != "" && t[|t| - 1] in l.letters && rest[0] in l.letters)
              && !(|t| == 1 && (t[0] in Local(l).decimal || t[0] in Local(l).group))
  {
    assert (part + rest)[..|t|] == part;
    SpeltIs(part, t);
  }

  lemma EndsExactlyWhen(l: Locale, t: string, rest: string, part: string)
    requires |part| == |t|
    ensures Match(l, [t], rest + part, false) == Some(t) <==>
              && t != "" && SpeltLike(part, t)
              && !(rest != "" && t[0] in l.letters && rest[|rest| - 1] in l.letters)
              && !(|t| == 1 && (t[0] in Local(l).decimal || t[0] in Local(l).group))
  {
    var s := rest + part;
    assert s[|s| - |t|..] == part;
    SpeltIs(part, t);
  }

  // ---------- Another currency's spelling ----------

  /** The spelling found at an end of x, the front first, is not the field's. */
  predicate Foreign(l: Locale, sp: Spellings, x: string) {
    var front, back := Match(l, sp.order, x, true), Match(l, sp.order, x, false);
    var found := if front.Some? then front else back;
    found.Some? && !(found.value in sp.owners && l.code in sp.owners[found.value])
  }

  datatype Wear = Nothing | Ahead(sign: char) | Behind(sign: char) | Around

  function WornText(wear: Wear, x: string): string {
    match wear
    case Nothing => x
    case Ahead(c) => [c] + x
    case Behind(c) => x + [c]
    case Around => "(" + x + ")"
  }

  predicate IsWear(wear: Wear) {
    match wear
    case Ahead(c) => IsMinusSign(c) || c == '+'
    case Behind(c) => IsMinusSign(c)
    case _ => true
  }

  lemma StripForeign(l: Locale, sp: Spellings, st: Stripped)
    requires Tight(st.s) && StripSign(st).Done? && Foreign(l, sp, StripSign(st).value.s)
    ensures StripAll(l, sp, st) == Failed(WrongCurrency)
  {
    P.TrimKeeps(st.s);
  }

  lemma SignFirstOff(x: string, c: char)
    requires Bare(x) && (IsMinusSign(c) || c == '+')
    ensures Tight([c] + x) && StripSign(Stripped([c] + x, false, false, false)) == Done(Stripped(x, IsMinusSign(c), true, false))
  {
    var s := [c] + x;
    assert s[|s| - 1] == x[|x| - 1] && s[1..|s| - 0] == x;
    FoundSign(s);
  }

  lemma SignLastOff(x: string, c: char)
    requires Bare(x) && IsMinusSign(c)
    ensures Tight(x + [c]) && StripSign(Stripped(x + [c], false, false, false)) == Done(Stripped(x, true, true, false))
  {
    var s := x + [c];
    assert s[0] == x[0] && s[0..|s| - 1] == x;
    FoundSign(s);
  }

  lemma NoSignOff(x: string, st: Stripped)
    requires Bare(x) && st.s == x
    ensures Tight(x) && StripSign(st) == Done(st)
  {
    FoundSign(x);
  }

  lemma StripUnwrapped(l: Locale, sp: Spellings, s: string)
    requires !(|s| >= 2 && s[0] == '(' && s[|s| - 1] == ')')
    requires Tight(s) && StripSign(Stripped(s, false, false, false)).Done?
    requires Foreign(l, sp, StripSign(Stripped(s, false, false, false)).value.s)
    ensures Strip(l, sp, s) == Failed(WrongCurrency)
  {
    StripForeign(l, sp, Stripped(s, false, false, false));
  }

  lemma StripWrapped(l: Locale, sp: Spellings, x: string)
    requires Bare(x) && Foreign(l, sp, x)
    ensures Strip(l, sp, "(" + x + ")") == Failed(WrongCurrency)
  {
    var all := "(" + x + ")";
    assert all[1..|all| - 1] == x && all[0] == '(' && all[|all| - 1] == ')';
    NoSignOff(x, Stripped(x, true, true, false));
    StripForeign(l, sp, Stripped(x, true, true, false));
  }

  lemma StripWorn(l: Locale, sp: Spellings, wear: Wear, x: string)
    requires Bare(x) && IsWear(wear) && Foreign(l, sp, x)
    requires wear.Around? || !InParentheses(WornText(wear, x))
    ensures Strip(l, sp, WornText(wear, x)) == Failed(WrongCurrency)
  {
    match wear
    case Nothing =>
      NoSignOff(x, Stripped(x, false, false, false));
      StripUnwrapped(l, sp, x);
    case Ahead(c) =>
      SignFirstOff(x, c);
      StripUnwrapped(l, sp, [c] + x);
    case Behind(c) =>
      SignLastOff(x, c);
      StripUnwrapped(l, sp, x + [c]);
    case Around =>
      StripWrapped(l, sp, x);
  }

  /** An amount that names another currency at an end, bare, signed or in
      parentheses, is the wrong currency, whatever its digits are. */
  lemma ForeignIsRefused(l: Locale, sp: Spellings, s: string, wear: Wear, x: string)
    requires Bare(x) && IsWear(wear) && Foreign(l, sp, x) && Clean(s) == WornText(wear, x)
    requires wear.Around? || !InParentheses(WornText(wear, x))
    ensures ParseNormalized(l, sp, s) == Failed(WrongCurrency)
  {
    StripWorn(l, sp, wear, x);
    assert WornText(wear, x) != "";
  }

  // ---------- And only then ----------

  ghost predicate Within(x: string, s: string) {
    exists i, j :: 0 <= i <= j <= |s| && s[i..j] == x
  }

  lemma CutOfCut(s: string, m: nat, n: nat, i: nat, j: nat)
    requires m <= n <= |s| && i <= j <= n - m
    ensures s[m..n][i..j] == s[m + i..m + j]
  {
    var a, b := s[m..n][i..j], s[m + i..m + j];
    assert forall k | 0 <= k < |a| :: a[k] == s[m..n][i + k] == s[m + i + k] == b[k];
  }

  lemma WithinWithin(x: string, y: string, s: string)
    requires Within(x, y) && Within(y, s)
    ensures Within(x, s)
  {
    var i, j :| 0 <= i <= j <= |y| && y[i..j] == x;
    var m, n :| 0 <= m <= n <= |s| && s[m..n] == y;
    CutOfCut(s, m, n, i, j);
    assert s[m + i..m + j] == x;
  }

  lemma CutWithin(s: string, i: nat, j: nat)
    requires i <= j <= |s|
    ensures Within(s[i..j], s)
  {
  }

  lemma {:induction false} TrimLeftWithin(s: string)
    ensures Within(TrimLeft(s), s)
  {
    if s != "" && IsSpace(s[0]) {
      TrimLeftWithin(s[1..]);
      CutWithin(s, 1, |s|);
      assert s[1..|s|] == s[1..];
      WithinWithin(TrimLeft(s[1..]), s[1..], s);
    } else {
      assert s[0..|s|] == s;
    }
  }

  lemma {:induction false} TrimRightWithin(s: string)
    ensures Within(TrimRight(s), s)
  {
    if s != "" && IsSpace(s[|s| - 1]) {
      var front := s[..|s| - 1];
      TrimRightWithin(front);
      CutWithin(s, 0, |s| - 1);
      assert s[0..|s| - 1] == front;
      WithinWithin(TrimRight(front), front, s);
    } else {
      assert s[0..|s|] == s;
    }
  }

  lemma TrimWithin(s: string)
    ensures Within(Trim(s), s)
  {
    TrimLeftWithin(s);
    TrimRightWithin(TrimLeft(s));
    WithinWithin(Trim(s), TrimLeft(s), s);
  }

  lemma SignWithin(st: Stripped)
    ensures StripSign(st).Done? ==> Within(StripSign(st).value.s, st.s)
  {
    match FindSign(st.s)
    case None =>
      CutWithin(st.s, 0, |st.s|);
      assert st.s[0..|st.s|] == st.s;
    case Some((front, back, _)) =>
      CutWithin(st.s, front, |st.s| - back);
  }

  lemma SpellingWithin(l: Locale, sp: Spellings, st: Stripped)
    ensures StripSpelling(l, sp, st).Done? ==> Within(StripSpelling(l, sp, st).value.s, st.s)
    ensures StripSpelling(l, sp, st) == Failed(WrongCurrency) <==> Foreign(l, sp, st.s)
  {
    var front, back := Match(l, sp.order, st.s, true), Match(l, sp.order, st.s, false);
    CutWithin(st.s, 0, |st.s|);
    assert st.s[0..|st.s|] == st.s;
    if front.Some? {
      CutWithin(st.s, |front.value|, |st.s|);
      assert st.s[|front.value|..|st.s|] == st.s[|front.value|..];
    } else if back.Some? {
      CutWithin(st.s, 0, |st.s| - |back.value|);
      assert st.s[0..|st.s| - |back.value|] == st.s[..|st.s| - |back.value|];
    }
  }

  lemma {:induction false} WrongIsForeign(l: Locale, sp: Spellings, st: Stripped, s: string)
    requires StripAll(l, sp, st) == Failed(WrongCurrency) && Within(st.s, s)
    ensures exists x :: Within(x, s) && Foreign(l, sp, x)
    decreases |st.s|
  {
    var trimmed := st.(s := Trim(st.s));
    TrimWithin(st.s);
    WithinWithin(trimmed.s, st.s, s);
    SignWithin(trimmed);
    if StripSign(trimmed).Done? {
      var next := StripSign(trimmed).value;
      WithinWithin(next.s, trimmed.s, s);
      SpellingWithin(l, sp, next);
      if StripSpelling(l, sp, next).Done? {
        var last := StripSpelling(l, sp, next).value;
        WithinWithin(last.s, next.s, s);
        WrongIsForeign(l, sp, last, s);
      }
    }
  }

  /** And no amount is but one with a spelling not the field's at an end of
      some part of it. */
  lemma WrongNamesForeign(l: Locale, sp: Spellings, s: string)
    requires ParseNormalized(l, sp, s) == Failed(WrongCurrency)
    ensures exists x :: Within(x, Clean(s)) && Foreign(l, sp, x)
  {
    var c := Clean(s);
    CutWithin(c, 0, |c|);
    assert c[0..|c|] == c;
    if Prepare(l, sp, c).Failed? {
      if InParentheses(c) {
        CutWithin(c, 1, |c| - 1);
        WrongIsForeign(l, sp, Stripped(c[1..|c| - 1], true, true, false), c);
      } else {
        WrongIsForeign(l, sp, Stripped(c, false, false, false), c);
      }
    }
  }
}
