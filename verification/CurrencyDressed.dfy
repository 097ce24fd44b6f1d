/** The normalising reader on an amount with anything worn around it: signs,
    parentheses, spaces and the field's own spellings. */
module CurrencyDressed {
  import opened Digits
  import opened Text
  import opened CurrencyLocale
  import opened CurrencyReadings
  import opened CurrencySigns
  import opened CurrencyNegation
  import CurrencyTokens
  import P = CurrencyParse

  predicate InParentheses(s: string) {
    |s| >= 2 && s[0] == '(' && s[|s| - 1] == ')'
  }

  /** The layers and the body, in parentheses or not. */
  function Whole(front: seq<Layer>, body: string, back: seq<Layer>, wrapped: bool): string {
    if wrapped then "(" + Worn(front, body, back) + ")" else Worn(front, body, back)
  }

  /** Parentheses around all of it count as a sign. */
  function SignCount(front: seq<Layer>, back: seq<Layer>, wrapped: bool): nat {
    Signs(front) + Signs(back) + if wrapped then 1 else 0
  }

  predicate IsNegative(front: seq<Layer>, back: seq<Layer>, wrapped: bool) {
    wrapped || HasMinus(front) || HasMinus(back)
  }

  lemma WholeStrips(l: Locale, sp: Spellings, front: seq<Layer>, body: string, back: seq<Layer>, wrapped: bool)
    requires Dressed(l, sp, front, body, back) && (wrapped || !InParentheses(Worn(front, body, back)))
    ensures var r := Strip(l, sp, Whole(front, body, back, wrapped));
            if SignCount(front, back, wrapped) > 1 || Names(front) + Names(back) > 1 then r == Failed(Unreadable(P.Invalid))
            else r.Done? && r.value.s == body && r.value.negative == IsNegative(front, back, wrapped)
  {
    var s := Worn(front, body, back);
    if wrapped {
      var all := "(" + s + ")";
      assert all[1..|all| - 1] == s && all[0] == '(' && all[|all| - 1] == ')';
      Undressed(l, sp, front, body, back, Stripped(s, true, true, false));
    } else {
      Undressed(l, sp, front, body, back, Stripped(s, false, false, false));
    }
  }

  lemma BareTrims(body: string)
    requires Bare(body)
    ensures Trim(body) == body
  {
    P.TrimKeeps(body);
  }

  /** The body's own outcome, read with a sign. */
  function BodyAnswer(l: Locale, body: string, negative: bool): Outcome<I64> {
    match Tokenize(l, body)
    case None => Failed(Unreadable(P.Invalid))
    case Some(toks) => Answer(l, toks, negative)
  }

  lemma WholeNotEmpty(front: seq<Layer>, body: string, back: seq<Layer>, wrapped: bool)
    requires body != ""
    ensures Whole(front, body, back, wrapped) != ""
  {
  }

  /** However an amount is dressed: two signs, parentheses counting as one, or
      two spellings are refused; otherwise the body alone is read, as negative
      exactly when there are parentheses or a minus. */
  lemma DressedReads(l: Locale, sp: Spellings, s: string, front: seq<Layer>, body: string, back: seq<Layer>, wrapped: bool)
    requires Dressed(l, sp, front, body, back) && Clean(s) == Whole(front, body, back, wrapped)
    requires wrapped || !InParentheses(Worn(front, body, back))
    ensures ParseNormalized(l, sp, s)
         == if SignCount(front, back, wrapped) > 1 || Names(front) + Names(back) > 1 then Failed(Unreadable(P.Invalid))
            else BodyAnswer(l, body, IsNegative(front, back, wrapped))
  {
    WholeNotEmpty(front, body, back, wrapped);
    WholeStrips(l, sp, front, body, back, wrapped);
    BareTrims(body);
  }

  lemma NothingOn(l: Locale, sp: Spellings, front: seq<Layer>, body: string, back: seq<Layer>)
    requires Dressed(l, sp, front, body, back)
    ensures Dressed(l, sp, [], body, []) && Worn([], body, []) == body && Signs([]) == Names([]) == 0 && !HasMinus([])
  {
    DressedLess(l, sp, front, body, back, |front|, 0);
    assert front[|front|..] == [] && back[..0] == [];
    assert "" + body + "" == body;
  }

  lemma BodySigned(l: Locale, body: string, v: I64, negative: bool) returns (u: I64)
    requires BodyAnswer(l, body, false) == Done(v)
    ensures u == (if negative then 0 - v else v) && BodyAnswer(l, body, negative) == Done(u)
  {
    u := v;
    if negative {
      CurrencyTokens.TokenizeApart(l, body);
      u := NegatedAnswer(l, Tokenize(l, body).value, v);
    }
  }

  lemma PlainReads(l: Locale, sp: Spellings, plain: string, body: string)
    requires Dressed(l, sp, [], body, []) && Clean(plain) == body && !InParentheses(body)
    ensures ParseNormalized(l, sp, plain) == BodyAnswer(l, body, false)
  {
    NothingOn(l, sp, [], body, []);
    DressedReads(l, sp, plain, [], body, [], false);
  }

  /** So where the bare body reads as v, the dressed one reads as v or, with
      parentheses or a minus, as -v: whatever the currency, the locale and the
      grouping. */
  lemma DressedIsSigned(l: Locale, sp: Spellings, s: string, plain: string, front: seq<Layer>, body: string,
                        back: seq<Layer>, wrapped: bool, v: I64) returns (u: I64)
    requires Dressed(l, sp, front, body, back) && Clean(s) == Whole(front, body, back, wrapped)
    requires wrapped || !InParentheses(Worn(front, body, back))
    requires SignCount(front, back, wrapped) <= 1 && Names(front) + Names(back) <= 1
    requires Clean(plain) == body && !InParentheses(body) && ParseNormalized(l, sp, plain) == Done(v)
    ensures u == (if IsNegative(front, back, wrapped) then 0 - v else v)
    ensures ParseNormalized(l, sp, s) == Done(u)
  {
    NothingOn(l, sp, front, body, back);
    PlainReads(l, sp, plain, body);
    u := BodySigned(l, body, v, IsNegative(front, back, wrapped));
    DressedReads(l, sp, s, front, body, back, wrapped);
  }

  // ---------- Signs alone ----------

  /** A table whose spellings hold no digit and neither begin nor end with a
      sign or a space. */
  predicate PlainTable(l: Locale, sp: Spellings) {
    forall t | t in sp.order :: Bare(t) && forall i | 0 <= i < |t| :: t[i] !in l.digitValue
  }

  /** Text that begins, and ends, with a digit, a sign or a space. */
  predicate NoSpellingEdge(l: Locale, c: char) {
    c in l.digitValue || IsMinusSign(c) || c == '+' || IsSpace(c)
  }

  lemma {:induction false} NoSpellingThere(l: Locale, order: seq<string>, s: string, front: bool)
    requires forall t | t in order :: Bare(t) && t[0] !in l.digitValue && t[|t| - 1] !in l.digitValue
    requires forall c | c in l.digitValue :: !('A' <= P.Upper(c) <= 'Z')
    requires s != ""
    requires if front then NoSpellingEdge(l, s[0]) else s[|s| - 1] != '+' && NoSpellingEdge(l, s[|s| - 1])
    ensures Match(l, order, s, front).None?
  {
    if order != [] {
      var t := order[0];
      assert t in order;
      if |t| <= |s| {
        assert s[..|t|][0] == s[0] && s[|s| - |t|..][|t| - 1] == s[|s| - 1];
      }
      assert forall u | u in order[1..] :: u in order;
      NoSpellingThere(l, order[1..], s, front);
    }
  }

  /** Layers of space and signs, with a body between digits. */
  ghost predicate SignsOnly(l: Locale, front: seq<Layer>, body: string, back: seq<Layer>) {
    && LayersOk(front, back) && Bare(body) && body[0] in l.digitValue && body[|body| - 1] in l.digitValue
    && (forall y | y in front || y in back :: !y.Name? && LayerText(y) != "")
  }

  lemma EdgesPlain(l: Locale, front: seq<Layer>, body: string, back: seq<Layer>)
    requires SignsOnly(l, front, body, back)
    ensures var s := Worn(front, body, back);
            s != "" && NoSpellingEdge(l, s[0]) && s[|s| - 1] != '+' && NoSpellingEdge(l, s[|s| - 1])
    requires '+' !in l.digitValue
  {
    if front != [] {
      assert front[0] in front && LayerOk(front[0], true);
      WornFirst(front, body, back);
    } else {
      assert Worn(front, body, back)[0] == body[0];
    }
    if back != [] {
      assert back[|back| - 1] in back && LayerOk(back[|back| - 1], false);
      WornLast(front, body, back);
    } else {
      assert Worn(front, body, back) == Flat(front) + body;
    }
  }

  lemma FewerSigns(l: Locale, front: seq<Layer>, body: string, back: seq<Layer>, i: nat, j: nat)
    requires SignsOnly(l, front, body, back) && i <= |front| && j <= |back|
    ensures SignsOnly(l, front[i..], body, back[..j])
  {
    assert forall y | y in front[i..] :: y in front;
    assert forall y | y in back[..j] :: y in back;
  }

  lemma NothingFound(l: Locale, sp: Spellings, front: seq<Layer>, body: string, back: seq<Layer>)
    requires PlainTable(l, sp) && SignsOnly(l, front, body, back)
    requires '+' !in l.digitValue && forall c | c in l.digitValue :: !('A' <= P.Upper(c) <= 'Z')
    ensures FoundAt(l, sp, front, body, back)
  {
    var s := Worn(front, body, back);
    EdgesPlain(l, front, body, back);
    NoSpellingThere(l, sp.order, s, true);
    NoSpellingThere(l, sp.order, s, false);
    if front != [] {
      assert front[0] in front;
    }
    if back != [] {
      assert back[|back| - 1] in back;
    }
  }

  /** Over such a table, signs and spaces around a body that begins and ends
      with a digit are all that is found: every such text is dressed, so the
      two laws hold of all of them. */
  lemma SignsAreDressed(l: Locale, sp: Spellings, front: seq<Layer>, body: string, back: seq<Layer>)
    requires PlainTable(l, sp) && SignsOnly(l, front, body, back)
    requires '+' !in l.digitValue && forall c | c in l.digitValue :: !('A' <= P.Upper(c) <= 'Z')
    ensures Dressed(l, sp, front, body, back)
  {
    forall i: nat, j: nat | i <= |front| && j <= |back|
      ensures FoundAt(l, sp, front[i..], body, back[..j])
    {
      FewerSigns(l, front, body, back, i, j);
      NothingFound(l, sp, front[i..], body, back[..j]);
    }
  }
}
