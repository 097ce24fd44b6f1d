/** What may be worn around an amount (strip in currency/normalize.go): spaces,
    signs and the field's own spellings, in any order at either end. */
module CurrencySigns {
  import opened Digits
  import opened Text
  import opened CurrencyLocale
  import opened CurrencyReadings
  import P = CurrencyParse

  // ---------- Layers ----------

  /** One thing worn: space, a sign, or a currency's spelling. */
  datatype Layer = Gap(spaces: string) | SignOf(sign: char) | Name(spelling: string)

  predicate IsMinusSign(c: char) {
    c == '-' || c == '\U{2212}'
  }

  function LayerText(y: Layer): string {
    match y
    case Gap(spaces) => spaces
    case SignOf(c) => [c]
    case Name(t) => t
  }

  function Flat(ys: seq<Layer>): string {
    if ys == [] then "" else LayerText(ys[0]) + Flat(ys[1..])
  }

  /** The body with its layers: the first in front is outermost, and so is the
      last behind. */
  function Worn(front: seq<Layer>, body: string, back: seq<Layer>): string {
    Flat(front) + body + Flat(back)
  }

  /** Text with no space and no sign at either end. */
  predicate Bare(s: string) {
    Tight(s) && !IsMinusSign(s[0]) && s[0] != '+' && !IsMinusSign(s[|s| - 1])
  }

  predicate LayerOk(y: Layer, before: bool) {
    match y
    case Gap(spaces) => AllSpace(spaces)
    case SignOf(c) => IsMinusSign(c) || (before && c == '+')
    case Name(t) => Bare(t)
  }

  /** A sign in front is a minus or a plus, one behind a minus. */
  predicate LayersOk(front: seq<Layer>, back: seq<Layer>) {
    (forall y | y in front :: LayerOk(y, true)) && forall y | y in back :: LayerOk(y, false)
  }

  function Top(ys: seq<Layer>): Option<string> {
    if ys != [] && ys[0].Name? then Some(ys[0].spelling) else None
  }

  function Bottom(ys: seq<Layer>): Option<string> {
    if ys != [] && ys[|ys| - 1].Name? then Some(ys[|ys| - 1].spelling) else None
  }

  /** Of this text, match finds the spelling worn outermost at each end and
      nothing else. */
  predicate FoundAt(l: Locale, sp: Spellings, front: seq<Layer>, body: string, back: seq<Layer>) {
    && Match(l, sp.order, Worn(front, body, back), true) == Top(front)
    && Match(l, sp.order, Worn(front, body, back), false) == Bottom(back)
  }

  /** And so of all that is left as layers come off; the spellings worn are
      the field's own. */
  ghost predicate Known(l: Locale, sp: Spellings, front: seq<Layer>, body: string, back: seq<Layer>) {
    && (forall i: nat, j: nat | i <= |front| && j <= |back| :: FoundAt(l, sp, front[i..], body, back[..j]))
    && forall y | (y in front || y in back) && y.Name? :: y.spelling in sp.owners && l.code in sp.owners[y.spelling]
  }

  function Signs(ys: seq<Layer>): nat {
    if ys == [] then 0 else (if ys[0].SignOf? then 1 else 0) + Signs(ys[1..])
  }

  function Names(ys: seq<Layer>): nat {
    if ys == [] then 0 else (if ys[0].Name? then 1 else 0) + Names(ys[1..])
  }

  predicate HasMinus(ys: seq<Layer>) {
    exists i :: 0 <= i < |ys| && ys[i].SignOf? && IsMinusSign(ys[i].sign)
  }

  // ---------- Taking one layer off ----------

  lemma FlatFirst(ys: seq<Layer>)
    requires ys != []
    ensures Flat(ys) == LayerText(ys[0]) + Flat(ys[1..])
    ensures Signs(ys) == (if ys[0].SignOf? then 1 else 0) + Signs(ys[1..])
    ensures Names(ys) == (if ys[0].Name? then 1 else 0) + Names(ys[1..])
    ensures HasMinus(ys) <==> (ys[0].SignOf? && IsMinusSign(ys[0].sign)) || HasMinus(ys[1..])
  {
    if i :| 0 <= i < |ys| && ys[i].SignOf? && IsMinusSign(ys[i].sign) {
      assert i == 0 || ys[1..][i - 1] == ys[i];
    }
    if i :| 0 <= i < |ys[1..]| && ys[1..][i].SignOf? && IsMinusSign(ys[1..][i].sign) {
      assert ys[i + 1] == ys[1..][i];
    }
  }

  lemma {:induction false} FlatLast(ys: seq<Layer>)
    requires ys != []
    ensures var n := |ys| - 1;
            && Flat(ys) == Flat(ys[..n]) + LayerText(ys[n])
            && Signs(ys) == Signs(ys[..n]) + (if ys[n].SignOf? then 1 else 0)
            && Names(ys) == Names(ys[..n]) + (if ys[n].Name? then 1 else 0)
            && (HasMinus(ys) <==> HasMinus(ys[..n]) || (ys[n].SignOf? && IsMinusSign(ys[n].sign)))
  {
    var n := |ys| - 1;
    if n == 0 {
      assert ys[1..] == [] && ys[..0] == [];
      assert LayerText(ys[0]) + "" == "" + LayerText(ys[0]);
    } else {
      FlatLast(ys[1..]);
      assert ys[1..][..n - 1] == ys[..n][1..];
      Associate(LayerText(ys[0]), Flat(ys[..n][1..]), LayerText(ys[n]));
      FlatFirst(ys);
      FlatFirst(ys[..n]);
    }
  }

  lemma WornFirst(front: seq<Layer>, body: string, back: seq<Layer>)
    requires front != []
    ensures Worn(front, body, back) == LayerText(front[0]) + Worn(front[1..], body, back)
  {
    var t, f, b := LayerText(front[0]), Flat(front[1..]), Flat(back);
    FlatFirst(front);
    assert ((t + f) + body) + b == t + ((f + body) + b);
  }

  lemma WornLast(front: seq<Layer>, body: string, back: seq<Layer>)
    requires back != []
    ensures Worn(front, body, back) == Worn(front, body, back[..|back| - 1]) + LayerText(back[|back| - 1])
  {
    FlatLast(back);
    Associate(Flat(front) + body, Flat(back[..|back| - 1]), LayerText(back[|back| - 1]));
  }

  // ---------- Gaps ----------

  function Inward(front: seq<Layer>): seq<Layer> {
    if front != [] && front[0].Gap? then Inward(front[1..]) else front
  }

  function InwardBack(back: seq<Layer>): seq<Layer> {
    if back != [] && back[|back| - 1].Gap? then InwardBack(back[..|back| - 1]) else back
  }

  /** Taking gaps off leaves everything else that is counted. */
  lemma {:induction false} InwardKeeps(front: seq<Layer>)
    ensures var f := Inward(front);
            && |f| <= |front| && f == front[|front| - |f|..] && (f != [] ==> !f[0].Gap?)
            && Signs(f) == Signs(front) && Names(f) == Names(front) && (HasMinus(f) <==> HasMinus(front))
  {
    if front != [] && front[0].Gap? {
      InwardKeeps(front[1..]);
      FlatFirst(front);
      var f := Inward(front);
      assert front[1..][|front| - 1 - |f|..] == front[|front| - |f|..];
    }
  }

  lemma {:induction false} InwardBackKeeps(back: seq<Layer>)
    ensures var b := InwardBack(back);
            && |b| <= |back| && b == back[..|b|] && (b != [] ==> !b[|b| - 1].Gap?)
            && Signs(b) == Signs(back) && Names(b) == Names(back) && (HasMinus(b) <==> HasMinus(back))
  {
    if back != [] && back[|back| - 1].Gap? {
      InwardBackKeeps(back[..|back| - 1]);
      FlatLast(back);
    }
  }

  lemma {:induction false} GapsInFront(front: seq<Layer>) returns (spaces: string)
    requires forall y | y in front :: LayerOk(y, true)
    ensures AllSpace(spaces) && Flat(front) == spaces + Flat(Inward(front))
  {
    if front != [] && front[0].Gap? {
      var rest := GapsInFront(front[1..]);
      assert front[0] in front;
      spaces := LayerText(front[0]) + rest;
      Associate(LayerText(front[0]), rest, Flat(Inward(front)));
    } else {
      spaces := "";
      assert "" + Flat(front) == Flat(front);
    }
  }

  lemma {:induction false} GapsBehind(back: seq<Layer>) returns (spaces: string)
    requires forall y | y in back :: LayerOk(y, false)
    ensures AllSpace(spaces) && Flat(back) == Flat(InwardBack(back)) + spaces
  {
    if back != [] && back[|back| - 1].Gap? {
      var n := |back| - 1;
      var rest := GapsBehind(back[..n]);
      assert back[n] in back;
      FlatLast(back);
      spaces := rest + LayerText(back[n]);
      Associate(Flat(InwardBack(back)), rest, LayerText(back[n]));
    } else {
      spaces := "";
      assert Flat(back) + "" == Flat(back);
    }
  }

  /** What stands first in text whose outermost layer is no gap. */
  function FirstRune(front: seq<Layer>, body: string): char
    requires body != "" && (front != [] ==> LayerText(front[0]) != "")
  {
    if front == [] then body[0] else LayerText(front[0])[0]
  }

  function LastRune(body: string, back: seq<Layer>): char
    requires body != "" && (back != [] ==> LayerText(back[|back| - 1]) != "")
  {
    if back == [] then body[|body| - 1]
    else
      var t := LayerText(back[|back| - 1]);
      t[|t| - 1]
  }

  predicate Topped(front: seq<Layer>, back: seq<Layer>) {
    (front != [] ==> !front[0].Gap?) && (back != [] ==> !back[|back| - 1].Gap?)
  }

  lemma WornEnds(front: seq<Layer>, body: string, back: seq<Layer>)
    requires LayersOk(front, back) && Bare(body) && Topped(front, back)
    ensures front != [] ==> LayerText(front[0]) != "" && !IsSpace(LayerText(front[0])[0])
    ensures back != [] ==> var t := LayerText(back[|back| - 1]); t != "" && !IsSpace(t[|t| - 1])
    ensures var s := Worn(front, body, back);
            Tight(s) && s[0] == FirstRune(front, body) && s[|s| - 1] == LastRune(body, back)
  {
    if front != [] {
      assert front[0] in front && LayerOk(front[0], true);
      WornFirst(front, body, back);
    } else {
      assert Worn(front, body, back)[0] == body[0];
    }
    if back != [] {
      assert back[|back| - 1] in back && LayerOk(back[|back| - 1], false);
      WornLast(front, body, back);
    } else {
      assert Worn(front, body, back) == Flat(front) + body;
    }
  }

  lemma InwardOk(front: seq<Layer>, back: seq<Layer>)
    requires LayersOk(front, back)
    ensures LayersOk(Inward(front), InwardBack(back)) && Topped(Inward(front), InwardBack(back))
  {
    InwardKeeps(front);
    InwardBackKeeps(back);
    var f, b := Inward(front), InwardBack(back);
    assert forall y | y in front[|front| - |f|..] :: y in front;
    assert forall y | y in back[..|b|] :: y in back;
  }

  lemma AssociateFive(a: string, f: string, body: string, b: string, c: string)
    ensures ((a + f) + body) + (b + c) == (a + ((f + body) + b)) + c
  {
  }

  lemma TrimWorn(front: seq<Layer>, body: string, back: seq<Layer>)
    requires LayersOk(front, back) && Bare(body)
    ensures Trim(Worn(front, body, back)) == Worn(Inward(front), body, InwardBack(back))
  {
    var f, b := Inward(front), InwardBack(back);
    InwardOk(front, back);
    var before := GapsInFront(front);
    var after := GapsBehind(back);
    WornEnds(f, body, b);
    AssociateFive(before, Flat(f), body, Flat(b), after);
    TrimAround(before, Worn(f, body, b), after);
  }

  // ---------- One round ----------

  predicate SignFirst(front: seq<Layer>) {
    front != [] && front[0].SignOf?
  }

  predicate SignLast(back: seq<Layer>) {
    back != [] && back[|back| - 1].SignOf?
  }

  lemma OffFront(front: seq<Layer>, body: string, back: seq<Layer>)
    requires front != []
    ensures var s, t := Worn(front, body, back), LayerText(front[0]);
            |t| <= |s| && s[..|t|] == t && s[|t|..] == Worn(front[1..], body, back)
  {
    WornFirst(front, body, back);
  }

  lemma OffBack(front: seq<Layer>, body: string, back: seq<Layer>)
    requires back != []
    ensures var s, t := Worn(front, body, back), LayerText(back[|back| - 1]);
            && |t| <= |s| && s[|s| - |t|..] == t
            && s[..|s| - |t|] == Worn(front, body, back[..|back| - 1])
  {
    WornLast(front, body, back);
  }

  /** What is left of the layers when the sign that is found comes off: the
      front one, or the one behind when that is what was found. */
  ghost predicate SignOff(front: seq<Layer>, back: seq<Layer>, f: seq<Layer>, b: seq<Layer>, minus: bool) {
    || (SignFirst(front) && f == front[1..] && b == back && minus == IsMinusSign(front[0].sign))
    || (SignLast(back) && f == front && b == back[..|back| - 1] && minus)
  }

  /** The signs at the ends, as the edges of the text show them. */
  lemma EdgeSigns(front: seq<Layer>, body: string, back: seq<Layer>)
    requires LayersOk(front, back) && Bare(body) && Topped(front, back)
    ensures var s := Worn(front, body, back);
            && s != ""
            && (SignFirst(front) <==> IsMinusSign(s[0]) || s[0] == '+') && (SignLast(back) <==> IsMinusSign(s[|s| - 1]))
            && (SignFirst(front) ==> front[0].sign == s[0])
  {
    WornEnds(front, body, back);
    if front != [] {
      assert front[0] in front && LayerOk(front[0], true);
    }
    if back != [] {
      assert back[|back| - 1] in back && LayerOk(back[|back| - 1], false);
    }
  }

  lemma FoundSign(s: string)
    requires s != ""
    ensures match FindSign(s)
            case None => !IsMinusSign(s[0]) && s[0] != '+' && !IsMinusSign(s[|s| - 1])
            case Some((n, m, minus)) =>
              || (n == 1 && m == 0 && (IsMinusSign(s[0]) || s[0] == '+') && minus == IsMinusSign(s[0]))
              || (n == 0 && m == 1 && IsMinusSign(s[|s| - 1]) && minus)
  {
  }

  lemma SignFound(front: seq<Layer>, body: string, back: seq<Layer>)
    requires LayersOk(front, back) && Bare(body) && Topped(front, back)
    ensures var s := Worn(front, body, back);
            match FindSign(s)
            case None => !SignFirst(front) && !SignLast(back)
            case Some((n, m, minus)) =>
              || (n == 1 && m == 0 && SignFirst(front) && minus == IsMinusSign(front[0].sign))
              || (n == 0 && m == 1 && SignLast(back) && minus)
  {
    EdgeSigns(front, body, back);
    FoundSign(Worn(front, body, back));
  }

  lemma SignStep(front: seq<Layer>, body: string, back: seq<Layer>, st: Stripped)
    returns (f: seq<Layer>, b: seq<Layer>, minus: bool)
    requires LayersOk(front, back) && Bare(body) && Topped(front, back) && st.s == Worn(front, body, back)
    ensures if !SignFirst(front) && !SignLast(back) then StripSign(st) == Done(st) && f == front && b == back
            else
              && SignOff(front, back, f, b, minus)
              && StripSign(st) == if st.signed then Failed(Unreadable(P.Invalid))
                                  else Done(Stripped(Worn(f, body, b), minus, true, st.spelled))
  {
    f, b, minus := front, back, false;
    SignFound(front, body, back);
    var found := FindSign(st.s);
    if found.Some? {
      minus := found.value.2;
      if found.value.0 == 1 {
        f := front[1..];
        OffFront(front, body, back);
        assert st.s[1..|st.s| - 0] == st.s[1..];
      } else {
        b := back[..|back| - 1];
        OffBack(front, body, back);
        assert st.s[0..|st.s| - 1] == st.s[..|st.s| - 1];
      }
    }
  }

  lemma NameStep(l: Locale, sp: Spellings, front: seq<Layer>, body: string, back: seq<Layer>, st: Stripped)
    returns (f: seq<Layer>, b: seq<Layer>)
    requires FoundAt(l, sp, front, body, back) && st.s == Worn(front, body, back)
    requires forall y | (y in front || y in back) && y.Name? :: y.spelling in sp.owners && l.code in sp.owners[y.spelling]
    ensures if Top(front).None? && Bottom(back).None? then StripSpelling(l, sp, st) == Done(st) && f == front && b == back
            else
              && ((Top(front).Some? && f == front[1..] && b == back)
                  || (Bottom(back).Some? && f == front && b == back[..|back| - 1]))
              && StripSpelling(l, sp, st) == if st.spelled then Failed(Unreadable(P.Invalid))
                                             else Done(Stripped(Worn(f, body, b), st.negative, st.signed, true))
  {
    f, b := front, back;
    if Top(front).Some? {
      f := front[1..];
      assert front[0] in front;
      OffFront(front, body, back);
    } else if Bottom(back).Some? {
      b := back[..|back| - 1];
      assert back[|back| - 1] in back;
      OffBack(front, body, back);
    }
  }

  // ---------- All of it ----------

  /** The layers worn at both ends, as they are counted. */
  datatype Tally = Tally(signs: nat, names: nat, minus: bool)

  function Count(front: seq<Layer>, back: seq<Layer>): Tally {
    Tally(Signs(front) + Signs(back), Names(front) + Names(back), HasMinus(front) || HasMinus(back))
  }

  /** A second sign or a second spelling is refused, one taken off before
      counted in; else the body is left, negative if any sign was a minus. */
  function Settled(body: string, st: Stripped, t: Tally): Outcome<Stripped> {
    if t.signs + (if st.signed then 1 else 0) > 1 || t.names + (if st.spelled then 1 else 0) > 1
    then Failed(Unreadable(P.Invalid))
    else Done(Stripped(body, st.negative || t.minus, st.signed || t.signs > 0, st.spelled || t.names > 0))
  }

  lemma {:induction false} NoSignNoMinus(ys: seq<Layer>)
    ensures Signs(ys) == 0 ==> !HasMinus(ys)
  {
    if ys != [] {
      FlatFirst(ys);
      NoSignNoMinus(ys[1..]);
    }
  }

  lemma SettleSign(body: string, st: Stripped, front: seq<Layer>, back: seq<Layer>, f: seq<Layer>, b: seq<Layer>,
                   minus: bool, s: string)
    requires SignOff(front, back, f, b, minus) && (st.negative ==> st.signed) && (SignLast(back) ==> IsMinusSign(back[|back| - 1].sign))
    ensures Settled(body, st, Count(front, back))
         == if st.signed then Failed(Unreadable(P.Invalid)) else Settled(body, Stripped(s, minus, true, st.spelled), Count(f, b))
  {
    if front != [] {
      FlatFirst(front);
    }
    if back != [] {
      FlatLast(back);
    }
    NoSignNoMinus(f);
    NoSignNoMinus(b);
  }

  lemma SettleName(body: string, st: Stripped, front: seq<Layer>, back: seq<Layer>, f: seq<Layer>, b: seq<Layer>, s: string)
    requires || (Top(front).Some? && f == front[1..] && b == back)
             || (Bottom(back).Some? && f == front && b == back[..|back| - 1])
    ensures Settled(body, st, Count(front, back))
         == if st.spelled then Failed(Unreadable(P.Invalid))
            else Settled(body, Stripped(s, st.negative, st.signed, true), Count(f, b))
  {
    if front != [] {
      FlatFirst(front);
    }
    if back != [] {
      FlatLast(back);
    }
  }

  lemma SettleNothing(body: string, st: Stripped)
    requires st.negative ==> st.signed
    ensures Settled(body, st, Count([], [])) == Done(st.(s := body))
    ensures Worn([], body, []) == body
  {
    assert "" + body + "" == body;
  }

  /** Fewer layers, with what the rest of a round needs of them. */
  ghost predicate Dressed(l: Locale, sp: Spellings, front: seq<Layer>, body: string, back: seq<Layer>) {
    LayersOk(front, back) && Bare(body) && Known(l, sp, front, body, back)
  }

  lemma DressedLess(l: Locale, sp: Spellings, front: seq<Layer>, body: string, back: seq<Layer>, i: nat, j: nat)
    requires Dressed(l, sp, front, body, back) && i <= |front| && j <= |back|
    ensures Dressed(l, sp, front[i..], body, back[..j]) && FoundAt(l, sp, front[i..], body, back[..j])
  {
    var f, b := front[i..], back[..j];
    assert forall y | y in f :: y in front;
    assert forall y | y in b :: y in back;
    forall m: nat, n: nat | m <= |f| && n <= |b|
      ensures FoundAt(l, sp, f[m..], body, b[..n])
    {
      assert f[m..] == front[i + m..] && b[..n] == back[..n];
      assert FoundAt(l, sp, front[i + m..], body, back[..n]);
    }
    assert FoundAt(l, sp, front[i..], body, back[..j]);
  }

  lemma LessFront(l: Locale, sp: Spellings, front: seq<Layer>, body: string, back: seq<Layer>)
    requires Dressed(l, sp, front, body, back) && front != []
    ensures Dressed(l, sp, front[1..], body, back) && FoundAt(l, sp, front[1..], body, back)
  {
    DressedLess(l, sp, front, body, back, 1, |back|);
    assert back[..|back|] == back;
  }

  lemma LessBack(l: Locale, sp: Spellings, front: seq<Layer>, body: string, back: seq<Layer>)
    requires Dressed(l, sp, front, body, back) && back != []
    ensures Dressed(l, sp, front, body, back[..|back| - 1]) && FoundAt(l, sp, front, body, back[..|back| - 1])
  {
    DressedLess(l, sp, front, body, back, 0, |back| - 1);
    assert front[0..] == front;
  }

  lemma DressedFound(l: Locale, sp: Spellings, front: seq<Layer>, body: string, back: seq<Layer>)
    requires Dressed(l, sp, front, body, back)
    ensures FoundAt(l, sp, front, body, back)
  {
    DressedLess(l, sp, front, body, back, 0, |back|);
    assert front[0..] == front && back[..|back|] == back;
  }

  lemma DressedInward(l: Locale, sp: Spellings, front: seq<Layer>, body: string, back: seq<Layer>)
    requires Dressed(l, sp, front, body, back)
    ensures Dressed(l, sp, Inward(front), body, InwardBack(back))
  {
    InwardKeeps(front);
    InwardBackKeeps(back);
    DressedLess(l, sp, front, body, back, |front| - |Inward(front)|, |InwardBack(back)|);
  }

  lemma CountInward(front: seq<Layer>, back: seq<Layer>)
    ensures Count(Inward(front), InwardBack(back)) == Count(front, back)
    ensures |Inward(front)| + |InwardBack(back)| <= |front| + |back|
    ensures Topped(Inward(front), InwardBack(back))
  {
    InwardKeeps(front);
    InwardBackKeeps(back);
  }

  /** A round whose sign is off. */
  lemma AfterSign(l: Locale, sp: Spellings, front: seq<Layer>, body: string, back: seq<Layer>, st: Stripped)
    returns (f: seq<Layer>, b: seq<Layer>, next: Stripped)
    requires Dressed(l, sp, front, body, back) && Topped(front, back)
    requires st.s == Worn(front, body, back) && (st.negative ==> st.signed)
    ensures Dressed(l, sp, f, body, b) && next.s == Worn(f, body, b) && (next.negative ==> next.signed)
    ensures match StripSign(st)
            case Failed(e) => Settled(body, st, Count(front, back)) == Failed(e)
            case Done(r) => r == next && Settled(body, st, Count(front, back)) == Settled(body, next, Count(f, b))
    ensures next.spelled == st.spelled
    ensures if !SignFirst(front) && !SignLast(back) then f == front && b == back && next == st
            else |f| + |b| < |front| + |back| && (StripSign(st).Done? ==> next.signed && !st.signed)
  {
    var minus;
    f, b, minus := SignStep(front, body, back, st);
    next := st;
    if SignFirst(front) || SignLast(back) {
      if SignLast(back) {
        assert back[|back| - 1] in back && LayerOk(back[|back| - 1], false);
      }
      next := Stripped(Worn(f, body, b), minus, true, st.spelled);
      SettleSign(body, st, front, back, f, b, minus, next.s);
      if front != [] {
        LessFront(l, sp, front, body, back);
      }
      if back != [] {
        LessBack(l, sp, front, body, back);
      }
    }
  }

  /** And whose spelling is off. */
  lemma AfterName(l: Locale, sp: Spellings, front: seq<Layer>, body: string, back: seq<Layer>, st: Stripped)
    returns (f: seq<Layer>, b: seq<Layer>, next: Stripped)
    requires Dressed(l, sp, front, body, back) && st.s == Worn(front, body, back) && (st.negative ==> st.signed)
    ensures Dressed(l, sp, f, body, b) && next.s == Worn(f, body, b) && (next.negative ==> next.signed)
    ensures match StripSpelling(l, sp, st)
            case Failed(e) => Settled(body, st, Count(front, back)) == Failed(e)
            case Done(r) => r == next && Settled(body, st, Count(front, back)) == Settled(body, next, Count(f, b))
    ensures next.signed == st.signed
    ensures if Top(front).None? && Bottom(back).None? then f == front && b == back && next == st
            else |f| + |b| < |front| + |back| && (StripSpelling(l, sp, st).Done? ==> next.spelled && !st.spelled)
  {
    DressedFound(l, sp, front, body, back);
    f, b := NameStep(l, sp, front, body, back, st);
    next := st;
    if Top(front).Some? || Bottom(back).Some? {
      next := Stripped(Worn(f, body, b), st.negative, st.signed, true);
      SettleName(body, st, front, back, f, b, next.s);
      if front != [] {
        LessFront(l, sp, front, body, back);
      }
      if back != [] {
        LessBack(l, sp, front, body, back);
      }
    }
  }

  lemma NothingWorn(front: seq<Layer>, back: seq<Layer>)
    requires Topped(front, back) && !SignFirst(front) && !SignLast(back) && Top(front).None? && Bottom(back).None?
    ensures front == [] && back == []
  {
  }

  /** What a round leaves of the layers and of their count. */
  ghost predicate Leaves(l: Locale, sp: Spellings, front: seq<Layer>, body: string, back: seq<Layer>, st: Stripped,
                         f: seq<Layer>, b: seq<Layer>, r: Outcome<Stripped>)
  {
    match r
    case Failed(e) => Settled(body, st, Count(front, back)) == Failed(e)
    case Done(last) =>
      && Settled(body, st, Count(front, back)) == Settled(body, last, Count(f, b))
      && Dressed(l, sp, f, body, b) && last.s == Worn(f, body, b) && (last.negative ==> last.signed)
      && if last == st.(s := Trim(st.s)) then f == [] && b == [] else |f| + |b| < |front| + |back|
  }

  lemma Round(l: Locale, sp: Spellings, front: seq<Layer>, body: string, back: seq<Layer>, st: Stripped)
    returns (f: seq<Layer>, b: seq<Layer>)
    requires Dressed(l, sp, front, body, back)
    requires st.s == Worn(front, body, back) && (st.negative ==> st.signed)
    ensures Leaves(l, sp, front, body, back, st, f, b, StripRound(l, sp, st))
  {
    f, b := Inward(front), InwardBack(back);
    TrimWorn(front, body, back);
    DressedInward(l, sp, front, body, back);
    CountInward(front, back);
    var trimmed := st.(s := Trim(st.s));
    assert Settled(body, st, Count(front, back)) == Settled(body, trimmed, Count(f, b));
    var f1, b1, next := AfterSign(l, sp, f, body, b, trimmed);
    if StripSign(trimmed).Done? {
      var f2, b2, last := AfterName(l, sp, f1, body, b1, next);
      if StripSpelling(l, sp, next).Done? && last == trimmed {
        assert !SignFirst(f) && !SignLast(b) && f1 == f && b1 == b;
        assert Top(f1).None? && Bottom(b1).None?;
        NothingWorn(f, b);
      }
      f, b := f2, b2;
    }
  }

  /** Whatever layers are worn at either end, in whatever order: they come off
      to the last, the amount is negative exactly when a minus was among
      them, and a second sign or a second spelling is refused. */
  lemma {:induction false} Undressed(l: Locale, sp: Spellings, front: seq<Layer>, body: string, back: seq<Layer>, st: Stripped)
    requires Dressed(l, sp, front, body, back)
    requires st.s == Worn(front, body, back) && (st.negative ==> st.signed)
    ensures StripAll(l, sp, st) == Settled(body, st, Count(front, back))
    decreases |front| + |back|
  {
    var f, b := Round(l, sp, front, body, back, st);
    var r := StripRound(l, sp, st);
    if r.Done? {
      if r.value == st.(s := Trim(st.s)) {
        SettleNothing(body, r.value);
      } else {
        Undressed(l, sp, f, body, b, r.value);
      }
    }
  }
}
