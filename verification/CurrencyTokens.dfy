/** Exactly what a convention and a grouping read (tokenize and reading in
    currency/normalize.go): which runes are tokens, where marks may stand, and
    the digits a reading takes. */
module CurrencyTokens {
  import opened Digits
  import opened Text
  import opened CurrencyLocale
  import opened CurrencyReadings
  import P = CurrencyParse

  // ---------- Tokens are the text ----------

  /** The text with every digit in ASCII. */
  function Plainly(l: Locale, s: string): string {
    if s == "" then ""
    else
      var c := s[|s| - 1];
      Plainly(l, s[..|s| - 1]) + [if c in l.digitValue then P.DigitIn(l, c) else c]
  }

  function TokText(t: Tok): string {
    match t
    case Run(digits) => digits
    case Sep(mark) => [mark]
  }

  function ToksText(toks: seq<Tok>): string {
    if toks == [] then "" else ToksText(toks[..|toks| - 1]) + TokText(toks[|toks| - 1])
  }

  predicate RunsApart(toks: seq<Tok>) {
    forall i, j | 0 <= i < |toks| - 1 && j == i + 1 :: toks[i].Sep? || toks[j].Sep?
  }

  /** Runs are non-empty digits, no two side by side, and marks are marks. */
  predicate Tokens(l: Locale, toks: seq<Tok>) {
    && GoodToks(toks) && RunsApart(toks)
    && forall i | 0 <= i < |toks| && toks[i].Sep? :: IsMark(l, toks[i].mark) && toks[i].mark !in l.digitValue
  }

  lemma TextGrows(toks: seq<Tok>, d: char)
    ensures ToksText(AddTok(toks, d)) == ToksText(toks) + [d]
  {
    var n := |toks| - 1;
    if n >= 0 && toks[n].Run? {
      var grown := AddTok(toks, d);
      assert grown[..n] == toks[..n] && grown[n] == Run(toks[n].digits + [d]);
      Associate(ToksText(toks[..n]), toks[n].digits, [d]);
    } else {
      assert (toks + [Run([d])])[..|toks|] == toks;
    }
  }

  lemma TextAppends(toks: seq<Tok>, t: Tok)
    ensures ToksText(toks + [t]) == ToksText(toks) + TokText(t)
  {
    assert (toks + [t])[..|toks|] == toks;
  }

  lemma StillTokens(l: Locale, toks: seq<Tok>, d: char)
    requires Tokens(l, toks) && IsDigit(d)
    ensures Tokens(l, AddTok(toks, d))
  {
  }

  /** Every text of digits and marks has tokens, and no other text. */
  lemma {:induction false} TokenizesExactlyWhen(l: Locale, s: string)
    ensures Tokenize(l, s).Some? <==> forall i | 0 <= i < |s| :: s[i] in l.digitValue || IsMark(l, s[i])
  {
    if s != "" {
      var front, c := s[..|s| - 1], s[|s| - 1];
      TokenizesExactlyWhen(l, front);
      assert s == front + [c];
    }
  }

  /** One rune more. */
  lemma OneRuneMore(l: Locale, toks: seq<Tok>, c: char)
    requires Tokens(l, toks) && (c in l.digitValue || IsMark(l, c))
    ensures c in l.digitValue ==>
              Tokens(l, AddTok(toks, P.DigitIn(l, c))) && ToksText(AddTok(toks, P.DigitIn(l, c))) == ToksText(toks) + [P.DigitIn(l, c)]
    ensures c !in l.digitValue ==> Tokens(l, toks + [Sep(c)]) && ToksText(toks + [Sep(c)]) == ToksText(toks) + [c]
  {
    if c in l.digitValue {
      TextGrows(toks, P.DigitIn(l, c));
      StillTokens(l, toks, P.DigitIn(l, c));
    } else {
      TextAppends(toks, Sep(c));
    }
  }

  lemma {:induction false} TextOfTokens(l: Locale, s: string)
    requires Tokenize(l, s).Some?
    ensures Tokens(l, Tokenize(l, s).value) && ToksText(Tokenize(l, s).value) == Plainly(l, s)
  {
    if s != "" {
      TextOfTokens(l, s[..|s| - 1]);
      OneRuneMore(l, Tokenize(l, s[..|s| - 1]).value, s[|s| - 1]);
    }
  }

  /** Tokens are the text itself, digit for digit and mark for mark; and every
      text of digits and marks has them, and no other text. */
  lemma TokensAreText(l: Locale, s: string)
    ensures Tokenize(l, s).Some? <==> forall i | 0 <= i < |s| :: s[i] in l.digitValue || IsMark(l, s[i])
    ensures Tokenize(l, s).Some? ==> Tokens(l, Tokenize(l, s).value) && ToksText(Tokenize(l, s).value) == Plainly(l, s)
  {
    TokenizesExactlyWhen(l, s);
    if Tokenize(l, s).Some? {
      TextOfTokens(l, s);
    }
  }

  // ---------- What one try reads ----------

  /** Groups with one mark between each two. */
  function Laid(groups: seq<string>, mark: char): seq<Tok> {
    if groups == [] then []
    else if |groups| == 1 then [Run(groups[0])]
    else Laid(groups[..|groups| - 1], mark) + [Sep(mark), Run(groups[|groups| - 1])]
  }

  /** A decimal mark and the digits behind it, if any. */
  function Tail(point: Option<char>, frac: string): seq<Tok> {
    match point
    case None => []
    case Some(p) => [Sep(p)] + if frac == "" then [] else [Run(frac)]
  }

  /** The digits are grouped as a locale groups them: one group, or a last one
      of the primary size, inner ones of the secondary and a first no longer
      than its size. */
  ghost predicate WellGrouped(groups: seq<string>, primary: nat, secondary: nat) {
    var n := |groups|;
    n >= 2 ==>
      && primary > 0 && |groups[n - 1]| == primary
      && (forall i | 1 <= i < n - 1 :: |groups[i]| == secondary)
      && 1 <= |groups[0]| <= if n == 2 then primary else secondary
  }

  /** The tokens written out as an amount: groups, their mark, and a decimal
      mark with its digits. */
  datatype Layout = Layout(groups: seq<string>, mark: char, point: Option<char>, frac: string)

  ghost predicate LaidOut(toks: seq<Tok>, c: Convention, y: Layout) {
    && toks == Laid(y.groups, y.mark) + Tail(y.point, y.frac)
    && (|y.groups| >= 2 ==> y.mark in c.group && y.mark !in c.decimal)
    && (y.point.Some? ==> y.point.value in c.decimal) && (y.point.None? ==> y.frac == "")
  }

  /** The tokens read so far: a whole layout, or one with a group mark still to
      be followed. */
  ghost predicate SoFar(toks: seq<Tok>, c: Convention, r: Reader, y: Layout) {
    && r.groups == y.groups && r.frac == y.frac && r.sawDecimal == y.point.Some?
    && match r.prev
       case Start => toks == [] && y == Layout([], y.mark, None, "") && r.mark == None
       case InDigits =>
         && LaidOut(toks, c, y) && (|y.groups| >= 2 ==> r.mark == Some(y.mark)) && (|y.groups| < 2 ==> r.mark == None)
         && toks != [] && toks[|toks| - 1].Run?
       case AfterDecimal =>
         && LaidOut(toks, c, y) && (|y.groups| >= 2 ==> r.mark == Some(y.mark)) && (|y.groups| < 2 ==> r.mark == None)
         && y.point.Some? && y.frac == "" && toks != [] && toks[|toks| - 1].Sep?
       case AfterGroup =>
         && y.groups != [] && y.point == None && y.frac == "" && r.mark == Some(y.mark)
         && y.mark in c.group && y.mark !in c.decimal
         && toks == Laid(y.groups, y.mark) + [Sep(y.mark)]
  }

  // ---------- Reading is laying out ----------

  lemma LaidMore(groups: seq<string>, mark: char, d: string)
    requires groups != []
    ensures Laid(groups + [d], mark) == Laid(groups, mark) + [Sep(mark), Run(d)]
  {
    assert (groups + [d])[..|groups|] == groups;
  }

  lemma LaidEnds(groups: seq<string>, mark: char)
    requires groups != []
    ensures var toks := Laid(groups, mark); toks != [] && toks[|toks| - 1] == Run(groups[|groups| - 1])
  {
  }

  lemma OneGroupAnyMark(groups: seq<string>, m: char, n: char)
    requires |groups| < 2
    ensures Laid(groups, m) == Laid(groups, n)
  {
  }

  lemma RunRead(front: seq<Tok>, d: string, c: Convention, r: Reader, y: Layout) returns (z: Layout)
    requires SoFar(front, c, r, y) && d != "" && (front != [] ==> front[|front| - 1].Sep?)
    ensures ReadTok(r, Run(d), c).Some? && SoFar(front + [Run(d)], c, ReadTok(r, Run(d), c).value, z)
  {
    if r.sawDecimal {
      z := y.(frac := d);
      assert Tail(y.point, "") + [Run(d)] == Tail(y.point, d);
      assert front + [Run(d)] == Laid(y.groups, y.mark) + Tail(y.point, d);
    } else if r.prev.Start? {
      z := Layout([d], y.mark, None, "");
      assert y.groups + [d] == [d];
      assert front + [Run(d)] == Laid([d], y.mark) + Tail(None, "");
    } else {
      z := y.(groups := y.groups + [d]);
      LaidMore(y.groups, y.mark, d);
      assert front + [Run(d)] == Laid(z.groups, z.mark) + Tail(None, "");
    }
  }

  lemma SepRead(front: seq<Tok>, m: char, c: Convention, r: Reader, y: Layout) returns (z: Layout)
    requires SoFar(front, c, r, y) && ReadTok(r, Sep(m), c).Some?
    ensures SoFar(front + [Sep(m)], c, ReadTok(r, Sep(m), c).value, z)
  {
    if m in c.decimal {
      z := y.(point := Some(m));
      assert front + [Sep(m)] == Laid(y.groups, y.mark) + Tail(Some(m), "");
    } else {
      z := y.(mark := m);
      if |y.groups| < 2 {
        OneGroupAnyMark(y.groups, y.mark, m);
      }
      assert Laid(y.groups, y.mark) + Tail(None, "") == Laid(y.groups, y.mark);
      assert y.groups != [];
    }
  }

  lemma ApartFront(toks: seq<Tok>)
    requires toks != [] && RunsApart(toks) && GoodToks(toks)
    ensures var n := |toks| - 1;
            && RunsApart(toks[..n]) && GoodToks(toks[..n]) && toks == toks[..n] + [toks[n]]
            && (toks[n].Run? && toks[..n] != [] ==> toks[..n][n - 1].Sep?)
  {
    var n := |toks| - 1;
    if n > 0 {
      assert toks[n - 1].Sep? || toks[n].Sep?;
    }
  }

  lemma {:induction false} ReadIsLaid(toks: seq<Tok>, c: Convention) returns (y: Layout)
    requires GoodToks(toks) && RunsApart(toks) && ReadToks(toks, c).Some?
    ensures SoFar(toks, c, ReadToks(toks, c).value, y)
  {
    if toks == [] {
      y := Layout([], ' ', None, "");
    } else {
      var front, t := toks[..|toks| - 1], toks[|toks| - 1];
      ApartFront(toks);
      var before := ReadIsLaid(front, c);
      var r := ReadToks(front, c).value;
      match t
      case Run(d) => y := RunRead(front, d, c, r, before);
      case Sep(m) => y := SepRead(front, m, c, r, before);
    }
  }

  function GroupReader(groups: seq<string>, mark: char): Reader {
    Reader(groups, if |groups| >= 2 then Some(mark) else None, InDigits, false, "")
  }

  lemma ReadOneMore(toks: seq<Tok>, t: Tok, c: Convention)
    requires GoodToks(toks + [t]) && GoodToks(toks)
    ensures ReadToks(toks + [t], c) == match ReadToks(toks, c) case None => None case Some(r) => ReadTok(r, t, c)
  {
    assert (toks + [t])[..|toks|] == toks;
  }

  predicate GoodGroups(groups: seq<string>) {
    forall i | 0 <= i < |groups| :: groups[i] != "" && AllDigits(groups[i])
  }

  lemma GroupAdded(laid: seq<Tok>, front: seq<string>, mark: char, d: string, c: Convention)
    requires GoodToks(laid) && ReadToks(laid, c) == Some(GroupReader(front, mark)) && front != []
    requires d != "" && AllDigits(d) && mark in c.group && mark !in c.decimal
    ensures var all := (laid + [Sep(mark)]) + [Run(d)];
            GoodToks(all) && ReadToks(all, c) == Some(GroupReader(front + [d], mark))
  {
    ReadOneMore(laid, Sep(mark), c);
    ReadOneMore(laid + [Sep(mark)], Run(d), c);
  }

  lemma OneGroupRead(d: string, mark: char, c: Convention)
    requires d != "" && AllDigits(d)
    ensures GoodToks([Run(d)]) && ReadToks([Run(d)], c) == Some(GroupReader([d], mark))
  {
    assert ReadToks([], c) == Some(Reader([], None, Start, false, ""));
    assert [] + [Run(d)] == [Run(d)] && [] + [d] == [d];
    ReadOneMore([], Run(d), c);
  }

  ghost predicate LaidReads(groups: seq<string>, mark: char, c: Convention) {
    GoodToks(Laid(groups, mark)) && ReadToks(Laid(groups, mark), c) == Some(GroupReader(groups, mark))
  }

  lemma LaidReadsMore(front: seq<string>, d: string, mark: char, c: Convention)
    requires front != [] && LaidReads(front, mark, c)
    requires d != "" && AllDigits(d) && mark in c.group && mark !in c.decimal
    ensures LaidReads(front + [d], mark, c)
  {
    var laid := Laid(front, mark);
    GroupAdded(laid, front, mark, d, c);
    LaidMore(front, mark, d);
    assert (laid + [Sep(mark)]) + [Run(d)] == laid + [Sep(mark), Run(d)];
  }

  lemma {:induction false} LaidIsRead(groups: seq<string>, mark: char, c: Convention)
    requires groups != [] && GoodGroups(groups) && (|groups| >= 2 ==> mark in c.group && mark !in c.decimal)
    ensures LaidReads(groups, mark, c)
  {
    var n := |groups| - 1;
    if n == 0 {
      OneGroupRead(groups[0], mark, c);
      assert [groups[0]] == groups;
    } else {
      LaidIsRead(groups[..n], mark, c);
      LaidReadsMore(groups[..n], groups[n], mark, c);
      assert groups[..n] + [groups[n]] == groups;
    }
  }

  lemma TailIsRead(toks: seq<Tok>, c: Convention, r: Reader, p: char, frac: string)
    requires GoodToks(toks) && ReadToks(toks, c) == Some(r) && !r.sawDecimal && r.prev != AfterGroup && r.frac == ""
    requires p in c.decimal && AllDigits(frac)
    ensures var all := toks + Tail(Some(p), frac);
            && GoodToks(all)
            && ReadToks(all, c) == Some(r.(sawDecimal := true, frac := frac, prev := if frac == "" then AfterDecimal else InDigits))
  {
    ReadOneMore(toks, Sep(p), c);
    if frac == "" {
      assert Tail(Some(p), frac) == [Sep(p)];
    } else {
      assert (toks + [Sep(p)]) + [Run(frac)] == toks + Tail(Some(p), frac);
      ReadOneMore(toks + [Sep(p)], Run(frac), c);
    }
  }

  lemma GroupsOfGood(y: Layout, toks: seq<Tok>)
    requires GoodToks(toks) && toks == Laid(y.groups, y.mark) + Tail(y.point, y.frac)
    ensures GoodGroups(y.groups) && (y.point.Some? ==> AllDigits(y.frac))
  {
    assert GoodToks(Laid(y.groups, y.mark)) by {
      assert forall i | 0 <= i < |Laid(y.groups, y.mark)| :: toks[i] == Laid(y.groups, y.mark)[i];
    }
    GroupsInLaid(y.groups, y.mark);
    if y.point.Some? && y.frac != "" {
      assert toks[|toks| - 1] == Run(y.frac);
    }
  }

  lemma {:induction false} GroupsInLaid(groups: seq<string>, mark: char)
    requires GoodToks(Laid(groups, mark))
    ensures GoodGroups(groups)
  {
    if groups != [] {
      var n := |groups| - 1;
      LaidEnds(groups, mark);
      if n > 0 {
        var laid := Laid(groups[..n], mark);
        assert forall i | 0 <= i < |laid| :: Laid(groups, mark)[i] == laid[i];
        GroupsInLaid(groups[..n], mark);
      }
      assert forall i | 0 <= i < n :: groups[..n][i] == groups[i];
      var last := Laid(groups, mark);
      assert last[|last| - 1].Run? && last[|last| - 1].digits == groups[n];
    }
  }

  /** What one try makes of the tokens is written by a layout. */
  ghost predicate Reads(toks: seq<Tok>, t: Try, y: Layout, w: string, f: string) {
    && LaidOut(toks, t.convention, y) && WellGrouped(y.groups, t.grouping.0, t.grouping.1)
    && w == Concat(y.groups) && f == y.frac && (w != "" || f != "")
  }

  lemma GroupedAlike(groups: seq<string>, primary: nat, secondary: nat)
    ensures groups != [] ==> (WellGrouped(groups, primary, secondary) <==> |groups| == 1 || ValidGroups(groups, primary, secondary))
  {
  }

  lemma ReadIsWritten(toks: seq<Tok>, t: Try, w: string, f: string) returns (y: Layout)
    requires GoodToks(toks) && RunsApart(toks) && ReadUnder(toks, t) == Some((w, f))
    ensures Reads(toks, t, y, w, f)
  {
    y := ReadIsLaid(toks, t.convention);
    GroupedAlike(y.groups, t.grouping.0, t.grouping.1);
  }

  lemma NothingLaid(c: Convention, y: Layout)
    requires LaidOut([], c, y)
    ensures y.groups == [] && y.frac == ""
  {
    if y.groups != [] {
      LaidEnds(y.groups, y.mark);
    }
  }

  /** What is read of a layout. */
  predicate ReadAs(r: Reader, y: Layout) {
    r.groups == y.groups && r.frac == y.frac && (r.prev.InDigits? || r.prev.AfterDecimal?)
  }

  lemma PointOnly(toks: seq<Tok>, c: Convention, y: Layout)
    requires GoodToks(toks) && LaidOut(toks, c, y) && y.groups == [] && y.point.Some? && AllDigits(y.frac)
    ensures ReadToks(toks, c).Some? && ReadAs(ReadToks(toks, c).value, y)
  {
    assert ReadToks([], c) == Some(Reader([], None, Start, false, ""));
    TailIsRead([], c, Reader([], None, Start, false, ""), y.point.value, y.frac);
    assert [] + Tail(y.point, y.frac) == toks;
  }

  lemma GroupsFirst(toks: seq<Tok>, c: Convention, y: Layout)
    requires GoodToks(toks) && LaidOut(toks, c, y) && y.groups != [] && GoodGroups(y.groups) && AllDigits(y.frac)
    ensures ReadToks(toks, c).Some? && ReadAs(ReadToks(toks, c).value, y)
  {
    LaidIsRead(y.groups, y.mark, c);
    if y.point.Some? {
      TailIsRead(Laid(y.groups, y.mark), c, GroupReader(y.groups, y.mark), y.point.value, y.frac);
    } else {
      assert toks == Laid(y.groups, y.mark);
    }
  }

  lemma LayoutIsRead(toks: seq<Tok>, c: Convention, y: Layout)
    requires GoodToks(toks) && LaidOut(toks, c, y) && (y.groups != [] || y.point.Some?)
    ensures ReadToks(toks, c).Some? && ReadAs(ReadToks(toks, c).value, y)
  {
    GroupsOfGood(y, toks);
    if y.groups == [] {
      PointOnly(toks, c, y);
    } else {
      GroupsFirst(toks, c, y);
    }
  }

  lemma WrittenIsRead(toks: seq<Tok>, t: Try, y: Layout, w: string, f: string)
    requires GoodToks(toks) && Reads(toks, t, y, w, f)
    ensures ReadUnder(toks, t) == Some((w, f))
  {
    LayoutIsRead(toks, t.convention, y);
    GroupedAlike(y.groups, t.grouping.0, t.grouping.1);
  }

  /** A try reads tokens exactly as they can be written out: groups of the
      right sizes with one group mark between each two, then at most one
      decimal mark with its digits; and it takes just those digits. */
  lemma ReadsExactlyWhen(toks: seq<Tok>, t: Try, w: string, f: string)
    requires GoodToks(toks) && RunsApart(toks)
    ensures ReadUnder(toks, t) == Some((w, f)) <==> exists y :: Reads(toks, t, y, w, f)
  {
    if ReadUnder(toks, t) == Some((w, f)) {
      var y := ReadIsWritten(toks, t, w, f);
    }
    if y :| Reads(toks, t, y, w, f) {
      WrittenIsRead(toks, t, y, w, f);
    }
  }

  // ---------- Which tries there are ----------

  /** The page's own convention takes for decimal marks just what the strict
      parser does, and Arabic's, and groups by the locale's mark, spaces and
      apostrophes. */
  lemma LocalIsStrict(l: Locale, c: char)
    ensures c in Local(l).decimal <==> P.IsDecimal(l, c) || (c == '\U{066B}' && c != P.Mark(l))
    ensures c in Local(l).group <==> c == P.Mark(l) || c in {' ', '\'', '\U{2019}', '\U{066C}'}
  {
  }

  lemma TryThere(l: Locale, i: nat, j: nat)
    requires i < 3 && j < |Groupings(l)|
    ensures Try(Conventions(l)[i], Groupings(l)[j]) in Tries(l)
  {
    var cs, gs := Conventions(l), Groupings(l);
    var a, b, c := Under(cs[0], gs), Under(cs[1], gs), Under(cs[2], gs);
    var t := Try(cs[i], gs[j]);
    assert a[j] == Try(cs[0], gs[j]) && b[j] == Try(cs[1], gs[j]) && c[j] == Try(cs[2], gs[j]);
    assert t in a || t in b || t in c;
    assert t in a + b + c;
  }

  lemma ThreesThere(l: Locale) returns (j: nat)
    ensures j < |Groupings(l)| && Groupings(l)[j] == (3, 3)
  {
    var own := [(l.primary, l.secondary)];
    if (3, 3) in own {
      j := 0;
    } else {
      j := 1;
      assert (own + [(3, 3)])[1] == (3, 3);
    }
  }

  function OneMark(a: string, m: char, b: string): seq<Tok> {
    [Run(a), Sep(m), Run(b)]
  }

  lemma OneMarkReads(a: string, m: char, b: string, t: Try)
    requires a != "" && b != "" && AllDigits(a) && AllDigits(b)
    ensures m in t.convention.decimal ==> ReadUnder(OneMark(a, m, b), t) == Some((a, b))
    ensures m in t.convention.group && m !in t.convention.decimal && t.grouping.0 == |b| && 1 <= |a| <= t.grouping.0 ==>
              ReadUnder(OneMark(a, m, b), t) == Some((a + b, ""))
  {
    assert Concat([a]) == a by {
      assert [a][1..] == [] && a + "" == a;
    }
    assert Concat([a, b]) == a + b by {
      assert [a, b][1..] == [b] && [b][1..] == [] && b + "" == b;
    }
    if m in t.convention.decimal {
      assert Laid([a], m) + Tail(Some(m), b) == OneMark(a, m, b);
      WrittenIsRead(OneMark(a, m, b), t, Layout([a], m, Some(m), b), a, b);
    } else if m in t.convention.group && t.grouping.0 == |b| && 1 <= |a| <= t.grouping.0 {
      assert [a, b][..1] == [a];
      assert Laid([a, b], m) + Tail(None, "") == OneMark(a, m, b);
      WrittenIsRead(OneMark(a, m, b), t, Layout([a, b], m, None, ""), a + b, "");
    }
  }

  /** In every locale, digits with a full stop or a comma among them can be
      read as a decimal; and with three digits behind it and up to three before,
      as a thousand, too. So no such text is ever taken one way unseen. */
  lemma LoneMarkIsSeen(l: Locale, a: string, m: char, b: string)
    requires a != "" && b != "" && AllDigits(a) && AllDigits(b) && (m == '.' || m == ',')
    ensures exists t :: t in Tries(l) && ReadUnder(OneMark(a, m, b), t) == Some((a, b))
    ensures |b| == 3 && |a| <= 3 ==> exists t :: t in Tries(l) && ReadUnder(OneMark(a, m, b), t) == Some((a + b, ""))
  {
    var j := ThreesThere(l);
    var decimal, group := if m == '.' then 1 else 2, if m == '.' then 2 else 1;
    var t, u := Try(Conventions(l)[decimal], (3, 3)), Try(Conventions(l)[group], (3, 3));
    TryThere(l, decimal, j);
    TryThere(l, group, j);
    OneMarkReads(a, m, b, t);
    OneMarkReads(a, m, b, u);
    assert t in Tries(l) && u in Tries(l);
  }

  lemma TokenizeApart(l: Locale, s: string)
    requires Tokenize(l, s).Some?
    ensures RunsApart(Tokenize(l, s).value)
  {
    TokensAreText(l, s);
  }
}
