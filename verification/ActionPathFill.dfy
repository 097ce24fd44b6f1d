/** For, and why what it writes can be read again: the refusals leave only
    values whose escaped text the scan of the URL gives back. */
module ActionPathFill {
  import opened ByteText
  import opened Digits
  import opened ActionPath

  // ---------- Percent-encoding ----------

  predicate IsLetterOrDigit(b: Byte) {
    0x41 <= b <= 0x5A || 0x61 <= b <= 0x7A || 0x30 <= b <= 0x39
  }

  /** The bytes url.PathEscape leaves alone: letters, digits, - _ . ~ and
      $ & + : = @. */
  predicate Plain(b: Byte) {
    IsLetterOrDigit(b) || b in {0x2D, 0x5F, 0x2E, 0x7E, 0x24, 0x26, 0x2B, 0x3A, 0x3D, 0x40}
  }

  function HexDigit(n: nat): Byte
    requires n < 16
  {
    if n < 10 then 0x30 + n else 0x41 + (n - 10)
  }

  function HexValue(b: Byte): (n: Option<nat>)
    ensures n.Some? ==> n.value < 16
  {
    if 0x30 <= b <= 0x39 then Some(b - 0x30)
    else if 0x41 <= b <= 0x46 then Some(b - 0x41 + 10)
    else if 0x61 <= b <= 0x66 then Some(b - 0x61 + 10)
    else None
  }

  function EscapeByte(b: Byte): Bytes {
    if Plain(b) then [b] else [PERCENT, HexDigit(b / 16), HexDigit(b % 16)]
  }

  /** url.PathEscape. */
  function PathEscape(s: Bytes): Bytes {
    if s == [] then [] else EscapeByte(s[0]) + PathEscape(s[1..])
  }

  /** url.PathUnescape. */
  function PathUnescape(s: Bytes): Option<Bytes> {
    if s == [] then Some([])
    else if s[0] != PERCENT then
      match PathUnescape(s[1..])
      case None => None
      case Some(rest) => Some([s[0]] + rest)
    else if |s| < 3 || HexValue(s[1]).None? || HexValue(s[2]).None? then None
    else
      match PathUnescape(s[3..])
      case None => None
      case Some(rest) => Some([HexValue(s[1]).value * 16 + HexValue(s[2]).value] + rest)
  }

  lemma HexRoundTrip(n: nat)
    requires n < 16
    ensures HexValue(HexDigit(n)) == Some(n)
  {
  }

  /** Unescaping undoes escaping, for every string of bytes. */
  lemma {:induction false} UnescapeEscape(s: Bytes)
    ensures PathUnescape(PathEscape(s)) == Some(s)
  {
    if s != [] {
      var b, rest := s[0], PathEscape(s[1..]);
      UnescapeEscape(s[1..]);
      assert s == [b] + s[1..];
      if Plain(b) {
        assert ([b] + rest)[1..] == rest;
      } else {
        HexRoundTrip(b / 16);
        HexRoundTrip(b % 16);
        assert EscapeByte(b) + rest == [PERCENT, HexDigit(b / 16), HexDigit(b % 16)] + rest;
        assert ([PERCENT, HexDigit(b / 16), HexDigit(b % 16)] + rest)[3..] == rest;
      }
    }
  }

  /** No slash survives escaping. */
  lemma {:induction false} EscapeHasNoSlash(s: Bytes)
    ensures SLASH !in PathEscape(s)
  {
    if s != [] {
      EscapeHasNoSlash(s[1..]);
      assert SLASH !in EscapeByte(s[0]);
    }
  }

  const HEX_UPPER: string := "0123456789ABCDEF"
  const HEX_LOWER: string := "0123456789abcdef"

  /** A byte is left alone exactly when it is an ASCII letter or digit or one
      of ten marks, and written as its two hexadecimal digits otherwise. */
  lemma EscapesExactly(b: Byte)
    ensures var c := b as char;
            Plain(b) <==> 'A' <= c <= 'Z' || 'a' <= c <= 'z' || '0' <= c <= '9' || c in "-_.~$&+:=@"
    ensures EscapeByte(b) == if Plain(b) then [b]
                             else [0x25, HEX_UPPER[b / 16] as int, HEX_UPPER[b % 16] as int]
  {
    var marks, c := "-_.~$&+:=@", b as char;
    assert marks[0] == '-' && marks[1] == '_' && marks[2] == '.' && marks[3] == '~' && marks[4] == '$';
    assert marks[5] == '&' && marks[6] == '+' && marks[7] == ':' && marks[8] == '=' && marks[9] == '@';
  }

  /** Hexadecimal digits are read in either case, and nothing else is. */
  lemma HexExactly(b: Byte, n: nat)
    requires n < 16
    ensures HexValue(b) == Some(n) <==> b == HEX_UPPER[n] as int || b == HEX_LOWER[n] as int
  {
  }

  // ---------- For ----------

  /** A parameter's name and pattern: its inside cut at the first colon. */
  function NameAndPattern(p: Piece): (Bytes, Bytes)
    requires |p.text| >= 2
  {
    var inside := p.text[1..|p.text| - 1];
    var colon := ByteIndex(inside, COLON);
    (inside[..colon], if colon < |inside| then inside[colon + 1..] else [])
  }

  lemma CutAt(s: Bytes, n: nat)
    requires n <= |s|
    ensures if n < |s| then s == s[..n] + ([s[n]] + s[n + 1..]) else s[..n] == s
  {
    if n < |s| {
      assert s[n..] == [s[n]] + s[n + 1..];
      assert s == s[..n] + s[n..];
    }
  }

  lemma SplitAtColon(s: Bytes)
    ensures var n := ByteIndex(s, COLON);
            && COLON !in s[..n]
            && (if COLON in s then n < |s| && s == s[..n] + ([COLON] + s[n + 1..]) else n == |s| && s[..n] == s)
  {
    var n := ByteIndex(s, COLON);
    CutAt(s, n);
  }

  /** The name is what stands before the first colon, and the pattern what
      stands behind it. */
  lemma PatternIsBehindColon(p: Piece)
    requires |p.text| >= 2
    ensures var (name, pattern) := NameAndPattern(p);
            var inside := p.text[1..|p.text| - 1];
            && COLON !in name
            && (if COLON in inside then inside == name + ([COLON] + pattern) else inside == name && pattern == [])
  {
    SplitAtColon(p.text[1..|p.text| - 1]);
  }

  /** ending: the byte a parameter's value stops at, unless that is a slash,
      another parameter or the end. */
  function Ending(next: seq<Piece>): Option<Byte> {
    if next == [] || next[0].parameter || next[0].text == [] || next[0].text[0] == SLASH then None
    else Some(next[0].text[0])
  }

  /** What escape writes for a value, or None for a panic. refused says which
      values a compiled pattern does not match. */
  function Fill(p: Piece, end: Option<Byte>, text: Bytes, refused: (Bytes, Bytes) -> bool): Option<Bytes>
    requires |p.text| >= 2
  {
    var pattern := NameAndPattern(p).1;
    if text == [] || text == [DOT] || text == [DOT, DOT] then None
    else if end.Some? && (end.value in text || end.value in PathEscape(text)) then None
    else if pattern != [] && (refused(pattern, text) || PathEscape(text) != text) then None
    else Some(PathEscape(text))
  }

  predicate AllGood(pieces: seq<Piece>) {
    forall p | p in pieces :: GoodPiece(p)
  }

  /** The loop of For over the pieces and the values left. */
  function FillAll(pieces: seq<Piece>, values: seq<Bytes>, refused: (Bytes, Bytes) -> bool): Option<Bytes>
    requires AllGood(pieces)
  {
    if pieces == [] then (if values == [] then Some([]) else None)
    else
      var p, rest := pieces[0], pieces[1..];
      assert p in pieces;
      if p.parameter then
        if values == [] then None
        else
          var first := Fill(p, Ending(rest), values[0], refused);
          var more := FillAll(rest, values[1..], refused);
          if first.None? || more.None? then None else Some(first.value + more.value)
      else
        var more := FillAll(rest, values, refused);
        if more.None? then None else Some(p.text + more.value)
  }

  /** A * at the end, outside any parameter. */
  predicate CatchAll(pieces: seq<Piece>) {
    pieces != [] && !pieces[|pieces| - 1].parameter && EndsWith(pieces[|pieces| - 1].text, [STAR])
  }

  /** Path.For; None is a panic. */
  function For(path: Bytes, values: seq<Bytes>, refused: (Bytes, Bytes) -> bool): Option<Bytes> {
    match Pieces(path)
    case None => None
    case Some(pieces) =>
      PiecesAreThePath(path);
      if CatchAll(pieces) then None else FillAll(pieces, values, refused)
  }

  function Parameters(pieces: seq<Piece>): nat {
    if pieces == [] then 0 else (if pieces[0].parameter then 1 else 0) + Parameters(pieces[1..])
  }

  /** For as it runs: the count checked first, then one value a parameter. */
  method FillPath(path: Bytes, values: seq<Bytes>, refused: (Bytes, Bytes) -> bool) returns (r: Option<Bytes>)
    ensures r == For(path, values, refused)
  {
    var cut := ReadPieces(path);
    if cut.None? {
      return None;
    }
    var pieces := cut.value;
    PiecesAreThePath(path);
    if CatchAll(pieces) {
      return None;
    }
    if Parameters(pieces) != |values| {
      WrongCount(pieces, values, refused);
      return None;
    }
    var filled, next: nat := [], 0;
    BehindNothing(FillAll(pieces, values, refused));
    assert pieces[0..] == pieces && values[0..] == values;
    for position := 0 to |pieces|
      invariant next <= |values| && Parameters(pieces[position..]) == |values| - next
      invariant For(path, values, refused) == Behind(filled, FillAll(pieces[position..], values[next..], refused))
    {
      var piece, rest := pieces[position], pieces[position + 1..];
      assert pieces[position..][0] == piece && pieces[position..][1..] == rest;
      assert piece in pieces;
      if !piece.parameter {
        LiteralStep(pieces, position, values[next..], refused);
        BehindTwice(filled, piece.text, FillAll(rest, values[next..], refused));
        filled := filled + piece.text;
      } else {
        ParameterStep(pieces, position, values, next, refused);
        var one := Fill(piece, Ending(rest), values[next], refused);
        if one.None? {
          return None;
        }
        BehindTwice(filled, one.value, FillAll(rest, values[next + 1..], refused));
        filled, next := filled + one.value, next + 1;
      }
    }
    assert pieces[|pieces|..] == [] && values[next..] == [] && filled + [] == filled;
    r := Some(filled);
  }

  lemma LiteralStep(pieces: seq<Piece>, n: nat, values: seq<Bytes>, refused: (Bytes, Bytes) -> bool)
    requires AllGood(pieces) && n < |pieces| && !pieces[n].parameter
    ensures FillAll(pieces[n..], values, refused) == Behind(pieces[n].text, FillAll(pieces[n + 1..], values, refused))
  {
    assert pieces[n..][0] == pieces[n] && pieces[n..][1..] == pieces[n + 1..];
  }

  lemma ParameterStep(pieces: seq<Piece>, n: nat, values: seq<Bytes>, next: nat, refused: (Bytes, Bytes) -> bool)
    requires AllGood(pieces) && n < |pieces| && pieces[n].parameter && next < |values| && |pieces[n].text| >= 2
    ensures var one := Fill(pieces[n], Ending(pieces[n + 1..]), values[next], refused);
            FillAll(pieces[n..], values[next..], refused)
            == if one.None? then None else Behind(one.value, FillAll(pieces[n + 1..], values[next + 1..], refused))
  {
    assert pieces[n..][0] == pieces[n] && pieces[n..][1..] == pieces[n + 1..];
    assert values[next..][0] == values[next] && values[next..][1..] == values[next + 1..];
  }

  function Behind(filled: Bytes, more: Option<Bytes>): Option<Bytes> {
    if more.Some? then Some(filled + more.value) else None
  }

  lemma BehindNothing(more: Option<Bytes>)
    ensures Behind([], more) == more
  {
    if more.Some? {
      assert [] + more.value == more.value;
    }
  }

  lemma BehindTwice(a: Bytes, b: Bytes, more: Option<Bytes>)
    ensures Behind(a, Behind(b, more)) == Behind(a + b, more)
  {
    if more.Some? {
      assert a + (b + more.value) == (a + b) + more.value;
    }
  }

  lemma {:induction false} WrongCount(pieces: seq<Piece>, values: seq<Bytes>, refused: (Bytes, Bytes) -> bool)
    requires AllGood(pieces) && Parameters(pieces) != |values|
    ensures FillAll(pieces, values, refused).None?
  {
    if pieces != [] {
      if !pieces[0].parameter {
        WrongCount(pieces[1..], values, refused);
      } else if values != [] {
        WrongCount(pieces[1..], values[1..], refused);
      }
    }
  }

  // ---------- Which values it takes ----------

  /** The positions of the parameters, from i on. */
  function Slots(pieces: seq<Piece>, i: nat): (r: seq<nat>)
    requires i <= |pieces|
    ensures forall k | 0 <= k < |r| :: i <= r[k] < |pieces| && pieces[r[k]].parameter
    ensures forall j | i <= j < |pieces| && pieces[j].parameter :: j in r
    decreases |pieces| - i
  {
    if i == |pieces| then [] else (if pieces[i].parameter then [i] else []) + Slots(pieces, i + 1)
  }

  /** A value that may stand at i: not empty, no dot segment, nothing that
      would end it early as given or as escaped, and, under a pattern, matched
      by it and left alone by escaping. */
  predicate Acceptable(pieces: seq<Piece>, i: nat, text: Bytes, refused: (Bytes, Bytes) -> bool)
    requires i < |pieces| && |pieces[i].text| >= 2
  {
    var pattern := NameAndPattern(pieces[i]).1;
    && text !in [[], [DOT], [DOT, DOT]]
    && (i + 1 < |pieces| && !pieces[i + 1].parameter && pieces[i + 1].text != [] && pieces[i + 1].text[0] != SLASH ==>
          pieces[i + 1].text[0] !in text && pieces[i + 1].text[0] !in PathEscape(text))
    && (pattern != [] ==> !refused(pattern, text) && PathEscape(text) == text)
  }

  lemma FillExactlyWhen(pieces: seq<Piece>, i: nat, text: Bytes, refused: (Bytes, Bytes) -> bool)
    requires i < |pieces| && |pieces[i].text| >= 2
    ensures Fill(pieces[i], Ending(pieces[i + 1..]), text, refused).Some? <==> Acceptable(pieces, i, text, refused)
  {
  }

  /** The values fit the slots one for one. */
  ghost predicate AllAcceptable(pieces: seq<Piece>, i: nat, values: seq<Bytes>, refused: (Bytes, Bytes) -> bool)
    requires AllGood(pieces) && i <= |pieces|
  {
    && |values| == |Slots(pieces, i)|
    && forall k | 0 <= k < |values| ::
         |pieces[Slots(pieces, i)[k]].text| >= 2 && Acceptable(pieces, Slots(pieces, i)[k], values[k], refused)
  }

  lemma OneAhead(x: nat, rest: seq<nat>)
    ensures var all := [x] + rest; |all| == |rest| + 1 && all[0] == x && forall k | 0 <= k < |rest| :: all[k + 1] == rest[k]
  {
  }

  lemma SlotsFrom(pieces: seq<Piece>, i: nat)
    requires i < |pieces| && pieces[i].parameter
    ensures Slots(pieces, i) == [i] + Slots(pieces, i + 1)
  {
  }

  lemma SlotsAfter(pieces: seq<Piece>, i: nat, values: seq<Bytes>, refused: (Bytes, Bytes) -> bool)
    requires AllGood(pieces) && i < |pieces| && pieces[i].parameter && values != []
    requires AllAcceptable(pieces, i, values, refused)
    ensures |pieces[i].text| >= 2 && Acceptable(pieces, i, values[0], refused) && AllAcceptable(pieces, i + 1, values[1..], refused)
  {
    SlotsFrom(pieces, i);
    var all, rest := Slots(pieces, i), Slots(pieces, i + 1);
    OneAhead(i, rest);
    assert |pieces[all[0]].text| >= 2 && Acceptable(pieces, all[0], values[0], refused);
    forall k | 0 <= k < |values[1..]|
      ensures |pieces[rest[k]].text| >= 2 && Acceptable(pieces, rest[k], values[1..][k], refused)
    {
      assert rest[k] == all[k + 1] && values[1..][k] == values[k + 1];
    }
  }

  lemma SlotsBefore(pieces: seq<Piece>, i: nat, values: seq<Bytes>, refused: (Bytes, Bytes) -> bool)
    requires AllGood(pieces) && i < |pieces| && pieces[i].parameter && |pieces[i].text| >= 2 && values != []
    requires Acceptable(pieces, i, values[0], refused) && AllAcceptable(pieces, i + 1, values[1..], refused)
    ensures AllAcceptable(pieces, i, values, refused)
  {
    SlotsFrom(pieces, i);
    var all, rest := Slots(pieces, i), Slots(pieces, i + 1);
    OneAhead(i, rest);
    forall k | 0 <= k < |values|
      ensures |pieces[all[k]].text| >= 2 && Acceptable(pieces, all[k], values[k], refused)
    {
      if k > 0 {
        assert all[k] == rest[k - 1] && values[k] == values[1..][k - 1];
      }
    }
  }

  lemma FirstSlot(pieces: seq<Piece>, i: nat, values: seq<Bytes>, refused: (Bytes, Bytes) -> bool)
    requires AllGood(pieces) && i < |pieces| && pieces[i].parameter && |pieces[i].text| >= 2 && values != []
    ensures AllAcceptable(pieces, i, values, refused) <==>
              Acceptable(pieces, i, values[0], refused) && AllAcceptable(pieces, i + 1, values[1..], refused)
  {
    if Acceptable(pieces, i, values[0], refused) && AllAcceptable(pieces, i + 1, values[1..], refused) {
      SlotsBefore(pieces, i, values, refused);
    }
    if AllAcceptable(pieces, i, values, refused) {
      SlotsAfter(pieces, i, values, refused);
    }
  }

  lemma SameSlots(pieces: seq<Piece>, i: nat, values: seq<Bytes>, refused: (Bytes, Bytes) -> bool)
    requires AllGood(pieces) && i < |pieces| && !pieces[i].parameter
    ensures AllAcceptable(pieces, i, values, refused) <==> AllAcceptable(pieces, i + 1, values, refused)
  {
    assert Slots(pieces, i) == Slots(pieces, i + 1);
  }

  lemma NoValueLeft(pieces: seq<Piece>, i: nat, refused: (Bytes, Bytes) -> bool)
    requires AllGood(pieces) && i < |pieces| && pieces[i].parameter && AllGood(pieces[i..])
    ensures FillAll(pieces[i..], [], refused).None? && !AllAcceptable(pieces, i, [], refused)
  {
    assert pieces[i..][0] == pieces[i];
  }

  lemma {:induction false} FilledExactlyWhen(pieces: seq<Piece>, i: nat, values: seq<Bytes>, refused: (Bytes, Bytes) -> bool)
    requires AllGood(pieces) && i <= |pieces|
    ensures AllGood(pieces[i..])
    ensures FillAll(pieces[i..], values, refused).Some? <==> AllAcceptable(pieces, i, values, refused)
    decreases |pieces| - i
  {
    assert forall p | p in pieces[i..] :: p in pieces;
    if i == |pieces| {
      assert pieces[i..] == [];
    } else if pieces[i].parameter && values != [] {
      assert pieces[i] in pieces;
      FilledExactlyWhen(pieces, i + 1, values[1..], refused);
      FillExactlyWhen(pieces, i, values[0], refused);
      FirstSlot(pieces, i, values, refused);
      assert values[0..] == values;
      ParameterStep(pieces, i, values, 0, refused);
    } else if !pieces[i].parameter {
      FilledExactlyWhen(pieces, i + 1, values, refused);
      SameSlots(pieces, i, values, refused);
      LiteralStep(pieces, i, values, refused);
    } else {
      NoValueLeft(pieces, i, refused);
    }
  }

  /** For takes the values exactly when the path is well formed and ends in no
      catch-all, there is one value for each parameter, and each may stand
      where it goes. */
  lemma ForExactlyWhen(path: Bytes, values: seq<Bytes>, refused: (Bytes, Bytes) -> bool)
    requires Pieces(path).Some?
    ensures AllGood(Pieces(path).value)
    ensures For(path, values, refused).Some? <==>
              !CatchAll(Pieces(path).value) && AllAcceptable(Pieces(path).value, 0, values, refused)
  {
    var pieces := Pieces(path).value;
    PiecesAreThePath(path);
    FilledExactlyWhen(pieces, 0, values, refused);
    assert pieces[0..] == pieces;
  }

  // ---------- Reading it again ----------

  /** The byte a parameter's value stops at, as the router scans. */
  function Tail(next: seq<Piece>): Byte {
    if Ending(next).Some? then Ending(next).value else SLASH
  }

  /** The router's reading: literal text as it stands, each value up to its
      tail, unescaped. */
  function Scan(pieces: seq<Piece>, url: Bytes): Option<seq<Bytes>> {
    if pieces == [] then (if url == [] then Some([]) else None)
    else
      var p, rest := pieces[0], pieces[1..];
      if !p.parameter then
        if StartsWith(url, p.text) then Scan(rest, url[|p.text|..]) else None
      else
        var end := ByteIndex(url, Tail(rest));
        var value, more := PathUnescape(url[..end]), Scan(rest, url[end..]);
        if value.None? || more.None? then None else Some([value.value] + more.value)
  }

  /** No parameter directly follows another. */
  predicate Apart(pieces: seq<Piece>) {
    forall i, j | 0 <= i < |pieces| - 1 && j == i + 1 :: !(pieces[i].parameter && pieces[j].parameter)
  }

  /** What follows a parameter begins with its tail. */
  lemma FollowedByTail(rest: seq<Piece>, values: seq<Bytes>, refused: (Bytes, Bytes) -> bool)
    requires AllGood(rest) && (rest != [] ==> !rest[0].parameter) && FillAll(rest, values, refused).Some?
    ensures var text := FillAll(rest, values, refused).value;
            if rest == [] then text == [] else text != [] && text[0] == Tail(rest)
  {
    if rest != [] {
      assert rest[0] in rest;
    }
  }

  lemma TailIsFirst(value: Bytes, tail: Byte, more: Bytes)
    requires tail !in value && (more == [] || more[0] == tail)
    ensures ByteIndex(value + more, tail) == |value|
    ensures (value + more)[..|value|] == value && (value + more)[|value|..] == more
  {
    if more != [] {
      IndexIsFirst(value + more, tail, |value|);
    }
  }

  lemma FilledHasNoTail(p: Piece, rest: seq<Piece>, text: Bytes, refused: (Bytes, Bytes) -> bool)
    requires |p.text| >= 2 && Fill(p, Ending(rest), text, refused).Some?
    ensures Fill(p, Ending(rest), text, refused).value == PathEscape(text) && Tail(rest) !in PathEscape(text)
  {
    EscapeHasNoSlash(text);
  }

  lemma LiteralScans(text: Bytes, more: Bytes)
    ensures StartsWith(text + more, text) && (text + more)[|text|..] == more
  {
  }

  /** One value is read back, given that the rest is. */
  lemma ScanParameter(p: Piece, rest: seq<Piece>, value: Bytes, values: seq<Bytes>, more: Bytes)
    requires p.parameter && Scan(rest, more) == Some(values) && Tail(rest) !in PathEscape(value)
    requires more == [] || more[0] == Tail(rest)
    ensures Scan([p] + rest, PathEscape(value) + more) == Some([value] + values)
  {
    TailIsFirst(PathEscape(value), Tail(rest), more);
    UnescapeEscape(value);
    assert ([p] + rest)[1..] == rest;
  }

  lemma ScanLiteral(p: Piece, rest: seq<Piece>, values: seq<Bytes>, more: Bytes)
    requires !p.parameter && Scan(rest, more) == Some(values)
    ensures Scan([p] + rest, p.text + more) == Some(values)
  {
    LiteralScans(p.text, more);
    assert ([p] + rest)[1..] == rest;
  }

  lemma ApartRest(pieces: seq<Piece>)
    requires pieces != [] && Apart(pieces)
    ensures Apart(pieces[1..]) && pieces == [pieces[0]] + pieces[1..]
    ensures pieces[0].parameter && pieces[1..] != [] ==> !pieces[1..][0].parameter
  {
    var rest := pieces[1..];
    forall i, j | 0 <= i < |rest| - 1 && j == i + 1
      ensures !(rest[i].parameter && rest[j].parameter)
    {
      assert !(pieces[i + 1].parameter && pieces[j + 1].parameter);
    }
  }

  lemma {:induction false} ScanUndoesFill(pieces: seq<Piece>, values: seq<Bytes>, refused: (Bytes, Bytes) -> bool)
    requires AllGood(pieces) && Apart(pieces) && FillAll(pieces, values, refused).Some?
    ensures Scan(pieces, FillAll(pieces, values, refused).value) == Some(values)
  {
    if pieces != [] {
      var p, rest := pieces[0], pieces[1..];
      ApartRest(pieces);
      assert p in pieces;
      if p.parameter {
        ScanUndoesFill(rest, values[1..], refused);
        FilledHasNoTail(p, rest, values[0], refused);
        FollowedByTail(rest, values[1..], refused);
        ScanParameter(p, rest, values[0], values[1..], FillAll(rest, values[1..], refused).value);
        assert values == [values[0]] + values[1..];
      } else {
        ScanUndoesFill(rest, values, refused);
        ScanLiteral(p, rest, values, FillAll(rest, values, refused).value);
      }
    }
  }

  /** Filling a path can be undone: where no parameter directly follows
      another, reading For's result gives back exactly the values it was
      given. */
  lemma ForReadsBack(path: Bytes, values: seq<Bytes>, refused: (Bytes, Bytes) -> bool)
    requires For(path, values, refused).Some? && Apart(Pieces(path).value)
    ensures Scan(Pieces(path).value, For(path, values, refused).value) == Some(values)
  {
    PiecesAreThePath(path);
    ScanUndoesFill(Pieces(path).value, values, refused);
  }

  /** So no two lists of values it accepts give one URL. */
  lemma ForIsInjective(path: Bytes, a: seq<Bytes>, b: seq<Bytes>, refused: (Bytes, Bytes) -> bool)
    requires For(path, a, refused).Some? && For(path, a, refused) == For(path, b, refused)
    requires Apart(Pieces(path).value)
    ensures a == b
  {
    ForReadsBack(path, a, refused);
    ForReadsBack(path, b, refused);
  }

  /** A bare parameter: no pattern after its name. */
  predicate Bare(p: Piece) {
    GoodPiece(p) && p.parameter && NameAndPattern(p).1 == []
  }

  /** A value nothing refuses. */
  predicate Free(text: Bytes) {
    text != [] && DOT !in text
  }

  /** Two parameters side by side do give one URL for different values. */
  lemma AdjacentCollide(x: Bytes, y: Bytes, z: Bytes, p: Piece, q: Piece, refused: (Bytes, Bytes) -> bool)
    requires Bare(p) && Bare(q) && Free(x) && Free(y) && Free(z)
    ensures FillAll([p, q], [x + y, z], refused) == FillAll([p, q], [x, y + z], refused)
    ensures FillAll([p, q], [x + y, z], refused).Some? && [x + y, z] != [x, y + z]
  {
    FreeConcat(x, y);
    FreeConcat(y, z);
    TwoFilled(x + y, z, p, q, refused);
    TwoFilled(x, y + z, p, q, refused);
    EscapesMeet(x, y, z);
    assert [x + y, z][0] != [x, y + z][0] by { assert |x + y| != |x|; }
  }

  lemma FreeConcat(x: Bytes, y: Bytes)
    requires Free(x) && Free(y)
    ensures Free(x + y)
  {
  }

  lemma EscapesMeet(x: Bytes, y: Bytes, z: Bytes)
    ensures PathEscape(x + y) + PathEscape(z) == PathEscape(x) + PathEscape(y + z)
  {
    EscapeConcat(x, y);
    EscapeConcat(y, z);
    AssociateBytes(PathEscape(x), PathEscape(y), PathEscape(z));
  }

  lemma FreeFills(p: Piece, text: Bytes, refused: (Bytes, Bytes) -> bool)
    requires Bare(p) && Free(text)
    ensures Fill(p, None, text, refused) == Some(PathEscape(text))
  {
  }

  lemma OneFilled(p: Piece, text: Bytes, refused: (Bytes, Bytes) -> bool)
    requires Bare(p) && Free(text)
    ensures FillAll([p], [text], refused) == Some(PathEscape(text))
  {
    FreeFills(p, text, refused);
    assert [p][1..] == [] && [text][1..] == [];
    assert FillAll([], [], refused) == Some([]);
    assert PathEscape(text) + [] == PathEscape(text);
  }

  lemma TwoFilled(a: Bytes, b: Bytes, p: Piece, q: Piece, refused: (Bytes, Bytes) -> bool)
    requires Bare(p) && Bare(q) && Free(a) && Free(b)
    ensures FillAll([p, q], [a, b], refused) == Some(PathEscape(a) + PathEscape(b))
  {
    OneFilled(q, b, refused);
    FreeFills(p, a, refused);
    assert [p, q][1..] == [q] && [a, b][1..] == [b];
    assert Ending([q]) == None;
  }

  lemma {:induction false} EscapeConcat(a: Bytes, b: Bytes)
    ensures PathEscape(a + b) == PathEscape(a) + PathEscape(b)
  {
    if a == [] {
      assert a + b == b;
    } else {
      assert (a + b)[1..] == a[1..] + b;
      EscapeConcat(a[1..], b);
      AssociateBytes(EscapeByte(a[0]), PathEscape(a[1..]), PathEscape(b));
    }
  }

  // ---------- Exactly which paths can be read back ----------

  /** Every parameter is bare. */
  predicate BareParameters(pieces: seq<Piece>) {
    forall p | p in pieces && p.parameter :: Bare(p)
  }

  /** A letter that does not end the value before it. */
  function Letter(rest: seq<Piece>): Byte {
    if Ending(rest) == Some(0x7A) then 0x79 else 0x7A
  }

  /** One or two letters that need no escape. */
  predicate Short(text: Bytes, z: Byte) {
    IsLetterOrDigit(z) && (text == [z] || text == [z, z])
  }

  lemma ShortEscapes(text: Bytes, z: Byte)
    requires Short(text, z)
    ensures PathEscape(text) == text
  {
    assert [z][1..] == [] && [z] + [] == [z];
    assert PathEscape([]) == [];
    assert PathEscape([z]) == [z];
    assert [z, z][1..] == [z] && [z] + [z] == [z, z];
  }

  lemma ShortFills(p: Piece, end: Option<Byte>, text: Bytes, z: Byte, refused: (Bytes, Bytes) -> bool)
    requires Bare(p) && Short(text, z) && end != Some(z)
    ensures Fill(p, end, text, refused) == Some(text)
  {
    ShortEscapes(text, z);
  }

  lemma ParameterFills(pieces: seq<Piece>, text: Bytes, z: Byte, values: seq<Bytes>, refused: (Bytes, Bytes) -> bool)
    requires AllGood(pieces) && pieces != [] && Bare(pieces[0]) && Short(text, z) && Ending(pieces[1..]) != Some(z)
    ensures FillAll(pieces, [text] + values, refused) == Behind(text, FillAll(pieces[1..], values, refused))
  {
    assert ([text] + values)[1..] == values;
    ShortFills(pieces[0], Ending(pieces[1..]), text, z, refused);
  }

  /** Values a path with bare parameters accepts: a letter for each. */
  function Sample(pieces: seq<Piece>): seq<Bytes> {
    if pieces == [] then []
    else if pieces[0].parameter then [[Letter(pieces[1..])]] + Sample(pieces[1..])
    else Sample(pieces[1..])
  }

  lemma {:induction false} SampleIsAccepted(pieces: seq<Piece>, refused: (Bytes, Bytes) -> bool)
    requires AllGood(pieces) && BareParameters(pieces)
    ensures FillAll(pieces, Sample(pieces), refused).Some?
  {
    if pieces != [] {
      assert pieces[0] in pieces;
      SampleIsAccepted(pieces[1..], refused);
      if pieces[0].parameter {
        var z := Letter(pieces[1..]);
        ParameterFills(pieces, [z], z, Sample(pieces[1..]), refused);
      }
    }
  }

  /** a and b are different and accepted, and fill the pieces alike. */
  ghost predicate Collide(pieces: seq<Piece>, a: seq<Bytes>, b: seq<Bytes>, refused: (Bytes, Bytes) -> bool)
    requires AllGood(pieces)
  {
    a != b && FillAll(pieces, a, refused).Some? && FillAll(pieces, a, refused) == FillAll(pieces, b, refused)
  }

  lemma TwoShort(z: Byte, more: Bytes)
    ensures [z, z] + ([z] + more) == [z] + ([z, z] + more)
  {
  }

  lemma PairCollides(pieces: seq<Piece>, refused: (Bytes, Bytes) -> bool) returns (a: seq<Bytes>, b: seq<Bytes>)
    requires AllGood(pieces) && BareParameters(pieces) && |pieces| >= 2 && pieces[0].parameter && pieces[1].parameter
    ensures Collide(pieces, a, b, refused)
  {
    var next, rest := pieces[1..], pieces[2..];
    assert next[1..] == rest && next[0] == pieces[1] && pieces[0] in pieces && pieces[1] in pieces;
    var z, values := Letter(rest), Sample(rest);
    SampleIsAccepted(rest, refused);
    a, b := [[z, z]] + ([[z]] + values), [[z]] + ([[z, z]] + values);
    ParameterFills(next, [z], z, values, refused);
    ParameterFills(next, [z, z], z, values, refused);
    ParameterFills(pieces, [z, z], z, [[z]] + values, refused);
    ParameterFills(pieces, [z], z, [[z, z]] + values, refused);
    TwoShort(z, FillAll(rest, values, refused).value);
    assert |a[0]| != |b[0]|;
  }

  lemma {:induction false} AdjacentCollides(pieces: seq<Piece>, i: nat, refused: (Bytes, Bytes) -> bool)
    returns (a: seq<Bytes>, b: seq<Bytes>)
    requires AllGood(pieces) && BareParameters(pieces)
    requires i + 1 < |pieces| && pieces[i].parameter && pieces[i + 1].parameter
    ensures Collide(pieces, a, b, refused)
  {
    if i == 0 {
      a, b := PairCollides(pieces, refused);
    } else {
      a, b := AdjacentCollides(pieces[1..], i - 1, refused);
      assert pieces[0] in pieces;
      if pieces[0].parameter {
        var z := Letter(pieces[1..]);
        ParameterFills(pieces, [z], z, a, refused);
        ParameterFills(pieces, [z], z, b, refused);
        assert ([[z]] + a)[1..] == a && ([[z]] + b)[1..] == b;
        a, b := [[z]] + a, [[z]] + b;
      }
    }
  }

  /** No two lists of values fill the path alike. */
  ghost predicate Injective(path: Bytes, refused: (Bytes, Bytes) -> bool) {
    forall a, b | For(path, a, refused).Some? && For(path, a, refused) == For(path, b, refused) :: a == b
  }

  /** A path For fills, whose parameters are bare, takes different values to
      different URLs exactly when no parameter directly follows another. */
  lemma InjectiveExactlyWhen(path: Bytes, refused: (Bytes, Bytes) -> bool)
    requires Pieces(path).Some? && !CatchAll(Pieces(path).value) && BareParameters(Pieces(path).value)
    ensures Injective(path, refused) <==> Apart(Pieces(path).value)
  {
    var pieces := Pieces(path).value;
    PiecesAreThePath(path);
    if Apart(pieces) {
      forall a, b | For(path, a, refused).Some? && For(path, a, refused) == For(path, b, refused)
        ensures a == b
      {
        ForIsInjective(path, a, b, refused);
      }
    } else {
      var i, j :| 0 <= i < |pieces| - 1 && j == i + 1 && pieces[i].parameter && pieces[j].parameter;
      var a, b := AdjacentCollides(pieces, i, refused);
      assert For(path, a, refused) == For(path, b, refused);
    }
  }

  /** The path "/{a}{b}". */
  const SIDE_BY_SIDE: Bytes := [SLASH, OPEN, 0x61, CLOSE, OPEN, 0x62, CLOSE]

  lemma CutCloses(name: Byte, rest: Bytes)
    requires name != OPEN && name != CLOSE
    ensures Closing([OPEN, name, CLOSE] + rest, 0) == Some(2)
  {
    var path := [OPEN, name, CLOSE] + rest;
    assert path[1..] == [name, CLOSE] + rest && path[1..][1..] == [CLOSE] + rest;
    assert Closing(path[1..][1..], 1) == Some(0);
    assert Closing(path[1..], 1) == Some(1);
  }

  lemma OneParameter(name: Byte)
    requires name != OPEN && name != CLOSE
    ensures Pieces([OPEN, name, CLOSE]) == Some([Piece([OPEN, name, CLOSE], true)])
  {
    var text: Bytes := [OPEN, name, CLOSE];
    CutCloses(name, []);
    assert text + [] == text && text[0..] == text && text[0..3] == text && text[3..] == [];
    assert Pieces([]) == Some([]);
    assert FirstCut(text) == Some(Cut([Piece(text, true)], []));
    assert [Piece(text, true)] + [] == [Piece(text, true)];
  }

  lemma SideBySideCut()
    ensures FirstCut(SIDE_BY_SIDE)
         == Some(Cut([Piece([SLASH], false), Piece([OPEN, 0x61, CLOSE], true)], [OPEN, 0x62, CLOSE]))
  {
    var path, a, b := SIDE_BY_SIDE, [OPEN, 0x61, CLOSE], [OPEN, 0x62, CLOSE];
    CutCloses(0x61, b);
    assert ByteIndex(path, OPEN) == 1 && path[1..] == a + b;
    assert path[..1] == [SLASH] && path[1..4] == a && path[4..] == b;
  }

  lemma SideBySidePieces()
    ensures Pieces(SIDE_BY_SIDE)
         == Some([Piece([SLASH], false), Piece([OPEN, 0x61, CLOSE], true), Piece([OPEN, 0x62, CLOSE], true)])
  {
    SideBySideCut();
    OneParameter(0x62);
    var head, last := [Piece([SLASH], false), Piece([OPEN, 0x61, CLOSE], true)], [Piece([OPEN, 0x62, CLOSE], true)];
    assert Pieces(SIDE_BY_SIDE) == Some(head + last);
    assert head + last == [head[0], head[1], last[0]];
  }

  /** On "/{a}{b}" any value split in three shows it. */
  lemma SideBySideCollide(x: Bytes, y: Bytes, z: Bytes, refused: (Bytes, Bytes) -> bool)
    requires Free(x) && Free(y) && Free(z)
    ensures For(SIDE_BY_SIDE, [x + y, z], refused) == For(SIDE_BY_SIDE, [x, y + z], refused)
    ensures For(SIDE_BY_SIDE, [x + y, z], refused).Some? && [x + y, z] != [x, y + z]
  {
    SideBySidePieces();
    var pieces := Pieces(SIDE_BY_SIDE).value;
    var p, q := pieces[1], pieces[2];
    assert pieces[1..] == [p, q];
    PiecesAreThePath(SIDE_BY_SIDE);
    assert p in pieces && q in pieces;
    BareLetter(0x61);
    BareLetter(0x62);
    AdjacentCollide(x, y, z, p, q, refused);
  }

  lemma BareLetter(name: Byte)
    requires IsLetterOrDigit(name)
    ensures NameAndPattern(Piece([OPEN, name, CLOSE], true)) == ([name], [])
  {
    var text: Bytes := [OPEN, name, CLOSE];
    assert text[1..|text| - 1] == [name] && [name][1..] == [];
    assert ByteIndex([], COLON) == 0;
    assert ByteIndex([name], COLON) == 1 && [name][..1] == [name];
  }

  // ---------- Shapes ----------

  /** anchored: a pattern as the router compiles it. */
  function Anchored(pattern: Bytes): Bytes {
    var front := if StartsWith(pattern, [CARET]) then pattern else [CARET] + pattern;
    if EndsWith(front, [DOLLAR]) then front else front + [DOLLAR]
  }

  function ShapeOf(p: Piece): Bytes
    requires GoodPiece(p)
  {
    if !p.parameter then p.text
    else
      var pattern := NameAndPattern(p).1;
      [OPEN, COLON] + (if pattern != [] then Anchored(pattern) else []) + [CLOSE]
  }

  /** shape: the pattern as the router matches it. */
  function Shape(pieces: seq<Piece>): Bytes
    requires AllGood(pieces)
  {
    if pieces == [] then [] else ShapeOf(pieces[0]) + Shape(pieces[1..])
  }

  lemma GoodConcat(ps: seq<Piece>, qs: seq<Piece>)
    requires AllGood(ps) && AllGood(qs)
    ensures AllGood(ps + qs)
  {
  }

  lemma {:induction false} ShapeConcat(ps: seq<Piece>, qs: seq<Piece>)
    requires AllGood(ps) && AllGood(qs)
    ensures AllGood(ps + qs) && Shape(ps + qs) == Shape(ps) + Shape(qs)
  {
    GoodConcat(ps, qs);
    if ps == [] {
      assert ps + qs == qs;
    } else {
      var all := ps + qs;
      assert all[0] == ps[0] && all[1..] == ps[1..] + qs;
      ShapeConcat(ps[1..], qs);
      AssociateBytes(ShapeOf(ps[0]), Shape(ps[1..]), Shape(qs));
    }
  }

  /** A shape is its pieces' shapes one after another: literal text as it
      stands, and a parameter as a brace, a colon, its anchored pattern if it
      has one, and a brace. */
  lemma ShapeIs(ps: seq<Piece>, p: Piece)
    requires AllGood(ps) && GoodPiece(p)
    ensures AllGood(ps + [p])
    ensures Shape(ps + [p]) == Shape(ps) + if !p.parameter then p.text
                                           else if NameAndPattern(p).1 == [] then [OPEN, COLON, CLOSE]
                                           else [OPEN, COLON] + Anchored(NameAndPattern(p).1) + [CLOSE]
    ensures Shape([]) == []
  {
    ShapeConcat(ps, [p]);
    assert [p][1..] == [] && ShapeOf(p) + [] == ShapeOf(p);
    assert [OPEN, COLON] + [] + [CLOSE] == [OPEN, COLON, CLOSE];
  }

  lemma AnchoredAlready(pattern: Bytes)
    requires StartsWith(pattern, [CARET]) && EndsWith(pattern, [DOLLAR])
    ensures Anchored(pattern) == pattern
  {
  }

  lemma AnchoredIsAnchored(pattern: Bytes)
    ensures StartsWith(Anchored(pattern), [CARET]) && EndsWith(Anchored(pattern), [DOLLAR])
  {
    var front := if StartsWith(pattern, [CARET]) then pattern else [CARET] + pattern;
    assert front[..1] == [CARET];
    if !EndsWith(front, [DOLLAR]) {
      assert (front + [DOLLAR])[..1] == front[..1];
      assert (front + [DOLLAR])[|front|..] == [DOLLAR];
    }
  }

  /** Anchoring again changes nothing, so a pattern and its anchored form are
      one shape. */
  lemma AnchoredOnce(pattern: Bytes)
    ensures Anchored(Anchored(pattern)) == Anchored(pattern)
  {
    AnchoredIsAnchored(pattern);
    AnchoredAlready(Anchored(pattern));
  }

  /** Two pieces the router cannot tell apart: the same literal, or
      parameters whose anchored patterns are the same. */
  predicate Alike(p: Piece, q: Piece) {
    && GoodPiece(p) && GoodPiece(q) && p.parameter == q.parameter
    && if p.parameter then
         && (NameAndPattern(p).1 == [] <==> NameAndPattern(q).1 == [])
         && (NameAndPattern(p).1 != [] ==> Anchored(NameAndPattern(p).1) == Anchored(NameAndPattern(q).1))
       else p.text == q.text
  }

  /** A parameter's name is no part of the shape. */
  lemma {:induction false} ShapeIgnoresNames(ps: seq<Piece>, qs: seq<Piece>)
    requires |ps| == |qs| && forall i | 0 <= i < |ps| :: Alike(ps[i], qs[i])
    requires AllGood(ps) && AllGood(qs)
    ensures Shape(ps) == Shape(qs)
  {
    if ps != [] {
      assert Alike(ps[0], qs[0]);
      ShapeIgnoresNames(ps[1..], qs[1..]);
    }
  }
}
