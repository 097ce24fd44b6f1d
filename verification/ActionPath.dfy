/** Route patterns filled with values (action/path.go). Percent-encoding is
    that of section 2.1 of RFC 3986. */
module ActionPath {
  import opened ByteText
  import opened Digits

  const SLASH: Byte := 0x2F
  const OPEN: Byte := 0x7B
  const CLOSE: Byte := 0x7D
  const COLON: Byte := 0x3A
  const STAR: Byte := 0x2A
  const DOT: Byte := 0x2E
  const PERCENT: Byte := 0x25
  const CARET: Byte := 0x5E
  const DOLLAR: Byte := 0x24

  // ---------- Pieces ----------

  /** A run of literal text, or one parameter with its braces. */
  datatype Piece = Piece(text: Bytes, parameter: bool)

  /** How deep inside braces text ends, counted from depth. */
  function Depth(text: Bytes, depth: int): int {
    if text == [] then depth
    else Depth(text[..|text| - 1], depth) + (if text[|text| - 1] == OPEN then 1 else if text[|text| - 1] == CLOSE then -1 else 0)
  }

  /** The position of the brace that brings depth to nothing. */
  function Closing(text: Bytes, depth: int): (r: Option<nat>)
    ensures r.Some? ==> r.value < |text|
  {
    if text == [] then None
    else
      var next := if text[0] == OPEN then depth + 1 else if text[0] == CLOSE then depth - 1 else depth;
      if text[0] == CLOSE && next == 0 then Some(0)
      else
        match Closing(text[1..], next)
        case None => None
        case Some(i) => Some(i + 1)
  }

  /** What one turn of pieces cuts off the front: a literal, a parameter, or
      both. */
  datatype Cut = Cut(head: seq<Piece>, rest: Bytes)

  /** None is the panic for a { that is never closed. */
  function FirstCut(path: Bytes): (r: Option<Cut>)
    requires path != []
    ensures r.Some? ==> |r.value.rest| < |path|
  {
    var open := ByteIndex(path, OPEN);
    if open == |path| then Some(Cut([Piece(path, false)], []))
    else
      match Closing(path[open..], 0)
      case None => None
      case Some(length) =>
        var end := open + length;
        var parameter := Piece(path[open..end + 1], true);
        Some(Cut(if open > 0 then [Piece(path[..open], false), parameter] else [parameter], path[end + 1..]))
  }

  function Pieces(path: Bytes): Option<seq<Piece>>
    decreases |path|
  {
    if path == [] then Some([])
    else
      match FirstCut(path)
      case None => None
      case Some(cut) =>
        match Pieces(cut.rest)
        case None => None
        case Some(rest) => Some(cut.head + rest)
  }

  /** closingBrace: the loop over the text, counting. */
  method ClosingBrace(text: Bytes, open: nat) returns (r: Option<nat>)
    requires open <= |text|
    ensures r == match Closing(text[open..], 0) case None => None case Some(i) => Some(open + i)
  {
    var depth := 0;
    for position := open to |text|
      invariant Closing(text[open..], 0) == match Closing(text[position..], depth)
                                            case None => None
                                            case Some(i) => Some(i + position - open)
    {
      assert text[position..][0] == text[position] && text[position..][1..] == text[position + 1..];
      if text[position] == OPEN {
        depth := depth + 1;
      } else if text[position] == CLOSE {
        depth := depth - 1;
        if depth == 0 {
          return Some(position);
        }
      }
    }
    assert text[|text|..] == [];
    r := None;
  }

  /** pieces: the loop over what is left of the path. */
  method ReadPieces(path: Bytes) returns (r: Option<seq<Piece>>)
    ensures r == Pieces(path)
  {
    var pieces: seq<Piece>, rest := [], path;
    JoinedNothing(Pieces(path));
    while rest != []
      invariant Pieces(path) == Joined(pieces, Pieces(rest))
      decreases |rest|
    {
      var cut := CutFront(rest);
      if cut.None? {
        return None;
      }
      JoinedTwice(pieces, cut.value.head, Pieces(cut.value.rest));
      pieces, rest := pieces + cut.value.head, cut.value.rest;
    }
    assert pieces + [] == pieces;
    r := Some(pieces);
  }

  function Joined(pieces: seq<Piece>, more: Option<seq<Piece>>): Option<seq<Piece>> {
    if more.Some? then Some(pieces + more.value) else None
  }

  lemma JoinedNothing(more: Option<seq<Piece>>)
    ensures Joined([], more) == more
  {
    if more.Some? {
      assert [] + more.value == more.value;
    }
  }

  lemma JoinedTwice(a: seq<Piece>, b: seq<Piece>, more: Option<seq<Piece>>)
    ensures Joined(a, Joined(b, more)) == Joined(a + b, more)
  {
    if more.Some? {
      assert a + (b + more.value) == (a + b) + more.value;
    }
  }

  /** One turn of the loop. */
  method CutFront(rest: Bytes) returns (r: Option<Cut>)
    requires rest != []
    ensures r == FirstCut(rest)
  {
    var open := ByteIndex(rest, OPEN);
    if open == |rest| {
      return Some(Cut([Piece(rest, false)], []));
    }
    var end := ClosingBrace(rest, open);
    if end.None? {
      return None;
    }
    var head := [Piece(rest[open..end.value + 1], true)];
    if open > 0 {
      head := [Piece(rest[..open], false), head[0]];
    }
    r := Some(Cut(head, rest[end.value + 1..]));
  }

  // ---------- What the pieces are ----------

  function Text(pieces: seq<Piece>): Bytes {
    if pieces == [] then [] else pieces[0].text + Text(pieces[1..])
  }

  /** One parameter: a brace, what it holds, and the brace that closes it and
      no other. */
  predicate Balanced(text: Bytes) {
    && |text| >= 2 && text[0] == OPEN && text[|text| - 1] == CLOSE && Depth(text, 0) == 0
    && forall k | 1 <= k < |text| :: Depth(text[..k], 0) > 0
  }

  /** Literal text is not empty and opens nothing. */
  predicate GoodPiece(p: Piece) {
    if p.parameter then Balanced(p.text) else p.text != [] && OPEN !in p.text
  }

  lemma {:induction false} DepthFront(c: Byte, text: Bytes, depth: int)
    ensures Depth([c] + text, depth) == Depth(text, depth + (if c == OPEN then 1 else if c == CLOSE then -1 else 0))
  {
    var all := [c] + text;
    if text == [] {
      assert all[..0] == [] && all[0] == c;
    } else {
      assert all[..|all| - 1] == [c] + text[..|text| - 1];
      DepthFront(c, text[..|text| - 1], depth);
    }
  }

  /** Closing finds the first place where every brace is closed. */
  lemma {:induction false} ClosingIsFirst(text: Bytes, depth: nat)
    requires Closing(text, depth).Some? && (depth == 0 ==> text[0] == OPEN)
    ensures var i := Closing(text, depth).value;
            && text[i] == CLOSE && Depth(text[..i + 1], depth) == 0
            && forall k | 1 <= k <= i :: Depth(text[..k], depth) > 0
  {
    var c := text[0];
    var next := if c == OPEN then depth + 1 else if c == CLOSE then depth - 1 else depth;
    var i := Closing(text, depth).value;
    if c == CLOSE && next == 0 {
      assert text[..1] == [c] + [];
      DepthFront(c, [], depth);
    } else {
      ClosingIsFirst(text[1..], next);
      forall k | 1 <= k <= i + 1
        ensures Depth(text[..k], depth) == Depth(text[1..][..k - 1], next)
      {
        assert text[..k] == [c] + text[1..][..k - 1];
        DepthFront(c, text[1..][..k - 1], depth);
      }
      assert Depth(text[1..][..0], next) == next;
    }
  }

  lemma ParameterIsBalanced(text: Bytes)
    requires text != [] && text[0] == OPEN && Closing(text, 0).Some?
    ensures Balanced(text[..Closing(text, 0).value + 1])
  {
    ClosingIsFirst(text, 0);
    var i := Closing(text, 0).value;
    var p := text[..i + 1];
    forall k | 1 <= k < |p|
      ensures Depth(p[..k], 0) > 0
    {
      assert p[..k] == text[..k];
    }
  }

  lemma {:induction false} TextConcat(a: seq<Piece>, b: seq<Piece>)
    ensures Text(a + b) == Text(a) + Text(b)
  {
    if a == [] {
      assert a + b == b;
    } else {
      assert (a + b)[1..] == a[1..] + b;
      TextConcat(a[1..], b);
      assert a[0].text + (Text(a[1..]) + Text(b)) == (a[0].text + Text(a[1..])) + Text(b);
    }
  }

  lemma TextOfOne(p: Piece)
    ensures Text([p]) == p.text
  {
    assert [p][1..] == [] && p.text + [] == p.text;
  }

  lemma TextOfTwo(p: Piece, q: Piece)
    ensures Text([p, q]) == p.text + q.text
  {
    assert [p, q][1..] == [q];
    TextOfOne(q);
  }

  predicate Alternate(ps: seq<Piece>) {
    forall i, j | 0 <= i < |ps| - 1 && j == i + 1 :: ps[i].parameter || ps[j].parameter
  }

  lemma CutIsGood(path: Bytes)
    requires path != [] && FirstCut(path).Some?
    ensures var cut := FirstCut(path).value; var n := |cut.head|;
            && n > 0 && Text(cut.head) + cut.rest == path
            && (forall p | p in cut.head :: GoodPiece(p)) && Alternate(cut.head)
            && (cut.rest != [] ==> cut.head[n - 1].parameter)
  {
    var open := ByteIndex(path, OPEN);
    if open == |path| {
      TextOfOne(Piece(path, false));
      assert path + [] == path;
    } else {
      ParameterIsBalanced(path[open..]);
      var end := open + Closing(path[open..], 0).value;
      var literal, parameter := Piece(path[..open], false), Piece(path[open..end + 1], true);
      assert path[open..][..end + 1 - open] == parameter.text;
      TextOfOne(parameter);
      TextOfTwo(literal, parameter);
      CutJoins(path, open, end);
    }
  }

  lemma CutJoins(path: Bytes, open: nat, end: nat)
    requires open <= end < |path|
    ensures (path[..open] + path[open..end + 1]) + path[end + 1..] == path
    ensures open == 0 ==> path[open..end + 1] + path[end + 1..] == path
  {
  }

  lemma GoodJoin(a: seq<Piece>, b: seq<Piece>)
    requires a != [] && (b != [] ==> a[|a| - 1].parameter)
    requires (forall p | p in a :: GoodPiece(p)) && (forall p | p in b :: GoodPiece(p)) && Alternate(a) && Alternate(b)
    ensures (forall p | p in a + b :: GoodPiece(p)) && Alternate(a + b)
  {
    var ps := a + b;
    forall i, j | 0 <= i < |ps| - 1 && j == i + 1
      ensures ps[i].parameter || ps[j].parameter
    {
      if i >= |a| {
        assert ps[i] == b[i - |a|] && ps[j] == b[j - |a|];
      }
    }
  }

  /** The pieces are the path cut up: they join back to it, each parameter's
      braces are its own, literal text opens none, and no two literals stand
      side by side. */
  lemma {:induction false} PiecesAreThePath(path: Bytes)
    requires Pieces(path).Some?
    ensures var ps := Pieces(path).value;
            Text(ps) == path && (forall p | p in ps :: GoodPiece(p)) && Alternate(ps)
    decreases |path|
  {
    if path != [] {
      var cut := FirstCut(path).value;
      CutIsGood(path);
      PiecesAreThePath(cut.rest);
      TextConcat(cut.head, Pieces(cut.rest).value);
      GoodJoin(cut.head, Pieces(cut.rest).value);
    }
  }

  // ---------- There is one way to cut a path ----------

  /** Good pieces that join to the path, no two literals side by side. */
  ghost predicate Cuts(ps: seq<Piece>, path: Bytes) {
    Text(ps) == path && (forall p | p in ps :: GoodPiece(p)) && Alternate(ps)
  }

  lemma {:induction false} ClosesAt(text: Bytes, depth: nat, n: nat)
    requires n < |text| && text[n] == CLOSE && Depth(text[..n + 1], depth) == 0
    requires forall k | 1 <= k <= n :: Depth(text[..k], depth) > 0
    ensures Closing(text, depth) == Some(n)
    decreases n
  {
    var c, rest := text[0], text[1..];
    var next := if c == OPEN then depth + 1 else if c == CLOSE then depth - 1 else depth;
    forall k | 1 <= k <= n + 1
      ensures Depth(text[..k], depth) == Depth(rest[..k - 1], next)
    {
      assert text[..k] == [c] + rest[..k - 1];
      DepthFront(c, rest[..k - 1], depth);
    }
    assert rest[..0] == [] && Depth([], next) == next;
    if n > 0 {
      assert Depth(text[..1], depth) > 0;
      forall k | 1 <= k <= n - 1
        ensures Depth(rest[..k], next) > 0
      {
        assert Depth(text[..k + 1], depth) == Depth(rest[..k + 1 - 1], next);
      }
      ClosesAt(rest, next, n - 1);
    }
  }

  lemma BalancedCloses(text: Bytes, more: Bytes)
    requires Balanced(text)
    ensures Closing(text + more, 0) == Some(|text| - 1)
  {
    var all, n := text + more, |text| - 1;
    assert all[..n + 1] == text && text[..n + 1] == text && all[n] == CLOSE;
    forall k | 1 <= k <= n
      ensures Depth(all[..k], 0) > 0
    {
      assert all[..k] == text[..k];
    }
    ClosesAt(all, 0, n);
  }

  lemma NoBrace(text: Bytes)
    requires OPEN !in text
    ensures ByteIndex(text, OPEN) == |text|
  {
  }

  lemma BraceNext(literal: Bytes, more: Bytes)
    requires OPEN !in literal && more != [] && more[0] == OPEN
    ensures ByteIndex(literal + more, OPEN) == |literal| && (literal + more)[|literal|..] == more
  {
    IndexIsFirst(literal + more, OPEN, |literal|);
  }

  /** The front of good pieces is what one turn cuts off. */
  lemma CutLiteral(p: Piece)
    requires GoodPiece(p) && !p.parameter
    ensures FirstCut(p.text) == Some(Cut([p], []))
  {
    NoBrace(p.text);
  }

  lemma CutParameter(p: Piece, more: Bytes)
    requires GoodPiece(p) && p.parameter
    ensures FirstCut(p.text + more) == Some(Cut([p], more))
  {
    var path, n := p.text + more, |p.text| - 1;
    BalancedCloses(p.text, more);
    assert path[0] == OPEN && path[0..] == path && ByteIndex(path, OPEN) == 0;
    assert path[0..n + 1] == p.text && path[n + 1..] == more;
  }

  lemma ThreeParts(a: Bytes, b: Bytes, c: Bytes)
    ensures var all, n := a + (b + c), |a| + |b|; all[..|a|] == a && all[|a|..n] == b && all[n..] == c
  {
    var all, n := a + (b + c), |a| + |b|;
    assert all[..|a|] == a;
    assert all[|a|..] == b + c;
    assert all[|a|..n] == (b + c)[..|b|] == b;
    assert all[n..] == (b + c)[|b|..] == c;
  }

  lemma CutBoth(l: Piece, p: Piece, more: Bytes)
    requires GoodPiece(l) && !l.parameter && GoodPiece(p) && p.parameter
    ensures FirstCut(l.text + (p.text + more)) == Some(Cut([l, p], more))
  {
    var rest := p.text + more;
    var path := l.text + rest;
    BalancedCloses(p.text, more);
    BraceNext(l.text, rest);
    ThreeParts(l.text, p.text, more);
  }

  lemma CutsRest(ps: seq<Piece>, n: nat)
    requires n <= |ps| && (forall p | p in ps :: GoodPiece(p)) && Alternate(ps)
    ensures (forall p | p in ps[n..] :: GoodPiece(p)) && Alternate(ps[n..])
  {
    var rest := ps[n..];
    assert forall p | p in rest :: p in ps;
    forall i, j | 0 <= i < |rest| - 1 && j == i + 1
      ensures rest[i].parameter || rest[j].parameter
    {
      assert ps[n + i].parameter || ps[n + j].parameter;
    }
  }

  /** Whatever good pieces join to a path, they are the ones it is cut into. */
  lemma {:induction false} OnlyCut(ps: seq<Piece>)
    requires (forall p | p in ps :: GoodPiece(p)) && Alternate(ps)
    ensures Pieces(Text(ps)) == Some(ps)
    decreases |ps|
  {
    if ps != [] {
      var p := ps[0];
      assert p in ps && GoodPiece(p);
      if p.parameter {
        CutsRest(ps, 1);
        OnlyCut(ps[1..]);
        CutParameter(p, Text(ps[1..]));
        assert [p] + ps[1..] == ps;
      } else if |ps| == 1 {
        CutLiteral(p);
        assert ps[1..] == [] && p.text + [] == p.text;
        assert Pieces([]) == Some([]) && [p] + [] == ps;
      } else {
        assert ps[1].parameter && ps[1] in ps;
        CutsRest(ps, 2);
        OnlyCut(ps[2..]);
        CutBoth(p, ps[1], Text(ps[2..]));
        assert ps[1..][1..] == ps[2..] && ps[1..][0] == ps[1];
        assert [p, ps[1]] + ps[2..] == ps;
      }
    }
  }

  /** A path is cut in the one way there is: into balanced parameters and
      literal text that opens none, no two literals side by side. It panics
      exactly where there is none, a brace that is never closed. */
  lemma PiecesExactlyWhen(path: Bytes, ps: seq<Piece>)
    ensures Pieces(path) == Some(ps) <==> Cuts(ps, path)
    ensures Pieces(path).None? <==> forall qs :: !Cuts(qs, path)
  {
    if Pieces(path).Some? {
      PiecesAreThePath(path);
      assert Cuts(Pieces(path).value, path);
    }
    forall qs | Cuts(qs, path)
      ensures Pieces(path) == Some(qs)
    {
      OnlyCut(qs);
    }
  }
}
