/** Decimal digit strings and the naturals they write, shared by the stream
    tokens of `live` and the amounts of `currency`. */
module Digits {

  /** Go's Option-like pair `(value, ok)`. */
  datatype Option<+T> = None | Some(value: T)

  const MAX_U64 := 0xFFFF_FFFF_FFFF_FFFF
  const MIN_I64 := -0x8000_0000_0000_0000
  const MAX_I64 := 0x7FFF_FFFF_FFFF_FFFF

  type U64 = x: int | 0 <= x <= MAX_U64
  type I64 = x: int | MIN_I64 <= x <= MAX_I64

  predicate IsDigit(c: char) {
    '0' <= c <= '9'
  }

  predicate AllDigits(s: string) {
    forall i | 0 <= i < |s| :: IsDigit(s[i])
  }

  function DigitOf(n: nat): char
    requires n < 10
  {
    '0' + n as char
  }

  function Pow10(n: nat): nat {
    if n == 0 then 1 else 10 * Pow10(n - 1)
  }

  /** The number a digit string writes; the empty string writes 0. */
  function Value(s: string): nat
    requires AllDigits(s)
  {
    if s == "" then 0 else 10 * Value(s[..|s| - 1]) + (s[|s| - 1] as int - '0' as int)
  }

  /** strconv.FormatUint(n, 10). */
  function Format(n: nat): string {
    if n < 10 then [DigitOf(n)] else Format(n / 10) + [DigitOf(n % 10)]
  }

  /** No superfluous leading zero: how Format writes every number. */
  predicate Plain(s: string) {
    AllDigits(s) && s != "" && (s[0] == '0' ==> |s| == 1)
  }

  lemma {:induction false} Pow10Positive(n: nat)
    ensures Pow10(n) >= 1
  {
    if n > 0 {
      Pow10Positive(n - 1);
    }
  }

  lemma {:induction false} Pow10Add(m: nat, n: nat)
    ensures Pow10(m + n) == Pow10(m) * Pow10(n)
  {
    if n == 0 {
    } else {
      Pow10Add(m, n - 1);
      assert Pow10(m + n) == 10 * (Pow10(m) * Pow10(n - 1));
      assert 10 * (Pow10(m) * Pow10(n - 1)) == Pow10(m) * (10 * Pow10(n - 1));
    }
  }

  lemma {:induction false} FormatRoundTrip(n: nat)
    ensures Plain(Format(n)) && Value(Format(n)) == n
    ensures n > 0 ==> Format(n)[0] != '0'
  {
    if n < 10 {
      assert [DigitOf(n)][..0] == "";
    } else {
      FormatRoundTrip(n / 10);
      var s := Format(n);
      assert s[..|s| - 1] == Format(n / 10);
      assert s[0] == Format(n / 10)[0];
    }
  }

  /** Format is the only plain way to write a number. */
  lemma {:induction false} PlainIsFormat(s: string)
    requires Plain(s)
    ensures Format(Value(s)) == s
  {
    if |s| == 1 {
      assert s[..0] == "";
      assert s == [DigitOf(Value(s))];
    } else {
      var front := s[..|s| - 1];
      assert front[0] == s[0];
      PlainIsFormat(front);
      PlainPositive(front);
      assert s == front + [s[|s| - 1]];
      assert Value(s) / 10 == Value(front) && Value(s) % 10 == s[|s| - 1] as int - '0' as int;
    }
  }

  lemma {:induction false} PlainPositive(s: string)
    requires AllDigits(s) && s != "" && s[0] != '0'
    ensures Value(s) >= 1
  {
    if |s| == 1 {
      assert s[..0] == "";
    } else {
      PlainPositive(s[..|s| - 1]);
    }
  }

  lemma TenfoldMoves(v: nat, p: nat)
    ensures 10 * (v * p) == v * (10 * p)
  {
  }

  lemma {:induction false} ValueConcat(a: string, b: string)
    requires AllDigits(a) && AllDigits(b)
    ensures AllDigits(a + b)
    ensures Value(a + b) == Value(a) * Pow10(|b|) + Value(b)
  {
    if b == "" {
      assert a + b == a;
    } else {
      var front := b[..|b| - 1];
      ValueConcat(a, front);
      assert (a + b)[..|a + b| - 1] == a + front;
      TenfoldMoves(Value(a), Pow10(|front|));
    }
  }

  lemma {:induction false} ValueBound(s: string)
    requires AllDigits(s)
    ensures Value(s) < Pow10(|s|)
  {
    if s != "" {
      ValueBound(s[..|s| - 1]);
    }
  }

  /** Digit strings of one length are equal when they write one number. */
  lemma {:induction false} ValueInjective(a: string, b: string)
    requires AllDigits(a) && AllDigits(b) && |a| == |b| && Value(a) == Value(b)
    ensures a == b
  {
    if a != "" {
      var x, y := a[..|a| - 1], b[..|b| - 1];
      assert Value(x) == Value(a) / 10 && Value(y) == Value(b) / 10;
      ValueInjective(x, y);
      assert a == x + [a[|a| - 1]] && b == y + [b[|b| - 1]];
    }
  }
}
