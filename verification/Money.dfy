/** Amounts as 64-bit counts of a currency's minor unit: the exact decimal
    reader (money/decimal.go) and the exact rescale (currency/currency.go). */
module Money {
  import opened Digits
  import opened Text

  // ---------- Go's integer division ----------

  /** Go's / and %, which truncate toward zero. */
  function GoDiv(a: int, b: int): int
    requires b > 0
  {
    if a >= 0 then a / b else -(-a / b)
  }

  function GoRem(a: int, b: int): int
    requires b > 0
  {
    a - b * GoDiv(a, b)
  }

  predicate InI64(x: int) {
    MIN_I64 <= x <= MAX_I64
  }

  // ---------- Rescale ----------

  /** Why a rescale refuses an amount. */
  datatype RescaleResult = Rescaled(amount: I64) | Inexact | Overflow

  /** x with its decimal point moved k places: x * 10^k. */
  function Shift(x: int, k: nat): int {
    if k == 0 then x else 10 * Shift(x, k - 1)
  }

  lemma {:induction false} ShiftIsTimes(x: int, k: nat)
    ensures Shift(x, k) == x * Pow10(k)
  {
    if k > 0 {
      ShiftIsTimes(x, k - 1);
      assert 10 * (x * Pow10(k - 1)) == x * (10 * Pow10(k - 1));
    }
  }

  lemma {:induction false} ShiftInside(x: int, k: nat)
    requires k >= 1
    ensures Shift(x, k) == Shift(10 * x, k - 1)
  {
    if k > 1 {
      ShiftInside(x, k - 1);
    }
  }

  lemma {:induction false} ShiftAdd(x: int, j: nat, k: nat)
    ensures Shift(Shift(x, j), k) == Shift(x, j + k)
  {
    if k > 0 {
      ShiftAdd(x, j, k - 1);
    }
  }

  lemma {:induction false} ShiftInjective(x: int, y: int, k: nat)
    requires Shift(x, k) == Shift(y, k)
    ensures x == y
  {
    if k > 0 {
      ShiftInjective(x, y, k - 1);
    }
  }

  /** Past the overflow guard no further power of ten brings an amount back. */
  lemma {:induction false} StaysOut(x: int, k: nat)
    requires !InI64(x)
    ensures !InI64(Shift(x, k))
  {
    if k > 0 {
      StaysOut(x, k - 1);
    }
  }

  method ScaleUp(v: I64, places: nat) returns (r: RescaleResult)
    ensures r == if InI64(Shift(v, places)) then Rescaled(Shift(v, places)) else Overflow
  {
    var out: int := v;
    var diff := places;
    while diff > 0
      invariant InI64(out) && Shift(out, diff) == Shift(v, places)
    {
      ShiftInside(out, diff);
      if out > GoDiv(MAX_I64, 10) || out < GoDiv(MIN_I64, 10) {
        StaysOut(10 * out, diff - 1);
        return Overflow;
      }
      out := out * 10;
      diff := diff - 1;
    }
    r := Rescaled(out);
  }

  method ScaleDown(v: I64, places: nat) returns (r: RescaleResult)
    ensures match r
            case Rescaled(amount) => Shift(amount, places) == v
            case Inexact => forall q :: Shift(q, places) != v
            case Overflow => false
  {
    var out: int := v;
    var diff: int := 0 - places;
    while diff < 0
      invariant InI64(out) && diff <= 0
      invariant forall q :: Shift(q, places) == v <==> Shift(q, -diff) == out
    {
      ghost var here: nat, next: nat := 0 - diff, 0 - diff - 1;
      assert forall q :: Shift(q, here) == 10 * Shift(q, next);
      if GoRem(out, 10) != 0 {
        return Inexact;
      }
      assert forall q :: Shift(q, here) == out <==> Shift(q, next) == GoDiv(out, 10);
      out := GoDiv(out, 10);
      diff := diff + 1;
    }
    assert Shift(out, 0) == out;
    r := Rescaled(out);
  }

  /** Rescale from scale decimal places to a currency's exp. It succeeds with
      r exactly when r is the int64 with r * 10^scale == v * 10^exp, and it
      is refused exactly when no int64 is. */
  method Rescale(v: I64, scale: nat, exp: nat) returns (r: RescaleResult)
    ensures r.Rescaled? ==> r.amount * Pow10(scale) == v * Pow10(exp)
    ensures !r.Rescaled? ==> forall q: I64 :: q * Pow10(scale) != v * Pow10(exp)
  {
    if exp >= scale {
      r := ScaleUp(v, exp - scale);
    } else {
      r := ScaleDown(v, scale - exp);
    }
    if r.Rescaled? {
      RescaleLaw(v, scale, exp, r.amount);
    } else {
      forall q: I64
        ensures q * Pow10(scale) != v * Pow10(exp)
      {
        RescaleLaw(v, scale, exp, q);
      }
    }
  }

  lemma RescaleLaw(v: int, scale: nat, exp: nat, r: int)
    ensures r * Pow10(scale) == v * Pow10(exp) <==>
              if exp >= scale then r == Shift(v, exp - scale) else Shift(r, scale - exp) == v
  {
    ShiftIsTimes(r, scale);
    ShiftIsTimes(v, exp);
    if exp >= scale {
      ShiftAdd(v, exp - scale, scale);
      if Shift(r, scale) == Shift(v, exp) {
        ShiftInjective(r, Shift(v, exp - scale), scale);
      }
    } else {
      ShiftAdd(r, scale - exp, exp);
      if Shift(r, scale) == Shift(v, exp) {
        ShiftInjective(Shift(r, scale - exp), v, exp);
      }
    }
  }

  // ---------- Exact decimals ----------

  predicate AllZeros(s: string) {
    forall i | 0 <= i < |s| :: s[i] == '0'
  }

  function Zeros(n: nat): (z: string)
    ensures |z| == n && AllDigits(z) && AllZeros(z)
  {
    seq(n, _ => '0')
  }

  /** frac cut or padded to exp digits. */
  function Scaled(frac: string, exp: nat): (s: string)
    requires AllDigits(frac)
    ensures |s| == exp && AllDigits(s)
  {
    if |frac| <= exp then frac + Zeros(exp - |frac|) else frac[..exp]
  }

  function Signed(negative: bool, n: nat): int {
    if negative then 0 - n else n
  }

  /** The minor units of whole.frac, unless a digit beyond exp is not zero or
      the count does not fit in an int64. */
  function Amount(negative: bool, whole: string, frac: string, exp: nat): Option<I64>
    requires AllDigits(whole) && AllDigits(frac)
  {
    var v := Signed(negative, Value(whole + Scaled(frac, exp)));
    if (|frac| > exp && !AllZeros(frac[exp..])) || !InI64(v) then None else Some(v)
  }

  /** What follows the sign: digits, an optional point and digits. */
  function ParseUnsigned(negative: bool, body: string, exp: nat): Option<I64> {
    var dot := IndexOf(body, '.');
    var whole, frac := body[..dot], if dot < |body| then body[dot + 1..] else "";
    if (whole == "" && frac == "") || !AllDigits(whole) || !AllDigits(frac) then None
    else Amount(negative, whole, frac, exp)
  }

  /** money.ParseDecimal on trimmed text: an optional sign, digits, an
      optional point and digits. Blank text is 0. */
  function ParseDecimal(s: string, exp: nat): Option<I64> {
    if s == "" then Some(0)
    else ParseUnsigned(s[0] == '-', if s[0] == '-' || s[0] == '+' then s[1..] else s, exp)
  }

  /** One digit more, refused when the count would pass the limit, without
      the multiplication overflowing first. */
  method AppendDigit(value: nat, digit: nat, limit: nat) returns (ok: bool, next: nat)
    requires digit < 10 && digit <= limit && value <= limit
    ensures ok <==> 10 * value + digit <= limit
    ensures ok ==> next == 10 * value + digit
    ensures !ok ==> next == value
  {
    if value > (limit - digit) / 10 {
      return false, value;
    }
    return true, 10 * value + digit;
  }

  lemma {:induction false} ValueGrows(s: string, n: nat)
    requires AllDigits(s) && n <= |s|
    ensures Value(s[..n]) <= Value(s)
  {
    if n < |s| {
      assert s[..|s| - 1][..n] == s[..n];
      ValueGrows(s[..|s| - 1], n);
    } else {
      assert s[..n] == s;
    }
  }

  /** The reader's three loops over one string of digits. */
  method ReadDigits(digits: string, limit: nat) returns (r: Option<nat>)
    requires AllDigits(digits) && limit >= 9
    ensures r == if Value(digits) <= limit then Some(Value(digits)) else None
  {
    var value := 0;
    for i := 0 to |digits|
      invariant value == Value(digits[..i]) <= limit
    {
      assert digits[..i + 1][..i] == digits[..i];
      var ok, next := AppendDigit(value, digits[i] as nat - '0' as nat, limit);
      ValueGrows(digits, i + 1);
      if !ok {
        return None;
      }
      value := next;
    }
    assert digits[..|digits|] == digits;
    r := Some(value);
  }

  /** The whole reader, on the digits it has cut out of its text. */
  method ReadAmount(negative: bool, whole: string, frac: string, exp: nat) returns (r: Option<I64>)
    requires AllDigits(whole) && AllDigits(frac)
    ensures r == Amount(negative, whole, frac, exp)
  {
    var limit := if negative then MAX_I64 + 1 else MAX_I64;
    var value := ReadDigits(whole + Scaled(frac, exp), limit);
    var i := exp;
    while i < |frac|
      invariant i >= exp && (i > |frac| ==> i == exp)
      invariant |frac| > exp ==> i <= |frac| && forall j | exp <= j < i :: frac[j] == '0'
    {
      if frac[i] != '0' {
        assert frac[exp..][i - exp] == frac[i];
        return None;
      }
      i := i + 1;
    }
    if value.None? {
      return None;
    }
    r := Some(Signed(negative, value.value));
  }
}
