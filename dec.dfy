/**
 * Fixed-point decimals as used by the alliance module (LegacyDec of
 * cosmossdk.io/math): a value is an integer count of 10^-18 units.
 * Products and quotients are rounded half-to-even ("banker's rounding")
 * back to 18 places; conversion to an integer truncates toward zero.
 */
module Dec {

  /** A decimal, as its raw count of 10^-18 units. */
  type Dec = int

  const Precision: int := 1_000_000_000_000_000_000
  const Half: int := 500_000_000_000_000_000
  const One: Dec := Precision

  /** 10^-6, the epsilon added before truncating a token payout (LegacyNewDecWithPrec(1, 6)). */
  const Epsilon: Dec := 1_000_000_000_000

  function Abs(x: int): nat { if x < 0 then -x else x }

  /** The decimal with integer value i (LegacyNewDecFromInt). */
  function FromInt(i: int): Dec { i * Precision }

  /** Integer division truncating toward zero, as Go's int64 `/` and big.Int.Quo. */
  function TruncDiv(a: int, b: int): int
    requires b != 0
  {
    if (a < 0) == (b < 0) then Abs(a) / Abs(b) else -(Abs(a) / Abs(b))
  }

  /** For a positive divisor, truncating division rounds toward zero from either side. */
  lemma TruncDivPos(a: int, b: int)
    requires b > 0
    ensures a >= 0 ==> TruncDiv(a, b) == a / b
    ensures a < 0 ==> TruncDiv(a, b) == -((-a) / b)
  {
  }

  /** Non-negative multiplication is monotone. */
  lemma MulLe(x: int, y: int, c: int)
    requires c >= 0
    ensures x <= y ==> x * c <= y * c
  {
    assert y * c - x * c == (y - x) * c;
  }

  /** Floor division of non-negative numbers by a positive divisor is monotone. */
  lemma DivMono(x: nat, y: nat, b: int)
    requires x <= y && b > 0
    ensures x / b <= y / b
  {
    var qx, qy := x / b, y / b;
    assert qx * b <= x;
    assert y < (qy + 1) * b;
    MulLe(qy + 1, qx, b);
    assert qy + 1 <= qx ==> (qy + 1) * b <= qx * b;
  }

  /** Truncating division by a positive divisor: zero below one divisor either way, positive from one divisor up. */
  lemma TruncDivUnit(a: int, b: int)
    requires b > 0
    ensures -b < a < b ==> TruncDiv(a, b) == 0
    ensures b <= a ==> TruncDiv(a, b) >= 1
  {
    var m := Abs(a);
    var q := m / b;
    assert m == q * b + m % b && 0 <= m % b < b;
    if m < b {
      if q >= 1 {
        MulLe(1, q, b);
        assert false;
      }
    } else if q <= 0 {
      MulLe(q, 0, b);
      assert false;
    }
    assert TruncDiv(a, b) == if a < 0 then -q else q;
  }

  /** Dividing an exact multiple gives back the factor. */
  lemma DivExact(m: nat, d: int)
    requires d > 0
    ensures (m * d) / d == m
  {
    var q := (m * d) / d;
    var r := (m * d) % d;
    assert m * d == q * d + r && 0 <= r < d;
    assert (m - q) * d == r;
    MulLe(1, m - q, d);
    MulLe(m - q, -1, d);
    assert m - q >= 1 ==> (m - q) * d >= d;
    assert m - q <= -1 ==> (m - q) * d <= -d;
  }

  lemma TruncDivExact(k: int, b: int)
    requires b != 0
    ensures TruncDiv(k * b, b) == k
  {
    assert Abs(k * b) == Abs(k) * Abs(b);
    DivExact(Abs(k), Abs(b));
  }

  lemma TruncDivMono(x: int, y: int, b: int)
    requires x <= y && b > 0
    ensures TruncDiv(x, b) <= TruncDiv(y, b)
  {
    TruncDivPos(x, b);
    TruncDivPos(y, b);
    if 0 <= x {
      DivMono(x, y, b);
    } else if y < 0 {
      DivMono(-y, -x, b);
    }
  }

  /** The integer part of d, truncated toward zero (LegacyDec.TruncateInt). */
  function TruncateInt(d: Dec): int { TruncDiv(d, Precision) }

  /** Banker's rounding of a non-negative raw product back to 18 places. */
  function ChopRoundNonneg(x: nat): (r: int)
    ensures r >= 0
    ensures Abs(r * Precision - x) <= Half
  {
    var q := x / Precision;
    var rem := x % Precision;
    if rem < Half then q
    else if rem > Half then q + 1
    else if q % 2 == 0 then q
    else q + 1
  }

  /** chopPrecisionAndRound: remove 18 places, rounding half to even, symmetric in sign. */
  function ChopRound(x: int): (r: int)
    ensures Abs(r * Precision - x) <= Half
  {
    if x < 0 then -ChopRoundNonneg(-x) else ChopRoundNonneg(x)
  }

  /** LegacyDec.Mul */
  function Mul(a: Dec, b: Dec): Dec { ChopRound(a * b) }

  /** LegacyDec.MulInt: exact. */
  function MulInt(a: Dec, i: int): Dec { a * i }

  /** LegacyDec.Quo: the numerator is scaled twice, divided truncating, then rounded. */
  function Quo(a: Dec, b: Dec): Dec
    requires b != 0
  {
    ChopRound(TruncDiv(a * Precision * Precision, b))
  }

  /** LegacyDec.Power: exponentiation by squaring, every product rounded like Mul. */
  function Power(d: Dec, n: nat): Dec {
    if n == 0 then One else PowerLoop(d, One, n)
  }

  function PowerLoop(d: Dec, acc: Dec, i: nat): Dec
    requires i >= 1
    decreases i
  {
    if i == 1 then Mul(d, acc)
    else PowerLoop(Mul(d, d), if i % 2 != 0 then Mul(acc, d) else acc, i / 2)
  }

  // ---------------------------------------------------------------------
  // Rounding facts

  /** A raw value that is an exact multiple of 10^-18 * 10^18 rounds to itself. */
  lemma ChopRoundExact(k: int)
    ensures ChopRound(k * Precision) == k
  {
    if k < 0 {
      assert -(k * Precision) == (-k) * Precision;
    }
  }

  /** Rounding a value in [0, b * 10^18] stays in [0, b]. */
  lemma ChopRoundUpTo(x: int, b: int)
    requires 0 <= x <= b * Precision
    ensures 0 <= ChopRound(x) <= b
  {
    var q := x / Precision;
    assert q <= b;
    assert q == b ==> x % Precision == 0;
  }

  /** Rounding is monotone. */
  lemma ChopRoundMono(x: int, y: int)
    requires x <= y
    ensures ChopRound(x) <= ChopRound(y)
  {
    if 0 <= x {
      ChopRoundNonnegMono(x, y);
    } else if y < 0 {
      ChopRoundNonnegMono(-y, -x);
    }
  }

  lemma ChopRoundNonnegMono(x: nat, y: nat)
    requires x <= y
    ensures ChopRoundNonneg(x) <= ChopRoundNonneg(y)
  {
    var qx, qy := x / Precision, y / Precision;
    assert qx <= qy;
    if qx == qy {
      assert x % Precision <= y % Precision;
    }
  }

  lemma MulOne(a: Dec)
    ensures Mul(a, One) == a && Mul(One, a) == a
  {
    ChopRoundExact(a);
  }

  /** Multiplying by a factor in [0, 1] never increases a non-negative value. */
  lemma MulUnitBound(a: Dec, b: Dec)
    requires 0 <= a <= One && 0 <= b
    ensures 0 <= Mul(a, b) <= b
  {
    assert a * b <= One * b;
    ChopRoundUpTo(a * b, b);
  }

  /** Mul is monotone in its first argument for a non-negative second argument. */
  lemma MulMonoLeft(a: Dec, a': Dec, b: Dec)
    requires a <= a' && 0 <= b
    ensures Mul(a, b) <= Mul(a', b)
  {
    assert a * b <= a' * b;
    ChopRoundMono(a * b, a' * b);
  }

  /** A power of a factor in [0, 1] stays in [0, 1]. */
  lemma {:induction false} PowerUnit(d: Dec, n: nat)
    requires 0 <= d <= One
    ensures 0 <= Power(d, n) <= One
  {
    if n > 0 {
      PowerLoopUnit(d, One, n);
    }
  }

  lemma {:induction false} PowerLoopUnit(d: Dec, acc: Dec, i: nat)
    requires i >= 1
    requires 0 <= d <= One && 0 <= acc <= One
    ensures 0 <= PowerLoop(d, acc, i) <= One
    decreases i
  {
    MulUnitBound(d, acc);
    if i > 1 {
      MulUnitBound(d, d);
      MulUnitBound(acc, d);
      PowerLoopUnit(Mul(d, d), if i % 2 != 0 then Mul(acc, d) else acc, i / 2);
    }
  }

  /** A value divided by itself is exactly one. */
  lemma QuoSelf(a: Dec)
    requires a != 0
    ensures Quo(a, a) == One
  {
    assert a * Precision * Precision == (Precision * Precision) * a;
    TruncDivExact(Precision * Precision, a);
    ChopRoundExact(Precision);
  }

  /** Zero divided by anything non-zero is zero. */
  lemma QuoZero(b: Dec)
    requires b != 0
    ensures Quo(0, b) == 0
  {
    ChopRoundExact(0);
  }

  /** Quo is monotone in its numerator for a positive denominator. */
  lemma QuoMonoLeft(a: Dec, a': Dec, b: Dec)
    requires a <= a' && b > 0
    ensures Quo(a, b) <= Quo(a', b)
  {
    var n, n' := a * Precision * Precision, a' * Precision * Precision;
    assert n <= n';
    TruncDivMono(n, n', b);
    ChopRoundMono(TruncDiv(n, b), TruncDiv(n', b));
  }

  /** Truncation of a non-negative decimal yields the largest k with k <= d. */
  lemma TruncateIntFloor(d: Dec)
    requires d >= 0
    ensures TruncateInt(d) * Precision <= d < (TruncateInt(d) + 1) * Precision
  {
  }
}
