/** Integer arithmetic shared by the machine, the source semantics and the host
    functions: truncating division as the VM and Go compute it, floored division
    as Python defines it (Python Language Reference, section 6.7), and the
    two's-complement exclusive or, on unbounded integers. */
module IntMath {

  /** Go's and the VM's `/`: truncates toward zero. */
  function TruncDiv(a: int, b: int): int
    requires b != 0
  {
    if a >= 0 then
      if b > 0 then a / b else -(a / -b)
    else
      if b > 0 then -(-a / b) else -a / -b
  }

  /** Go's and the VM's `%`: the remainder takes the dividend's sign. */
  function TruncRem(a: int, b: int): int
    requires b != 0
  {
    a - b * TruncDiv(a, b)
  }

  /** Python's `//`. Dafny's `/` floors when the divisor is positive. */
  function FloorDiv(a: int, b: int): int
    requires b != 0
  {
    if b > 0 then a / b else -a / -b
  }

  /** Python's `%`. */
  function FloorMod(a: int, b: int): int
    requires b != 0
  {
    a - b * FloorDiv(a, b)
  }

  /** Exclusive or of two sign-extended two's-complement numbers. */
  function Xor(a: int, b: int): int
    decreases if a < 0 then -a else a, if b < 0 then -b else b
  {
    if (a == 0 || a == -1) && (b == 0 || b == -1) then
      if a == b then 0 else -1
    else
      2 * Xor(a / 2, b / 2) + (a % 2 + b % 2) % 2
  }

  /** What Python promises of a quotient and a remainder. */
  ghost predicate IsFloorDivision(a: int, b: int, q: int, r: int)
  {
    && b != 0
    && a == q * b + r
    && (if b > 0 then 0 <= r < b else b < r <= 0)
  }

  lemma FloorDivisionHolds(a: int, b: int)
    requires b != 0
    ensures IsFloorDivision(a, b, FloorDiv(a, b), FloorMod(a, b))
  {
    var q := FloorDiv(a, b);
    assert a == q * b + FloorMod(a, b);
    if b < 0 {
      assert -a == q * -b + (-a) % (-b);
      assert q * -b == -(q * b);
    }
  }

  lemma MultipleAtLeast(k: int, m: int)
    requires k >= 1 && m >= 0
    ensures k * m >= m
  {
  }

  lemma FloorDivisionUnique(a: int, b: int, q: int, r: int, q': int, r': int)
    requires IsFloorDivision(a, b, q, r) && IsFloorDivision(a, b, q', r')
    ensures q == q' && r == r'
  {
    var m := if b > 0 then b else -b;
    assert b < 0 ==> q * b == -(q * m) && q' * b == -(q' * m);
    assert (q - q') * m == q * m - q' * m;
    assert (q' - q) * m == q' * m - q * m;
    if q > q' {
      MultipleAtLeast(q - q', m);
    } else if q < q' {
      MultipleAtLeast(q' - q, m);
    }
  }

  lemma TruncRemRange(a: int, b: int)
    requires b != 0
    ensures a >= 0 ==> 0 <= TruncRem(a, b) < (if b > 0 then b else -b)
    ensures a <= 0 ==> (if b > 0 then -b else b) < TruncRem(a, b) <= 0
  {
    var m := if b > 0 then b else -b;
    var n := if a >= 0 then a else -a;
    assert n == m * (n / m) + n % m;
    assert b * -(n / m) == -(b * (n / m));
    assert b < 0 ==> b * (n / m) == -(m * (n / m));
  }

  /** The sign test of a two's-complement exclusive or. */
  lemma {:induction false} XorSign(a: int, b: int)
    ensures Xor(a, b) < 0 <==> (a < 0) != (b < 0)
    decreases if a < 0 then -a else a, if b < 0 then -b else b
  {
    if (a == 0 || a == -1) && (b == 0 || b == -1) {
    } else {
      XorSign(a / 2, b / 2);
    }
  }

  /** `~x` is lowered as an exclusive or with all ones. */
  lemma {:induction false} XorMinusOne(a: int)
    ensures Xor(a, -1) == -a - 1
    decreases if a < 0 then -a else a
  {
    if a == 0 || a == -1 {
    } else {
      XorMinusOne(a / 2);
      assert a == 2 * (a / 2) + a % 2;
    }
  }

  /** One quotient and remainder with a small enough remainder, shifted by `c`
      multiples of the divisor. */
  lemma ShiftedDivision(a: int, b: int, t: int, r: int, c: int)
    requires b != 0 && a == t * b + r
    ensures a == (t - c) * b + (r + c * b)
  {
    assert (t - c) * b == t * b - c * b;
  }

  /** Stepping the truncating quotient down by one exactly when the remainder is
      non-zero and the operands' signs differ gives the floored quotient. */
  lemma SignCorrectedQuotient(a: int, b: int)
    requires b != 0
    ensures TruncDiv(a, b) - (if TruncRem(a, b) != 0 && Xor(a, b) < 0 then 1 else 0) == FloorDiv(a, b)
  {
    XorSign(a, b);
    TruncRemRange(a, b);
    TruncDivisionHolds(a, b);
    if TruncRem(a, b) != 0 && Xor(a, b) < 0 {
      CorrectedIsFloored(a, b, TruncDiv(a, b), TruncRem(a, b), 1);
    } else {
      CorrectedIsFloored(a, b, TruncDiv(a, b), TruncRem(a, b), 0);
    }
  }

  lemma CorrectedIsFloored(a: int, b: int, t: int, r: int, c: int)
    requires b != 0 && a == t * b + r
    requires if b > 0 then 0 <= r + c * b < b else b < r + c * b <= 0
    ensures t - c == FloorDiv(a, b) && r + c * b == FloorMod(a, b)
  {
    ShiftedDivision(a, b, t, r, c);
    FloorDivisionHolds(a, b);
    FloorDivisionUnique(a, b, t - c, r + c * b, FloorDiv(a, b), FloorMod(a, b));
  }

  lemma TruncDivisionHolds(a: int, b: int)
    requires b != 0
    ensures a == TruncDiv(a, b) * b + TruncRem(a, b)
  {
  }

  /** Adding the divisor once and reducing again gives Python's remainder. */
  lemma DoubleRemainder(a: int, b: int)
    requires b != 0
    ensures TruncRem(TruncRem(a, b) + b, b) == FloorMod(a, b)
  {
    var t, r := TruncDiv(a, b), TruncRem(a, b);
    TruncRemRange(a, b);
    TruncDivisionHolds(a, b);
    var u, w := TruncDiv(r + b, b), TruncRem(r + b, b);
    TruncRemRange(r + b, b);
    TruncDivisionHolds(r + b, b);
    ShiftedDivision(a, b, t, r, 1 - u);
    assert (1 - u) * b == b - u * b;
    CorrectedIsFloored(a, b, t, r, 1 - u);
  }
}
