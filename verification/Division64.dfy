/** Python's integer division on 64-bit words: the host functions' sign correction,
    the emitted quotient, and the emitted double remainder
    (operator/dynamic.go, builtins/host.go, operator/emit.go). */
module Division64 {
  import opened Boxing
  import opened Int64
  import opened IntMath

  datatype Divided = Quotient(q: int, r: int) | DivisionByZero

  /** The one quotient that does not fit a word. */
  predicate Overflows(a: int, b: int) {
    a == MIN && b == -1
  }

  lemma Quotients(n: nat, m: nat)
    requires m > 0
    ensures 0 <= n / m <= n
    ensures m == 1 ==> n / m == n
    ensures m > 1 ==> 2 * (n / m) <= n
  {
    assert n == m * (n / m) + n % m;
    MultipleAtLeast(m, n / m);
    if m > 1 {
      MultipleAtLeast(m - 1, n / m);
      assert m * (n / m) == (m - 1) * (n / m) + n / m;
    }
  }

  lemma TruncDivFits(a: int, b: int)
    requires Fits64(a) && Fits64(b) && b != 0
    ensures !Overflows(a, b) <==> Fits64(TruncDiv(a, b))
    ensures Overflows(a, b) ==> TruncRem(a, b) == 0 && Wrap(TruncDiv(a, b)) == MIN
    ensures Fits64(TruncRem(a, b))
  {
    TruncRemRange(a, b);
    Quotients(if a >= 0 then a else -a, if b > 0 then b else -b);
  }

  /** Python's quotient is within a word unless the division overflows. */
  lemma FloorDivFits(a: int, b: int)
    requires Fits64(a) && Fits64(b) && b != 0
    ensures Fits64(FloorDiv(a, b)) <==> !Overflows(a, b)
    ensures Wrap(FloorDiv(a, b)) ==
      Wrap(Wrap(TruncDiv(a, b)) - (if TruncRem(a, b) != 0 && Xor(a, b) < 0 then 1 else 0))
    ensures Fits64(FloorMod(a, b))
  {
    TruncDivFits(a, b);
    SignCorrectedQuotient(a, b);
    FloorDivisionHolds(a, b);
    var c := if TruncRem(a, b) != 0 && Xor(a, b) < 0 then 1 else 0;
    if c == 1 && TruncDiv(a, b) == MIN {
      TruncDivisionHolds(a, b);
      TruncRemRange(a, b);
      XorSign(a, b);
      MinQuotient(a, b);
    }
  }

  /** The quotient is the smallest word only when a word is divided by one. */
  lemma MinQuotient(a: int, b: int)
    requires Fits64(a) && Fits64(b) && b != 0 && TruncDiv(a, b) == MIN
    ensures TruncRem(a, b) == 0
  {
    var m, n := if b > 0 then b else -b, if a >= 0 then a else -a;
    Quotients(n, m);
    assert n / m == -MIN;
  }

  lemma FloorModOf(a: int, b: int)
    requires b != 0
    ensures FloorMod(a, b) == TruncRem(a, b) + (if TruncRem(a, b) != 0 && Xor(a, b) < 0 then b else 0)
  {
    XorSign(a, b);
    TruncRemRange(a, b);
    TruncDivisionHolds(a, b);
    CorrectedIsFloored(a, b, TruncDiv(a, b), TruncRem(a, b), if TruncRem(a, b) != 0 && Xor(a, b) < 0 then 1 else 0);
  }

  /** The remainder and the divisor disagree in sign when the operands do. */
  lemma RemainderSign(a: int, b: int)
    requires b != 0
    ensures TruncRem(a, b) != 0 ==> (Xor(TruncRem(a, b), b) < 0 <==> Xor(a, b) < 0)
  {
    XorSign(a, b);
    XorSign(TruncRem(a, b), b);
    TruncRemRange(a, b);
  }

  lemma WrappedQuotientExact(a: int, b: int)
    requires Fits64(a) && Fits64(b) && b != 0
    ensures IsFloorDivision(a, b, Wrap(FloorDiv(a, b)), FloorMod(a, b)) <==> !Overflows(a, b)
  {
    FloorDivFits(a, b);
    FloorDivisionHolds(a, b);
    if IsFloorDivision(a, b, Wrap(FloorDiv(a, b)), FloorMod(a, b)) {
      FloorDivisionUnique(a, b, Wrap(FloorDiv(a, b)), FloorMod(a, b), FloorDiv(a, b), FloorMod(a, b));
    }
  }

  method PyFloorDiv(a: int, b: int) returns (q: int)
    requires Fits64(a) && Fits64(b) && b != 0
    ensures q == Wrap(FloorDiv(a, b))
    ensures q == FloorDiv(a, b) <==> !Overflows(a, b)
  {
    q := Wrap(TruncDiv(a, b));
    var r := TruncRem(a, b);
    FloorDivFits(a, b);
    if r != 0 && Xor(a, b) < 0 {
      q := Wrap(q - 1);
    }
  }

  method PyMod(a: int, b: int) returns (r: int)
    requires Fits64(a) && Fits64(b) && b != 0
    ensures r == FloorMod(a, b)
  {
    r := TruncRem(a, b);
    FloorDivFits(a, b);
    FloorModOf(a, b);
    if r != 0 && Xor(a, b) < 0 {
      r := Wrap(r + b);
    }
  }

  /** A host function's integer argument: inline in its box, or spilled to a heap
      cell because it does not fit one. */
  datatype Operand = Inlined(number: int) | Spilled(number: int, addr: nat)
  {
    /** The cell's address fits a box as well. */
    ghost predicate Valid() {
      if Inlined? then Inline(number) else !Inline(number) && Inline(addr)
    }

    /** What is read without looking whether the number was spilled. */
    function Payload(): int {
      if Inlined? then number else addr
    }
  }

  /** The one quotient of inline operands that does not fit a box. */
  predicate BoxOverflows(a: int, b: int) {
    a == INLINE_MIN && b == -1
  }

  /** Boxing quotient and remainder of inline operands keeps them, but for that
      quotient. */
  lemma BoxedDivision(a: int, b: int)
    requires Inline(a) && Inline(b) && b != 0
    ensures !Overflows(a, b) && Inline(FloorMod(a, b))
    ensures Inline(FloorDiv(a, b)) <==> !BoxOverflows(a, b)
    ensures IsFloorDivision(a, b, Boxed(FloorDiv(a, b)), Boxed(FloorMod(a, b))) <==> !BoxOverflows(a, b)
  {
    hide Boxed;
    FloorDivisionHolds(a, b);
    QuotientInline(a, b);
    if IsFloorDivision(a, b, Boxed(FloorDiv(a, b)), Boxed(FloorMod(a, b))) {
      FloorDivisionUnique(a, b, Boxed(FloorDiv(a, b)), Boxed(FloorMod(a, b)), FloorDiv(a, b), FloorMod(a, b));
    }
  }

  lemma QuotientInline(a: int, b: int)
    requires Inline(a) && Inline(b) && b != 0
    ensures Inline(FloorDiv(a, b)) <==> !BoxOverflows(a, b)
  {
    TruncRemRange(a, b);
    SignCorrectedQuotient(a, b);
    TruncDivisionHolds(a, b);
    Quotients(if a >= 0 then a else -a, if b > 0 then b else -b);
    if TruncDiv(a, b) == INLINE_MIN {
      assert TruncRem(a, b) == 0;
    }
  }

  /** `divmod`, which tests the remainder's sign instead of the dividend's. It reads
      the boxes as they are and boxes what it computed. */
  method DivmodHost(left: Operand, right: Operand) returns (d: Divided)
    requires left.Valid() && right.Valid()
    ensures d.DivisionByZero? <==> right.Payload() == 0
    ensures d.Quotient? ==>
      d.q == Boxed(FloorDiv(left.Payload(), right.Payload())) && d.r == FloorMod(left.Payload(), right.Payload())
    ensures d.Quotient? && right.Inlined? ==>
      (IsFloorDivision(left.number, right.number, d.q, d.r) <==>
         left.Inlined? && !BoxOverflows(left.number, right.number))
  {
    var a, b := left.Payload(), right.Payload();
    if b == 0 {
      return DivisionByZero;
    }
    hide IsFloorDivision, TruncDiv, TruncRem, FloorDiv, FloorMod, Xor, Boxed;
    var q := Wrap(TruncDiv(a, b));
    var r := TruncRem(a, b);
    FloorDivFits(a, b);
    FloorModOf(a, b);
    RemainderSign(a, b);
    BoxedDivision(a, b);
    if r != 0 && Xor(r, b) < 0 {
      q := Wrap(q - 1);
      r := Wrap(r + b);
    }
    d := Quotient(Boxed(q), Boxed(r));
    if left.Spilled? {
      OneDividend(left.number, a, b, d.q, d.r);
    }
  }

  /** A pair is the division of one dividend at most. */
  lemma OneDividend(x: int, a: int, b: int, q: int, r: int)
    requires IsFloorDivision(a, b, q, r) && x != a
    ensures !IsFloorDivision(x, b, q, r)
  {
  }

  /** divmod(-2**48, -1): the quotient 2**48 comes back as -2**48. */
  lemma BoxedQuotientLost()
    ensures FloorDiv(INLINE_MIN, -1) == INLINE_MAX + 1 && Boxed(INLINE_MAX + 1) == INLINE_MIN
  {
    FloorDivisionHolds(INLINE_MIN, -1);
  }

  /** What the emitted quotient leaves on the stack: the truncated quotient less
      the adjustment computed from the remainder and the operands' signs. */
  function EmittedQuotient(a: int, b: int): int
    requires b != 0
  {
    var remainder := TruncRem(a, b);
    var adjustment := if remainder != 0 && Xor(a, b) < 0 then 1 else 0;
    Wrap(Wrap(TruncDiv(a, b)) - adjustment)
  }

  /** What the emitted remainder leaves: reduce, add the divisor, reduce again. */
  function EmittedMod(a: int, b: int): int
    requires b != 0
  {
    TruncRem(Wrap(TruncRem(a, b) + b), b)
  }

  lemma EmittedQuotientExact(a: int, b: int)
    requires Fits64(a) && Fits64(b) && b != 0
    ensures EmittedQuotient(a, b) == FloorDiv(a, b) <==> !Overflows(a, b)
  {
    FloorDivFits(a, b);
  }

  /** The double remainder is Python's exactly when the sum in the middle fits a
      word; when it wraps, the result has the wrong sign. */
  lemma EmittedModExact(a: int, b: int)
    requires Fits64(a) && Fits64(b) && b != 0
    ensures EmittedMod(a, b) == FloorMod(a, b) <==> Fits64(TruncRem(a, b) + b)
  {
    hide TruncDiv, TruncRem, FloorDiv, FloorMod, Xor;
    var r := TruncRem(a, b);
    TruncRemRange(a, b);
    if Fits64(r + b) {
      DoubleRemainder(a, b);
    } else {
      var w := Wrap(r + b);
      TruncRemRange(w, b);
      FloorModOf(a, b);
      XorSign(a, b);
      if b > 0 {
        assert r > 0 && w < 0;
      } else {
        assert r < 0 && w > 0;
      }
    }
  }

  /** Divisors up to 2^62 in magnitude are always safe. */
  lemma SmallDivisorsFit(a: int, b: int)
    requires Fits64(a) && b != 0 && -0x4000_0000_0000_0000 <= b <= 0x4000_0000_0000_0000
    ensures EmittedMod(a, b) == FloorMod(a, b)
  {
    TruncRemRange(a, b);
    EmittedModExact(a, b);
  }

  /** (2^63 - 2) % (2^63 - 1) comes out as -3. */
  lemma EmittedModWraps()
    ensures EmittedMod(MAX - 1, MAX) == -3
    ensures FloorMod(MAX - 1, MAX) == MAX - 1
  {
    assert TruncRem(MAX - 1, MAX) == MAX - 1;
    assert Wrap(MAX - 1 + MAX) == -3;
  }

  /** Every form of the division agrees with Python's. */
  lemma DivisionsAgree(a: int, b: int)
    requires Fits64(a) && Fits64(b) && b != 0 && !Overflows(a, b)
    ensures IsFloorDivision(a, b, EmittedQuotient(a, b), FloorMod(a, b))
    ensures Fits64(TruncRem(a, b) + b) <==> IsFloorDivision(a, b, EmittedQuotient(a, b), EmittedMod(a, b))
  {
    EmittedQuotientExact(a, b);
    EmittedModExact(a, b);
    FloorDivisionHolds(a, b);
    if IsFloorDivision(a, b, EmittedQuotient(a, b), EmittedMod(a, b)) {
      FloorDivisionUnique(a, b, EmittedQuotient(a, b), EmittedMod(a, b), FloorDiv(a, b), FloorMod(a, b));
    }
  }
}
