/** BigDecimal addition, multiplication and division. */
module BigDecimalOps {
  import opened ChainModel
  import opened BigDecimal

  const DIVISION_SCALE: nat := 34
  const MAX_SCALE: nat := 10_000

  // ----- powers of ten, cached -----

  function Pow10Checked(scale: int): Result<int> {
    if 0 <= scale <= MAX_SCALE then Ok(Pow10(scale)) else Err
  }

  class Pow10Cache {
    var cache: map<nat, int>

    ghost predicate Valid()
      reads this
    {
      forall n :: n in cache ==> cache[n] == Pow10(n)
    }

    constructor ()
      ensures Valid()
    {
      cache := map[0 := 1];
    }

    /** A cached power is the power: the cache never changes a result. */
    method Power(scale: nat) returns (r: Result<int>)
      requires Valid()
      modifies this
      ensures Valid() && r == (if scale <= 10_000 then Ok(Pow10(scale)) else Err)
      ensures old(cache).Keys <= cache.Keys && forall n :: n in old(cache) ==> cache[n] == old(cache)[n]
    {
      if scale > MAX_SCALE { return Err; }
      if scale in cache { return Ok(cache[scale]); }
      var value := 1;
      for n := 0 to scale
        invariant value == Pow10(n)
      {
        value := 10 * value;
      }
      cache := cache[scale := value];
      r := Ok(value);
    }
  }

  // ----- addition -----

  function DecimalShift(digits: int, shift: int): Result<int> {
    if shift < 0 then Err
    else
      var p := Pow10Checked(shift);
      if p.Err? then Err else Ok(digits * p.value)
  }

  /** The position of the leading digit; an exponent or order outside the 64-bit range is an error. */
  function DecimalOrder(d: Dec): Result<int> {
    if !FitsI64(d.exp) || !FitsI64(NumDigits(Abs(d.digits)) + d.exp) then Err
    else Ok(NumDigits(Abs(d.digits)) + d.exp)
  }

  /** When the leading digits are more than 34 places apart, the larger operand alone.  The
      64-bit subtraction and absolute value must not overflow. */
  function SignificantOperandForLargeGap(l: Dec, r: Dec): Result<Option<Dec>> {
    var lo, ro := DecimalOrder(l), DecimalOrder(r);
    if lo.Err? || ro.Err? || !FitsI64(Abs(lo.value - ro.value)) then Err
    else if Abs(lo.value - ro.value) <= PRECISION then Ok(None)
    else if lo.value > ro.value then Ok(Some(l))
    else Ok(Some(r))
  }

  function AddBigDecimals(l: Dec, r: Dec): Result<Dec> {
    if l.digits == 0 then Ok(Normalize(r))
    else if r.digits == 0 then Ok(Normalize(l))
    else
      AddNormalized(Normalize(l), Normalize(r))
  }

  /** The larger one of two numbers far apart, or the sum of both over their smaller exponent. */
  function AddNormalized(a: Dec, b: Dec): Result<Dec> {
    var alone := SignificantOperandForLargeGap(a, b);
    if alone.Err? then Err
    else if alone.value.Some? then Ok(Normalize(alone.value.value))
    else
      var exp := Min(a.exp, b.exp);
      var x, y := DecimalShift(a.digits, a.exp - exp), DecimalShift(b.digits, b.exp - exp);
      if x.Err? || y.Err? then Err else Ok(Normalize(Dec(x.value + y.value, exp)))
  }

  // ----- what addition means -----

  function ExactSum(a: Dec, b: Dec): Dec {
    var k := Min(a.exp, b.exp);
    Dec(Scaled(a, k) + Scaled(b, k), k)
  }

  function Order(d: Dec): int {
    NumDigits(Abs(d.digits)) + d.exp
  }

  /** The orders fit 64 bits, and so does their difference. */
  predicate OrdersFit(a: Dec, b: Dec) {
    && FitsI64(a.exp) && FitsI64(b.exp) && FitsI64(Order(a)) && FitsI64(Order(b)) && FitsI64(Abs(Order(a) - Order(b)))
  }

  /** `big` is plus or minus a power of ten, `small` has the other sign, leads 35 places below, and is more
      than half a unit there. */
  predicate Misses(big: Dec, small: Dec) {
    && Abs(big.digits) == 1 && (big.digits < 0) != (small.digits < 0)
    && Order(big) - Order(small) == 35
    && 2 * Abs(small.digits) > Pow10(NumDigits(Abs(small.digits)))
  }

  lemma CanonicalDigits(d: Dec)
    requires Canonical(d)
    ensures 1 <= NumDigits(Abs(d.digits)) <= PRECISION
  {
    CanonicalFixed(d);
  }

  /** Operands at most 34 places apart are aligned by at most 67 places, far below the limit of `pow10`. */
  lemma AlignmentBound(a: Dec, b: Dec)
    requires Canonical(a) && Canonical(b) && Abs(Order(a) - Order(b)) <= PRECISION
    ensures Abs(a.exp - b.exp) <= 67
  {
    CanonicalDigits(a);
    CanonicalDigits(b);
  }

  // ----- the large gap -----

  /** `big` is a multiple of its 34th digit's unit, in the scale of `small`. */
  lemma GapShape(m: nat, n: nat, e: nat, p: nat)
    requires 1 <= NumDigits(m) <= p && m > 0
    requires NumDigits(m) + n == e + p && e <= n
    ensures var k := Shift(m, n - e);
            && Shift(m, n) == Shift(k, e) && k > 0 && Pow10(p - 1) <= k < Pow10(p)
  {
    ShiftShift(m, n - e, e);
    NumDigitsShift(m, n - e);
    NumDigitsBounds(Shift(m, n - e));
  }

  /** Adding less than a tenth of a unit to a 34-digit number is rounded away. */
  lemma TinyAdded(k: nat, e: nat, b: nat, p: nat)
    requires 1 <= e && p == PRECISION && Pow10(p - 1) <= k < Pow10(p) && b < Pow10(e - 1)
    ensures Shift(k, e) + b >= 0 && Round34(Shift(k, e) + b) == Shift(k, e)
  {
    var s := Shift(k, e) + b;
    ShiftPositive(e - 1);
    ShiftZero(e);
    ShiftMono(0, k, e);
    TinyDigits(k, e, b, p, s);
    RoundsTo(s, e, k);
  }

  lemma TinyDigits(k: nat, e: nat, b: nat, p: nat, s: nat)
    requires 1 <= e && p == PRECISION && Pow10(p - 1) <= k < Pow10(p) && b < Pow10(e - 1)
    requires s == Shift(k, e) + b
    ensures NumDigits(s) == p + e
  {
    ShiftMono(Pow10(p - 1), k, e);
    ShiftMono(k + 1, Pow10(p), e);
    ShiftAdd(k, 1, e);
    ShiftShift(1, p - 1, e);
    ShiftShift(1, p, e);
    ShiftPositive(e - 1);
    NumDigitsUnique(s, p + e);
  }

  lemma RoundsTo(s: nat, e: nat, k: nat)
    requires NumDigits(s) == PRECISION + e && e > 0 && NearestAway(s, e, k)
    ensures Round34(s) == Shift(k, e)
  {
    KeptNearest(s);
    NearestMono(s, s, e, k, Kept(s));
    NearestMono(s, s, e, Kept(s), k);
  }

  /** So is taking it away, unless that loses the leading digit. */
  lemma TinyTaken(k: nat, e: nat, b: nat, p: nat)
    requires 1 <= e && p == PRECISION && Pow10(p - 1) < k < Pow10(p) && b < Pow10(e - 1)
    ensures Shift(k, e) - b >= 0 && Round34(Shift(k, e) - b) == Shift(k, e)
  {
    var q, d := p - 1, e - 1;
    TakenDigits(k, e, b, p, q, d);
    var s: nat := Shift(k, e) - b;
    RoundsTo(s, e, k);
  }

  lemma TakenDigits(k: nat, e: nat, b: nat, p: nat, q: nat, d: nat)
    requires d == e - 1 && q == p - 1 && p == PRECISION && Pow10(q) < k < Pow10(p) && b < Pow10(d)
    ensures Shift(k, e) - b >= 0
    ensures var s: nat := Shift(k, e) - b; NumDigits(s) == p + e && NearestAway(s, e, k)
  {
    TakenBounds(k, e, b, p, q, d);
    assert Pow10(e) == 10 * Pow10(d);
    NumDigitsUnique(Shift(k, e) - b, p + e);
  }

  lemma TakenBounds(k: nat, e: nat, b: nat, p: nat, q: nat, d: nat)
    requires d == e - 1 && q == p - 1 && Pow10(q) < k < Pow10(p) && b < Pow10(d)
    ensures Pow10(q + e) <= Shift(k, e) - b < Pow10(p + e)
  {
    ShiftPositive(d);
    ShiftMono(Pow10(q) + 1, k, e);
    ShiftAdd(Pow10(q), 1, e);
    ShiftShift(1, q, e);
    ShiftMono(k, Pow10(p), e);
    ShiftShift(1, p, e);
  }

  /** Taking it from a power of ten loses the leading digit: the unit becomes ten times finer, and the
      result is rounded back to the power exactly when at most half of that unit was taken. */
  lemma TinyFromPower(e: nat, b: nat, p: nat)
    requires 2 <= e && p == PRECISION && 0 < b < Pow10(e - 1)
    ensures Pow10(p - 1 + e) - b > 0
    ensures Round34(Pow10(p - 1 + e) - b) == Pow10(p - 1 + e) <==> 2 * b <= Pow10(e - 1)
  {
    Pow10Mono(e - 1, p - 2 + e);
    assert Pow10(p - 1 + e) == 10 * Pow10(p - 2 + e);
    var s: nat := Pow10(p - 1 + e) - b;
    NumDigitsUnique(s, p - 1 + e);
    ShiftShift(1, p, e - 1);
    ShiftPositive(p);
    var k: nat := Pow10(p);
    if 2 * b <= Pow10(e - 1) {
      RoundsTo(s, e - 1, k);
    } else {
      KeptNearest(s);
      ShiftInjective(Kept(s), k, e - 1);
    }
  }

  /** The kept digits are a bare power of ten exactly when the coefficient is 1. */
  lemma PowerOfTen(m: nat, j: nat, n: nat)
    requires m % 10 != 0 && m > 0 && NumDigits(m) + j == n
    ensures Shift(m, j) == Pow10(n - 1) <==> m == 1
  {
    if Shift(m, j) == Pow10(n - 1) && NumDigits(m) > 1 {
      ShiftShift(1, NumDigits(m) - 1, j);
      ShiftInjective(m, Pow10(NumDigits(m) - 1), j);
    }
    if NumDigits(m) == 1 {
      ShiftInjective(m, 1, j);
    }
  }

  /** How far below the kept digits the small operand leads. */
  lemma SmallBelow(b: nat, e: nat)
    requires b > 0 && NumDigits(b) < e
    ensures b < Pow10(e - 1)
    ensures 2 * b > Pow10(e - 1) <==> e == NumDigits(b) + 1 && 2 * b > Pow10(NumDigits(b))
  {
    NumDigitsBounds(b);
    Pow10Mono(NumDigits(b), e - 1);
  }

  /** A 34-digit number `k` in units of `10^e`, plus or minus less than a tenth of a unit. */
  lemma GapCases(k: nat, e: nat, b: nat, opposite: bool, p: nat, big: int, s: int, miss: bool)
    requires p == PRECISION && 2 <= e && 0 < b < Pow10(e - 1) && 0 < k && Pow10(p - 1) <= k < Pow10(p)
    requires big == Shift(k, e) && s == (if opposite then big - b else big + b)
    requires miss == (opposite && k == Pow10(p - 1) && 2 * b > Pow10(e - 1))
    ensures s > 0 && (Round34(s) == big <==> !miss)
  {
    TakenPositive(k, e, b);
    if !opposite {
      TinyAdded(k, e, b, p);
    } else if k != Pow10(p - 1) {
      TinyTaken(k, e, b, p);
    } else {
      ShiftShift(1, p - 1, e);
      TinyFromPower(e, b, p);
    }
  }

  /** The magnitudes of a sum over a large gap, in the scale of the small operand. */
  lemma GapRounds(m: nat, n: nat, b: nat, opposite: bool, p: nat, big: int, s: int)
    requires p == PRECISION && big == Shift(m, n) && s == (if opposite then big - b else big + b)
    requires m > 0 && b > 0 && m % 10 != 0 && NumDigits(m) <= PRECISION
    requires NumDigits(m) + n - NumDigits(b) > PRECISION
    ensures var gap := NumDigits(m) + n - NumDigits(b);
            s > 0 && (Round34(s) == big <==> !(opposite && m == 1 && gap == 35 && 2 * b > Pow10(NumDigits(b))))
  {
    var e := NumDigits(m) + n - PRECISION;
    var k := Shift(m, n - e);
    assert k > 0 && Shift(m, n) == Shift(k, e) && Pow10(p - 1) <= k < Pow10(p) by { GapShape(m, n, e, p); }
    assert k == Pow10(p - 1) <==> m == 1 by { PowerOfTen(m, n - e, p); }
    SmallBelow(b, e);
    GapCases(k, e, b, opposite, p, big, s, opposite && m == 1 && 2 * b > Pow10(e - 1));
  }

  lemma TakenPositive(k: nat, e: nat, b: nat)
    requires 1 <= e && 1 <= k && b < Pow10(e - 1)
    ensures Shift(k, e) - b > 0
  {
    ShiftMono(1, k, e);
    ShiftPositive(e - 1);
  }

  // ----- the law of addition -----

  /** Over a large gap, the larger operand is the normalized exact sum exactly when it does not miss. */
  lemma LargeGap(big: Dec, small: Dec)
    requires Canonical(big) && Canonical(small) && Order(big) - Order(small) > PRECISION
    ensures small.exp <= big.exp
    ensures Normalize(ExactSum(big, small)) == big <==> !Misses(big, small)
  {
    CanonicalDigits(big);
    CanonicalDigits(small);
    var m, n, b := Abs(big.digits), big.exp - small.exp, Abs(small.digits);
    var opposite := (big.digits < 0) != (small.digits < 0);
    AbsLastDigit(big.digits);
    var sum := ExactSum(big, small);
    var s := if opposite then Shift(m, n) - b else Shift(m, n) + b;
    GapRounds(m, n, b, opposite, PRECISION, Shift(m, n), s);
    ShiftAbs(big.digits, n);
    SumParts(big.digits, small.digits, n, s);
    BigIsRounded(big, sum, n, s);
  }

  lemma AbsLastDigit(x: int)
    requires x % 10 != 0
    ensures Abs(x) % 10 != 0
  {
  }

  /** The sum has the sign of the big operand and the magnitude `s`. */
  lemma SumParts(x: int, y: int, n: nat, s: int)
    requires x != 0 && y != 0 && s > 0
    requires s == if (x < 0) != (y < 0) then Shift(Abs(x), n) - Abs(y) else Shift(Abs(x), n) + Abs(y)
    ensures Shift(x, n) + y == if x < 0 then -s else s
  {
    ShiftAbs(x, n);
  }

  /** A canonical number is the normalization of a sum exactly when the sum's magnitude rounds to its own. */
  lemma BigIsRounded(big: Dec, sum: Dec, n: nat, s: int)
    requires Canonical(big) && sum.exp + n == big.exp && s > 0
    requires sum.digits == if big.digits < 0 then -s else s
    ensures Normalize(sum) == big <==> Round34(s) == Shift(Abs(big.digits), n)
  {
    var r := Normalize(sum);
    NormalizeMeaning(sum);
    ShiftAbs(big.digits, n);
    CompareAt(r, big, sum.exp);
    if Scaled(r, sum.exp) == Scaled(big, sum.exp) { CanonicalUnique(r, big); }
  }

  lemma ExactSumSwap(a: Dec, b: Dec)
    ensures ExactSum(a, b) == ExactSum(b, a)
  {
  }

  /** Adding zero. */
  lemma SumWithZero(a: Dec)
    ensures SameValue(ExactSum(ZERO, a), a)
  {
    var k := Min(0, a.exp);
    ShiftZero(-k);
    CompareAt(ExactSum(ZERO, a), a, k);
  }

  /** Whether the large-gap shortcut misses the sum of two normalized operands. */
  predicate GapMisses(a: Dec, b: Dec) {
    Misses(a, b) || Misses(b, a)
  }

  /** The law of addition.  Two numbers can be added whenever the orders of their normalized forms, and
      the difference of those, fit 64 bits; and the result is the normalized exact sum of the normalized
      operands, except exactly when one of them is plus or minus a power of ten, the other has the other
      sign and leads 35 places below, and is more than half a unit there. */
  lemma AddMeaning(l: Dec, r: Dec)
    requires l.digits != 0 && r.digits != 0
    ensures var a, b := Normalize(l), Normalize(r);
            var sum := AddBigDecimals(l, r);
            && (sum.Ok? <==> OrdersFit(a, b))
            && (sum.Ok? ==> (sum.value == Normalize(ExactSum(a, b)) <==> !GapMisses(a, b)))
  {
    NormalizeMeaning(l);
    NormalizeMeaning(r);
    SumMeaning(Normalize(l), Normalize(r));
  }

  lemma SumMeaning(a: Dec, b: Dec)
    requires Canonical(a) && Canonical(b)
    ensures var sum := AddNormalized(a, b);
            && (sum.Ok? <==> OrdersFit(a, b))
            && (sum.Ok? ==> (sum.value == Normalize(ExactSum(a, b)) <==> !GapMisses(a, b)))
  {
    if OrdersFit(a, b) {
      if Abs(Order(a) - Order(b)) > PRECISION { SumLarge(a, b); } else { Aligned(a, b, Min(a.exp, b.exp)); }
    }
  }

  lemma SumLarge(a: Dec, b: Dec)
    requires Canonical(a) && Canonical(b) && OrdersFit(a, b) && Abs(Order(a) - Order(b)) > PRECISION
    ensures var sum := AddNormalized(a, b);
            sum.Ok? && (sum.value == Normalize(ExactSum(a, b)) <==> !GapMisses(a, b))
  {
    CanonicalFixed(a);
    CanonicalFixed(b);
    if Order(a) - Order(b) > PRECISION {
      LargeGap(a, b);
    } else {
      LargeGap(b, a);
      ExactSumSwap(a, b);
    }
  }

  /** Without a large gap both coefficients are shifted to the smaller exponent. */
  lemma Aligned(a: Dec, b: Dec, exp: int)
    requires Canonical(a) && Canonical(b) && OrdersFit(a, b)
    requires Abs(Order(a) - Order(b)) <= PRECISION && exp == Min(a.exp, b.exp)
    ensures DecimalShift(a.digits, a.exp - exp) == Ok(Scaled(a, exp))
    ensures DecimalShift(b.digits, b.exp - exp) == Ok(Scaled(b, exp))
  {
    AlignmentBound(a, b);
    ShiftIsTimes(a.digits, a.exp - exp);
    ShiftIsTimes(b.digits, b.exp - exp);
  }

  /** Adding zero normalizes the other operand, which is the exact sum. */
  lemma AddZero(l: Dec, r: Dec)
    requires l.digits == 0 || r.digits == 0
    ensures AddBigDecimals(l, r) == Ok(Normalize(ExactSum(Normalize(l), Normalize(r))))
  {
    var a, b := Normalize(l), Normalize(r);
    NormalizeIdempotent(l);
    NormalizeIdempotent(r);
    if l.digits == 0 {
      SumWithZero(b);
      NormalizeValue(ExactSum(a, b), b);
    } else {
      ExactSumSwap(a, b);
      SumWithZero(a);
      NormalizeValue(ExactSum(a, b), a);
    }
  }

  /** Addition is commutative, errors included. */
  lemma AddCommutes(l: Dec, r: Dec)
    ensures AddBigDecimals(l, r) == AddBigDecimals(r, l)
  {
    if l.digits == 0 && r.digits == 0 {
    } else if l.digits != 0 && r.digits != 0 {
      SumCommutes(Normalize(l), Normalize(r));
    }
  }

  lemma SumCommutes(a: Dec, b: Dec)
    ensures AddNormalized(a, b) == AddNormalized(b, a)
  {
    GapCommutes(a, b);
    var alone := SignificantOperandForLargeGap(a, b);
    if alone.Ok? && alone.value.None? {
      var exp := Min(a.exp, b.exp);
      assert exp == Min(b.exp, a.exp);
      var x, y := DecimalShift(a.digits, a.exp - exp), DecimalShift(b.digits, b.exp - exp);
      assert x.Ok? && y.Ok? ==> x.value + y.value == y.value + x.value;
    }
  }

  lemma GapCommutes(a: Dec, b: Dec)
    ensures SignificantOperandForLargeGap(a, b) == SignificantOperandForLargeGap(b, a)
  {
    var lo, ro := DecimalOrder(a), DecimalOrder(b);
    assert lo.Ok? && ro.Ok? ==> Abs(lo.value - ro.value) == Abs(ro.value - lo.value);
  }

  /** When the shortcut misses, it errs by the small operand, which is below one unit 35 places down. */
  lemma MissError(big: Dec, small: Dec)
    requires Canonical(big) && Canonical(small) && Misses(big, small)
    ensures small.exp <= Order(big) - 35 && small.exp <= big.exp
    ensures ExactSum(big, small).exp == small.exp
    ensures Abs(Scaled(big, small.exp) - ExactSum(big, small).digits) < Pow10(Order(big) - 35 - small.exp)
  {
    NumDigitsBounds(Abs(small.digits));
  }

  /** The smallest miss: 1 plus -6e-35 gives 1, whose normalized exact sum is 0.9999999999999999999999999999999999. */
  lemma MissExample()
    ensures AddBigDecimals(Dec(1, 0), Dec(-6, -35)) == Ok(Dec(1, 0))
    ensures Normalize(ExactSum(Dec(1, 0), Dec(-6, -35))) != Dec(1, 0)
  {
    var a, b := Dec(1, 0), Dec(-6, -35);
    ShiftPositive(34);
    Pow10Mono(1, 34);
    CanonicalFixed(a);
    CanonicalFixed(b);
    LargeGap(a, b);
  }

  // ----- multiplication -----

  function MultiplyBigDecimals(l: Dec, r: Dec): Result<Dec> {
    if !FitsI64(l.exp) || !FitsI64(r.exp) || !FitsI64(l.exp + r.exp) then Err
    else Ok(Normalize(Dec(l.digits * r.digits, l.exp + r.exp)))
  }

  /** Products do not depend on how the operands' values are written. */
  lemma MultiplyValue(l: Dec, r: Dec, l': Dec, r': Dec)
    requires SameValue(l, l') && SameValue(r, r')
    requires MultiplyBigDecimals(l, r).Ok? && MultiplyBigDecimals(l', r').Ok?
    ensures MultiplyBigDecimals(l, r) == MultiplyBigDecimals(l', r')
  {
    var j, k := Min(l.exp, l'.exp), Min(r.exp, r'.exp);
    ShiftProduct(l.digits, l.exp - j, r.digits, r.exp - k);
    ShiftProduct(l'.digits, l'.exp - j, r'.digits, r'.exp - k);
    var p, q := Dec(l.digits * r.digits, l.exp + r.exp), Dec(l'.digits * r'.digits, l'.exp + r'.exp);
    SameAt(p, q, j + k);
    NormalizeValue(p, q);
  }

  lemma SameAt(p: Dec, q: Dec, k: int)
    requires k <= p.exp && k <= q.exp && Scaled(p, k) == Scaled(q, k)
    ensures SameValue(p, q)
  {
    CompareAt(p, q, k);
  }

  lemma ShiftProduct(a: int, i: nat, b: int, j: nat)
    ensures Shift(a, i) * Shift(b, j) == Shift(a * b, i + j)
  {
    ShiftLeft(a, i, Shift(b, j));
    ShiftRight(a, b, j);
    ShiftShift(a * b, j, i);
  }

  lemma {:induction false} ShiftLeft(a: int, i: nat, b: int)
    ensures Shift(a, i) * b == Shift(a * b, i)
  {
    if i > 0 {
      ShiftLeft(a, i - 1, b);
      TimesLeft(Shift(a, i - 1), b);
    }
  }

  lemma {:induction false} ShiftRight(a: int, b: int, j: nat)
    ensures a * Shift(b, j) == Shift(a * b, j)
  {
    if j > 0 {
      ShiftRight(a, b, j - 1);
      TimesTen(a, Shift(b, j - 1));
    }
  }

  lemma TimesLeft(a: int, b: int)
    ensures (10 * a) * b == 10 * (a * b)
  {
  }

  /** The product is the exact product rounded to 34 digits: its value, in units of the exact product's
      last place, is the rounded coefficient. */
  lemma MultiplyMeaning(l: Dec, r: Dec)
    ensures MultiplyBigDecimals(l, r).Ok? <==> FitsI64(l.exp) && FitsI64(r.exp) && FitsI64(l.exp + r.exp)
    ensures MultiplyBigDecimals(l, r).Ok? ==>
              var p := MultiplyBigDecimals(l, r).value;
              if l.digits * r.digits == 0 then p == Dec(0, 0)
              else
                && Canonical(p) && p.exp >= l.exp + r.exp
                && Scaled(p, l.exp + r.exp) == RoundInt(l.digits * r.digits)
  {
    if l.digits * r.digits != 0 { NormalizeMeaning(Dec(l.digits * r.digits, l.exp + r.exp)); }
  }

  // ----- division -----

  /** Division that truncates towards zero. */
  function TruncDiv(a: int, b: int): int
    requires b != 0
  {
    var q := Abs(a) / Abs(b);
    if (a < 0) == (b < 0) then q else -q
  }

  function DivideBigDecimals(l: Dec, r: Dec): Result<Dec> {
    if !FitsI64(l.exp) || !FitsI64(r.exp) then Err
    else if r.digits == 0 then Err
    else
      var scale := Pow10Checked(DIVISION_SCALE);
      if scale.Err? || !FitsI64(l.exp - r.exp) || !FitsI64(l.exp - r.exp - DIVISION_SCALE) then Err
      else Ok(Normalize(Dec(TruncDiv(l.digits * scale.value, r.digits), l.exp - r.exp - DIVISION_SCALE)))
  }

  /** The truncated quotient is within the divisor of the dividend, and not beyond it. */
  lemma TruncDivBounds(a: int, b: int)
    requires b != 0
    ensures var q := TruncDiv(a, b);
            Abs(a - q * b) < Abs(b) && Abs(q * b) <= Abs(a) && (q * b == 0 || (q * b < 0) == (a < 0))
  {
    var m, n := Abs(a), Abs(b);
    var q: int := m / n;
    var t := TruncDiv(a, b);
    Quotient(m, n, q);
    ProductSign(q, n, b, t, a < 0);
    assert t * b == if a < 0 then -(q * n) else q * n;
  }

  lemma Quotient(m: int, n: int, q: int)
    requires m >= 0 && n > 0 && q == m / n
    ensures 0 <= q * n <= m < q * n + n
  {
    assert m == q * n + m % n;
    QuotientSign(q, n);
  }

  /** The quotient's sign makes its product with the divisor have the dividend's sign. */
  lemma ProductSign(q: int, n: int, b: int, t: int, negative: bool)
    requires n == Abs(b) && b != 0 && t == if negative == (b < 0) then q else -q
    ensures t * b == if negative then -(q * n) else q * n
  {
    if b < 0 {
      NegFactor(t, n);
    }
    NegProduct(q, n);
  }

  lemma QuotientSign(q: nat, n: nat)
    ensures q * n >= 0
  {
  }

  lemma NegProduct(q: int, n: int)
    ensures (-q) * n == -(q * n)
  {
  }

  lemma NegFactor(q: int, n: int)
    ensures q * (-n) == -(q * n)
  {
  }

  /** Division fails exactly on a zero divisor and on exponents out of range; otherwise the result is the
      34-digit rounding of a quotient `q` with |left * 10^34 - q * right| < |right|, truncated towards zero. */
  lemma DivideMeaning(l: Dec, r: Dec, p: nat)
    requires p == 34
    ensures DivideBigDecimals(l, r).Ok?
       <==> r.digits != 0 && FitsI64(l.exp) && FitsI64(r.exp) && FitsI64(l.exp - r.exp) && FitsI64(l.exp - r.exp - 34)
    ensures DivideBigDecimals(l, r).Ok? ==>
              exists q: int ::
                && DivideBigDecimals(l, r).value == Normalize(Dec(q, l.exp - r.exp - 34))
                && Abs(l.digits * Pow10(p) - q * r.digits) < Abs(r.digits)
                && Abs(q * r.digits) <= Abs(l.digits * Pow10(p))
                && (q * r.digits == 0 || (q * r.digits < 0) == (l.digits * Pow10(p) < 0))
  {
    if DivideBigDecimals(l, r).Ok? {
      TruncDivBounds(l.digits * Pow10(p), r.digits);
    }
  }

  /** Numbers of equal value have products of equal value with the same factor. */
  lemma SameTimes(x: Dec, y: Dec, r: Dec)
    requires SameValue(x, y)
    ensures SameValue(Dec(x.digits * r.digits, x.exp + r.exp), Dec(y.digits * r.digits, y.exp + r.exp))
  {
    var k := Min(x.exp, y.exp);
    ShiftProduct(x.digits, x.exp - k, r.digits, 0);
    ShiftProduct(y.digits, y.exp - k, r.digits, 0);
    SameAt(Dec(x.digits * r.digits, x.exp + r.exp), Dec(y.digits * r.digits, y.exp + r.exp), k + r.exp);
  }

  /** A quotient of at most 34 digits that divides without remainder is the quotient: times the divisor it has the value
      of the dividend. */
  lemma DivideExact(l: Dec, r: Dec, q: int, p: nat)
    requires p == 34 && DivideBigDecimals(l, r).Ok? && l.digits * Pow10(p) == q * r.digits
    requires NumDigits(Abs(q)) <= p
    ensures var d := DivideBigDecimals(l, r).value;
            SameValue(Dec(d.digits * r.digits, d.exp + r.exp), l)
  {
    var exp := l.exp - r.exp - p;
    ExactQuotient(l.digits * Pow10(p), r.digits, q);
    var d := Normalize(Dec(q, exp));
    assert DivideBigDecimals(l, r).value == d;
    ShortSame(Dec(q, exp));
    SameTimes(d, Dec(q, exp), r);
    ShiftProduct(l.digits, 0, 1, p);
    assert Dec(q * r.digits, exp + r.exp) == Dec(Shift(l.digits, p), l.exp - p);
    TrailingZeros(l, p);
    SameTrans(Dec(d.digits * r.digits, d.exp + r.exp), Dec(q * r.digits, exp + r.exp), l);
  }

  lemma ExactQuotient(a: int, b: int, q: int)
    requires b != 0 && a == q * b
    ensures TruncDiv(a, b) == q
  {
    var t := TruncDiv(a, b);
    TruncDivBounds(a, b);
    FactorOut(q, t, b);
    if q != t { AtLeastOne(q - t, b); }
  }

  lemma FactorOut(q: int, t: int, b: int)
    ensures q * b - t * b == (q - t) * b
  {
  }

  lemma AtLeastOne(x: int, b: int)
    requires x != 0
    ensures Abs(x * b) >= Abs(b)
  {
  }

  /** Normalizing a number of at most 34 digits keeps its value. */
  lemma ShortSame(d: Dec)
    requires NumDigits(Abs(d.digits)) <= 34
    ensures SameValue(Normalize(d), d)
  {
    if d.digits == 0 {
      NormalizeIdempotent(d);
      ShiftZero(Abs(d.exp));
    } else {
      NormalizeError(d);
      SameAt(Normalize(d), d, d.exp);
    }
  }

  lemma TrailingZeros(l: Dec, p: nat)
    ensures SameValue(Dec(Shift(l.digits, p), l.exp - p), l)
  {
    SameAt(Dec(Shift(l.digits, p), l.exp - p), l, l.exp - p);
  }

  lemma SameTrans(x: Dec, y: Dec, z: Dec)
    requires SameValue(x, y) && SameValue(y, z)
    ensures SameValue(x, z)
  {
    var k := Min(Min(x.exp, y.exp), z.exp);
    CompareAt(x, y, k);
    CompareAt(y, z, k);
    CompareAt(x, z, k);
  }

  lemma {:induction false} ManyThrees(n: nat) returns (m: nat)
    ensures 3 * m + 1 == Pow10(n) && (n > 0 ==> m % 10 == 3)
  {
    m := 0;
    if n > 0 {
      var k := ManyThrees(n - 1);
      m := 10 * k + 3;
    }
  }

  /** One third: 34 threes, 34 places down. */
  lemma DivideThird(p: nat) returns (m: nat)
    requires p == 34
    ensures DivideBigDecimals(Dec(1, 0), Dec(3, 0)) == Ok(Dec(m, -34))
    ensures 3 * m + 1 == Pow10(p) && NumDigits(m) == p && m % 10 == 3
  {
    m := ManyThrees(p);
    var k := ManyThrees(p - 1);
    ShiftPositive(p - 1);
    NumDigitsUnique(m, p);
    ThirdOf(Pow10(p), m);
    CanonicalFixed(Dec(m, -34));
  }

  lemma ThirdOf(a: nat, m: nat)
    requires a == 3 * m + 1
    ensures TruncDiv(a, 3) == m
  {
  }

  // ----- equality -----

  function BigDecimalsEqual(l: Dec, r: Dec): bool {
    Normalize(l) == Normalize(r)
  }

  /** On numbers of at most 34 digits, the runtime's equality is equality of values. */
  lemma EqualMeaning(l: Dec, r: Dec)
    requires NumDigits(Abs(l.digits)) <= PRECISION && NumDigits(Abs(r.digits)) <= PRECISION
    ensures BigDecimalsEqual(l, r) <==> SameValue(l, r)
  {
    if SameValue(l, r) { NormalizeValue(l, r); }
    if BigDecimalsEqual(l, r) {
      NormalizeIdempotent(l);
      NormalizeIdempotent(r);
      var k := Min(Min(l.exp, r.exp), 0);
      NormalizeAt(l, k);
      NormalizeAt(r, k);
      ShortUnchanged(l, k);
      ShortUnchanged(r, k);
      CompareAt(l, r, k);
    }
  }

  lemma ShortUnchanged(d: Dec, k: int)
    requires k <= d.exp && NumDigits(Abs(d.digits)) <= PRECISION
    ensures RoundInt(Scaled(d, k)) == Scaled(d, k)
  {
    ShiftAbs(d.digits, d.exp - k);
    if d.digits != 0 { RoundExact(Abs(d.digits), d.exp - k); }
  }

  // ----- sums of operands as they are given -----

  lemma SumAt(a: Dec, b: Dec, j: int, k: int)
    requires j == Min(a.exp, b.exp) && k <= j
    ensures ExactSum(a, b).exp == j && Scaled(ExactSum(a, b), k) == Scaled(a, k) + Scaled(b, k)
  {
    ShiftAdd(Scaled(a, j), Scaled(b, j), j - k);
    ShiftShift(a.digits, a.exp - j, j - k);
    ShiftShift(b.digits, b.exp - j, j - k);
  }

  lemma ShortSums(l: Dec, r: Dec)
    requires l.digits != 0 && r.digits != 0
    requires NumDigits(Abs(l.digits)) <= PRECISION && NumDigits(Abs(r.digits)) <= PRECISION
    ensures Normalize(ExactSum(Normalize(l), Normalize(r))) == Normalize(ExactSum(l, r))
  {
    var a, b, k := Normalize(l), Normalize(r), Min(l.exp, r.exp);
    NormalizeMeaning(l);
    NormalizeMeaning(r);
    NormalizeAt(l, k);
    NormalizeAt(r, k);
    ShortUnchanged(l, k);
    ShortUnchanged(r, k);
    SumAt(l, r, k, k);
    SumAt(a, b, Min(a.exp, b.exp), k);
    NormalizeValue(ExactSum(a, b), ExactSum(l, r));
  }

  /** Operands of at most 34 digits may be taken as they are given: the sum is the normalized exact sum of
      them, except in the case missed. */
  lemma AddShort(l: Dec, r: Dec)
    requires l.digits != 0 && r.digits != 0
    requires NumDigits(Abs(l.digits)) <= PRECISION && NumDigits(Abs(r.digits)) <= PRECISION
    ensures var sum := AddBigDecimals(l, r);
            && (sum.Ok? <==> OrdersFit(Normalize(l), Normalize(r)))
            && (sum.Ok? ==> (sum.value == Normalize(ExactSum(l, r)) <==> !GapMisses(Normalize(l), Normalize(r))))
  {
    AddMeaning(l, r);
    ShortSums(l, r);
  }
}
