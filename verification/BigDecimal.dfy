/** BigDecimal numbers of the runtime: a coefficient and a power of ten, kept to 34 significant digits
    (the precision of decimal128 in IEEE 754-2008), rounded half away from zero (roundTiesToAway, section
    4.3.1 of IEEE 754-2008), with trailing zeros trimmed. */
module BigDecimal {
  import opened ChainModel

  const PRECISION: nat := 34

  /** The number `digits * 10^exp`. */
  datatype Dec = Dec(digits: int, exp: int)

  const ZERO := Dec(0, 0)

  /** `x` with `n` zeros appended: `x * 10^n`. */
  function Shift(x: int, n: nat): int {
    if n == 0 then x else 10 * Shift(x, n - 1)
  }

  function Pow10(n: nat): int {
    Shift(1, n)
  }

  /** `m` without its last `n` digits. */
  function Cut(m: nat, n: nat): nat {
    if n == 0 then m else Cut(m / 10, n - 1)
  }

  function Abs(x: int): nat {
    if x < 0 then -x else x
  }

  /** How many decimal digits a number is printed with. */
  function NumDigits(m: nat): (n: nat)
    ensures n >= 1
  {
    if m < 10 then 1 else 1 + NumDigits(m / 10)
  }

  predicate FitsI64(x: int) {
    -I64_LIMIT <= x < I64_LIMIT
  }

  // ----- shifting -----

  lemma {:induction false} ShiftAdd(a: int, b: int, n: nat)
    ensures Shift(a + b, n) == Shift(a, n) + Shift(b, n)
  {
    if n > 0 { ShiftAdd(a, b, n - 1); }
  }

  lemma {:induction false} ShiftNeg(a: int, n: nat)
    ensures Shift(-a, n) == -Shift(a, n)
  {
    if n > 0 { ShiftNeg(a, n - 1); }
  }

  lemma {:induction false} ShiftMono(a: int, b: int, n: nat)
    requires a <= b
    ensures Shift(a, n) <= Shift(b, n)
    ensures a < b ==> Shift(a, n) < Shift(b, n)
  {
    if n > 0 { ShiftMono(a, b, n - 1); }
  }

  lemma {:induction false} ShiftZero(n: nat)
    ensures Shift(0, n) == 0
  {
    if n > 0 { ShiftZero(n - 1); }
  }

  lemma {:induction false} ShiftShift(x: int, a: nat, b: nat)
    ensures Shift(Shift(x, a), b) == Shift(x, a + b)
  {
    if b > 0 { ShiftShift(x, a, b - 1); }
  }

  lemma {:induction false} ShiftTen(x: int, n: nat)
    ensures Shift(10 * x, n) == Shift(x, n + 1)
  {
    if n > 0 { ShiftTen(x, n - 1); }
  }

  lemma {:induction false} ShiftIsTimes(x: int, n: nat)
    ensures Shift(x, n) == x * Pow10(n)
  {
    if n > 0 {
      ShiftIsTimes(x, n - 1);
      TimesTen(x, Pow10(n - 1));
    }
  }

  lemma TimesTen(a: int, b: int)
    ensures 10 * (a * b) == a * (10 * b)
  {
  }

  lemma ShiftPositive(n: nat)
    ensures Pow10(n) >= 1
  {
    ShiftZero(n);
    ShiftMono(0, 1, n);
  }

  lemma ShiftAbs(x: int, n: nat)
    ensures Abs(Shift(x, n)) == Shift(Abs(x), n)
    ensures (Shift(x, n) < 0) == (x < 0) && (Shift(x, n) == 0) == (x == 0)
  {
    ShiftNeg(x, n);
    ShiftZero(n);
    if x < 0 { ShiftMono(x, 0, n); } else { ShiftMono(0, x, n); }
  }

  /** Growing the shift grows the power. */
  lemma {:induction false} Pow10Mono(a: nat, b: nat)
    requires a <= b
    ensures Pow10(a) <= Pow10(b)
    ensures a < b ==> 10 * Pow10(a) <= Pow10(b)
    decreases b
  {
    ShiftPositive(a);
    if a < b {
      Pow10Mono(a, b - 1);
    }
  }

  lemma {:induction false} NumDigitsBounds(m: nat)
    ensures m < Pow10(NumDigits(m))
    ensures m > 0 ==> Pow10(NumDigits(m) - 1) <= m
  {
    if m >= 10 {
      NumDigitsBounds(m / 10);
    }
  }

  lemma NumDigitsUnique(m: nat, n: nat)
    requires n >= 1 && Pow10(n - 1) <= m < Pow10(n)
    ensures NumDigits(m) == n
  {
    NumDigitsBounds(m);
    ShiftPositive(n - 1);
    var k := NumDigits(m);
    if k < n { Pow10Mono(k, n - 1); }
    if n < k { Pow10Mono(n, k - 1); }
  }

  lemma {:induction false} NumDigitsShift(m: nat, j: nat)
    requires m > 0
    ensures Shift(m, j) > 0 && NumDigits(Shift(m, j)) == NumDigits(m) + j
  {
    if j > 0 { NumDigitsShift(m, j - 1); }
  }

  /** Cutting digits rounds down. */
  lemma {:induction false} CutBounds(m: nat, n: nat)
    ensures Shift(Cut(m, n), n) <= m < Shift(Cut(m, n) + 1, n)
    decreases n
  {
    if n > 0 { CutBounds(m / 10, n - 1); }
  }

  lemma {:induction false} CutOnce(m: nat, n: nat)
    ensures Cut(m, n + 1) == Cut(m, n) / 10
    decreases n
  {
    if n > 0 { CutOnce(m / 10, n - 1); }
  }

  // ----- normalization, as the runtime does it -----

  /** Moves trailing zeros of the coefficient into the exponent. */
  function Trimmed(d: Dec): (r: Dec)
    requires d.digits != 0
    ensures r.digits != 0 && r.digits % 10 != 0
    ensures r.exp >= d.exp && d.digits == Shift(r.digits, r.exp - d.exp)
    decreases Abs(d.digits)
  {
    if d.digits % 10 != 0 then d else Trimmed(Dec(d.digits / 10, d.exp + 1))
  }

  method TrimTrailingDecimalZeros(d: Dec) returns (r: Dec)
    requires d.digits != 0
    ensures r == Trimmed(d)
  {
    var digits, exp := d.digits, d.exp;
    while digits % 10 == 0
      invariant digits != 0 && Trimmed(Dec(digits, exp)) == Trimmed(d)
      decreases Abs(digits)
    {
      digits, exp := digits / 10, exp + 1;
    }
    r := Dec(digits, exp);
  }

  /** The first 34 digits, one more when the next digit is 5 or above. */
  function Kept(m: nat): nat
    requires NumDigits(m) > PRECISION
  {
    var extra := NumDigits(m) - PRECISION;
    if Cut(m, extra - 1) % 10 >= 5 then Cut(m, extra) + 1 else Cut(m, extra)
  }

  /** Cuts a coefficient of more than 34 digits; a carry into a 35th digit is divided out again. */
  function Rounded(d: Dec): (r: Dec)
  {
    var m := Abs(d.digits);
    if NumDigits(m) <= PRECISION then d
    else
      var extra := NumDigits(m) - PRECISION;
      var up := Kept(m);
      var carry := NumDigits(up) > PRECISION;
      var kept := if carry then up / 10 else up;
      Dec(if d.digits < 0 then -kept else kept, d.exp + extra + if carry then 1 else 0)
  }

  function Normalize(d: Dec): Dec {
    if d.digits == 0 then ZERO
    else
      var t := Rounded(Trimmed(d));
      RoundedNonzero(Trimmed(d));
      Trimmed(t)
  }

  method NormalizeBigDecimal(d: Dec) returns (r: Dec)
    ensures r == Normalize(d)
  {
    if d.digits == 0 { return ZERO; }
    var t := TrimTrailingDecimalZeros(d);
    RoundedNonzero(t);
    t := Rounded(t);
    r := TrimTrailingDecimalZeros(t);
  }

  // ----- rounding, by what it means -----

  /** `k * 10^e` is the multiple of `10^e` nearest to `m`, the larger one when `m` lies halfway between
      two: roundTiesToAway on magnitudes. */
  predicate NearestAway(m: nat, e: nat, k: nat) {
    2 * m - Pow10(e) < 2 * Shift(k, e) <= 2 * m + Pow10(e)
  }

  /** The magnitude `m` rounded to 34 digits. */
  function Round34(m: nat): int {
    if NumDigits(m) > PRECISION then Shift(Kept(m), NumDigits(m) - PRECISION) else m
  }

  /** The signed number `x` rounded to 34 digits. */
  function RoundInt(x: int): int {
    if x < 0 then -Round34(-x) else Round34(x)
  }

  /** A number between its cuts before and after one more digit. */
  lemma NextDigit(m: nat, e: nat, next: nat)
    requires next == e + 1
    ensures var c := Cut(m, next);
            var d := Cut(m, e) % 10;
            && Shift(c, next) + Shift(d, e) <= m < Shift(c, next) + Shift(d, e) + Pow10(e)
            && 0 <= Shift(d, e) <= 9 * Pow10(e)
            && (d >= 5 ==> 5 * Pow10(e) <= Shift(d, e)) && (d < 5 ==> Shift(d, e) <= 4 * Pow10(e))
  {
    var c, d := Cut(m, next), Cut(m, e) % 10;
    CutOnce(m, e);
    CutBounds(m, e);
    ShiftAdd(Cut(m, e), 1, e);
    ShiftAdd(10 * c, d, e);
    ShiftTen(c, e);
    ShiftZero(e);
    ShiftSmall(e);
    ShiftMono(0, d, e);
    ShiftMono(d, 9, e);
    if d >= 5 { ShiftMono(5, d, e); } else { ShiftMono(d, 4, e); }
  }

  /** The runtime's test of the next digit is exactly rounding to nearest, ties away from zero. */
  lemma KeptNearest(m: nat)
    requires NumDigits(m) > PRECISION
    ensures NearestAway(m, NumDigits(m) - PRECISION, Kept(m))
  {
    var e := NumDigits(m) - PRECISION;
    UpNearest(m, e, e - 1, Kept(m));
  }

  lemma UpNearest(m: nat, e: nat, d: nat, k: nat)
    requires e == d + 1 && k == if Cut(m, d) % 10 >= 5 then Cut(m, e) + 1 else Cut(m, e)
    ensures NearestAway(m, e, k)
  {
    NextDigit(m, d, e);
    ShiftPositive(d);
    ShiftAdd(Cut(m, e), 1, e);
    assert Pow10(e) == 10 * Pow10(d);
  }

  lemma {:induction false} ShiftSmall(n: nat)
    ensures Shift(4, n) == 4 * Pow10(n) && Shift(5, n) == 5 * Pow10(n) && Shift(9, n) == 9 * Pow10(n)
  {
    if n > 0 { ShiftSmall(n - 1); }
  }

  /** Only one multiple is nearest, and rounding keeps the order. */
  lemma NearestMono(m: nat, n: nat, e: nat, j: nat, k: nat)
    requires m <= n && NearestAway(m, e, j) && NearestAway(n, e, k)
    ensures j <= k
  {
    ShiftAdd(k, 1, e);
    if k < j { ShiftMono(k + 1, j, e); }
  }

  /** A multiple of the unit on one side of `m` stays on that side. */
  lemma NearestBeyond(m: nat, e: nat, k: nat, c: nat)
    requires NearestAway(m, e, k)
    ensures m <= Shift(c, e) ==> k <= c
    ensures Shift(c, e) <= m ==> c <= k
  {
    ShiftAdd(c, 1, e);
    ShiftAdd(k, 1, e);
    ShiftPositive(e);
    if c < k { ShiftMono(c + 1, k, e); }
    if k < c { ShiftMono(k + 1, c, e); }
  }

  /** What is kept has 34 digits, or is the next power of ten. */
  lemma KeptBounds(m: nat)
    requires NumDigits(m) > PRECISION
    ensures Pow10(PRECISION - 1) <= Kept(m) <= Pow10(PRECISION)
    ensures NumDigits(Kept(m)) > PRECISION <==> Kept(m) == Pow10(PRECISION)
  {
    var p := PRECISION;
    NearestBounds(m, p, p - 1, NumDigits(m) - p, Kept(m));
  }

  lemma NearestBounds(m: nat, p: nat, q: nat, e: nat, k: nat)
    requires p == PRECISION && q == p - 1 && NumDigits(m) == p + e && e > 0 && k == Kept(m)
    ensures Pow10(q) <= k <= Pow10(p)
    ensures NumDigits(k) > p <==> k == Pow10(p)
  {
    KeptNearest(m);
    NumDigitsBounds(m);
    ShiftShift(1, p, e);
    ShiftShift(1, q, e);
    ShiftPositive(q);
    NearestBeyond(m, e, k, Pow10(p));
    NearestBeyond(m, e, k, Pow10(q));
    LongNumber(k, p);
  }

  /** Up to a power of ten, only that power has more digits. */
  lemma LongNumber(k: nat, p: nat)
    requires p >= 1 && k <= Pow10(p)
    ensures NumDigits(k) > p <==> k == Pow10(p)
  {
    var n := NumDigits(k);
    NumDigitsBounds(k);
    ShiftPositive(p);
    if n > p { Pow10Mono(p, n - 1); } else { Pow10Mono(n, p); }
  }

  lemma RoundedNonzero(d: Dec)
    requires d.digits != 0
    ensures Rounded(d).digits != 0
  {
    if NumDigits(Abs(d.digits)) > PRECISION {
      KeptBounds(Abs(d.digits));
      ShiftPositive(PRECISION - 1);
    }
  }

  /** Appended zeros grow the unit, not the digits kept. */
  lemma KeptShift(m: nat, j: nat)
    requires NumDigits(m) > PRECISION
    ensures Shift(m, j) >= 0 && NumDigits(Shift(m, j)) == NumDigits(m) + j && Kept(Shift(m, j)) == Kept(m)
  {
    var e := NumDigits(m) - PRECISION;
    NumDigitsShift(m, j);
    KeptNearest(m);
    NearestShift(m, e, Kept(m), j);
    KeptNearest(Shift(m, j));
    NearestMono(Shift(m, j), Shift(m, j), e + j, Kept(m), Kept(Shift(m, j)));
    NearestMono(Shift(m, j), Shift(m, j), e + j, Kept(Shift(m, j)), Kept(m));
  }

  lemma NearestShift(m: nat, e: nat, k: nat, j: nat)
    requires NearestAway(m, e, k) && Shift(m, j) >= 0
    ensures NearestAway(Shift(m, j), e + j, k)
  {
    ShiftMono(2 * m - Pow10(e), 2 * Shift(k, e), j);
    ShiftMono(2 * Shift(k, e), 2 * m + Pow10(e), j);
    ShiftAdd(2 * m, -Pow10(e), j);
    ShiftAdd(2 * m, Pow10(e), j);
    ShiftNeg(Pow10(e), j);
    ShiftAdd(m, m, j);
    ShiftAdd(Shift(k, e), Shift(k, e), j);
    ShiftShift(k, e, j);
    ShiftShift(1, e, j);
  }

  /** A number that is a multiple of its unit is not changed. */
  lemma RoundMultiple(m: nat, k: nat)
    requires NumDigits(m) > PRECISION && m == Shift(k, NumDigits(m) - PRECISION)
    ensures Round34(m) == m
  {
    var e := NumDigits(m) - PRECISION;
    KeptNearest(m);
    ShiftPositive(e);
    assert NearestAway(m, e, k);
    NearestMono(m, m, e, Kept(m), k);
    NearestMono(m, m, e, k, Kept(m));
  }

  /** Appending zeros to at most 34 digits loses nothing. */
  lemma RoundExact(m: nat, j: nat)
    requires m > 0 && NumDigits(m) <= PRECISION
    ensures Shift(m, j) > 0 && Round34(Shift(m, j)) == Shift(m, j)
  {
    NumDigitsShift(m, j);
    var n := NumDigits(Shift(m, j));
    if n > PRECISION {
      var e := n - PRECISION;
      ShiftShift(m, j - e, e);
      NumDigitsShift(m, j - e);
      RoundMultiple(Shift(m, j), Shift(m, j - e));
    }
  }

  // ----- what normalization returns -----

  /** The value of `d` in units of `10^k`. */
  function Scaled(d: Dec, k: int): int
    requires k <= d.exp
  {
    Shift(d.digits, d.exp - k)
  }

  function Min(a: int, b: int): int {
    if a < b then a else b
  }

  predicate SameValue(a: Dec, b: Dec) {
    var k := Min(a.exp, b.exp);
    Scaled(a, k) == Scaled(b, k)
  }

  predicate LessEq(a: Dec, b: Dec) {
    var k := Min(a.exp, b.exp);
    Scaled(a, k) <= Scaled(b, k)
  }

  /** A normalized nonzero number: at most 34 digits, the last one not zero. */
  predicate Canonical(d: Dec) {
    d.digits != 0 && d.digits % 10 != 0 && Abs(d.digits) < Pow10(PRECISION)
  }

  /** The rounding step, by value. */
  lemma RoundedValue(d: Dec)
    requires d.digits != 0 && NumDigits(Abs(d.digits)) > PRECISION
    ensures var r := Rounded(d);
            && r.exp >= d.exp && 0 < Abs(r.digits) < Pow10(PRECISION) && (r.digits < 0) == (d.digits < 0)
            && Shift(Abs(r.digits), r.exp - d.exp) == Round34(Abs(d.digits))
  {
    var m := Abs(d.digits);
    RoundedParts(m, PRECISION, NumDigits(m) - PRECISION, Kept(m));
  }

  lemma RoundedParts(m: nat, p: nat, e: nat, up: nat)
    requires p == PRECISION && NumDigits(m) == p + e && e > 0 && up == Kept(m)
    ensures Round34(m) == Shift(up, e) && 0 < up
    ensures NumDigits(up) > p ==> 0 < up / 10 < Pow10(p) && Shift(up / 10, e + 1) == Shift(up, e)
    ensures NumDigits(up) <= p ==> up < Pow10(p)
  {
    KeptBounds(m);
    ShiftPositive(p - 1);
    if NumDigits(up) > p { CarriedValue(up, e, p - 1); }
  }

  lemma CarriedValue(up: nat, e: nat, n: nat)
    requires up == Pow10(n + 1)
    ensures 0 < up / 10 < up && Shift(up / 10, e + 1) == Shift(up, e)
  {
    CarryOut(n, up);
    ShiftTen(up / 10, e);
  }

  lemma CarryOut(n: nat, up: nat)
    requires up == Pow10(n + 1)
    ensures up == 10 * (up / 10) && 0 < up / 10 < up
  {
    ShiftPositive(n);
  }

  lemma TrimmedSmaller(d: Dec)
    requires d.digits != 0
    ensures var r := Trimmed(d);
            && Abs(r.digits) <= Abs(d.digits) && (r.digits < 0) == (d.digits < 0)
            && Abs(d.digits) == Shift(Abs(r.digits), r.exp - d.exp)
  {
    var r := Trimmed(d);
    ShiftAbs(r.digits, r.exp - d.exp);
    ShiftGrows(Abs(r.digits), r.exp - d.exp);
  }

  lemma {:induction false} ShiftGrows(m: nat, n: nat)
    ensures m <= Shift(m, n)
  {
    if n > 0 { ShiftGrows(m, n - 1); }
  }

  lemma SignedRound(x: int, r: int, n: nat, rounded: int)
    requires rounded == Round34(Abs(x)) && Shift(Abs(r), n) == rounded && (r < 0) == (x < 0)
    ensures Shift(r, n) == RoundInt(x)
  {
    ShiftAbs(r, n);
  }

  /** `t` is `d` with `n` trailing zeros taken off. */
  predicate Strips(d: int, t: int, n: nat) {
    t != 0 && (t < 0) == (d < 0) && Abs(d) == Shift(Abs(t), n)
  }

  lemma ShortValue(d: int, t: int, n: nat)
    requires Strips(d, t, n) && NumDigits(Abs(t)) <= PRECISION
    ensures Shift(t, n) == RoundInt(d) && Abs(t) < Pow10(PRECISION)
  {
    RoundExact(Abs(t), n);
    SignedRound(d, t, n, Round34(Abs(d)));
    NumDigitsBounds(Abs(t));
    Pow10Mono(NumDigits(Abs(t)), PRECISION);
  }

  /** Rounding commutes with appending zeros. */
  lemma Round34Shift(m: nat, j: nat, s: nat)
    requires NumDigits(m) > PRECISION && s == Shift(m, j)
    ensures Round34(s) == Shift(Round34(m), j)
  {
    KeptShift(m, j);
    ShiftShift(Kept(m), NumDigits(m) - PRECISION, j);
  }

  lemma LongValue(d: int, t: int, n: nat, u: int, b: nat, r: int, a: nat)
    requires Strips(d, t, n) && NumDigits(Abs(t)) > PRECISION
    requires (u < 0) == (t < 0) && Shift(Abs(u), b) == Round34(Abs(t)) && Strips(u, r, a)
    ensures Shift(r, a + b + n) == RoundInt(d)
  {
    Round34Shift(Abs(t), n, Abs(d));
    ShiftChain(Abs(r), a, Abs(u), b, Round34(Abs(t)), n);
    SignedRound(d, r, a + b + n, Round34(Abs(d)));
  }

  lemma ShiftChain(r: int, a: nat, u: int, b: nat, v: int, j: nat)
    requires Shift(r, a) == u && Shift(u, b) == v
    ensures Shift(r, a + b + j) == Shift(v, j)
  {
    ShiftShift(r, a, b);
    ShiftShift(r, a + b, j);
  }

  /** Normalization, by what it means: the canonical number whose value is the argument's coefficient
      rounded to 34 digits, ties away from zero. */
  lemma NormalizeMeaning(d: Dec)
    requires d.digits != 0
    ensures var r := Normalize(d);
            Canonical(r) && r.exp >= d.exp && Scaled(r, d.exp) == RoundInt(d.digits)
  {
    var t := Trimmed(d);
    TrimmedStrips(d);
    RoundedNonzero(t);
    var u := Rounded(t);
    var r := Trimmed(u);
    TrimmedStrips(u);
    if NumDigits(Abs(t.digits)) <= PRECISION {
      ShortValue(d.digits, t.digits, t.exp - d.exp);
      assert r == t;
    } else {
      RoundedValue(t);
      TrimmedSmaller(u);
      LongValue(d.digits, t.digits, t.exp - d.exp, u.digits, u.exp - t.exp, r.digits, r.exp - u.exp);
    }
  }

  lemma TrimmedStrips(d: Dec)
    requires d.digits != 0
    ensures Strips(d.digits, Trimmed(d).digits, Trimmed(d).exp - d.exp)
  {
    TrimmedSmaller(d);
  }

  // ----- value, idempotence, order, error -----

  lemma ShiftInjective(a: int, b: int, n: nat)
    ensures (Shift(a, n) == Shift(b, n)) == (a == b)
    ensures (Shift(a, n) <= Shift(b, n)) == (a <= b)
  {
    if a < b { ShiftMono(a, b, n); } else { ShiftMono(b, a, n); }
  }

  /** Values can be compared at any common scale. */
  lemma CompareAt(a: Dec, b: Dec, k: int)
    requires k <= a.exp && k <= b.exp
    ensures SameValue(a, b) <==> Scaled(a, k) == Scaled(b, k)
    ensures LessEq(a, b) <==> Scaled(a, k) <= Scaled(b, k)
  {
    var m := Min(a.exp, b.exp);
    ShiftShift(a.digits, a.exp - m, m - k);
    ShiftShift(b.digits, b.exp - m, m - k);
    ShiftInjective(Scaled(a, m), Scaled(b, m), m - k);
  }

  lemma Round34Zeros(m: nat, j: nat, s: nat)
    requires s == Shift(m, j)
    ensures Round34(s) == Shift(Round34(m), j)
  {
    ShiftZero(j);
    if NumDigits(m) > PRECISION { Round34Shift(m, j, s); } else if m > 0 { RoundExact(m, j); }
  }

  lemma RoundIntZeros(x: int, j: nat)
    ensures RoundInt(Shift(x, j)) == Shift(RoundInt(x), j)
  {
    ShiftAbs(x, j);
    Round34Zeros(Abs(x), j, Abs(Shift(x, j)));
    ShiftNeg(Round34(Abs(x)), j);
  }

  /** Normalization, at any scale not above the number's and zero's. */
  lemma NormalizeAt(d: Dec, k: int)
    requires k <= d.exp && (d.digits == 0 ==> k <= 0)
    ensures k <= Normalize(d).exp && Scaled(Normalize(d), k) == RoundInt(Scaled(d, k))
  {
    if d.digits == 0 {
      ShiftZero(-k);
      ShiftZero(d.exp - k);
    } else {
      NormalizeMeaning(d);
      RoundIntZeros(d.digits, d.exp - k);
      ShiftShift(Normalize(d).digits, Normalize(d).exp - d.exp, d.exp - k);
    }
  }

  /** Two numbers without trailing zeros and with the same value are the same. */
  lemma CanonicalUnique(x: Dec, y: Dec)
    requires x.digits % 10 != 0 && y.digits % 10 != 0 && SameValue(x, y)
    ensures x == y
  {
  }

  /** Normalization depends only on the value. */
  lemma NormalizeValue(a: Dec, b: Dec)
    requires SameValue(a, b)
    ensures Normalize(a) == Normalize(b)
  {
    var k := Min(a.exp, b.exp);
    ShiftAbs(a.digits, a.exp - k);
    ShiftAbs(b.digits, b.exp - k);
    if a.digits != 0 {
      NormalizeAt(a, k);
      NormalizeAt(b, k);
      NormalizeMeaning(a);
      NormalizeMeaning(b);
      CompareAt(Normalize(a), Normalize(b), k);
      CanonicalUnique(Normalize(a), Normalize(b));
    }
  }

  /** Every result is zero or canonical, and every such number is its own normalization. */
  lemma NormalizeIdempotent(d: Dec)
    ensures Normalize(d) == Dec(0, 0) || Canonical(Normalize(d))
    ensures Normalize(d) == Dec(0, 0) <==> d.digits == 0
    ensures d == Dec(0, 0) || Canonical(d) ==> Normalize(d) == d
    ensures Normalize(Normalize(d)) == Normalize(d)
  {
    if d.digits != 0 {
      NormalizeMeaning(d);
      CanonicalFixed(Normalize(d));
      if Canonical(d) { CanonicalFixed(d); }
    }
  }

  lemma CanonicalFixed(d: Dec)
    requires Canonical(d)
    ensures Normalize(d) == d && NumDigits(Abs(d.digits)) <= PRECISION
  {
    NumDigitsBounds(Abs(d.digits));
    if NumDigits(Abs(d.digits)) > PRECISION { Pow10Mono(PRECISION, NumDigits(Abs(d.digits)) - 1); }
  }

  lemma Round34Mono(m: nat, n: nat)
    requires m <= n
    ensures 0 <= Round34(m) <= Round34(n)
  {
    NumDigitsBounds(m);
    NumDigitsBounds(n);
    var a, b := NumDigits(m), NumDigits(n);
    if a > PRECISION { ShiftZero(a - PRECISION); ShiftMono(0, Kept(m), a - PRECISION); }
    if b < a { Pow10Mono(b, a - 1); }
    if b > PRECISION {
      KeptNearest(n);
      if a == b {
        KeptNearest(m);
        NearestMono(m, n, a - PRECISION, Kept(m), Kept(n));
        ShiftMono(Kept(m), Kept(n), a - PRECISION);
      } else {
        RoundBelow(m);
        RoundAbove(n);
        Pow10Mono(a, b - 1);
      }
    }
  }

  /** Rounding does not pass the powers of ten around a number. */
  lemma RoundBelow(m: nat)
    ensures Round34(m) <= Pow10(NumDigits(m))
  {
    if NumDigits(m) <= PRECISION {
      NumDigitsBounds(m);
    } else {
      KeptBounds(m);
      BelowPower(Kept(m), PRECISION, NumDigits(m) - PRECISION, NumDigits(m));
    }
  }

  lemma BelowPower(k: nat, a: nat, e: nat, n: nat)
    requires k <= Pow10(a) && n == a + e
    ensures Shift(k, e) <= Pow10(n)
  {
    ShiftMono(k, Pow10(a), e);
    ShiftShift(1, a, e);
  }

  lemma RoundAbove(m: nat)
    requires NumDigits(m) > PRECISION
    ensures Pow10(NumDigits(m) - 1) <= Round34(m)
  {
    RoundFrom(m, PRECISION, PRECISION - 1, NumDigits(m) - PRECISION, Kept(m));
  }

  lemma RoundFrom(m: nat, p: nat, q: nat, e: nat, k: nat)
    requires p == PRECISION && q == p - 1 && NumDigits(m) == p + e && e > 0 && k == Kept(m)
    ensures Pow10(NumDigits(m) - 1) <= Round34(m)
  {
    NearestBounds(m, p, q, e, k);
    AbovePower(k, q, e, q + e);
  }

  lemma AbovePower(k: nat, a: nat, e: nat, n: nat)
    requires Pow10(a) <= k && n == a + e
    ensures Pow10(n) <= Shift(k, e)
  {
    ShiftMono(Pow10(a), k, e);
    ShiftShift(1, a, e);
  }

  /** Normalization keeps the order of values. */
  lemma NormalizeMono(a: Dec, b: Dec)
    requires LessEq(a, b)
    ensures LessEq(Normalize(a), Normalize(b))
  {
    var k := Min(Min(a.exp, b.exp), 0);
    CompareAt(a, b, k);
    NormalizeAt(a, k);
    NormalizeAt(b, k);
    var x, y := Scaled(a, k), Scaled(b, k);
    Round34Mono(0, Abs(x));
    Round34Mono(0, Abs(y));
    if x < 0 && y < 0 { Round34Mono(-y, -x); } else if x >= 0 { Round34Mono(x, y); }
    CompareAt(Normalize(a), Normalize(b), k);
  }

  /** Normalization errs by at most half a unit in the 34th digit, and not at all on 34 digits or fewer. */
  lemma NormalizeError(d: Dec)
    requires d.digits != 0
    ensures var r := Normalize(d);
            var n := NumDigits(Abs(d.digits));
            && r.exp >= d.exp
            && (n <= PRECISION ==> Scaled(r, d.exp) == d.digits)
            && (n > PRECISION ==> 2 * Abs(Scaled(r, d.exp) - d.digits) <= Pow10(n - PRECISION))
  {
    NormalizeMeaning(d);
    if NumDigits(Abs(d.digits)) > PRECISION { KeptNearest(Abs(d.digits)); }
  }
}
