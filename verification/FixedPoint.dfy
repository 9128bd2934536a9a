/** Q64.64 arithmetic: the wide multiply-then-divide and the amount conversions. */
module FixedPoint {
  import opened Numbers

  const Q64: u128 := TWO_64

  /** floor(a * b / denominator) over unbounded integers, with the two ways it can fail. */
  function MulDiv(a: nat, b: nat, denominator: nat): Result<u128, MathError> {
    if denominator == 0 then Err(DivByZero)
    else if a * b / denominator >= TWO_128 then Err(Overflow)
    else
      MulNonNeg(a, b);
      DivNonNeg(a * b, denominator);
      Ok(a * b / denominator)
  }

  /** What a successful result means without mentioning division: the largest count of
      denominators inside the product. */
  lemma MulDivMeaning(a: nat, b: nat, denominator: nat, q: u128)
    requires denominator > 0
    ensures MulDiv(a, b, denominator) == Ok(q) <==> q * denominator <= a * b < q * denominator + denominator
  {
    DivBounds(a * b, denominator);
    if q * denominator <= a * b < q * denominator + denominator {
      DivUnique(a * b, denominator, q);
    }
  }

  /** Entry point: a narrow product is divided directly, a wide one in 256 bits. */
  method MulDivFloor(a: u128, b: u128, denominator: u128) returns (r: Result<u128, MathError>)
    ensures r == MulDiv(a, b, denominator)
  {
    if denominator == 0 {
      return Err(DivByZero);
    }
    MulNonNeg(a, b);
    DivNonNeg(a * b, denominator);
    if a * b < TWO_128 {
      return Ok(a * b / denominator);
    }
    var product := Mul128To256(a, b);
    match product
    case Err(error) =>
      return Err(error);
    case Ok((high, low)) =>
      r := Div256By128(high, low, denominator);
  }

  /** Schoolbook product of two 128-bit words from their 64-bit halves. None of the
      checked additions fails: the result is always the two words of the product. */
  method Mul128To256(a: u128, b: u128) returns (r: Result<(u128, u128), MathError>)
    ensures r.Ok? && r.value.0 * TWO_128 + r.value.1 == a * b
  {
    var ah, al := a / TWO_64, a % TWO_64;
    var bh, bl := b / TWO_64, b % TWO_64;
    HalvesProduct(ah, al, bh, bl);
    LimbProduct(al, bl);
    LimbProduct(al, bh);
    LimbProduct(ah, bl);
    LimbProduct(ah, bh);
    var ll: u128, lh: u128, hl: u128, hh: u128 := al * bl, al * bh, ah * bl, ah * bh;
    ProductFits(a, b);
    LimbsCombine(ll, lh, hl, hh, a * b);

    var mid, carryMid := (lh + hl) % TWO_128, lh + hl >= TWO_128;
    var midLow, midHigh := mid % TWO_64, mid / TWO_64;
    var low, carryLow := (ll + midLow * TWO_64) % TWO_128, ll + midLow * TWO_64 >= TWO_128;

    if hh + midHigh >= TWO_128 {
      return Err(Overflow);
    }
    var high := hh + midHigh;
    if carryMid {
      if high + TWO_64 >= TWO_128 {
        return Err(Overflow);
      }
      high := high + TWO_64;
    }
    if carryLow {
      if high + 1 >= TWO_128 {
        return Err(Overflow);
      }
      high := high + 1;
    }
    return Ok((high, low));
  }

  /** Restoring division of a 256-bit dividend, one bit a round. */
  method Div256By128(high: u128, low: u128, denominator: u128) returns (r: Result<u128, MathError>)
    ensures denominator == 0 ==> r == Err(DivByZero)
    ensures denominator > 0 ==>
              r == if (high * TWO_128 + low) / denominator >= TWO_128 then Err(Overflow)
                   else Ok((high * TWO_128 + low) / denominator)
  {
    if denominator == 0 {
      return Err(DivByZero);
    }
    DivNonNeg(low, denominator);
    if high == 0 {
      return Ok(low / denominator);
    }
    QuotientFits(high, low, denominator);
    if high >= denominator {
      return Err(Overflow);
    }

    var remainder, quotient := high, 0;
    var bit := 128;
    while bit > 0
      invariant 0 <= bit <= 128
      invariant 0 <= quotient < Pow2(128 - bit)
      invariant DividesTo(Prefix(high, low, 128 - bit), denominator, quotient, remainder)
    {
      bit := bit - 1;
      var next := low / Pow2(bit) % 2;
      Pow2Mono(128 - bit);
      quotient, remainder := DivisionRound(quotient, remainder, denominator, next, Prefix(high, low, 127 - bit));
    }
    Pow2At128();
    PrefixValue(high, low, 128);
    DivUnique(high * TWO_128 + low, denominator, quotient);
    return Ok(quotient);
  }

  /** The loop body: shift the next dividend bit in and subtract when the divisor fits. */
  method DivisionRound(quotient: u128, remainder: u128, denominator: u128, next: int, ghost dividend: int)
    returns (q: u128, r: u128)
    requires DividesTo(dividend, denominator, quotient, remainder) && 0 <= next <= 1 && quotient < TWO_127
    ensures DividesTo(2 * dividend + next, denominator, q, r) && q <= 2 * quotient + 1
  {
    RestoringStep(dividend, quotient, remainder, denominator, next);
    hide DividesTo, WrappingAdd, WrappingNeg, ShiftLeft;
    var carry := remainder / TWO_127;
    r := ShiftLeft(remainder) + next;
    q := ShiftLeft(quotient);
    if carry == 1 || r >= denominator {
      if carry == 1 {
        r := WrappingAdd(r, WrappingNeg(denominator));
      } else {
        r := r - denominator;
      }
      q := q + 1;
    }
  }

  /** Shift left by one bit, dropping the top bit. */
  function ShiftLeft(x: u128): (r: u128)
    ensures r % 2 == 0
  {
    2 * x % TWO_128
  }

  function WrappingAdd(x: u128, y: u128): u128 {
    (x + y) % TWO_128
  }

  function WrappingNeg(x: u128): u128 {
    (TWO_128 - x) % TWO_128
  }

  /** The dividend's leading bits: `high`, then `taken` bits of `low` from the top. */
  ghost function Prefix(high: nat, low: nat, taken: nat): int
    requires taken <= 128
  {
    if taken == 0 then high else 2 * Prefix(high, low, taken - 1) + low / Pow2(128 - taken) % 2
  }

  ghost predicate DividesTo(dividend: int, denominator: int, quotient: int, remainder: int) {
    quotient * denominator + remainder == dividend && 0 <= remainder < denominator
  }

  function Pow2(n: nat): (p: int)
    ensures p >= 1
  {
    if n == 0 then 1 else 2 * Pow2(n - 1)
  }

  lemma Pow2Add(m: nat, n: nat)
    ensures Pow2(m + n) == Pow2(m) * Pow2(n)
  {
    if m != 0 {
      Pow2Add(m - 1, n);
      assert Pow2(m + n) == 2 * Pow2(m - 1 + n);
      assert 2 * (Pow2(m - 1) * Pow2(n)) == 2 * Pow2(m - 1) * Pow2(n);
    }
  }

  lemma Pow2At128()
    ensures Pow2(128) == TWO_128 && Pow2(0) == 1
  {
    assert Pow2(8) == 0x100;
    Pow2Add(8, 8);
    assert Pow2(16) == 0x1_0000;
    Pow2Add(16, 16);
    assert Pow2(32) == 0x1_0000_0000;
    Pow2Add(32, 32);
    assert Pow2(64) == TWO_64;
    Pow2Add(64, 64);
  }

  lemma Pow2Mono(n: nat)
    requires n <= 128
    ensures Pow2(n) <= TWO_128
  {
    Pow2At128();
    Pow2Add(n, 128 - n);
    MulLe(1, Pow2(128 - n), Pow2(n));
  }

  lemma {:induction false} PrefixValue(high: nat, low: u128, taken: nat)
    requires taken <= 128
    ensures Prefix(high, low, taken) == high * Pow2(taken) + low / Pow2(128 - taken)
  {
    if taken == 0 {
      Pow2At128();
    } else {
      PrefixValue(high, low, taken - 1);
      var before, after := Pow2(taken - 1), Pow2(taken);
      assert after == 2 * before;
      hide Pow2;
      HalveQuotient(low, 128 - taken);
      DoubleProduct(high, before, after);
    }
  }

  lemma DoubleProduct(x: int, y: int, z: int)
    requires z == 2 * y
    ensures x * z == 2 * (x * y)
  {
  }

  lemma HalveQuotient(low: nat, bit: nat)
    ensures low / Pow2(bit) == 2 * (low / Pow2(bit + 1)) + low / Pow2(bit) % 2
  {
    var p := Pow2(bit);
    var half := low / p / 2;
    DivBounds(low, p);
    MulLe(2 * half, low / p, p);
    MulLe(low / p + 1, 2 * half + 2, p);
    DivUnique(low, 2 * p, half);
  }

  /** One round of restoring division. When doubling drops the top bit of the remainder,
      the wrapping subtraction brings back exactly the true difference. */
  lemma RestoringStep(dividend: int, quotient: u128, remainder: u128, denominator: u128, bit: int)
    requires DividesTo(dividend, denominator, quotient, remainder) && quotient < TWO_127 && 0 <= bit <= 1
    ensures ShiftLeft(quotient) == 2 * quotient && ShiftLeft(remainder) + bit < TWO_128
    ensures var doubled := ShiftLeft(remainder) + bit;
            if remainder / TWO_127 == 1 then
              DividesTo(2 * dividend + bit, denominator, 2 * quotient + 1,
                        WrappingAdd(doubled, WrappingNeg(denominator)))
            else if doubled >= denominator then
              DividesTo(2 * dividend + bit, denominator, 2 * quotient + 1, doubled - denominator)
            else DividesTo(2 * dividend + bit, denominator, 2 * quotient, doubled)
  {
    hide DividesTo, ShiftLeft, WrappingAdd, WrappingNeg;
    StepDivides(dividend, denominator, quotient, remainder, bit);
    WrappedDifference(remainder, denominator, bit);
    ShiftFits(quotient);
  }

  lemma ShiftFits(x: u128)
    requires x < TWO_127
    ensures ShiftLeft(x) == 2 * x
  {
  }

  /** Doubling a division: the next remainder is kept or reduced by one denominator. */
  lemma StepDivides(dividend: int, denominator: int, quotient: int, remainder: int, bit: int)
    requires DividesTo(dividend, denominator, quotient, remainder) && 0 <= bit <= 1
    ensures 0 <= remainder < denominator
    ensures var next := 2 * remainder + bit;
            && (next < denominator ==> DividesTo(2 * dividend + bit, denominator, 2 * quotient, next))
            && (denominator <= next ==>
                  DividesTo(2 * dividend + bit, denominator, 2 * quotient + 1, next - denominator))
  {
    assert (2 * quotient) * denominator == 2 * (quotient * denominator);
    assert (2 * quotient + 1) * denominator == 2 * (quotient * denominator) + denominator;
  }

  lemma WrappedDifference(remainder: u128, denominator: u128, bit: int)
    requires remainder < denominator && 0 <= bit <= 1
    ensures var doubled := ShiftLeft(remainder) + bit;
            && doubled < TWO_128
            && (if remainder / TWO_127 == 1 then
                  WrappingAdd(doubled, WrappingNeg(denominator)) == 2 * remainder + bit - denominator
                  && 0 <= 2 * remainder + bit - denominator < denominator
                else doubled == 2 * remainder + bit < 2 * denominator)
  {
  }

  lemma QuotientFits(high: nat, low: u128, denominator: int)
    requires denominator > 0
    ensures high >= denominator <==> (high * TWO_128 + low) / denominator >= TWO_128
  {
    DivAtLeast(high * TWO_128 + low, denominator, TWO_128);
  }

  lemma LimbProduct(x: int, y: int)
    requires 0 <= x < TWO_64 && 0 <= y < TWO_64
    ensures 0 <= x * y <= (TWO_64 - 1) * (TWO_64 - 1)
  {
    var top := TWO_64 - 1;
    MulNonNeg(x, y);
    MulLe(x, top, y);
    assert top * y <= top * top;
  }

  lemma HalvesProduct(ah: int, al: int, bh: int, bl: int)
    ensures (ah * TWO_64 + al) * (bh * TWO_64 + bl)
         == ah * bh * TWO_128 + (al * bh + ah * bl) * TWO_64 + al * bl
  {
  }

  /** Adding the four partial products with their carries loses nothing and overflows nowhere. */
  lemma LimbsCombine(ll: u128, lh: u128, hl: u128, hh: u128, product: int)
    requires product == hh * TWO_128 + (lh + hl) * TWO_64 + ll && 0 <= product < TWO_128 * TWO_128
    ensures var midSum := lh + hl;
            var mid := midSum % TWO_128;
            var lowSum := ll + mid % TWO_64 * TWO_64;
            var carries := (if midSum >= TWO_128 then TWO_64 else 0) + (if lowSum >= TWO_128 then 1 else 0);
            var high := hh + mid / TWO_64 + carries;
            0 <= high < TWO_128 && high * TWO_128 + lowSum % TWO_128 == product
  {
    var midSum := lh + hl;
    var mid := midSum % TWO_128;
    assert mid == mid / TWO_64 * TWO_64 + mid % TWO_64;
    assert midSum == mid + (if midSum >= TWO_128 then TWO_128 else 0);
    var lowSum := ll + mid % TWO_64 * TWO_64;
    assert lowSum == lowSum % TWO_128 + (if lowSum >= TWO_128 then TWO_128 else 0);
  }

  lemma ProductFits(a: u128, b: u128)
    ensures 0 <= a * b < TWO_128 * TWO_128
  {
    var top := TWO_128 - 1;
    MulNonNeg(a, b);
    MulLe(a, top, b);
    assert top * b <= top * top;
  }

  // ---- Q64.64 conversions ----

  /** floor(amount * price), as a 64-bit amount. */
  function MulAmountFloor(price: u128, amount: u64): Result<u64, MathError> {
    var scaled :- MulDiv(amount, price, Q64);
    if scaled < TWO_64 then Ok(scaled) else Err(Overflow)
  }

  /** floor(amount / price), as a 64-bit amount. */
  function DivAmountFloor(price: u128, amount: u64): Result<u64, MathError> {
    var scaled :- MulDiv(amount, Q64, price);
    if scaled < TWO_64 then Ok(scaled) else Err(Overflow)
  }

  function FromRatio(numerator: u128, denominator: u128): Result<u128, MathError> {
    MulDiv(numerator, Q64, denominator)
  }

  /** What an amount conversion returns, without division: the largest amount within the product,
      or Overflow when that takes more than 64 bits. */
  lemma MulAmountMeaning(price: u128, amount: u64)
    ensures match MulAmountFloor(price, amount)
            case Ok(q) => q * Q64 <= price * amount < q * Q64 + Q64
            case Err(error) => error == Overflow && TWO_64 * Q64 <= price * amount
  {
    MulNonNeg(price, amount);
    DivBounds(amount * price, Q64);
    DivAtLeast(amount * price, Q64, TWO_64);
  }

  lemma DivAmountMeaning(price: u128, amount: u64)
    ensures match DivAmountFloor(price, amount)
            case Ok(q) => q * price <= amount * Q64 < q * price + price
            case Err(error) =>
              if price == 0 then error == DivByZero else error == Overflow && TWO_64 * price <= amount * Q64
  {
    if price > 0 {
      DivBounds(amount * Q64, price);
      DivAtLeast(amount * Q64, price, TWO_64);
    }
  }

  /** A ratio is the largest price that does not overstate it. */
  lemma RatioMeaning(numerator: u128, denominator: u128)
    requires denominator > 0 && FromRatio(numerator, denominator).Ok?
    ensures var price := FromRatio(numerator, denominator).value;
            price * denominator <= numerator * Q64 < price * denominator + denominator
  {
    MulDivMeaning(numerator, Q64, denominator, FromRatio(numerator, denominator).value);
  }
}
