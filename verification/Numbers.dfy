/** Machine-integer ranges, the shared error enumeration and result type, and the
    facts about floor division that the pricing proofs rest on. */
module Numbers {

  const TWO_8: int := 0x100
  const TWO_16: int := 0x1_0000
  const TWO_64: int := 0x1_0000_0000_0000_0000
  const TWO_127: int := 0x8000_0000_0000_0000_0000_0000_0000_0000
  const TWO_128: int := 0x1_0000_0000_0000_0000_0000_0000_0000_0000

  const U64_MAX: u64 := 0xffff_ffff_ffff_ffff
  const BASIS_POINTS: int := 10_000

  type u8 = x: int | 0 <= x < TWO_8
  type u16 = x: int | 0 <= x < TWO_16
  type u64 = x: int | 0 <= x < TWO_64
  type u128 = x: int | 0 <= x < TWO_128

  datatype MathError =
    | DivByZero
    | Overflow
    | Underflow
    | InvalidAmount
    | InvalidFee
    | InvalidConfig
    | EmptyLiquidity
    | DecimalsOutOfRange
    | StaleQuote
    | QuoteProtected
    | InventoryBand
    | PoolPaused

  datatype Result<+T, +E> = Ok(value: T) | Err(error: E) {
    predicate IsFailure() {
      Err?
    }

    function PropagateFailure<U>(): Result<U, E>
      requires Err?
    {
      Err(error)
    }

    function Extract(): T
      requires Ok?
    {
      value
    }
  }

  datatype Option<+T> = None | Some(value: T)

  function Min(x: int, y: int): int {
    if x <= y then x else y
  }

  function Max(x: int, y: int): int {
    if x >= y then x else y
  }

  function Abs(x: int): int {
    if x < 0 then -x else x
  }

  /** Unsigned subtraction that stops at zero. */
  function SaturatingSub(x: int, y: int): int {
    if x <= y then 0 else x - y
  }

  /** Addition that stops at the largest 64-bit value. */
  function SaturatingAdd64(x: u64, y: u64): u64 {
    if x + y < TWO_64 then x + y else U64_MAX
  }

  /** Signed division rounding toward zero, as machine and bigint division do. */
  function TruncDiv(n: int, d: int): int
    requires d > 0
  {
    if n >= 0 then n / d else -((-n) / d)
  }

  function Clamp(x: int, low: int, high: int): int {
    if x < low then low else if x > high then high else x
  }

  lemma DivBounds(n: int, d: int)
    requires d > 0
    ensures n / d * d <= n < n / d * d + d
  {
  }

  lemma MulLe(a: int, b: int, c: int)
    requires a <= b && 0 <= c
    ensures a * c <= b * c && c * a <= c * b
  {
  }

  lemma MulLt(a: int, b: int, c: int)
    requires a < b && 0 < c
    ensures a * c < b * c && c * a < c * b
  {
  }

  lemma MulNonNeg(a: int, b: int)
    requires 0 <= a && 0 <= b
    ensures 0 <= a * b
  {
  }

  /** A positive factor can be cancelled from an inequality. */
  lemma MulLeCancel(a: int, b: int, c: int)
    requires c > 0 && a * c <= b * c
    ensures a <= b
  {
    if a > b {
      MulLt(b, a, c);
    }
  }

  /** The quotient is the only multiple count that brackets the dividend. */
  lemma DivUnique(n: int, d: int, q: int)
    requires d > 0 && q * d <= n < q * d + d
    ensures n / d == q
  {
    DivBounds(n, d);
    if n / d < q {
      MulLe(n / d + 1, q, d);
    } else if n / d > q {
      MulLe(q + 1, n / d, d);
    }
  }

  lemma DivMono(m: int, n: int, d: int)
    requires d > 0 && m <= n
    ensures m / d <= n / d
  {
    DivBounds(m, d);
    DivBounds(n, d);
    if n / d < m / d {
      MulLe(n / d + 1, m / d, d);
    }
  }

  /** Floor division bounded below by an integer, in both directions. */
  lemma DivAtLeast(n: int, d: int, k: int)
    requires d > 0
    ensures k <= n / d <==> k * d <= n
  {
    DivBounds(n, d);
    if k <= n / d {
      MulLe(k, n / d, d);
    } else {
      MulLe(n / d + 1, k, d);
    }
  }

  lemma DivNonNeg(n: int, d: int)
    requires d > 0 && n >= 0
    ensures 0 <= n / d <= n
  {
    DivAtLeast(n, d, 0);
    DivBounds(n, d);
    MulLe(1, d, n / d);
  }
}
