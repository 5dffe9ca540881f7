/**
 * Unit prices of a TON conversion: both legs share one USD value, the sell price is
 * nudged up and the buy price down, and prices keep twelve significant digits.
 * Floating-point numbers are modelled as reals.
 */
module TonPrices {

  const PRICE_BIAS: real := 0.000_000_000_1
  const LOW: real := 100_000_000_000.0
  const HIGH: real := 1_000_000_000_000.0
  /** Half a unit in the twelfth significant digit, relative to the value. */
  const HALF_DIGIT: real := 0.000_000_000_005

  function Pow10(k: int): (p: real)
    ensures p > 0.0
    decreases if k < 0 then -k else k
  {
    if k == 0 then 1.0 else if k > 0 then 10.0 * Pow10(k - 1) else Pow10(k + 1) / 10.0
  }

  lemma {:induction false} Pow10Step(k: int)
    ensures Pow10(k + 1) == 10.0 * Pow10(k)
  {
  }

  /** The exponent that shifts `v` to twelve digits before the point. */
  function Shift(v: real): (k: int)
    requires v > 0.0
    decreases if v >= HIGH then v.Floor else (LOW / v).Floor
  {
    if v >= HIGH then Shift(v / 10.0) - 1
    else if v < LOW then
      ShrinksTowardsLow(v);
      Shift(v * 10.0) + 1
    else 0
  }

  lemma {:induction false} ShrinksTowardsLow(v: real)
    requires 0.0 < v < LOW
    ensures (LOW / (v * 10.0)).Floor < (LOW / v).Floor && (LOW / v).Floor >= 0 && v * 10.0 < HIGH
  {
    assert LOW / (v * 10.0) == LOW / v / 10.0;
    assert LOW / v > 1.0;
  }

  function Scaled(v: real, k: int): real {
    v * Pow10(k)
  }

  lemma {:induction false} TenthScalesOneFurther(v: real, k: int)
    ensures Scaled(v / 10.0, k + 1) == Scaled(v, k)
  {
    Pow10Step(k);
    var q := Pow10(k);
    assert (v / 10.0) * (10.0 * q) == v * q;
  }

  lemma {:induction false} TenfoldScalesOneLess(v: real, k: int)
    ensures Scaled(v * 10.0, k) == Scaled(v, k + 1)
  {
    Pow10Step(k);
    var q := Pow10(k);
    assert (v * 10.0) * q == v * (10.0 * q);
  }

  lemma {:induction false} ShiftedHasTwelveDigits(v: real)
    requires v > 0.0
    ensures LOW <= Scaled(v, Shift(v)) < HIGH
    decreases if v >= HIGH then v.Floor else (LOW / v).Floor
  {
    assert Scaled(v, 0) == v;
    hide Scaled;
    if v >= HIGH {
      ShiftedHasTwelveDigits(v / 10.0);
      TenthScalesOneFurther(v, Shift(v));
    } else if v < LOW {
      ShrinksTowardsLow(v);
      ShiftedHasTwelveDigits(v * 10.0);
      TenfoldScalesOneLess(v, Shift(v * 10.0));
    }
  }

  /** Nearest integer, ties to even. */
  function RoundHalfEven(x: real): (n: int)
    ensures -0.5 <= n as real - x <= 0.5
  {
    var f := x.Floor;
    var rest := x - f as real;
    if rest < 0.5 || (rest == 0.5 && f % 2 == 0) then f else f + 1
  }

  /** `v` with twelve significant digits. */
  function RoundSig(v: real): real
    decreases v < 0.0
  {
    if v == 0.0 then v
    else if v < 0.0 then -RoundSig(-v)
    else RoundHalfEven(Scaled(v, Shift(v))) as real / Pow10(Shift(v))
  }

  lemma {:induction false} MulMono(c: real, a: real, b: real)
    requires c >= 0.0 && a <= b
    ensures c * a <= c * b
  {
  }

  lemma {:induction false} QuotientBounds(n: real, p: real, low: real, high: real)
    requires p > 0.0 && low * p <= n <= high * p
    ensures low <= n / p <= high
  {
    assert n / p * p == n;
  }

  /** A real within half of `x` is within half a twelfth digit of it, relatively. */
  lemma {:induction false} HalfIsHalfADigit(x: real, n: real)
    requires x >= LOW && -0.5 <= n - x <= 0.5
    ensures x * (1.0 - HALF_DIGIT) <= n <= x * (1.0 + HALF_DIGIT)
  {
  }

  lemma {:induction false} Regroup(v: real, p: real, c: real)
    ensures (v * p) * c == (v * c) * p
  {
  }

  lemma {:induction false} RoundedQuotient(v: real, p: real, x: real, n: real)
    requires p > 0.0 && x == v * p && x >= LOW && -0.5 <= n - x <= 0.5
    ensures v * (1.0 - HALF_DIGIT) <= n / p <= v * (1.0 + HALF_DIGIT)
  {
    HalfIsHalfADigit(x, n);
    Regroup(v, p, 1.0 - HALF_DIGIT);
    Regroup(v, p, 1.0 + HALF_DIGIT);
    QuotientBounds(n, p, v * (1.0 - HALF_DIGIT), v * (1.0 + HALF_DIGIT));
  }

  /** `r` is an integer of at most twelve digits (or 10^12) over a power of ten. */
  predicate AtScale(r: real, digits: int, k: int) {
    -1_000_000_000_000 <= digits <= 1_000_000_000_000 && r == digits as real / Pow10(k)
  }

  /** Rounding moves a price by at most half a unit in its twelfth digit, and keeps no more digits. */
  lemma {:induction false} RoundSigIsClose(v: real)
    requires v > 0.0
    ensures v * (1.0 - HALF_DIGIT) <= RoundSig(v) <= v * (1.0 + HALF_DIGIT)
    ensures exists digits, k :: AtScale(RoundSig(v), digits, k)
  {
    hide Pow10, Shift, RoundHalfEven;
    ShiftedHasTwelveDigits(v);
    var x := Scaled(v, Shift(v));
    RoundedQuotient(v, Pow10(Shift(v)), x, RoundHalfEven(x) as real);
    assert AtScale(RoundSig(v), RoundHalfEven(x), Shift(v));
  }

  function UsdPrice(qty: real, usd: real, ok: bool): real {
    if !ok || qty <= 0.0 then 0.0 else usd / qty
  }

  function SellPrice(qty: real, usd: real, ok: bool): real {
    var price := UsdPrice(qty, usd, ok);
    if !ok then 0.0 else if price != 1.0 then RoundSig(price * (1.0 + PRICE_BIAS)) else price
  }

  function BuyPrice(qty: real, usd: real, ok: bool): real {
    var price := UsdPrice(qty, usd, ok);
    if !ok then 0.0 else if price != 1.0 then RoundSig(price * (1.0 - PRICE_BIAS)) else price
  }

  function BiasedPrices(inQty: real, outQty: real, usd: real, ok: bool): (real, real) {
    (SellPrice(inQty, usd, ok), BuyPrice(outQty, usd, ok))
  }

  /** A biased leg's total, in terms of the shared value. */
  lemma {:induction false} LegTotal(qty: real, usd: real, factor: real)
    requires qty > 0.0 && usd > 0.0 && factor > 0.0
    ensures usd * (factor * (1.0 - HALF_DIGIT)) <= qty * RoundSig(usd / qty * factor) <= usd * (factor * (1.0 + HALF_DIGIT))
  {
    hide RoundSig;
    BiasedProduct(qty, usd, factor);
    RoundSigIsClose(usd / qty * factor);
    ScaledBounds(qty, usd / qty * factor, usd, factor, RoundSig(usd / qty * factor));
  }

  lemma {:induction false} ScaledBounds(qty: real, biased: real, usd: real, factor: real, price: real)
    requires qty > 0.0 && qty * biased == usd * factor
    requires biased * (1.0 - HALF_DIGIT) <= price <= biased * (1.0 + HALF_DIGIT)
    ensures usd * (factor * (1.0 - HALF_DIGIT)) <= qty * price <= usd * (factor * (1.0 + HALF_DIGIT))
  {
    MulMono(qty, biased * (1.0 - HALF_DIGIT), price);
    MulMono(qty, price, biased * (1.0 + HALF_DIGIT));
    ProductOfThree(qty, biased, usd, factor, 1.0 - HALF_DIGIT);
    ProductOfThree(qty, biased, usd, factor, 1.0 + HALF_DIGIT);
  }

  lemma {:induction false} BiasedProduct(qty: real, usd: real, factor: real)
    requires qty > 0.0 && usd > 0.0 && factor > 0.0
    ensures usd / qty * factor > 0.0 && qty * (usd / qty * factor) == usd * factor
  {
    var price := usd / qty;
    assert price * qty == usd;
    assert price > 0.0;
    assert qty * (price * factor) == (price * qty) * factor;
  }

  lemma {:induction false} ProductOfThree(qty: real, biased: real, usd: real, factor: real, c: real)
    requires qty * biased == usd * factor
    ensures qty * (biased * c) == usd * (factor * c)
  {
    assert qty * (biased * c) == (qty * biased) * c;
    assert usd * (factor * c) == (usd * factor) * c;
  }

  /** The unit price is one exactly when the quantity equals the value. */
  lemma {:induction false} PriceOfOne(qty: real, usd: real)
    requires qty > 0.0
    ensures usd / qty == 1.0 <==> usd == qty
  {
    assert usd / qty * qty == usd;
  }

  lemma {:induction false} SellTotal(qty: real, usd: real)
    requires qty > 0.0 && usd > 0.0
    ensures usd <= qty * SellPrice(qty, usd, true) <= usd * 1.000_000_000_11
    ensures usd != qty ==> qty * SellPrice(qty, usd, true) >= usd * 1.000_000_000_09
  {
    hide RoundSig;
    PriceOfOne(qty, usd);
    LegTotal(qty, usd, 1.0 + PRICE_BIAS);
    MulMono(usd, 1.000_000_000_09, (1.0 + PRICE_BIAS) * (1.0 - HALF_DIGIT));
    MulMono(usd, (1.0 + PRICE_BIAS) * (1.0 + HALF_DIGIT), 1.000_000_000_11);
    MulMono(usd, 1.0, 1.000_000_000_09);
  }

  lemma {:induction false} BuyTotal(qty: real, usd: real)
    requires qty > 0.0 && usd > 0.0
    ensures usd * 0.999_999_999_89 <= qty * BuyPrice(qty, usd, true) <= usd
    ensures usd != qty ==> qty * BuyPrice(qty, usd, true) <= usd * 0.999_999_999_91
  {
    hide RoundSig;
    PriceOfOne(qty, usd);
    LegTotal(qty, usd, 1.0 - PRICE_BIAS);
    MulMono(usd, (1.0 - PRICE_BIAS) * (1.0 + HALF_DIGIT), 0.999_999_999_91);
    MulMono(usd, 0.999_999_999_89, (1.0 - PRICE_BIAS) * (1.0 - HALF_DIGIT));
    MulMono(usd, 0.999_999_999_91, 1.0);
  }

  /** The buy total never exceeds the sell total, and both stay within 3e-10 of the value. */
  lemma {:induction false} TotalsAreOrdered(inQty: real, outQty: real, usd: real)
    requires inQty > 0.0 && outQty > 0.0 && usd > 0.0
    ensures outQty * BiasedPrices(inQty, outQty, usd, true).1 <= usd <= inQty * BiasedPrices(inQty, outQty, usd, true).0
    ensures inQty * BiasedPrices(inQty, outQty, usd, true).0 - outQty * BiasedPrices(inQty, outQty, usd, true).1
            <= usd * 0.000_000_000_3
  {
    hide SellPrice, BuyPrice;
    SellTotal(inQty, usd);
    BuyTotal(outQty, usd);
  }

  // --------------------------------------------------- the stored quantities

  /** Nearest integer, ties away from zero. */
  function RoundHalfAway(x: real): (n: int)
    ensures -0.5 <= n as real - x <= 0.5
  {
    if x >= 0.0 then (x + 0.5).Floor else -((0.5 - x).Floor)
  }

  /** Eight decimals; a value that would vanish is kept as it is. */
  function Round8(v: real): real {
    var r := RoundHalfAway(v * 100_000_000.0) as real / 100_000_000.0;
    if r != 0.0 || v == 0.0 then r else v
  }

  /** Storing never destroys a quantity, and moves it by at most half a unit in the eighth decimal. */
  lemma {:induction false} Round8IsClose(v: real)
    ensures (Round8(v) == 0.0 <==> v == 0.0) && -0.000_000_005 <= Round8(v) - v <= 0.000_000_005
  {
  }

  lemma {:induction false} Round8IsPositive(v: real)
    requires v > 0.0
    ensures Round8(v) > 0.0
  {
    Round8IsClose(v);
  }

  /** The least and greatest that a leg's total can be, relative to the value: an exact one-dollar leg is not biased. */
  function SellLow(qty: real, usd: real): real { if qty == usd then 1.0 else 1.000_000_000_09 }

  function SellHigh(qty: real, usd: real): real { if qty == usd then 1.0 else 1.000_000_000_11 }

  function BuyLow(qty: real, usd: real): real { if qty == usd then 1.0 else 0.999_999_999_89 }

  function BuyHigh(qty: real, usd: real): real { if qty == usd then 1.0 else 0.999_999_999_91 }

  lemma {:induction false} LegTotals(inQty: real, outQty: real, usd: real)
    requires inQty > 0.0 && outQty > 0.0 && usd > 0.0
    ensures usd * SellLow(inQty, usd) <= inQty * SellPrice(inQty, usd, true) <= usd * SellHigh(inQty, usd)
    ensures usd * BuyLow(outQty, usd) <= outQty * BuyPrice(outQty, usd, true) <= usd * BuyHigh(outQty, usd)
  {
    hide RoundSig;
    PriceOfOne(inQty, usd);
    PriceOfOne(outQty, usd);
    SellTotal(inQty, usd);
    BuyTotal(outQty, usd);
  }

  lemma {:induction false} Cancel(c: real, a: real, b: real)
    requires c > 0.0 && c * a <= c * b
    ensures a <= b
  {
    if a > b {
      StrictMono(c, b, a);
    }
  }

  lemma {:induction false} StrictMono(c: real, a: real, b: real)
    requires c > 0.0 && a < b
    ensures c * a < c * b
  {
    assert c * (b - a) > 0.0;
  }

  function Product(a: real, b: real): real { a * b }

  lemma {:induction false} ProductIsPositive(a: real, b: real)
    requires a > 0.0 && b > 0.0
    ensures Product(a, b) > 0.0
  {
  }

  /**
   * What the activities store are quantities rounded to eight decimals. Their totals keep the
   * order exactly when that rounding does not favour the bought quantity over the sold one by
   * more than the bias leaves room for: the two thresholds differ only by what rounding a price
   * to twelve digits leaves open, and meet on exact one-dollar legs.
   */
  lemma {:induction false} StoredTotalsAreOrdered(inQty: real, outQty: real, usd: real)
    requires inQty > 0.0 && outQty > 0.0 && usd > 0.0
    ensures var (sell, buy) := BiasedPrices(inQty, outQty, usd, true);
            var bought, sold := Product(Round8(outQty), inQty), Product(Round8(inQty), outQty);
            && (bought * BuyHigh(outQty, usd) <= sold * SellLow(inQty, usd) ==> Round8(outQty) * buy <= Round8(inQty) * sell)
            && (Round8(outQty) * buy <= Round8(inQty) * sell ==> bought * BuyLow(outQty, usd) <= sold * SellHigh(inQty, usd))
  {
    hide SellPrice, BuyPrice, Round8, SellLow, SellHigh, BuyLow, BuyHigh, Product;
    Round8IsPositive(inQty);
    Round8IsPositive(outQty);
    LegTotals(inQty, outQty, usd);
    var sell, buy := SellPrice(inQty, usd, true), BuyPrice(outQty, usd, true);
    var bought, sold := Product(Round8(outQty), inQty), Product(Round8(inQty), outQty);
    ProductIsPositive(Round8(outQty), inQty);
    ProductIsPositive(Round8(inQty), outQty);
    SameOrder(Round8(outQty), outQty, buy, Round8(inQty), inQty, sell);
    Totals(bought, sold, outQty * buy, inQty * sell, BuyLow(outQty, usd), BuyHigh(outQty, usd), SellLow(inQty, usd), SellHigh(inQty, usd), usd);
  }

  lemma {:induction false} Totals(bought: real, sold: real, b: real, s: real, bLow: real, bHigh: real, sLow: real, sHigh: real, usd: real)
    requires bought > 0.0 && sold > 0.0 && usd > 0.0
    requires usd * bLow <= b <= usd * bHigh && usd * sLow <= s <= usd * sHigh
    ensures bought * bHigh <= sold * sLow ==> Product(bought, b) <= Product(sold, s)
    ensures Product(bought, b) <= Product(sold, s) ==> bought * bLow <= sold * sHigh
  {
    if bought * bHigh <= sold * sLow {
      Chain(bought, sold, b, usd * bHigh, usd * sLow, s, bHigh, sLow, usd);
    }
    if bought * b <= sold * s {
      Unchain(bought, sold, b, s, bLow, sHigh, usd);
    }
  }

  /** Scaling both legs by both quantities compares their totals instead of their prices. */
  lemma {:induction false} SameOrder(o: real, q: real, buy: real, i: real, p: real, sell: real)
    requires p > 0.0 && q > 0.0
    ensures o * buy <= i * sell <==> Product(Product(o, p), q * buy) <= Product(Product(i, q), p * sell)
  {
    var c, x, y := Product(p, q), Product(o, buy), Product(i, sell);
    ProductIsPositive(p, q);
    assert Product(Product(o, p), q * buy) == c * x;
    assert Product(Product(i, q), p * sell) == c * y;
    ScaledOrder(c, x, y);
  }

  lemma {:induction false} ScaledOrder(c: real, x: real, y: real)
    requires c > 0.0
    ensures x <= y <==> c * x <= c * y
  {
    if x <= y {
      MulMono(c, x, y);
    } else {
      StrictMono(c, y, x);
    }
  }

  lemma {:induction false} Chain(bought: real, sold: real, b: real, bHigh: real, sLow: real, s: real, high: real, low: real, usd: real)
    requires bought > 0.0 && sold > 0.0 && usd > 0.0
    requires bHigh == usd * high && sLow == usd * low && b <= bHigh && sLow <= s && bought * high <= sold * low
    ensures bought * b <= sold * s
  {
    MulMono(bought, b, bHigh);
    MulMono(sold, sLow, s);
    MulMono(usd, bought * high, sold * low);
    assert bought * bHigh == usd * (bought * high);
    assert sold * sLow == usd * (sold * low);
  }

  lemma {:induction false} Unchain(bought: real, sold: real, b: real, s: real, low: real, high: real, usd: real)
    requires bought > 0.0 && sold > 0.0 && usd > 0.0
    requires usd * low <= b && s <= usd * high && bought * b <= sold * s
    ensures bought * low <= sold * high
  {
    MulMono(bought, usd * low, b);
    MulMono(sold, s, usd * high);
    assert bought * (usd * low) == usd * (bought * low);
    assert sold * (usd * high) == usd * (sold * high);
    Cancel(usd, bought * low, sold * high);
  }

  /**
   * Without that condition the stored order fails: selling 1.000000004 TON for 100
   * dollars stores one TON, whose total falls below the 100 dollars bought.
   */
  lemma {:induction false} StoredTotalsCanCross()
    ensures var (sell, buy) := BiasedPrices(1.000_000_004, 100.0, 100.0, true);
            Round8(1.000_000_004) * sell < Round8(100.0) * buy
  {
    hide RoundSig, SellPrice;
    SellTotal(1.000_000_004, 100.0);
    PriceOfOne(100.0, 100.0);
    assert Round8(1.000_000_004) == 1.0;
    assert Round8(100.0) == 100.0;
  }
}
