/** Gas limits and fees by fixed-point multiplication. A multiplier is an exact non-negative real. */
module Gas {
  import opened Decimal
  import opened OrderedMap
  import opened Text

  const PRECISION: nat := 1_000_000

  /** `Math.ceil` */
  function Ceil(x: real): int {
    -((-x).Floor)
  }

  /** `mulBigIntByFloat`; None is its ParseError on a negative multiplier. */
  function MulByFloat(value: int, multiplier: real): Option<int> {
    if multiplier < 0.0 then None
    else Some(TruncDiv(value * Ceil(multiplier * (PRECISION as real)) + PRECISION - 1, PRECISION))
  }

  /** r is v * m rounded up: never below it, and above it by less than v / 10^6 + 1. */
  ghost predicate RoundsUp(r: int, v: int, m: real) {
    var product := v as real * m;
    product <= r as real < product + v as real / 1000000.0 + 1.0
  }

  lemma CeilBounds(x: real)
    ensures x <= Ceil(x) as real < x + 1.0
  {
  }

  /** Ceiling division, for a non-negative dividend. */
  lemma CeilDivBounds(n: nat)
    ensures var q := TruncDiv(n + PRECISION - 1, PRECISION);
            n <= q * PRECISION < n + PRECISION
  {
  }

  /** The scaled product: v times the ceiling of x. */
  lemma ScaledBounds(v: nat, x: real, scaled: int)
    requires x >= 0.0 && scaled == Ceil(x)
    ensures scaled >= 0 && v * scaled >= 0
    ensures v as real * x <= (v * scaled) as real <= v as real * x + v as real
  {
    CeilBounds(x);
    MulNonNegative(v, scaled);
    TimesBetween(v as real, x, scaled as real);
    Cast(v, scaled);
    assert Times(v as real, x) <= Times(v as real, scaled as real) <= Times(v as real, x) + v as real;
  }

  function Times(a: real, b: real): real {
    a * b
  }

  lemma TimesBetween(v: real, e: real, s: real)
    requires v >= 0.0 && e <= s < e + 1.0
    ensures Times(v, e) <= Times(v, s) <= Times(v, e) + v
  {
    TimesMinus(v, s, e);
    TimesMinus(v, 1.0, s - e);
    TimesNonNegative(v, s - e);
    TimesNonNegative(v, 1.0 - (s - e));
  }

  lemma TimesMinus(v: real, a: real, b: real)
    ensures Times(v, a - b) == Times(v, a) - Times(v, b)
  {
  }

  lemma TimesNonNegative(a: real, b: real)
    requires a >= 0.0 && b >= 0.0
    ensures Times(a, b) >= 0.0
  {
  }

  lemma Cast(a: int, b: int)
    ensures (a * b) as real == Times(a as real, b as real)
  {
  }

  lemma Regroup(v: real, m: real)
    ensures v * (m * 1000000.0) == v * m * 1000000.0
  {
  }

  lemma MulByFloatBounds(v: nat, m: real)
    requires m >= 0.0
    ensures MulByFloat(v, m).Some? && MulByFloat(v, m).value >= 0 && RoundsUp(MulByFloat(v, m).value, v, m)
  {
    var scaled := Ceil(m * 1000000.0);
    ScaledBounds(v, m * 1000000.0, scaled);
    CeilDivBounds(v * scaled);
    Regroup(v as real, m);
    Divide(v, v as real * m, v * scaled, MulByFloat(v, m).value);
  }

  /** Exactly: with k the multiplier in millionths rounded up, the least whole number of millions
      that v * k takes. */
  lemma MulByFloatExactly(v: nat, m: real)
    requires m >= 0.0
    ensures MulByFloat(v, m).Some?
    ensures var k, r := Ceil(m * 1000000.0), MulByFloat(v, m).value;
            && k >= 0 && (k - 1) as real < m * 1000000.0 <= k as real
            && (r - 1) * 1_000_000 < v * k <= r * 1_000_000
  {
    var k := Ceil(m * 1000000.0);
    CeilBounds(m * 1000000.0);
    MulNonNegative(v, k);
    CeilDivBounds(v * k);
  }

  /** Where the multiplier is a whole number of millionths and the product a whole number, nothing is
      rounded. */
  lemma MulByFloatWhole(v: nat, k: nat, product: nat)
    requires v * k == product * 1_000_000
    ensures MulByFloat(v, k as real / 1000000.0) == Some(product)
  {
    var m := k as real / 1000000.0;
    assert m * 1000000.0 == k as real;
    MulByFloatExactly(v, m);
    assert Ceil(m * 1000000.0) == k;
  }

  lemma Divide(v: nat, product: real, n: nat, q: int)
    requires product * 1000000.0 <= n as real <= product * 1000000.0 + v as real
    requires n <= q * PRECISION < n + PRECISION
    ensures q >= 0 && product <= q as real < product + v as real / 1000000.0 + 1.0
  {
    assert (q * PRECISION) as real == q as real * 1000000.0;
    assert (n + PRECISION) as real == n as real + 1000000.0;
  }

  lemma MulNonNegative(a: nat, b: nat)
    ensures a * b >= 0
  {
  }

  lemma MulMonotone(a: nat, b: nat, c: nat, d: nat)
    requires a <= c && b <= d
    ensures a * b <= c * d
  {
    assert a * b <= c * b;
    assert c * b <= c * d;
  }

  /** More gas, or a larger multiplier, never gives less. */
  lemma MulByFloatMonotone(v: nat, m: real, w: nat, n: real)
    requires v <= w && 0.0 <= m <= n
    ensures MulByFloat(v, m).value <= MulByFloat(w, n).value
  {
    var a, b := Ceil(m * 1000000.0), Ceil(n * 1000000.0);
    CeilBounds(m * 1000000.0);
    CeilBounds(n * 1000000.0);
    assert 0 <= a <= b;
    MulMonotone(v, a, w, b);
    DivMonotone(v * a + PRECISION - 1, w * b + PRECISION - 1);
  }

  lemma DivMonotone(x: nat, y: nat)
    requires x <= y
    ensures TruncDiv(x, PRECISION) <= TruncDiv(y, PRECISION)
  {
  }

  // ---------- gas prices ----------

  predicate IsPriceChar(c: char) {
    IsDigit(c) || c == '.'
  }

  /** `.` in a regular expression: anything but a line terminator. */
  predicate IsDot(c: char) {
    c != '\n' && c != '\r' && c as int != 0x2028 && c as int != 0x2029
  }

  /** `parseGasPrice`: the longest run of digits and points that leaves something for the denom. */
  function ParseGasPrice(s: string): Option<(string, string)> {
    var n := Span(s, IsPriceChar);
    var k := if n == |s| && n > 0 then n - 1 else n;
    if k == 0 || !(forall i :: k <= i < |s| ==> IsDot(s[i])) then None else Some((s[..k], s[k..]))
  }

  /** The parts of a gas price: an amount of digits and points, and a denom that does not go on with
      them, unless it is one of them and nothing else. */
  predicate PriceParts(amount: string, denom: string) {
    && amount != [] && (forall i :: 0 <= i < |amount| ==> IsPriceChar(amount[i]))
    && denom != [] && (forall i :: 0 <= i < |denom| ==> IsDot(denom[i]))
    && (IsPriceChar(denom[0]) ==> |denom| == 1)
  }

  lemma PriceSplit(amount: string, denom: string)
    requires PriceParts(amount, denom)
    ensures ParseGasPrice(amount + denom) == Some((amount, denom))
  {
    var s := amount + denom;
    if IsPriceChar(denom[0]) {
      assert s + [] == s;
      SpanOf(s, [], IsPriceChar);
    } else {
      SpanOf(amount, denom, IsPriceChar);
    }
    assert s[..|amount|] == amount && s[|amount|..] == denom;
    forall i | |amount| <= i < |s| ensures IsDot(s[i]) {
      assert s[i] == denom[i - |amount|];
    }
  }

  lemma PriceFound(s: string)
    requires ParseGasPrice(s).Some?
    ensures var (amount, denom) := ParseGasPrice(s).value; s == amount + denom && PriceParts(amount, denom)
  {
    var (amount, denom) := ParseGasPrice(s).value;
    SpanHolds(s, IsPriceChar);
    assert s == amount + denom;
    forall i | 0 <= i < |denom| ensures IsDot(denom[i]) {
      assert denom[i] == s[i + |amount|];
    }
    assert denom[0] == s[|amount|];
  }

  /** A text is accepted, and taken apart, exactly where it is the two parts of a gas price put
      together. */
  lemma ParseGasPriceHolds(s: string, amount: string, denom: string)
    ensures ParseGasPrice(s) == Some((amount, denom)) <==> s == amount + denom && PriceParts(amount, denom)
  {
    if ParseGasPrice(s) == Some((amount, denom)) {
      PriceFound(s);
    }
    if s == amount + denom && PriceParts(amount, denom) {
      PriceSplit(amount, denom);
    }
  }

  /** `parseFloat` on digits and points: the digits up to a second point. None is NaN. */
  function ParseFloat(s: string): Option<real> {
    var n := Span(s, IsDigit);
    SpanHolds(s, IsDigit);
    var rest := s[n..];
    var m := if rest != [] && rest[0] == '.' then Span(rest[1..], IsDigit) else 0;
    if rest != [] && rest[0] == '.' then
      SpanHolds(rest[1..], IsDigit);
      if n + m == 0 then None
      else Some(NatValue(s[..n] + rest[1..][..m]) as real / Pow10(m) as real)
    else if n == 0 then None
    else Some(NatValue(s[..n]) as real)
  }

  /** Digits, a point and digits denote the number of all the digits, over ten for each one after the
      point; what follows a second point is not read. */
  lemma ParseFloatPoint(a: string, b: string, rest: string)
    requires AllDigits(a) && AllDigits(b) && (rest == [] || !IsDigit(rest[0]))
    ensures ParseFloat(a + (['.'] + (b + rest))) ==
            if a == [] && b == [] then None else Some(NatValue(a + b) as real / Pow10(|b|) as real)
  {
    var s, tail := a + (['.'] + (b + rest)), ['.'] + (b + rest);
    SpanOf(a, tail, IsDigit);
    SpanOf(b, rest, IsDigit);
    assert s[|a|..] == tail && s[..|a|] == a && tail[1..] == b + rest && (b + rest)[..|b|] == b;
  }

  /** Digits and no point denote their number. */
  lemma ParseFloatWhole(a: string, rest: string)
    requires AllDigits(a) && (rest == [] || (!IsDigit(rest[0]) && rest[0] != '.'))
    ensures ParseFloat(a + rest) == if a == [] then None else Some(NatValue(a) as real)
  {
    SpanOf(a, rest, IsDigit);
    assert (a + rest)[|a|..] == rest && (a + rest)[..|a|] == a;
  }

  /** The denom and the price a text gives. */
  function PriceOf(gasPrice: string): Option<(string, real)> {
    match ParseGasPrice(gasPrice)
    case None => None
    case Some((amount, denom)) =>
      match ParseFloat(amount)
      case None => None
      case Some(price) => Some((denom, price))
  }

  /** `calculateFee`: the denom and the amount. */
  function CalculateFee(gasLimit: int, gasPrice: string): Option<(string, int)> {
    match PriceOf(gasPrice)
    case None => None
    case Some((denom, price)) =>
      match MulByFloat(gasLimit, price)
      case None => None
      case Some(fee) => Some((denom, fee))
  }

  /** A price written with a point is read with its denom as the number it writes. */
  lemma PriceRead(a: string, b: string, denom: string)
    requires AllDigits(a) && AllDigits(b) && (a != [] || b != []) && PriceParts(a + (['.'] + b), denom)
    ensures PriceOf((a + (['.'] + b)) + denom) == Some((denom, NatValue(a + b) as real / Pow10(|b|) as real))
  {
    PriceSplit(a + (['.'] + b), denom);
    ParseFloatPoint(a, b, []);
    assert b + [] == b;
  }

  /** And so is one without a point. */
  lemma WholePriceRead(a: string, denom: string)
    requires AllDigits(a) && PriceParts(a, denom)
    ensures PriceOf(a + denom) == Some((denom, NatValue(a) as real))
  {
    PriceSplit(a, denom);
    ParseFloatWhole(a, []);
    assert a + [] == a;
  }

  /** The fee is the one coin of the price's denom, its amount the gas limit times the price by
      `mulBigIntByFloat`. */
  lemma FeeIs(gasLimit: nat, gasPrice: string, denom: string, price: real)
    requires PriceOf(gasPrice) == Some((denom, price)) && price >= 0.0
    ensures CalculateFee(gasLimit, gasPrice).Some?
    ensures var (feeDenom, fee) := CalculateFee(gasLimit, gasPrice).value;
            var k := Ceil(price * 1000000.0);
            feeDenom == denom && (fee - 1) * 1_000_000 < gasLimit * k <= fee * 1_000_000
  {
    MulByFloatExactly(gasLimit, price);
  }

  lemma PriceIsNonNegative(s: string)
    ensures ParseFloat(s).Some? ==> ParseFloat(s).value >= 0.0
  {
  }

  /** Twice rounded up, the result covers the product of all three. */
  lemma RoundsUpTwice(gasUsed: nat, multiplier: real, gasLimit: int, price: real, fee: int)
    requires multiplier >= 0.0 && price >= 0.0
    requires RoundsUp(gasLimit, gasUsed, multiplier) && RoundsUp(fee, gasLimit, price)
    ensures gasUsed as real * multiplier * price <= fee as real
  {
    var exact, limit := gasUsed as real * multiplier, gasLimit as real;
    TimesMinus(price, limit, exact);
    TimesNonNegative(price, limit - exact);
    assert Times(price, exact) == exact * price && Times(price, limit) == limit * price;
  }

  lemma TwoStages(gasUsed: nat, multiplier: real, price: real)
    requires multiplier >= 0.0 && price >= 0.0
    ensures var gasLimit := MulByFloat(gasUsed, multiplier);
            && gasLimit.Some? && RoundsUp(gasLimit.value, gasUsed, multiplier)
            && (var fee := MulByFloat(gasLimit.value, price);
                fee.Some? && RoundsUp(fee.value, gasLimit.value, price))
  {
    MulByFloatBounds(gasUsed, multiplier);
    MulByFloatBounds(MulByFloat(gasUsed, multiplier).value, price);
  }

  lemma EstimateWith(gasUsed: nat, multiplier: real, gasLimit: int, price: real, fee: int)
    requires price >= 0.0 && MulByFloat(gasUsed, multiplier) == Some(gasLimit) && MulByFloat(gasLimit, price) == Some(fee)
    ensures gasUsed as real * multiplier * price <= fee as real
    ensures RoundsUp(gasLimit, gasUsed, multiplier) && RoundsUp(fee, gasLimit, price)
  {
    TwoStages(gasUsed, multiplier, price);
    RoundsUpTwice(gasUsed, multiplier, gasLimit, price, fee);
  }

  /** The fee estimated in two roundings covers gas used times multiplier times price, and each
      rounding goes up by less than a millionth of what is rounded, plus one. */
  lemma EstimateCovers(gasUsed: nat, multiplier: real, gasPrice: string, denom: string, price: real)
    requires multiplier >= 0.0 && PriceOf(gasPrice) == Some((denom, price))
    ensures MulByFloat(gasUsed, multiplier).Some?
    ensures var gasLimit := MulByFloat(gasUsed, multiplier).value;
            && RoundsUp(gasLimit, gasUsed, multiplier)
            && CalculateFee(gasLimit, gasPrice).Some?
            && (var (feeDenom, fee) := CalculateFee(gasLimit, gasPrice).value;
                && feeDenom == denom
                && gasUsed as real * multiplier * price <= fee as real
                && RoundsUp(fee, gasLimit, price))
  {
    PriceIsNonNegative(ParseGasPrice(gasPrice).value.0);
    TwoStages(gasUsed, multiplier, price);
    var gasLimit := MulByFloat(gasUsed, multiplier).value;
    EstimateWith(gasUsed, multiplier, gasLimit, price, MulByFloat(gasLimit, price).value);
  }
}
