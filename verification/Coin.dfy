/** Coin lists and the display of amounts. An amount is the integer its text denotes. */
module Coin {
  import opened Arithmetic
  import opened Decimal
  import opened OrderedMap
  import opened Text

  datatype Coin = Coin(denom: string, amount: int)

  // ---------- sum, merge, subtract ----------

  function Sum(coins: seq<Coin>, denom: string): int {
    if coins == [] then 0
    else
      var last := coins[|coins| - 1];
      Sum(coins[..|coins| - 1], denom) + (if last.denom == denom then last.amount else 0)
  }

  /** The amount a Map holds for a denom, 0 if none. */
  function AmountOr0(m: seq<(string, int)>, denom: string): int {
    match Get(m, denom)
    case None => 0
    case Some(a) => a
  }

  /** The Map from denom to total amount, denoms in order of first occurrence. */
  function Totals(coins: seq<Coin>): seq<(string, int)> {
    if coins == [] then []
    else
      var m, last := Totals(coins[..|coins| - 1]), coins[|coins| - 1];
      Put(m, last.denom, AmountOr0(m, last.denom) + last.amount)
  }

  function ToCoins(m: seq<(string, int)>): (cs: seq<Coin>)
    ensures |cs| == |m| && forall i :: 0 <= i < |m| ==> cs[i] == Coin(m[i].0, m[i].1)
  {
    seq(|m|, i requires 0 <= i < |m| => Coin(m[i].0, m[i].1))
  }

  function Merge(coins: seq<Coin>): seq<Coin> {
    ToCoins(Totals(coins))
  }

  method ComputeSum(coins: seq<Coin>, denom: string) returns (total: int)
    ensures total == Sum(coins, denom)
  {
    total := 0;
    for i := 0 to |coins|
      invariant total == Sum(coins[..i], denom)
    {
      assert coins[..i + 1][..i] == coins[..i];
      if coins[i].denom == denom {
        total := total + coins[i].amount;
      }
    }
    assert coins[..|coins|] == coins;
  }

  method ComputeTotals(coins: seq<Coin>) returns (m: seq<(string, int)>)
    ensures m == Totals(coins)
  {
    m := [];
    for i := 0 to |coins|
      invariant m == Totals(coins[..i])
    {
      assert coins[..i + 1][..i] == coins[..i];
      m := Put(m, coins[i].denom, AmountOr0(m, coins[i].denom) + coins[i].amount);
    }
    assert coins[..|coins|] == coins;
  }

  method ComputeMerge(coins: seq<Coin>) returns (merged: seq<Coin>)
    ensures merged == Merge(coins)
  {
    var m := ComputeTotals(coins);
    merged := ToCoins(m);
  }

  /** The distinct elements of a list in order of first occurrence. */
  function Firsts(xs: seq<string>): seq<string> {
    if xs == [] then []
    else
      var rest, last := Firsts(xs[..|xs| - 1]), xs[|xs| - 1];
      if last in rest then rest else rest + [last]
  }

  function Denoms(coins: seq<Coin>): (ds: seq<string>)
    ensures |ds| == |coins| && forall i :: 0 <= i < |coins| ==> ds[i] == coins[i].denom
  {
    seq(|coins|, i requires 0 <= i < |coins| => coins[i].denom)
  }

  /** Adding an amount under a denom keeps the keys as they are, and puts a new one last. */
  lemma TotalsNext(m: seq<(string, int)>, m': seq<(string, int)>, ds: seq<string>, denom: string, v: int)
    requires Distinct(m) && KeysOf(m) == ds && m' == Put(m, denom, v)
    ensures Distinct(m') && KeysOf(m') == if denom in ds then ds else ds + [denom]
  {
    PutDistinct(m, denom, v);
    assert denom in KeysOf(m) <==> Has(m, denom);
    if Has(m, denom) {
      PutOld(m, denom, v);
    } else {
      PutNew(m, denom, v);
    }
  }

  lemma FirstDenomsNext(front: seq<Coin>, last: Coin)
    ensures Firsts(Denoms(front + [last])) ==
            if last.denom in Firsts(Denoms(front)) then Firsts(Denoms(front)) else Firsts(Denoms(front)) + [last.denom]
  {
    var ds := Denoms(front + [last]);
    assert ds[..|front|] == Denoms(front) && ds[|front|] == last.denom;
  }

  lemma TotalsSnoc(front: seq<Coin>, last: Coin) returns (v: int)
    ensures Totals(front + [last]) == Put(Totals(front), last.denom, v)
  {
    assert (front + [last])[..|front|] == front;
    v := AmountOr0(Totals(front), last.denom) + last.amount;
  }

  ghost predicate KeyedInOrder(coins: seq<Coin>) {
    Distinct(Totals(coins)) && KeysOf(Totals(coins)) == Firsts(Denoms(coins))
  }

  lemma KeyedNext(front: seq<Coin>, last: Coin)
    requires KeyedInOrder(front)
    ensures KeyedInOrder(front + [last])
  {
    var m := Totals(front);
    var v := TotalsSnoc(front, last);
    FirstDenomsNext(front, last);
    TotalsNext(m, Totals(front + [last]), Firsts(Denoms(front)), last.denom, v);
  }

  lemma {:induction false} TotalsKeys(coins: seq<Coin>)
    ensures KeyedInOrder(coins)
  {
    if coins != [] {
      TotalsKeys(coins[..|coins| - 1]);
      KeyedNext(coins[..|coins| - 1], coins[|coins| - 1]);
      assert coins == coins[..|coins| - 1] + [coins[|coins| - 1]];
    }
  }

  lemma AmountNext(m: seq<(string, int)>, denom: string, amount: int, x: string)
    ensures AmountOr0(Put(m, denom, AmountOr0(m, denom) + amount), x) == AmountOr0(m, x) + (if denom == x then amount else 0)
  {
    PutGet(m, denom, AmountOr0(m, denom) + amount, x);
  }

  lemma AmountSnoc(front: seq<Coin>, last: Coin, x: string)
    ensures AmountOr0(Totals(front + [last]), x) == AmountOr0(Totals(front), x) + (if last.denom == x then last.amount else 0)
  {
    assert (front + [last])[..|front|] == front;
    AmountNext(Totals(front), last.denom, last.amount, x);
  }

  lemma {:induction false} TotalsSums(coins: seq<Coin>, x: string)
    ensures AmountOr0(Totals(coins), x) == Sum(coins, x)
  {
    if coins != [] {
      var front, last := coins[..|coins| - 1], coins[|coins| - 1];
      assert coins == front + [last];
      TotalsSums(front, x);
      AmountSnoc(front, last, x);
      SumSnoc(front, last, x);
    }
  }

  lemma TotalsHold(coins: seq<Coin>)
    ensures Distinct(Totals(coins)) && KeysOf(Totals(coins)) == Firsts(Denoms(coins))
    ensures forall x :: AmountOr0(Totals(coins), x) == Sum(coins, x)
  {
    TotalsKeys(coins);
    forall x ensures AmountOr0(Totals(coins), x) == Sum(coins, x) {
      TotalsSums(coins, x);
    }
  }

  lemma {:induction false} SumOfDistinct(m: seq<(string, int)>, x: string)
    requires Distinct(m)
    ensures Sum(ToCoins(m), x) == AmountOr0(m, x)
  {
    if m != [] {
      var n := |m| - 1;
      assert ToCoins(m)[..n] == ToCoins(m[..n]);
      SumOfDistinct(m[..n], x);
      assert m == m[..n] + [m[n]];
      GetAppend(m[..n], [m[n]], x);
    }
  }

  ghost predicate SameTotals(a: seq<Coin>, b: seq<Coin>) {
    forall x :: Sum(a, x) == Sum(b, x)
  }

  /** Merging conserves the total of every denom, and lists each denom once, in order of first occurrence. */
  lemma MergeConserves(coins: seq<Coin>)
    ensures SameTotals(Merge(coins), coins)
    ensures Denoms(Merge(coins)) == Firsts(Denoms(coins))
  {
    TotalsHold(coins);
    forall x ensures Sum(Merge(coins), x) == Sum(coins, x) {
      SumOfDistinct(Totals(coins), x);
    }
    assert Denoms(Merge(coins)) == KeysOf(Totals(coins));
  }

  ghost predicate DistinctDenoms(coins: seq<Coin>) {
    forall i, j :: 0 <= i < j < |coins| ==> coins[i].denom != coins[j].denom
  }

  lemma {:induction false} SumAbsent(coins: seq<Coin>, x: string)
    requires forall i :: 0 <= i < |coins| ==> coins[i].denom != x
    ensures Sum(coins, x) == 0
  {
    if coins != [] {
      SumAbsent(coins[..|coins| - 1], x);
    }
  }

  lemma {:induction false} SumAt(coins: seq<Coin>, i: nat)
    requires DistinctDenoms(coins) && i < |coins|
    ensures Sum(coins, coins[i].denom) == coins[i].amount
  {
    var n := |coins| - 1;
    if i == n {
      SumAbsent(coins[..n], coins[n].denom);
    } else {
      SumAt(coins[..n], i);
    }
  }

  lemma {:induction false} FirstsDistinct(xs: seq<string>)
    ensures forall i, j :: 0 <= i < j < |Firsts(xs)| ==> Firsts(xs)[i] != Firsts(xs)[j]
  {
    if xs != [] {
      FirstsDistinct(xs[..|xs| - 1]);
    }
  }

  lemma {:induction false} FirstsOfDistinct(xs: seq<string>)
    requires forall i, j :: 0 <= i < j < |xs| ==> xs[i] != xs[j]
    ensures Firsts(xs) == xs
  {
    if xs != [] {
      var n := |xs| - 1;
      FirstsOfDistinct(xs[..n]);
      assert xs == xs[..n] + [xs[n]];
      assert xs[n] !in xs[..n];
    }
  }

  lemma MergeDetermined(coins: seq<Coin>, r: seq<Coin>)
    requires Denoms(r) == Firsts(Denoms(coins)) && SameTotals(r, coins)
    ensures r == Merge(coins)
  {
    MergeConserves(coins);
    FirstsDistinct(Denoms(coins));
    SameSums(r, Merge(coins));
  }

  /** Totals and denom order determine the merged list. */
  lemma MergeUnique(coins: seq<Coin>, r: seq<Coin>)
    ensures r == Merge(coins) <==> Denoms(r) == Firsts(Denoms(coins)) && SameTotals(r, coins)
  {
    MergeConserves(coins);
    if Denoms(r) == Firsts(Denoms(coins)) && SameTotals(r, coins) {
      MergeDetermined(coins, r);
    }
  }

  /** Merging what is merged changes nothing. */
  lemma MergeIdempotent(coins: seq<Coin>)
    ensures Merge(Merge(coins)) == Merge(coins)
  {
    MergeConserves(coins);
    FirstsDistinct(Denoms(coins));
    FirstsOfDistinct(Denoms(Merge(coins)));
    MergeDetermined(Merge(coins), Merge(coins));
  }

  lemma SameSums(r: seq<Coin>, m: seq<Coin>)
    requires Denoms(r) == Denoms(m) && (forall i, j :: 0 <= i < j < |m| ==> Denoms(m)[i] != Denoms(m)[j])
    requires SameTotals(r, m)
    ensures r == m
  {
    assert forall i :: 0 <= i < |m| ==> r[i].denom == m[i].denom;
    forall i | 0 <= i < |m| ensures r[i] == m[i] {
      SumAt(r, i);
      SumAt(m, i);
    }
  }

  /** The coins left after a fee; None if some coin is short of its denom's total fee. */
  function SubtractFrom(coins: seq<Coin>, feeMap: seq<(string, int)>): Option<seq<Coin>> {
    if coins == [] then Some([])
    else
      var c := coins[|coins| - 1];
      match SubtractFrom(coins[..|coins| - 1], feeMap)
      case None => None
      case Some(left) =>
        match Get(feeMap, c.denom)
        case None => Some(left + [c])
        case Some(fee) => if c.amount - fee < 0 then None else Some(left + [Coin(c.denom, c.amount - fee)])
  }

  function Subtract(coins: seq<Coin>, fee: seq<Coin>): Option<seq<Coin>> {
    SubtractFrom(coins, Totals(fee))
  }

  method ComputeSubtract(coins: seq<Coin>, fee: seq<Coin>) returns (r: Option<seq<Coin>>)
    ensures r == Subtract(coins, fee)
  {
    var feeMap := ComputeTotals(fee);
    var left := [];
    for i := 0 to |coins|
      invariant SubtractFrom(coins[..i], feeMap) == Some(left)
    {
      assert coins[..i + 1][..i] == coins[..i];
      var feeAmount := Get(feeMap, coins[i].denom);
      if feeAmount.None? {
        left := left + [coins[i]];
      } else {
        var result := coins[i].amount - feeAmount.value;
        if result < 0 {
          SubtractFails(coins, feeMap, i + 1);
          return None;
        }
        left := left + [Coin(coins[i].denom, result)];
      }
    }
    assert coins[..|coins|] == coins;
    r := Some(left);
  }

  lemma {:induction false} SubtractFails(coins: seq<Coin>, feeMap: seq<(string, int)>, n: nat)
    requires n <= |coins| && SubtractFrom(coins[..n], feeMap).None?
    ensures SubtractFrom(coins, feeMap).None?
    decreases |coins| - n
  {
    if n < |coins| {
      assert coins[..n + 1][..n] == coins[..n];
      SubtractFails(coins, feeMap, n + 1);
    } else {
      assert coins[..n] == coins;
    }
  }

  /** What one coin loses. */
  ghost function Loss(fee: seq<Coin>, denom: string): int {
    if denom in Denoms(fee) then Sum(fee, denom) else 0
  }

  lemma {:induction false} FirstsHold(xs: seq<string>)
    ensures forall x :: x in Firsts(xs) <==> x in xs
  {
    if xs != [] {
      FirstsHold(xs[..|xs| - 1]);
      assert xs == xs[..|xs| - 1] + [xs[|xs| - 1]];
    }
  }

  lemma FeeLookup(fee: seq<Coin>, x: string)
    ensures Get(Totals(fee), x) == if x in Denoms(fee) then Some(Sum(fee, x)) else None
  {
    TotalsHold(fee);
    FirstsHold(Denoms(fee));
    assert x in KeysOf(Totals(fee)) <==> Has(Totals(fee), x);
    assert AmountOr0(Totals(fee), x) == Sum(fee, x);
  }

  /** Subtraction succeeds exactly when every coin of a fee denom covers that denom's total fee; then
      each coin loses it, the others are unchanged, and no coin of a fee denom is negative. */
  lemma {:induction false} SubtractHolds(coins: seq<Coin>, fee: seq<Coin>)
    ensures Subtract(coins, fee).Some? <==>
            forall i :: 0 <= i < |coins| && coins[i].denom in Denoms(fee) ==> coins[i].amount >= Sum(fee, coins[i].denom)
    ensures Subtract(coins, fee).Some? ==>
              var r := Subtract(coins, fee).value;
              && |r| == |coins|
              && forall i :: 0 <= i < |coins| ==>
                   && r[i] == Coin(coins[i].denom, coins[i].amount - Loss(fee, coins[i].denom))
                   && (coins[i].denom in Denoms(fee) ==> r[i].amount >= 0)
  {
    if coins != [] {
      var n := |coins| - 1;
      SubtractHolds(coins[..n], fee);
      FeeLookup(fee, coins[n].denom);
      assert coins == coins[..n] + [coins[n]];
    }
  }

  function Occurrences(coins: seq<Coin>, x: string): nat {
    if coins == [] then 0
    else Occurrences(coins[..|coins| - 1], x) + (if coins[|coins| - 1].denom == x then 1 else 0)
  }

  /** The total of a denom falls by its fee once for every coin of the denom: exactly by the fee, that
      is, when the denom is listed once, and not at all when it is not listed. */
  lemma {:induction false} SubtractTotals(coins: seq<Coin>, fee: seq<Coin>, x: string)
    requires Subtract(coins, fee).Some?
    ensures Sum(Subtract(coins, fee).value, x) == Sum(coins, x) - Occurrences(coins, x) * Loss(fee, x)
  {
    if coins != [] {
      var front, c := coins[..|coins| - 1], coins[|coins| - 1];
      assert coins == front + [c];
      SubtractSnoc(front, c, fee);
      SubtractTotals(front, fee, x);
      SumSnoc(Subtract(front, fee).value, Coin(c.denom, c.amount - Loss(fee, c.denom)), x);
      SumSnoc(front, c, x);
      OccurrencesSnoc(front, c, x);
      OneMore(Occurrences(front, x), Loss(fee, x));
    }
  }

  lemma SubtractSnoc(front: seq<Coin>, c: Coin, fee: seq<Coin>)
    requires Subtract(front + [c], fee).Some?
    ensures Subtract(front, fee).Some?
    ensures Subtract(front + [c], fee).value == Subtract(front, fee).value + [Coin(c.denom, c.amount - Loss(fee, c.denom))]
  {
    assert (front + [c])[..|front|] == front;
    FeeLookup(fee, c.denom);
  }

  lemma OccurrencesSnoc(front: seq<Coin>, c: Coin, x: string)
    ensures Occurrences(front + [c], x) == Occurrences(front, x) + (if c.denom == x then 1 else 0)
  {
    assert (front + [c])[..|front|] == front;
  }

  lemma SumSnoc(coins: seq<Coin>, c: Coin, x: string)
    ensures Sum(coins + [c], x) == Sum(coins, x) + (if c.denom == x then c.amount else 0)
  {
    assert (coins + [c])[..|coins|] == coins;
  }

  lemma OneMore(n: nat, m: int)
    ensures (n + 1) * m == n * m + m
  {
  }

  // ---------- format ----------

  /** `.replace(/0+$/, '')` */
  function TrimZeros(s: string): string {
    if s != [] && s[|s| - 1] == '0' then TrimZeros(s[..|s| - 1]) else s
  }

  /** The numeral of `format`. */
  function FormatAmount(amount: int, decimals: nat): string {
    if decimals == 0 then IntText(amount)
    else
      var whole, fraction := TruncDiv(amount, Pow10(decimals)), TruncRem(amount, Pow10(decimals));
      if fraction == 0 then IntText(whole)
      else IntText(whole) + (['.'] + TrimZeros(PadStart(IntText(fraction), decimals)))
  }

  /** `format`, where a missing symbol is the denom. */
  function Format(c: Coin, decimals: Option<nat>, symbol: Option<string>): string {
    FormatAmount(c.amount, match decimals case None => 0 case Some(d) => d)
    + ([' '] + (match symbol case None => c.denom case Some(s) => s))
  }

  /** A decimal number: digits / 10^scale. */
  datatype Numeral = Numeral(digits: int, scale: nat)

  predicate NotPoint(c: char) {
    c != '.'
  }

  /** Reads an optional minus, digits, and an optional point with digits. */
  function ReadDecimal(s: string): Option<Numeral> {
    if s != [] && s[0] == '-' then
      match ReadUnsigned(s[1..])
      case None => None
      case Some(n) => Some(Numeral(-n.digits, n.scale))
    else ReadUnsigned(s)
  }

  function ReadUnsigned(s: string): Option<Numeral> {
    var n := Span(s, NotPoint);
    var whole := s[..n];
    if whole == [] || !AllDigits(whole) then None
    else if n == |s| then Some(Numeral(NatValue(whole), 0))
    else
      var fraction := s[n + 1..];
      if fraction == [] || !AllDigits(fraction) then None
      else Some(Numeral(NatValue(whole + fraction), |fraction|))
  }

  /** The numeral stands for amount / 10^decimals, with at most that many fraction digits. */
  predicate StandsFor(n: Numeral, amount: int, decimals: nat) {
    n.scale <= decimals && n.digits * Pow10(decimals - n.scale) == amount
  }

  lemma {:induction false} ZerosValue(n: nat)
    ensures AllDigits(Zeros(n)) && NatValue(Zeros(n)) == 0
  {
    if n > 0 {
      ZerosValue(n - 1);
      assert Zeros(n)[..n - 1] == Zeros(n - 1);
    }
  }

  lemma PadStartValue(s: string, n: nat)
    requires AllDigits(s)
    ensures AllDigits(PadStart(s, n)) && NatValue(PadStart(s, n)) == NatValue(s)
  {
    var z := if |s| < n then n - |s| else 0;
    ZerosValue(z);
    NatValueConcat(Zeros(z), s);
  }

  /** Trimming zeros divides by a power of ten, leaves digits, and no zero at the end. */
  lemma {:induction false} TrimZerosValue(s: string)
    requires AllDigits(s)
    ensures var t := TrimZeros(s);
            && AllDigits(t) && |t| <= |s| && (t != [] ==> t[|t| - 1] != '0')
            && NatValue(s) == NatValue(t) * Pow10(|s| - |t|)
  {
    if s != [] && s[|s| - 1] == '0' {
      var u := s[..|s| - 1];
      TrimZerosValue(u);
      var t := TrimZeros(s);
      assert Pow10(|s| - |t|) == 10 * Pow10(|u| - |t|);
      assert 10 * (NatValue(t) * Pow10(|u| - |t|)) == NatValue(t) * Pow10(|s| - |t|);
    }
  }

  lemma ReadWhole(n: nat)
    ensures ReadUnsigned(NatText(n)) == Some(Numeral(n, 0))
    ensures NatText(n)[0] != '-'
  {
    var s := NatText(n);
    assert s + [] == s;
    SpanOf(s, [], NotPoint);
    assert s[..|s|] == s;
    NatTextReads(n);
  }

  lemma ReadIntText(n: int)
    ensures ReadDecimal(IntText(n)) == Some(Numeral(n, 0))
  {
    if n < 0 {
      ReadWhole(-n);
      assert IntText(n)[1..] == NatText(-n);
    } else {
      ReadWhole(n);
    }
  }

  lemma ReadPoint(w: string, fraction: string)
    requires w != [] && AllDigits(w)
    ensures ReadUnsigned(w + (['.'] + fraction)) ==
            if fraction == [] || !AllDigits(fraction) then None
            else Some(Numeral(NatValue(w + fraction), |fraction|))
  {
    var s := w + (['.'] + fraction);
    SpanOf(w, ['.'] + fraction, NotPoint);
    assert s[..|w|] == w && s[|w| + 1..] == fraction;
  }

  lemma ReadFraction(whole: nat, fraction: string)
    ensures var s := NatText(whole) + (['.'] + fraction);
            ReadDecimal(s) ==
            if fraction == [] || !AllDigits(fraction) then None
            else Some(Numeral(whole * Pow10(|fraction|) + NatValue(fraction), |fraction|))
  {
    var w := NatText(whole);
    ReadWhole(whole);
    assert (w + (['.'] + fraction))[0] == w[0];
    ReadPoint(w, fraction);
    NatTextReads(whole);
    if AllDigits(fraction) {
      NatValueConcat(w, fraction);
    }
  }

  lemma ReadNegativeFraction(whole: int, fraction: string)
    requires whole > 0 && exists i :: 0 <= i < |fraction| && !IsDigit(fraction[i])
    ensures ReadDecimal(IntText(-whole) + (['.'] + fraction)) == None
  {
    var s := IntText(-whole) + (['.'] + fraction);
    assert s[0] == '-' && s[1..] == NatText(whole) + (['.'] + fraction);
    NatTextReads(whole);
    ReadPoint(NatText(whole), fraction);
  }

  lemma {:induction false} TrimKeepsMinus(s: string, i: nat)
    requires i < |s| && s[i] == '-'
    ensures i < |TrimZeros(s)| && TrimZeros(s)[i] == '-'
  {
    if s[|s| - 1] == '0' {
      TrimKeepsMinus(s[..|s| - 1], i);
    }
  }

  lemma MulAdd(a: nat, b: nat, c: nat, d: nat)
    ensures (a * b + c) * d == a * (b * d) + c * d
  {
    assert (a * b + c) * d == a * b * d + c * d;
    assert a * b * d == a * (b * d);
  }

  /** The digits after the point: those of the fraction, padded and trimmed. */
  lemma FractionDigits(fraction: nat, decimals: nat)
    requires 0 < fraction < Pow10(decimals)
    ensures var t := TrimZeros(PadStart(NatText(fraction), decimals));
            && t != [] && AllDigits(t) && t[|t| - 1] != '0' && |t| <= decimals
            && NatValue(t) * Pow10(decimals - |t|) == fraction
  {
    if decimals > 0 {
      NatTextLength(fraction, decimals);
    }
    PadStartValue(NatText(fraction), decimals);
    NatTextReads(fraction);
    TrimZerosValue(PadStart(NatText(fraction), decimals));
  }

  lemma Recombine(amount: nat, whole: nat, digits: nat, scale: nat, decimals: nat)
    requires scale <= decimals && amount == whole * Pow10(decimals) + digits * Pow10(decimals - scale)
    ensures StandsFor(Numeral(whole * Pow10(scale) + digits, scale), amount, decimals)
  {
    Pow10Add(scale, decimals - scale);
    MulAdd(whole, Pow10(scale), digits, Pow10(decimals - scale));
  }

  lemma DivRem(a: nat, b: nat)
    requires b > 0
    ensures TruncDiv(a, b) == a / b && TruncRem(a, b) == a % b && a == (a / b) * b + a % b && a % b < b
  {
  }

  /** The numeral of a non-negative amount. */
  lemma FormatParts(amount: nat, decimals: nat, whole: nat, fraction: nat)
    requires decimals > 0 && whole == amount / Pow10(decimals) && fraction == amount % Pow10(decimals)
    ensures FormatAmount(amount, decimals) ==
            if fraction == 0 then NatText(whole)
            else NatText(whole) + (['.'] + TrimZeros(PadStart(NatText(fraction), decimals)))
  {
    DivRem(amount, Pow10(decimals));
  }

  /** The text reads as exactly amount / 10^decimals. */
  predicate Shows(text: string, amount: int, decimals: nat) {
    var n := ReadDecimal(text);
    n.Some? && StandsFor(n.value, amount, decimals)
  }

  lemma ShowsFraction(whole: nat, t: string, amount: nat, decimals: nat)
    requires t != [] && AllDigits(t) && |t| <= decimals
    requires amount == whole * Pow10(decimals) + NatValue(t) * Pow10(decimals - |t|)
    ensures Shows(NatText(whole) + (['.'] + t), amount, decimals)
  {
    ReadFraction(whole, t);
    Recombine(amount, whole, NatValue(t), |t|, decimals);
  }

  lemma FormatFraction(amount: nat, decimals: nat, whole: nat, fraction: nat)
    requires 0 < fraction < Pow10(decimals) && amount == whole * Pow10(decimals) + fraction
    ensures var t := TrimZeros(PadStart(NatText(fraction), decimals));
            && Shows(NatText(whole) + (['.'] + t), amount, decimals)
            && 0 < |t| <= decimals && t[|t| - 1] != '0'
  {
    FractionDigits(fraction, decimals);
    ShowsFraction(whole, TrimZeros(PadStart(NatText(fraction), decimals)), amount, decimals);
  }

  lemma WholeShows(whole: int, amount: int, decimals: nat)
    requires amount == whole * Pow10(decimals)
    ensures Shows(IntText(whole), amount, decimals)
  {
    ReadIntText(whole);
  }

  /** The text is that of the whole part, a point, and up to `decimals` digits that do not end in 0. */
  predicate IsTrimmed(text: string, whole: nat, decimals: nat) {
    var w := NatText(whole);
    |w| + 1 < |text| <= |w| + 1 + decimals && text[..|w|] == w && text[|w|] == '.' && text[|text| - 1] != '0'
  }

  lemma FormatSplit(amount: nat, decimals: nat, whole: nat, fraction: nat)
    requires decimals > 0 && fraction < Pow10(decimals) && amount == whole * Pow10(decimals) + fraction
    requires FormatAmount(amount, decimals) ==
             if fraction == 0 then NatText(whole)
             else NatText(whole) + (['.'] + TrimZeros(PadStart(NatText(fraction), decimals)))
    ensures Shows(FormatAmount(amount, decimals), amount, decimals)
    ensures fraction > 0 ==> IsTrimmed(FormatAmount(amount, decimals), whole, decimals)
  {
    if fraction == 0 {
      WholeShows(whole, amount, decimals);
    } else {
      FormatFraction(amount, decimals, whole, fraction);
    }
  }

  /** An amount of `whole` units and a fraction below one unit is printed exactly: the whole part,
      and then, if there is a fraction, its digits with no zero at their end. */
  lemma FormatExact(amount: nat, decimals: nat, whole: nat, fraction: nat)
    requires fraction < Pow10(decimals) && amount == whole * Pow10(decimals) + fraction
    ensures Shows(FormatAmount(amount, decimals), amount, decimals)
    ensures if fraction == 0 then FormatAmount(amount, decimals) == NatText(whole)
            else IsTrimmed(FormatAmount(amount, decimals), whole, decimals)
  {
    if decimals == 0 {
      TimesOne(whole);
      FormatUnits(amount, whole, fraction);
    } else {
      FormatPartsOf(amount, decimals, whole, fraction, Pow10(decimals));
      FormatSplit(amount, decimals, whole, fraction);
    }
  }

  lemma TimesOne(n: int)
    ensures n * Pow10(0) == n
  {
  }

  lemma FormatUnits(amount: nat, whole: nat, fraction: nat)
    requires fraction < 1 && amount == whole
    ensures Shows(FormatAmount(amount, 0), amount, 0) && FormatAmount(amount, 0) == NatText(whole)
  {
    TimesOne(amount);
    WholeShows(amount, amount, 0);
  }

  lemma FormatPartsOf(amount: nat, decimals: nat, whole: nat, fraction: nat, p: nat)
    requires decimals > 0 && p == Pow10(decimals) && fraction < p && amount == whole * p + fraction
    ensures FormatAmount(amount, decimals) ==
            if fraction == 0 then NatText(whole)
            else NatText(whole) + (['.'] + TrimZeros(PadStart(NatText(fraction), decimals)))
  {
    QuotientUnique(amount, p, whole, fraction);
    FormatParts(amount, decimals, whole, fraction);
  }

  lemma QuotientUnique(a: nat, b: nat, q: nat, r: nat)
    requires r < b && a == q * b + r
    ensures a / b == q && a % b == r
  {
    ModUnique(a, b, q, r);
    assert b * (a / b) == b * q;
  }

  lemma Quotient(a: nat, b: nat) returns (q: nat, r: nat)
    requires b > 0
    ensures r < b && a == q * b + r
  {
    q, r := a / b, a % b;
  }

  /** `format` shows an amount exactly if and only if it is not negative or is a whole number of
      units: the sign of a negative fraction ends up after the point, where no numeral has one. */
  lemma FormatReads(amount: int, decimals: nat)
    ensures Shows(FormatAmount(amount, decimals), amount, decimals) <==> amount >= 0 || amount % Pow10(decimals) == 0
  {
    if amount >= 0 {
      var whole, fraction := Quotient(amount, Pow10(decimals));
      FormatExact(amount, decimals, whole, fraction);
    } else if decimals == 0 {
      WholeShows(amount, amount, 0);
    } else {
      FormatNegative(amount, decimals, Pow10(decimals));
    }
  }

  lemma FormatNegative(amount: int, decimals: nat, p: nat)
    requires amount < 0 && decimals > 0 && p == Pow10(decimals)
    ensures Shows(FormatAmount(amount, decimals), amount, decimals) <==> amount % p == 0
  {
    NegativeParts(amount, p);
    if TruncRem(amount, p) == 0 {
      WholeShows(TruncDiv(amount, p), amount, decimals);
    } else {
      NegativeFractionFails(TruncDiv(amount, p), TruncRem(amount, p), decimals);
    }
  }

  lemma NegativeFractionFails(whole: int, fraction: int, decimals: nat)
    requires whole <= 0 && fraction < 0
    ensures ReadDecimal(IntText(whole) + (['.'] + TrimZeros(PadStart(IntText(fraction), decimals)))) == None
  {
    var text := IntText(fraction);
    var padded := PadStart(text, decimals);
    var t := TrimZeros(padded);
    var i := |padded| - |text|;
    assert padded[i] == '-';
    TrimKeepsMinus(padded, i);
    assert !IsDigit(t[i]);
    if whole == 0 {
      ReadFraction(0, t);
    } else {
      ReadNegativeFraction(-whole, t);
    }
  }

  lemma NegativeParts(amount: int, p: int)
    requires amount < 0 && p > 0
    ensures TruncDiv(amount, p) <= 0 && -p < TruncRem(amount, p) <= 0
    ensures TruncRem(amount, p) == 0 <==> amount % p == 0
    ensures amount % p == 0 ==> TruncDiv(amount, p) * p == amount
  {
    var q, r := -amount / p, -amount % p;
    assert -amount == q * p + r;
    assert TruncDiv(amount, p) == -q;
    assert (-q) * p == -(q * p);
    if r == 0 {
      assert amount == p * (-q);
      ModOfMultiple(p, -q);
    } else {
      assert amount == p * (-q - 1) + (p - r);
      ModUnique(amount, p, -q - 1, p - r);
    }
  }

  lemma ModOfMultiple(p: nat, k: int)
    requires p > 0
    ensures (p * k) % p == 0
  {
    ModUnique(p * k, p, k, 0);
  }

  // ---------- the displayed text ----------

  predicate NotSpace(c: char) {
    c != ' '
  }

  lemma {:induction false} TrimZerosIn(s: string)
    ensures forall c :: c in TrimZeros(s) ==> c in s
  {
    if s != [] && s[|s| - 1] == '0' {
      TrimZerosIn(s[..|s| - 1]);
    }
  }

  lemma IntTextNoSpace(n: int)
    ensures ' ' !in IntText(n)
  {
    assert forall c :: c in IntText(n) ==> IsDigit(c) || c == '-';
  }

  /** A numeral has no space in it. */
  lemma NumeralNoSpace(amount: int, decimals: nat)
    ensures ' ' !in FormatAmount(amount, decimals)
  {
    if decimals == 0 {
      IntTextNoSpace(amount);
    } else {
      var whole, fraction := TruncDiv(amount, Pow10(decimals)), TruncRem(amount, Pow10(decimals));
      IntTextNoSpace(whole);
      IntTextNoSpace(fraction);
      TrimZerosIn(PadStart(IntText(fraction), decimals));
    }
  }

  /** The text `format` returns, taken apart at its first space, is a numeral and the symbol or else
      the denom; the numeral is exact if and only if the amount is not negative or is a whole number
      of units. No decimals are as good as 0. */
  lemma FormatDisplays(c: Coin, decimals: Option<nat>, symbol: Option<string>)
    ensures var text := Format(c, decimals, symbol);
            var n, d := Span(text, NotSpace), if decimals.Some? then decimals.value else 0;
            && n < |text| && text[n + 1..] == (if symbol.Some? then symbol.value else c.denom)
            && (Shows(text[..n], c.amount, d) <==> c.amount >= 0 || c.amount % Pow10(d) == 0)
  {
    var d := if decimals.Some? then decimals.value else 0;
    var numeral, name := FormatAmount(c.amount, d), if symbol.Some? then symbol.value else c.denom;
    NumeralNoSpace(c.amount, d);
    SpanOf(numeral, [' '] + name, NotSpace);
    var text := numeral + ([' '] + name);
    assert Format(c, decimals, symbol) == text;
    assert text[..|numeral|] == numeral && text[|numeral| + 1..] == name;
    FormatReads(c.amount, d);
  }

  // ---------- parseCoin ----------

  predicate IsLetter(c: char) {
    'a' <= c <= 'z' || 'A' <= c <= 'Z'
  }

  /** `[a-zA-Z][a-zA-Z0-9/]*` */
  predicate IsDenom(s: string) {
    s != [] && IsLetter(s[0]) && forall i :: 0 <= i < |s| ==> IsLetter(s[i]) || IsDigit(s[i]) || s[i] == '/'
  }

  function ParseCoin(s: string): Option<Coin> {
    var n := Span(s, IsDigit);
    SpanHolds(s, IsDigit);
    if n == 0 || !IsDenom(s[n..]) then None else Some(Coin(s[n..], NatValue(s[..n])))
  }

  /** The accepted texts are a numeral followed by a denom, and that split is what is returned. */
  lemma ParseCoinHolds(s: string, c: Coin)
    ensures ParseCoin(s) == Some(c) <==>
            exists digits :: digits != [] && AllDigits(digits) && IsDenom(c.denom) &&
                             s == digits + c.denom && c.amount == NatValue(digits)
  {
    var n := Span(s, IsDigit);
    SpanHolds(s, IsDigit);
    if ParseCoin(s) == Some(c) {
      assert s == s[..n] + s[n..];
    }
    forall digits | digits != [] && AllDigits(digits) && IsDenom(c.denom) && s == digits + c.denom && c.amount == NatValue(digits)
      ensures ParseCoin(s) == Some(c)
    {
      SpanOf(digits, c.denom, IsDigit);
      assert s[..|digits|] == digits && s[|digits|..] == c.denom;
    }
  }
}
