/** The weighted-average unit cost of stock after any number of receipts, in exact arithmetic. */
module WeightedAverage {
  import opened Wrappers

  datatype RangeError = NegativeOnHand | NegativeQuantity

  function WeightedAverageCost(onHand: int, oldAvg: real, qtyIn: int, unitCostIn: real): Result<real, RangeError> {
    if onHand < 0 then Failure(NegativeOnHand)
    else if qtyIn < 0 then Failure(NegativeQuantity)
    else if qtyIn == 0 then Success(oldAvg)
    else Success((oldAvg * onHand as real + unitCostIn * qtyIn as real) / (onHand + qtyIn) as real)
  }

  /** Which input is refused, and that any other keeps the value: new average times units is old value plus cost. */
  lemma CostOutcomes(onHand: int, oldAvg: real, qtyIn: int, unitCostIn: real)
    ensures var r := WeightedAverageCost(onHand, oldAvg, qtyIn, unitCostIn);
            && (r == Failure(NegativeOnHand) <==> onHand < 0)
            && (r == Failure(NegativeQuantity) <==> onHand >= 0 && qtyIn < 0)
            && (r.Success? && onHand + qtyIn > 0 ==>
                  r.value * (onHand + qtyIn) as real == oldAvg * onHand as real + unitCostIn * qtyIn as real)
            && (r.Success? && onHand + qtyIn == 0 ==> r.value == oldAvg)
  {
    if onHand >= 0 && qtyIn > 0 {
      Divided(oldAvg * onHand as real + unitCostIn * qtyIn as real, (onHand + qtyIn) as real);
    }
  }

  lemma Divided(total: real, n: real)
    requires n > 0.0
    ensures total / n * n == total
  {
  }

  datatype Receipt = Receipt(qty: nat, unitCost: real)

  /** Units on hand and their average cost. */
  datatype Stock = Stock(units: nat, average: real)

  function Value(units: nat, unitCost: real): real {
    unitCost * units as real
  }

  function Receive(s: Stock, r: Receipt): Stock {
    Stock(s.units + r.qty, WeightedAverageCost(s.units, s.average, r.qty, r.unitCost).value)
  }

  function ReceiveAll(s: Stock, receipts: seq<Receipt>): Stock {
    if receipts == [] then s
    else Receive(ReceiveAll(s, receipts[..|receipts| - 1]), receipts[|receipts| - 1])
  }

  function TotalUnits(receipts: seq<Receipt>): nat {
    if receipts == [] then 0 else TotalUnits(receipts[..|receipts| - 1]) + receipts[|receipts| - 1].qty
  }

  function TotalCost(receipts: seq<Receipt>): real {
    if receipts == [] then 0.0
    else
      var r := receipts[|receipts| - 1];
      TotalCost(receipts[..|receipts| - 1]) + Value(r.qty, r.unitCost)
  }

  lemma ReceiveConserves(s: Stock, r: Receipt)
    ensures var s' := Receive(s, r);
            && (s'.units > 0 ==> Value(s'.units, s'.average) == Value(s.units, s.average) + Value(r.qty, r.unitCost))
            && (s'.units == 0 ==> s' == s)
  {
  }

  lemma AverageOf(s: Stock, total: real)
    requires s.units > 0 && Value(s.units, s.average) == total
    ensures s.average == total / s.units as real
  {
  }

  lemma TotalOf(s: Stock, total: real)
    requires s.units > 0 && s.average == total / s.units as real
    ensures Value(s.units, s.average) == total
  {
  }

  /** After any receipts the average is (opening value + total cost) / total units, whenever there are units. */
  lemma {:induction false} AverageIsTotalOverUnits(s: Stock, receipts: seq<Receipt>)
    ensures var s' := ReceiveAll(s, receipts);
            && s'.units == s.units + TotalUnits(receipts)
            && (s'.units > 0 ==>
                  s'.average == (Value(s.units, s.average) + TotalCost(receipts)) / s'.units as real)
            && (s'.units == 0 ==> s' == s && TotalCost(receipts) == 0.0)
  {
    if receipts != [] {
      var front, r := receipts[..|receipts| - 1], receipts[|receipts| - 1];
      AverageIsTotalOverUnits(s, front);
      var before, after := ReceiveAll(s, front), ReceiveAll(s, receipts);
      ReceiveConserves(before, r);
      if before.units > 0 {
        TotalOf(before, Value(s.units, s.average) + TotalCost(front));
      }
      if after.units > 0 {
        AverageOf(after, Value(s.units, s.average) + TotalCost(receipts));
      }
    }
  }

  // ── order does not matter ────────────────────────────────────────────────

  lemma {:induction false} TotalsWithout(receipts: seq<Receipt>, i: nat)
    requires i < |receipts|
    ensures var rest := receipts[..i] + receipts[i + 1..];
            && TotalUnits(receipts) == TotalUnits(rest) + receipts[i].qty
            && TotalCost(receipts) == TotalCost(rest) + Value(receipts[i].qty, receipts[i].unitCost)
  {
    var n := |receipts| - 1;
    var rest := receipts[..i] + receipts[i + 1..];
    if i == n {
      assert rest == receipts[..n];
    } else {
      TotalsWithout(receipts[..n], i);
      assert receipts[..n][..i] + receipts[..n][i + 1..] == rest[..n - 1];
      assert rest[n - 1] == receipts[n];
    }
  }

  lemma {:induction false} TotalsIgnoreOrder(a: seq<Receipt>, b: seq<Receipt>)
    requires multiset(a) == multiset(b)
    ensures TotalUnits(a) == TotalUnits(b) && TotalCost(a) == TotalCost(b)
  {
    if a == [] {
      assert multiset(b) == multiset{};
      assert b == [];
    } else {
      var n := |a| - 1;
      LastOutOf(a);
      assert a[n] in multiset(b);
      var i :| 0 <= i < |b| && b[i] == a[n];
      OneOutOf(b, i);
      TotalsIgnoreOrder(a[..n], b[..i] + b[i + 1..]);
      TotalsWithout(b, i);
    }
  }

  lemma LastOutOf(a: seq<Receipt>)
    requires a != []
    ensures multiset(a[..|a| - 1]) == multiset(a) - multiset{a[|a| - 1]} && a[|a| - 1] in multiset(a)
  {
    assert a == a[..|a| - 1] + [a[|a| - 1]];
  }

  lemma OneOutOf(b: seq<Receipt>, i: nat)
    requires i < |b|
    ensures multiset(b[..i] + b[i + 1..]) == multiset(b) - multiset{b[i]}
  {
    assert b == b[..i] + [b[i]] + b[i + 1..];
  }

  /** The same receipts in another order leave the same stock. */
  lemma OrderDoesNotMatter(s: Stock, a: seq<Receipt>, b: seq<Receipt>)
    requires multiset(a) == multiset(b)
    ensures ReceiveAll(s, a) == ReceiveAll(s, b)
  {
    TotalsIgnoreOrder(a, b);
    AverageIsTotalOverUnits(s, a);
    AverageIsTotalOverUnits(s, b);
  }

  // ── the average stays between the costs ──────────────────────────────────

  /** Every cost that carries units lies between `lo` and `hi`. */
  predicate CostsWithin(s: Stock, receipts: seq<Receipt>, lo: real, hi: real) {
    && (s.units > 0 ==> lo <= s.average <= hi)
    && forall r :: r in receipts && r.qty > 0 ==> lo <= r.unitCost <= hi
  }

  lemma TooSmallForMean(x: real, n: real, y: real, q: real, mean: real)
    requires n >= 0.0 && q > 0.0 && mean < y && (n > 0.0 ==> mean <= x)
    ensures mean * (n + q) < x * n + y * q
  {
    assert mean * q < y * q by { ScaleStrictly(mean, y, q); }
    assert mean * n <= x * n by {
      if n > 0.0 { Scale(mean, x, n); }
    }
    assert mean * (n + q) == mean * n + mean * q;
  }

  /** A weighted mean is no smaller than a lower bound of what carries weight. */
  lemma MeanIsAbove(x: real, n: real, y: real, q: real, mean: real, lo: real)
    requires n >= 0.0 && q > 0.0 && mean * (n + q) == x * n + y * q
    requires lo <= y && (n > 0.0 ==> lo <= x)
    ensures lo <= mean
  {
    if mean < lo {
      TooSmallForMean(x, n, y, q, mean);
      assert false;
    }
  }

  lemma MeanIsBelow(x: real, n: real, y: real, q: real, mean: real, hi: real)
    requires n >= 0.0 && q > 0.0 && mean * (n + q) == x * n + y * q
    requires y <= hi && (n > 0.0 ==> x <= hi)
    ensures mean <= hi
  {
    MeanIsAbove(-x, n, -y, q, -mean, -hi);
  }

  lemma ReceiveStaysWithin(s: Stock, r: Receipt, lo: real, hi: real)
    requires CostsWithin(s, [r], lo, hi) && s.units + r.qty > 0
    ensures lo <= Receive(s, r).average <= hi
  {
    if r.qty > 0 {
      assert r in [r];
      MeanIsAbove(s.average, s.units as real, r.unitCost, r.qty as real, Receive(s, r).average, lo);
      MeanIsBelow(s.average, s.units as real, r.unitCost, r.qty as real, Receive(s, r).average, hi);
    }
  }

  lemma Scale(a: real, b: real, k: real)
    requires a <= b && k >= 0.0
    ensures a * k <= b * k
  {
  }

  lemma ScaleStrictly(a: real, b: real, k: real)
    requires a < b && k > 0.0
    ensures a * k < b * k
  {
  }

  /** The average lies between the smallest and the largest cost that carries units. */
  lemma {:induction false} AverageIsBetweenCosts(s: Stock, receipts: seq<Receipt>, lo: real, hi: real)
    requires CostsWithin(s, receipts, lo, hi)
    ensures ReceiveAll(s, receipts).units > 0 ==> lo <= ReceiveAll(s, receipts).average <= hi
  {
    if receipts != [] {
      var front, r := receipts[..|receipts| - 1], receipts[|receipts| - 1];
      AverageIsBetweenCosts(s, front, lo, hi);
      if ReceiveAll(s, receipts).units > 0 {
        ReceiveStaysWithin(ReceiveAll(s, front), r, lo, hi);
      }
    }
  }
}
