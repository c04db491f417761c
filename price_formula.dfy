/**
 * The selling-price formula: the commission as a fraction, the break-even price
 * (cost + fixed fees) / (1 - (commission + margin)), and rounding up to a price step.
 * Prices are exact reals; IEEE rounding is not modelled.
 */
module PriceFormula {
  import opened Sheet
  import opened Numbers

  // ---------------------------------------------------------------------------
  // ceil_to_step

  /** `math.ceil` on a real: the least integer not below `x`. */
  function Ceil(x: real): (n: int)
    ensures x <= n as real < x + 1.0
  {
    -((-x).Floor)
  }

  /** `k` whole steps. */
  function Steps(k: int, step: real): real
  {
    k as real * step
  }

  /**
   * `ceil_to_step` (app.py:18-21): with a positive step, the number of steps rounded
   * up, times the step; `math.ceil` of NaN raises. Any other step returns `x` as it is.
   */
  function CeilToStep(x: Float, step: real): (r: Outcome<Float>)
    ensures step <= 0.0 ==> r == Ok(x)
    ensures step > 0.0 ==> (r.Raises? <==> x.NaN?)
  {
    if step > 0.0 then
      match x
      case NaN => Raises
      case Num(v) => Ok(Num(Steps(Ceil(v / step), step)))
    else Ok(x)
  }

  /** `x` is a whole number of steps. */
  ghost predicate MultipleOf(x: real, step: real)
  {
    exists k: int :: x == Steps(k, step)
  }

  /** Dividing by a positive number and multiplying back gives the number again. */
  lemma DivMul(a: real, b: real)
    requires b > 0.0
    ensures (a / b) * b == a
  {
  }

  /** Multiplying by a positive number keeps `<=`. */
  lemma MulLe(c: real, d: real, b: real)
    requires b > 0.0 && c <= d
    ensures c * b <= d * b
  {
  }

  /** Multiplying by a positive number keeps `<`. */
  lemma MulLt(c: real, d: real, b: real)
    requires b > 0.0 && c < d
    ensures c * b < d * b
  {
  }

  /** `a <= c * b` bounds the quotient `a / b` by `c`. */
  lemma DivLe(a: real, c: real, b: real)
    requires b > 0.0 && a <= c * b
    ensures a / b <= c
  {
    DivMul(a, b);
    if a / b > c {
      MulLt(c, a / b, b);
    }
  }

  /** A whole number of steps divided by the step is that number. */
  lemma StepsDiv(k: int, step: real)
    requires step > 0.0
    ensures Steps(k, step) / step == k as real
  {
    var x := Steps(k, step);
    DivLe(x, k as real, step);
    DivMul(x, step);
    if x / step < k as real {
      MulLt(x / step, k as real, step);
    }
  }

  /**
   * With a positive step the result is the least multiple of the step at or above `x`:
   * it is a multiple, it is in [x, x + step), and no multiple at or above `x` is smaller.
   */
  lemma CeilToStepLeastMultiple(x: real, step: real)
    requires step > 0.0
    ensures CeilToStep(Num(x), step).Ok? && CeilToStep(Num(x), step).value.Num?
    ensures var r := CeilToStep(Num(x), step).value.r;
      && MultipleOf(r, step)
      && x <= r < x + step
      && forall k: int :: x <= Steps(k, step) ==> r <= Steps(k, step)
  {
    var q := x / step;
    var c := Ceil(q);
    var r := Steps(c, step);
    assert r == c as real * step;
    DivMul(x, step);
    MulLe(q, c as real, step);
    assert c as real < q + 1.0;
    MulLt(c as real, q + 1.0, step);
    assert (q + 1.0) * step == q * step + step;
    assert r < x + step;
    forall k: int | x <= Steps(k, step)
      ensures r <= Steps(k, step)
    {
      assert x <= k as real * step;
      DivLe(x, k as real, step);
      assert c <= k by {
        assert c as real < q + 1.0 <= k as real + 1.0;
      }
      MulLe(c as real, k as real, step);
      assert r <= k as real * step;
    }
  }

  /** A price that is already a whole number of steps is left as it is. */
  lemma CeilToStepIdempotent(k: int, step: real)
    requires step > 0.0
    ensures CeilToStep(Num(Steps(k, step)), step) == Ok(Num(Steps(k, step)))
  {
    StepsDiv(k, step);
    assert Ceil(k as real) == k;
  }

  /** Rounding twice is rounding once. */
  lemma CeilToStepTwice(x: real, step: real)
    requires step > 0.0
    ensures var once := CeilToStep(Num(x), step).value;
      CeilToStep(once, step) == Ok(once)
  {
    var c := Ceil(x / step);
    CeilToStepIdempotent(c, step);
  }

  /** `ceil_to_step(101, 10) == 110` and `ceil_to_step(160, 10) == 160`. */
  lemma CeilToStepExamples()
    ensures CeilToStep(Num(101.0), 10.0) == Ok(Num(110.0))
    ensures CeilToStep(Num(160.0), 10.0) == Ok(Num(160.0))
  {
    assert Ceil(101.0 / 10.0) == 11;
    assert Ceil(160.0 / 10.0) == 16;
  }

  // ---------------------------------------------------------------------------
  // to_fraction

  function Min(a: real, b: real): real { if a <= b then a else b }

  function Max(a: real, b: real): real { if a >= b then a else b }

  /**
   * `to_fraction` (app.py:23-27): the commission cell read with default 0; NaN or a
   * negative value gives 0; a value above 1 is a percentage and is divided by 100;
   * the result is clamped to [0, 0.9999].
   */
  function ToFraction(v: Cell): (f: real)
    ensures 0.0 <= f <= 0.9999
  {
    var x := ToFloat(v, Num(0.0));
    if x.NaN? || x.r < 0.0 then 0.0
    else
      var y := if x.r > 1.0 then x.r / 100.0 else x.r;
      Max(0.0, Min(y, 0.9999))
  }

  /**
   * The fraction read from a cell whose text parses to `x`: `x / 100` above 1,
   * `x` itself up to 1, either capped at 0.9999.
   */
  lemma ToFractionOf(text: string, x: real)
    requires ToFloat(Some(text), Num(0.0)) == Num(x)
    ensures ToFraction(Some(text)) == Min(if x > 1.0 then x / 100.0 else x, 0.9999)
  {
  }

  /** A blank cell or text without a parseable number means no commission. */
  lemma ToFractionDefault(v: Cell)
    requires v.None? || ToFloat(v, NaN).NaN?
    ensures ToFraction(v) == 0.0
  {
    if v.Some? {
      ToFloatParsesIff(v.value, Num(0.0));
    }
  }

  /**
   * A whole percentage `n` between 2 and 99 reads as `n / 100`; the whole numbers
   * 0 and 1 are kept as fractions, and 1 is capped at 0.9999.
   */
  lemma ToFractionPercent(n: nat)
    ensures 1 < n < 100 ==> ToFraction(Some(NatToString(n))) == n as real / 100.0
    ensures n == 0 ==> ToFraction(Some(NatToString(n))) == 0.0
    ensures n == 1 ==> ToFraction(Some(NatToString(n))) == 0.9999
    ensures n >= 100 ==> ToFraction(Some(NatToString(n))) == 0.9999
  {
    ToFloatNatRoundTrip(n, Num(0.0));
    ToFractionOf(NatToString(n), n as real);
  }

  /** "15" is 15 %. */
  lemma ToFractionPercentExample()
    ensures ToFraction(Some("15")) == 0.15
  {
    assert NatToString(15) == "15";
    ToFractionPercent(15);
  }

  /** "150" is above 100 % and is capped. */
  lemma ToFractionCappedExample()
    ensures ToFraction(Some("150")) == 0.9999
  {
    assert NatToString(150) == "150";
    ToFractionPercent(150);
  }

  /** "0,15" is a fraction already. */
  lemma ToFractionCommaExample()
    ensures ToFraction(Some("0,15")) == 0.15
  {
    ToFloatDecimalComma("0", "15", Num(0.0));
    assert "0" + "," + "15" == "0,15";
    assert FracValue("15") == 0.15 by {
      assert "15"[1..] == "5" && "5"[1..] == "";
    }
    assert DigitsToNat("0") == 0 by {
      assert "0"[..0] == "";
    }
    ToFractionOf("0,15", 0.15);
  }

  /**
   * The sign is dropped before the `f < 0` test, so a negative commission reads as
   * its magnitude: "-15" is 15 %.
   */
  lemma ToFractionDropsSign()
    ensures ToFraction(Some("-15")) == 0.15
  {
    ToFloatDropsSign("15", Num(0.0));
    assert "-" + "15" == "-15";
    ToFractionPercentExample();
  }

  // ---------------------------------------------------------------------------
  // calc

  /**
   * The `calc` closure (app.py:81-85) for one margin: no price when the denominator
   * `1 - (commission + margin)` is at most 0.01 or the cost is NaN; otherwise
   * `(cost + fix) / denominator` rounded up to the step, which raises when the fees
   * are NaN and the step is positive.
   */
  function Calc(cost: Float, commission: real, fix: Float, margin: real, step: real): (r: Outcome<Option<Float>>)
    ensures r == Ok(None) <==> 1.0 - (commission + margin) <= 0.01 || cost.NaN?
    ensures r.Raises? <==> 1.0 - (commission + margin) > 0.01 && cost.Num? && fix.NaN? && step > 0.0
  {
    var denom := 1.0 - (commission + margin);
    if denom <= 0.01 || cost.NaN? then Ok(None)
    else
      var res := if fix.NaN? then NaN else Num((cost.r + fix.r) / denom);
      match CeilToStep(res, step)
      case Raises => Raises
      case Ok(p) => Ok(Some(p))
  }

  /**
   * The price covers the break-even point: after the commission and margin shares
   * of the price, what is left pays the cost and the fees, with less than one step to spare.
   * Without a positive step it is the break-even price exactly.
   */
  lemma CalcBreakEven(cost: real, commission: real, fix: real, margin: real, step: real)
    requires 1.0 - (commission + margin) > 0.01
    ensures Calc(Num(cost), commission, Num(fix), margin, step).Ok?
    ensures var r := Calc(Num(cost), commission, Num(fix), margin, step).value;
      var denom := 1.0 - (commission + margin);
      && r.Some? && r.value.Num?
      && (step <= 0.0 ==> r.value.r * denom == cost + fix)
      && (step > 0.0 ==>
            && MultipleOf(r.value.r, step)
            && cost + fix <= r.value.r * denom
            && r.value.r < (cost + fix) / denom + step)
  {
    var denom := 1.0 - (commission + margin);
    var res := (cost + fix) / denom;
    DivMul(cost + fix, denom);
    if step > 0.0 {
      CeilToStepLeastMultiple(res, step);
      var p := CeilToStep(Num(res), step).value.r;
      MulLe(res, p, denom);
    }
  }

  /**
   * Non-negative costs and fees give a non-negative price, and with a positive step the
   * price is a whole number of steps.
   */
  lemma CalcPrice(cost: Float, commission: real, fix: Float, margin: real, step: real, p: real)
    requires cost.Num? ==> cost.r >= 0.0
    requires fix.Num? ==> fix.r >= 0.0
    requires Calc(cost, commission, fix, margin, step) == Ok(Some(Num(p)))
    ensures p >= 0.0
    ensures step > 0.0 ==> MultipleOf(p, step)
  {
    var denom := 1.0 - (commission + margin);
    var res := (cost.r + fix.r) / denom;
    DivLe(0.0, res, denom);
    if step > 0.0 {
      CeilToStepLeastMultiple(res, step);
    }
  }

  /** Cost 100, commission 10 %, fees 20, margin 15 %, step 10: 120 / 0.75 = 160. */
  lemma CalcExample()
    ensures Calc(Num(100.0), 0.1, Num(20.0), 0.15, 10.0) == Ok(Some(Num(160.0)))
  {
    assert (100.0 + 20.0) / (1.0 - (0.1 + 0.15)) == 160.0;
    CeilToStepExamples();
  }

  /** The same row at a 5 % margin: 120 / 0.85 = 141.18..., rounded up to 150. */
  lemma CalcRoundsUpExample()
    ensures Calc(Num(100.0), 0.1, Num(20.0), 0.05, 10.0) == Ok(Some(Num(150.0)))
  {
    var x := (100.0 + 20.0) / (1.0 - (0.1 + 0.05)) / 10.0;
    assert 14.0 < x < 15.0;
    assert Ceil(x) == 15;
  }

  /** Nothing to cover, nothing to charge: zero cost and zero fees price at 0. */
  lemma CalcFree(commission: real, margin: real, step: real)
    requires 1.0 - (commission + margin) > 0.01
    ensures Calc(Num(0.0), commission, Num(0.0), margin, step) == Ok(Some(Num(0.0)))
  {
    assert (0.0 + 0.0) / (1.0 - (commission + margin)) == 0.0;
    if step > 0.0 {
      CeilToStepIdempotent(0, step);
      assert Steps(0, step) == 0.0;
    }
  }

  /** Commission 50 % with margin 60 % leaves nothing to divide by: no price. */
  lemma CalcNoRoomExample(cost: Float, fix: Float, step: real)
    ensures Calc(cost, 0.5, fix, 0.6, step) == Ok(None)
  {
  }
}
