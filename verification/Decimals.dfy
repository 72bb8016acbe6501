/** Arbitrary precision decimals, compared by value. */
module Decimals {
  import opened WalletTypes

  datatype Ordering = Less | Equal | Greater

  // ---------- values ----------

  /** `x * 10^-s` */
  ghost function Shift(x: real, s: int): real
    decreases if s < 0 then -s else s
  {
    if s == 0 then x
    else if s > 0 then Shift(x, s - 1) / 10.0
    else Shift(x, s + 1) * 10.0
  }

  ghost function Value(a: Amount): real
    requires a.Number?
  {
    Shift(a.mantissa as real, a.scale)
  }

  function ScaleUp(m: int, k: nat): int {
    if k == 0 then m else 10 * ScaleUp(m, k - 1)
  }

  /** No trailing zero in the mantissa, and a single zero. */
  predicate IsNormalized(a: Amount) {
    a.Number? && (if a.mantissa == 0 then a.scale == 0 else a.mantissa % 10 != 0)
  }

  lemma {:induction false} ShiftAdd(x: real, y: real, s: int)
    ensures Shift(x + y, s) == Shift(x, s) + Shift(y, s)
    decreases if s < 0 then -s else s
  {
    if s > 0 { ShiftAdd(x, y, s - 1); } else if s < 0 { ShiftAdd(x, y, s + 1); }
  }

  lemma {:induction false} ShiftTen(x: real, s: int)
    ensures Shift(10.0 * x, s) == 10.0 * Shift(x, s)
    decreases if s < 0 then -s else s
  {
    if s > 0 { ShiftTen(x, s - 1); } else if s < 0 { ShiftTen(x, s + 1); }
  }

  lemma {:induction false} ShiftNeg(x: real, s: int)
    ensures Shift(-x, s) == -Shift(x, s)
    decreases if s < 0 then -s else s
  {
    if s > 0 { ShiftNeg(x, s - 1); } else if s < 0 { ShiftNeg(x, s + 1); }
  }

  lemma {:induction false} ShiftOrder(x: real, y: real, s: int)
    ensures x < y <==> Shift(x, s) < Shift(y, s)
    ensures x == y <==> Shift(x, s) == Shift(y, s)
    decreases if s < 0 then -s else s
  {
    if s > 0 { ShiftOrder(x, y, s - 1); } else if s < 0 { ShiftOrder(x, y, s + 1); }
  }

  /** Multiplying the mantissa by ten and adding one digit of scale is the same number. */
  lemma ShiftStep(x: real, s: int)
    ensures Shift(10.0 * x, s + 1) == Shift(x, s)
  {
    ShiftTen(x, if s >= 0 then s else s + 1);
  }

  lemma {:induction false} ScaleUpValue(m: int, s: int, k: nat)
    ensures Shift(ScaleUp(m, k) as real, s + k) == Shift(m as real, s)
  {
    if k > 0 {
      ScaleUpValue(m, s, k - 1);
      ShiftStep(ScaleUp(m, k - 1) as real, s + k - 1);
    }
  }

  // ---------- operations ----------

  function Normalize(m: int, s: int): (r: Amount)
    ensures IsNormalized(r) && Value(r) == Shift(m as real, s)
    decreases if m < 0 then -m else m
  {
    if m == 0 then
      assert Shift(0.0, s) == Shift(0.0, 0) by { ShiftNeg(0.0, s); }
      Number(0, 0)
    else if m % 10 == 0 then
      assert Shift(m as real, s) == Shift((m / 10) as real, s - 1) by {
        assert m as real == 10.0 * (m / 10) as real;
        ShiftStep((m / 10) as real, s - 1);
      }
      Normalize(m / 10, s - 1)
    else
      Number(m, s)
  }

  function Max(a: int, b: int): int { if a < b then b else a }

  /** The mantissa of `a` once written with `s` digits of scale. */
  function Aligned(a: Amount, s: int): (m: int)
    requires a.Number? && a.scale <= s
    ensures Shift(m as real, s) == Value(a)
  {
    ScaleUpValue(a.mantissa, a.scale, s - a.scale);
    ScaleUp(a.mantissa, s - a.scale)
  }

  function Add(lhs: Amount, rhs: Amount): (r: Result<Amount>)
    ensures r.Ok? <==> lhs.Number? && rhs.Number?
    ensures r.Ok? ==> IsNormalized(r.value) && Value(r.value) == Value(lhs) + Value(rhs)
    ensures r.Err? ==> r.error == ParseError(if lhs.Number? then rhs else lhs)
  {
    if !lhs.Number? then Err(ParseError(lhs))
    else if !rhs.Number? then Err(ParseError(rhs))
    else
      var s := Max(lhs.scale, rhs.scale);
      var l, h := Aligned(lhs, s), Aligned(rhs, s);
      ShiftAdd(l as real, h as real, s);
      Ok(Normalize(l + h, s))
  }

  function Neg(input: Amount): (r: Result<Amount>)
    ensures r.Ok? <==> input.Number?
    ensures r.Ok? ==> r.value.Number? && Value(r.value) == -Value(input)
    ensures r.Err? ==> r.error == ParseError(input)
  {
    if !input.Number? then Err(ParseError(input))
    else
      ShiftNeg(input.mantissa as real, input.scale);
      Ok(Number(-input.mantissa, input.scale))
  }

  function Cmp(lhs: Amount, rhs: Amount): (r: Result<Ordering>)
    ensures r.Ok? <==> lhs.Number? && rhs.Number?
    ensures r.Ok? ==> (r.value.Less? <==> Value(lhs) < Value(rhs))
    ensures r.Ok? ==> (r.value.Equal? <==> Value(lhs) == Value(rhs))
    ensures r.Err? ==> r.error == ParseError(if lhs.Number? then rhs else lhs)
  {
    if !lhs.Number? then Err(ParseError(lhs))
    else if !rhs.Number? then Err(ParseError(rhs))
    else
      var s := Max(lhs.scale, rhs.scale);
      var l, h := Aligned(lhs, s), Aligned(rhs, s);
      ShiftOrder(l as real, h as real, s);
      Ok(if l < h then Less else if l == h then Equal else Greater)
  }

  /** Normalised decimals are canonical: equal values are written the same way, so a balance that
      returns to a value returns to the same string. */
  lemma NormalizedUnique(a: Amount, b: Amount)
    requires IsNormalized(a) && IsNormalized(b) && Value(a) == Value(b)
    ensures a == b
  {
    if a.scale <= b.scale { NormalizedUniqueOrdered(a, b); } else { NormalizedUniqueOrdered(b, a); }
  }

  lemma NormalizedUniqueOrdered(a: Amount, b: Amount)
    requires IsNormalized(a) && IsNormalized(b) && Value(a) == Value(b)
    requires a.scale <= b.scale
    ensures a == b
  {
    var m := Aligned(a, b.scale);
    ShiftOrder(m as real, b.mantissa as real, b.scale);
    assert m == b.mantissa;
    ZeroShift(a.scale);
    ZeroShift(b.scale);
    ShiftOrder(a.mantissa as real, 0.0, a.scale);
  }

  lemma ZeroShift(s: int)
    ensures Shift(0.0, s) == 0.0
  {
    ShiftNeg(0.0, s);
  }
}
