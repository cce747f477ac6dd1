/** Small definitions shared by the models. */
module Common {

  datatype Option<+T> = None | Some(value: T)

  const TWO_16: nat := 0x1_0000
  const TWO_31: nat := 0x8000_0000
  const TWO_32: nat := 0x1_0000_0000
  const TWO_64: nat := 0x1_0000_0000_0000_0000

  /** The 32-bit int that `x` wraps around to. */
  function Wrap32(x: int): int { (x + 0x8000_0000) % 0x1_0000_0000 - 0x8000_0000 }

  /** DIV_ROUND_UP of the C headers. */
  function DivRoundUp(x: nat, y: nat): nat
    requires y > 0
  {
    (x + y - 1) / y
  }

  /** ALIGN of the C headers. */
  function AlignUp(x: nat, y: nat): nat
    requires y > 0
  {
    y * DivRoundUp(x, y)
  }

  /** ALIGN_DOWN of the C headers. */
  function AlignDown(x: nat, y: nat): nat
    requires y > 0
  {
    y * (x / y)
  }

  lemma AlignDownBounds(x: nat, y: nat)
    requires y > 0
    ensures AlignDown(x, y) <= x < AlignDown(x, y) + y
    ensures x >= y ==> AlignDown(x, y) >= y
  {
    assert x == (x / y) * y + x % y;
    if x >= y {
      DivMonotone(y, x, y);
      DivModUnique(1, 0, y);
      MulMonotone(1, x / y, y);
    }
  }

  lemma DivModUnique(q: nat, r: nat, d: nat)
    requires r < d
    ensures (q * d + r) / d == q
    ensures (q * d + r) % d == r
  {
    var x := q * d + r;
    assert x == (x / d) * d + x % d;
    SmallMultiple(q - x / d, d, x % d - r);
  }

  /** A multiple of d that is closer to 0 than d is 0. */
  lemma SmallMultiple(k: int, d: int, e: int)
    requires k * d == e && -d < e < d
    ensures k == 0
  {
    if k >= 1 {
      MulAtLeast(k, d);
    } else if k <= -1 {
      MulAtLeast(-k, d);
    }
  }

  lemma MulAtLeast(a: int, d: int)
    requires a >= 1 && d >= 0
    ensures a * d >= d
  {
  }

  lemma MulMonotone(a: int, b: int, d: int)
    requires a <= b && d >= 0
    ensures a * d <= b * d
  {
  }

  /** ALIGN reaches the next multiple and no further. */
  lemma AlignUpBounds(x: nat, y: nat)
    requires y > 0
    ensures x <= AlignUp(x, y) < x + y
    ensures AlignUp(x, y) % y == 0
    ensures x % y == 0 ==> AlignUp(x, y) == x
  {
    var q := DivRoundUp(x, y);
    assert x + y - 1 == q * y + (x + y - 1) % y;
    assert AlignUp(x, y) == q * y + 0;
    DivModUnique(q, 0, y);
    if x % y == 0 {
      var n := x / y;
      assert x + y - 1 == n * y + (y - 1);
      DivModUnique(n, y - 1, y);
    }
  }

  lemma DivMonotone(x: nat, y: nat, d: nat)
    requires d > 0 && x <= y
    ensures x / d <= y / d
  {
    var p, q := x / d, y / d;
    assert y < q * d + d && x >= p * d;
    assert (q + 1) * d == q * d + d;
    if p > q {
      MulMonotone(q + 1, p, d);
    }
  }

  lemma RoundUpPositive(x: nat, d: nat)
    requires d > 0
    ensures x > 0 ==> DivRoundUp(x, d) >= 1
    ensures x == 0 ==> DivRoundUp(x, d) == 0
  {
    if x > 0 {
      DivMonotone(d, x + d - 1, d);
      DivModUnique(1, 0, d);
    }
  }
}
