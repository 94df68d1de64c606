/** Division with a known rounding, on top of a division operator that rounds towards zero on some
    platforms and down on others. */
module DivRem {

  /** x / y as the platform computes it. */
  function PlatformDiv(down: bool, x: int, y: int): int
    requires y > 0
  {
    if down || x >= 0 then x / y else -((-x) / y)
  }

  /** x % y as the platform computes it. */
  function PlatformRem(down: bool, x: int, y: int): int
    requires y > 0
  {
    x - PlatformDiv(down, x, y) * y
  }

  function DivTrunc(down: bool, x: int, y: int): int
    requires y > 0
  {
    if !down || x >= 0 then PlatformDiv(down, x, y) else -PlatformDiv(down, -x, y)
  }

  function RemTrunc(down: bool, x: int, y: int): int
    requires y > 0
  {
    if !down || x >= 0 then PlatformRem(down, x, y) else -PlatformRem(down, -x, y)
  }

  function DivFloor(down: bool, x: int, y: int): int
    requires y > 0
  {
    if down || x >= 0 then PlatformDiv(down, x, y) else PlatformDiv(down, x + 1, y) - 1
  }

  function RemFloor(down: bool, x: int, y: int): int
    requires y > 0
  {
    if down || x >= 0 then PlatformRem(down, x, y) else PlatformRem(down, x + 1, y) + y - 1
  }

  lemma MulGrows(a: int, b: int, y: int)
    requires a < b && y > 0
    ensures a * y + y <= b * y
  {
    var d := b - a - 1;
    assert d * y >= 0;
    assert b * y == (a + 1 + d) * y == a * y + y + d * y;
  }

  lemma QuotientIsUnique(x: int, y: int, q: int, r: int)
    requires y > 0 && x == q * y + r && 0 <= r < y
    ensures x / y == q
  {
    var p := x / y;
    assert x == p * y + x % y;
    if p < q {
      MulGrows(p, q, y);
    } else if q < p {
      MulGrows(q, p, y);
    }
  }

  /** On every platform: the quotient that leaves a remainder between 0 and y - 1. */
  lemma FloorIsRight(down: bool, x: int, y: int)
    requires y > 0
    ensures DivFloor(down, x, y) * y + RemFloor(down, x, y) == x
    ensures 0 <= RemFloor(down, x, y) < y
  {
    if !down && x < 0 {
      var q, r := x / y, x % y;
      assert x == q * y + r;
      assert -(x + 1) == (-q - 1) * y + (y - 1 - r);
      QuotientIsUnique(-(x + 1), y, -q - 1, y - 1 - r);
      assert PlatformDiv(down, x + 1, y) == q + 1;
      assert (q + 1) * y == q * y + y;
    } else {
      assert x == (x / y) * y + x % y;
    }
  }

  /** On every platform: the remainder has the sign of the dividend. */
  lemma TruncIsRight(down: bool, x: int, y: int)
    requires y > 0
    ensures DivTrunc(down, x, y) * y + RemTrunc(down, x, y) == x
    ensures if x >= 0 then 0 <= RemTrunc(down, x, y) < y else -y < RemTrunc(down, x, y) <= 0
  {
    var a := if x >= 0 then x else -x;
    assert a == (a / y) * y + a % y;
    assert -(a / y) * y == -((a / y) * y);
  }

  // ----- overflow ------------------------------------------------------------------------

  /** Everything that computing DivFloor and RemFloor passes through. */
  function FloorSteps(down: bool, x: int, y: int): seq<int>
    requires y > 0
  {
    if down || x >= 0 then [PlatformDiv(down, x, y), PlatformRem(down, x, y)]
    else
      var (q, r) := (PlatformDiv(down, x + 1, y), PlatformRem(down, x + 1, y));
      [x + 1, q, q - 1, r, r + y, r + y - 1]
  }

  function TruncSteps(down: bool, x: int, y: int): seq<int>
    requires y > 0
  {
    if !down || x >= 0 then [PlatformDiv(down, x, y), PlatformRem(down, x, y)]
    else
      var (q, r) := (PlatformDiv(down, -x, y), PlatformRem(down, -x, y));
      [-x, q, -q, r, -r]
  }

  ghost predicate AllWithin(lo: int, hi: int, steps: seq<int>) {
    forall i :: 0 <= i < |steps| ==> lo <= steps[i] <= hi
  }

  lemma QuotientIsSmaller(x: int, y: int)
    requires y > 0
    ensures if x >= 0 then 0 <= x / y <= x else x <= x / y < 0
  {
    var q, r := x / y, x % y;
    var p := q * y;
    assert x == p + r;
    if q > 0 {
      MulAtLeast(q, y);
    } else if q < -1 {
      MulGrows(q, 0, y);
      MulAtLeast(-(q + 1), y);
      assert -(q + 1) * y == -p - y;
    }
  }

  lemma MulAtLeast(a: int, y: int)
    requires a > 0 && y > 0
    ensures a * y >= a
  {
    var d := y - 1;
    assert a * y == a * (1 + d) == a + a * d;
  }

  /** Nothing in the floor functions overflows, whatever the operands. */
  lemma FloorNeverOverflows(down: bool, x: int, y: int, max: int)
    requires -max - 1 <= x <= max && 0 < y <= max
    ensures AllWithin(-max - 1, max, FloorSteps(down, x, y))
  {
    QuotientIsSmaller(x, y);
    FloorIsRight(down, x, y);
    if !down && x < 0 {
      QuotientIsSmaller(-(x + 1), y);
      TruncIsRight(false, x + 1, y);
    }
  }

  /** The truncating functions negate the dividend where division rounds down, which overflows for the
      least number and for no other. */
  lemma TruncOverflowsExactly(down: bool, x: int, y: int, max: int)
    requires -max - 1 <= x <= max && 0 < y <= max
    ensures AllWithin(-max - 1, max, TruncSteps(down, x, y)) <==> !(down && x == -max - 1)
  {
    var a := if x >= 0 then x else -x;
    QuotientIsSmaller(a, y);
    TruncIsRight(down, x, y);
    TruncIsRight(down, a, y);
    var steps := TruncSteps(down, x, y);
    if down && x == -max - 1 {
      assert steps[0] == max + 1;
    }
  }
}
