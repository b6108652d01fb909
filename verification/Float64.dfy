/** The five places where the rollout code goes through float64 and back to int.

    Each is a deterministic function of its integer operands, but the rounding of the
    intermediate steps can push a quotient whose exact value is an integer just below it,
    so that truncation loses one unit (int(29.0/100.0*100) is 28).  `Arithmetic` bundles the
    five functions, `Float64` says how far they may lie from exact arithmetic, and every
    theorem about rollouts quantifies over all arithmetics satisfying `Float64`.
    `ExactIsFloat64` shows that exact arithmetic is one of them. */
module Float64Model {
  import opened Prelude

  datatype Arithmetic = Arithmetic(
    flux: (int, int, int) -> int,    // incrementFlux(increment, goal, current)
    quotient: (int, int) -> int,     // int(others / (1 - target/100))
    percent: (int, int) -> int,      // int(round(weight / total / 0.01))
    share: (int, int) -> int,        // int(weight / total * 100)
    stride: (int, real) -> int       // int(abs(round(difference / steps)))
  )

  // ----- incrementFlux -----

  // The clamped rate by which incrementFlux scales the increment.
  function Rate(goal: int, curr: int): (r: real)
    requires goal >= 100
    ensures 0.5 <= r <= 1.25
  {
    var c := if curr < 1 then 1 else curr;
    var diff := c as real / goal as real;
    var rate := if c > goal then diff - 0.5 else diff + 0.5;
    if rate > 1.25 then 1.25 else if rate < 0.5 then 0.5 else rate
  }

  function ExactFlux(increment: int, goal: int, curr: int): int {
    if goal < 100 then increment else (increment as real * Rate(goal, curr)).Floor
  }

  // Rounding is monotone and exact at the rates 0.5, 1 and 1.25.
  predicate FluxValue(increment: int, goal: int, curr: int, f: int) {
    var e := ExactFlux(increment, goal, curr);
    f == e ||
    (goal >= 100 && f == e - 1 && increment as real * Rate(goal, curr) == e as real
     && Rate(goal, curr) != 0.5 && Rate(goal, curr) != 1.0 && Rate(goal, curr) != 1.25)
  }

  // ----- calcComputedWeight -----

  function ExactQuotient(others: int, target: int): int
    requires target < 100
  {
    100 * others / (100 - target)
  }

  predicate QuotientValue(others: int, target: int, q: int)
    requires target < 100
  {
    var e := ExactQuotient(others, target);
    q == e || (target != 0 && q == e - 1 && 100 * others % (100 - target) == 0)
  }

  // ----- CalcWeightPercentage -----

  // A nearest whole percent; at a tie either neighbour.
  predicate PercentValue(weight: int, total: int, p: int) {
    2 * Abs(p * total - 100 * weight) <= total
  }

  function ExactPercent(weight: int, total: int): int
    requires total > 0
  {
    (200 * weight + total) / (2 * total)
  }

  // ----- getTargetsForApp -----

  predicate ShareValue(weight: int, total: int, s: int)
    requires total > 0
  {
    var e := 100 * weight / total;
    s == e || (weight != 0 && weight != total && s == e - 1 && 100 * weight % total == 0)
  }

  // ----- calcIncrement -----

  predicate StrideValue(difference: int, steps: real, s: int)
    requires steps > 0.0
  {
    var x := Abs(difference) as real / steps;
    0 <= s && x - 1.0 < s as real < x + 1.0
  }

  function ExactStride(difference: int, steps: real): int
    requires steps > 0.0
  {
    (Abs(difference) as real / steps + 0.5).Floor
  }

  // ----- every admissible arithmetic -----

  ghost predicate Float64(a: Arithmetic) {
    && (forall i, g, c :: i >= 0 ==> FluxValue(i, g, c, a.flux(i, g, c)))
    && (forall o, t :: o > 0 && t < 100 ==> QuotientValue(o, t, a.quotient(o, t)))
    && (forall w, n :: n > 0 ==> PercentValue(w, n, a.percent(w, n)))
    && (forall w, n :: 0 <= w <= n && n > 0 ==> ShareValue(w, n, a.share(w, n)))
    && (forall d, s :: s >= 1.0 ==> StrideValue(d, s, a.stride(d, s)))
  }

  const EXACT: Arithmetic := Arithmetic(
    ExactFlux,
    (o, t) => if t < 100 then ExactQuotient(o, t) else 0,
    (w, n) => if n > 0 then ExactPercent(w, n) else 0,
    (w, n) => if n > 0 then 100 * w / n else 0,
    (d, s) => if s > 0.0 then ExactStride(d, s) else 0)

  lemma ExactIsFloat64()
    ensures Float64(EXACT)
  {
    forall w, n | n > 0 ensures PercentValue(w, n, EXACT.percent(w, n)) {
      var p := ExactPercent(w, n);
      DivisionBounds(200 * w + n, 2 * n);
      assert p * (2 * n) == 2 * (p * n);
    }
    forall d, s: real | s >= 1.0 ensures StrideValue(d, s, EXACT.stride(d, s)) {
      NonNegativeQuotient(Abs(d) as real, s);
    }
  }

  lemma NonNegativeQuotient(x: real, y: real)
    requires x >= 0.0 && y > 0.0
    ensures x / y >= 0.0
  {
  }

  // ----- bounds the rollout proofs rest on -----

  // Below rate 1 the increment shrinks, from rate 1 on it never does; it is never scaled
  // below one half or above five quarters.
  lemma FluxBounds(a: Arithmetic, i: int, g: int, c: int)
    requires Float64(a) && i >= 1
    ensures g < 100 ==> a.flux(i, g, c) == i
    ensures g >= 100 ==> i / 2 <= a.flux(i, g, c) <= 5 * i / 4
    ensures g >= 100 && Rate(g, c) < 1.0 && i == 1 ==> a.flux(i, g, c) == 0
    ensures g >= 100 && Rate(g, c) >= 1.0 ==> a.flux(i, g, c) >= i
    ensures g >= 100 && Rate(g, c) == 1.25 ==> a.flux(i, g, c) == 5 * i / 4
  {
    assert FluxValue(i, g, c, a.flux(i, g, c));
    if g >= 100 {
      ScaledFloor(i, Rate(g, c), a.flux(i, g, c));
    }
  }

  lemma ScaledFloor(i: int, r: real, f: int)
    requires i >= 1 && 0.5 <= r <= 1.25
    requires
      var x := i as real * r;
      f == x.Floor || (f == x.Floor - 1 && x == x.Floor as real && r != 0.5 && r != 1.0 && r != 1.25)
    ensures i / 2 <= f <= 5 * i / 4
    ensures r < 1.0 && i == 1 ==> f == 0
    ensures r >= 1.0 ==> f >= i
    ensures r == 1.25 ==> f == 5 * i / 4
  {
    var x := Scaled(i, r);
    FloorBetween(i, x, f, r != 0.5 && r != 1.0 && r != 1.25);
  }

  // i * r lies on the same side of i/2, i and 5i/4 as r does of 1/2, 1 and 5/4.
  lemma Scaled(i: int, r: real) returns (x: real)
    requires i >= 1 && 0.5 <= r <= 1.25
    ensures x == i as real * r
    ensures 0.5 * i as real <= x <= 1.25 * i as real
    ensures r > 0.5 ==> 0.5 * i as real < x
    ensures r < 1.0 ==> x < i as real
    ensures r > 1.0 ==> i as real < x
    ensures r == 1.0 ==> x == i as real
    ensures r == 1.25 ==> x == 1.25 * i as real
  {
    var k := i as real;
    x := k * r;
    Commutes(k, r);
    var lo, mid, hi := 0.5 * k, 1.0 * k, 1.25 * k;
    ScaledSides(0.5, r, k, lo, x);
    ScaledSides(1.0, r, k, mid, x);
    ScaledSides(1.25, r, k, hi, x);
  }

  lemma Commutes(x: real, y: real)
    ensures x * y == y * x
  {
  }

  lemma ScaledSides(x: real, y: real, k: real, xk: real, yk: real)
    requires k > 0.0 && xk == x * k && yk == y * k
    ensures x < y ==> xk < yk
    ensures x == y ==> xk == yk
    ensures x > y ==> xk > yk
  {
    if x < y {
      RealScale(x, y, k);
    } else if x > y {
      RealScale(y, x, k);
    }
  }

  lemma FloorBetween(i: int, x: real, f: int, inexact: bool)
    requires i >= 1 && 0.5 * i as real <= x <= 1.25 * i as real
    requires f == x.Floor || (f == x.Floor - 1 && x == x.Floor as real && inexact)
    requires inexact ==> 0.5 * i as real < x && x != i as real
    ensures i / 2 <= f <= 5 * i / 4
    ensures x < i as real && i == 1 ==> f == 0
    ensures x >= i as real ==> f >= i
    ensures x == 1.25 * i as real && !inexact ==> f == 5 * i / 4
  {
    assert f as real <= x;
    assert 2.0 * x >= i as real && 4.0 * x <= 5.0 * i as real;
  }

  // When the rate is below 1, in integers.
  lemma RateBelowOne(g: int, c: int)
    requires g >= 100
    ensures Rate(g, c) < 1.0 <==> (if c > g then 2 * c < 3 * g else 2 * c < g)
    ensures c >= 5 * g ==> Rate(g, c) == 1.25
  {
    var m := if c < 1 then 1 else c;
    if c > g {
      RatioBelow(m, g, 1.5);
      RatioBelow(m, g, 5.0);
    } else {
      RatioBelow(m, g, 0.5);
    }
  }

  lemma RatioBelow(m: int, g: int, y: real)
    requires g > 0
    ensures m as real / g as real < y <==> m as real < y * g as real
  {
    var d := m as real / g as real;
    assert d * g as real == m as real;
    if d < y {
      RealScale(d, y, g as real);
    } else if y < d {
      RealScale(y, d, g as real);
    }
  }

  lemma RealScale(x: real, y: real, k: real)
    requires k > 0.0 && x < y
    ensures x * k < y * k
  {
  }
}
