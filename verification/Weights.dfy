/** Turning a target percentage and a duration into a goal weight and an increment
    (pkg/services/weight.go), and why the result reads back as the target. */
module Weights {
  import opened Prelude
  import opened Services
  import opened Float64Model
  import opened Rollout
  import opened RolloutRuns
  import opened RolloutSafety

  const DEFAULT_INTERVAL := 4

  datatype WeightError = TooLong | AlreadyAtTarget | IncrementTooSmall

  datatype Plan = Plan(weight: int, rollout: RolloutConfig)

  function CalcWeightPercentage(a: Arithmetic, weight: int, total: int): int {
    if total == 0 || weight == 0 then 0 else a.percent(weight, total)
  }

  function CalcComputedWeight(a: Arithmetic, target: int, others: int): int {
    if target == 100 then PROMOTE_WEIGHT
    else if others > 0 then a.quotient(others, target) - others
    else target
  }

  // Seconds over the default interval, but at least one step.
  function Steps(duration: int): (s: real)
    ensures s >= 1.0
  {
    var s := duration as real / (DEFAULT_INTERVAL * SECOND) as real;
    if s < 1.0 then 1.0 else s
  }

  function Difference(a: Arithmetic, target: int, total: int, others: int): int {
    if target == 100 then PROMOTE_WEIGHT else others + CalcComputedWeight(a, target, others) - total
  }

  function CalcIncrement(a: Arithmetic, duration: int, target: int, total: int, others: int): Result<int, WeightError> {
    var difference := Difference(a, target, total, others);
    if difference == 0 then Ok(0)
    else
      var increment := a.stride(difference, Steps(duration));
      if increment == 0 then Err(IncrementTooSmall) else Ok(increment)
  }

  function Positive(r: Revision): nat {
    if Current(r) > 0 then Current(r) else 0
  }

  function TotalWeight(revs: seq<Revision>): int {
    Sum(seq(|revs|, i requires 0 <= i < |revs| => Positive(revs[i])))
  }

  // `svc` is the revision to move, `svcs` all revisions of its app; durations are nanoseconds.
  function Generate(a: Arithmetic, svc: Revision, svcs: seq<Revision>, target: int, duration: int, pause: bool)
    : Result<Plan, WeightError>
  {
    if duration > 10 * 3600 * SECOND then Err(TooLong)
    else if |svcs| == 0 then Ok(Plan(target * 100, RolloutConfig(0, 0, false)))
    else if target == CalcWeightPercentage(a, Positive(svc), TotalWeight(svcs)) then Err(AlreadyAtTarget)
    else
      var total := TotalWeight(svcs);
      var others := total - Positive(svc);
      var weight := CalcComputedWeight(a, target, others);
      if duration < 2 * SECOND then Ok(Plan(weight, RolloutConfig(0, DEFAULT_INTERVAL, pause)))
      else
        match CalcIncrement(a, duration, target, total, others)
        case Err(e) => Err(e)
        case Ok(increment) => Ok(Plan(weight, RolloutConfig(increment, DEFAULT_INTERVAL, pause)))
  }

  method GenerateWeightAndRolloutConfig(a: Arithmetic, svc: Revision, svcs: seq<Revision>, target: int,
                                        duration: int, pause: bool) returns (r: Result<Plan, WeightError>)
    ensures r == Generate(a, svc, svcs, target, duration, pause)
  {
    if duration > 10 * 3600 * SECOND {
      return Err(TooLong);
    }
    if |svcs| == 0 {
      return Ok(Plan(target * 100, RolloutConfig(0, 0, false)));
    }
    var currComputedWeight := 0;
    if svc.computed.Some? && svc.computed.value > 0 {
      currComputedWeight := svc.computed.value;
    }
    var totalCurrWeight := 0;
    ghost var weights := seq(|svcs|, i requires 0 <= i < |svcs| => Positive(svcs[i]) as int);
    for i := 0 to |svcs|
      invariant totalCurrWeight == Sum(weights[..i])
    {
      assert weights[..i + 1] == weights[..i] + [weights[i]];
      SumAppend(weights[..i], weights[i]);
      if svcs[i].computed.Some? && svcs[i].computed.value > 0 {
        totalCurrWeight := totalCurrWeight + svcs[i].computed.value;
      }
    }
    assert weights[..|svcs|] == weights;
    assert weights == seq(|svcs|, i requires 0 <= i < |svcs| => Positive(svcs[i]));
    if target == CalcWeightPercentage(a, currComputedWeight, totalCurrWeight) {
      return Err(AlreadyAtTarget);
    }
    var others := totalCurrWeight - currComputedWeight;
    var weight := CalcComputedWeight(a, target, others);
    var increment := 0;
    if duration >= 2 * SECOND {
      var i := CalcIncrement(a, duration, target, totalCurrWeight, others);
      if i.Err? {
        return Err(i.error);
      }
      increment := i.value;
    }
    r := Ok(Plan(weight, RolloutConfig(increment, DEFAULT_INTERVAL, pause)));
  }

  // ----- the weight reads back as the percentage -----

  // The percentage that a revision given the weight for `target` has next to `others`.
  function ReadBack(a: Arithmetic, target: int, others: int): int {
    var w := CalcComputedWeight(a, target, others);
    CalcWeightPercentage(a, w, others + w)
  }

  // Hundredfold, the weight that truncation takes from the new total.
  function Drift(a: Arithmetic, target: int, others: int): int {
    100 * others - (100 - target) * a.quotient(others, target)
  }

  lemma QuotientBounds(others: int, target: int, t: int)
    requires 0 <= target < 100 && QuotientValue(others, target, t)
    ensures var k := 100 - target; k * t <= 100 * others <= k * t + k
  {
    var k := 100 - target;
    DivisionBounds(100 * others, k);
    assert k * (100 * others / k - 1) == 100 * others / k * k - k;
  }

  lemma ExactQuotientGrows(others: int, target: int)
    requires 0 < target < 100 && others > 0
    ensures ExactQuotient(others, target) >= others
    ensures 100 * others % (100 - target) == 0 ==> ExactQuotient(others, target) > others
  {
    var k := 100 - target;
    DivisionBounds(100 * others, k);
    assert k * others < 100 * others;
    CancelFactor(others, 100 * others / k + 1, k);
    if 100 * others % k == 0 {
      CancelFactor(others, 100 * others / k, k);
    }
  }

  lemma QuotientGrows(others: int, target: int, t: int)
    requires 0 <= target < 100 && others > 0 && QuotientValue(others, target, t)
    ensures t >= others && (target == 0 ==> t == others)
  {
    if target > 0 {
      ExactQuotientGrows(others, target);
    }
  }

  // p is a nearest percent and t * target is within half of t of 100 w, so p is the target.
  lemma PercentIsExact(p: int, target: int, t: int, w100: int)
    requires t > 0 && 2 * Abs(p * t - w100) <= t && 2 * Abs(target * t - w100) < t
    ensures p == target
  {
    assert t * (p - target) == p * t - target * t;
    CancelFactor(p - target, 1, t);
    CancelFactor(target - p, 1, t);
  }

  // The drift is how far the target share of the new total is above the new weight.
  lemma DriftIsGap(target: int, others: int, q: int)
    ensures target * q - 100 * (q - others) == 100 * others - (100 - target) * q
  {
    Distribute(100, -target, q);
  }

  lemma NearestIffClose(p: int, target: int, t: int, w100: int, d: int)
    requires t > 0 && d >= 0 && target * t - w100 == d && 2 * Abs(p * t - w100) <= t
    ensures 2 * d < t ==> p == target
    ensures p == target ==> 2 * d <= t
  {
    if 2 * d < t {
      PercentIsExact(p, target, t, w100);
    }
  }

  // Without any weight, the drift is the target share of the whole total.
  lemma NoWeight(target: int, t: int, d: int)
    requires target >= 0 && t > 0 && target * t == d
    ensures 2 * d < t ==> target == 0
    ensures target == 0 ==> d == 0
  {
    if target > 0 {
      assert target * t >= t;
    }
  }

  // The weight reads back as the target when twice the drift is below the new total, and only when
  // it is not above it; at the tie between them two percentages are equally near.
  lemma ReadsBackExactly(a: Arithmetic, target: int, others: int)
    requires Float64(a) && 0 <= target < 100 && others > 0
    ensures CalcComputedWeight(a, target, others) >= 0
    ensures 2 * Drift(a, target, others) < a.quotient(others, target) ==> ReadBack(a, target, others) == target
    ensures ReadBack(a, target, others) == target ==> 2 * Drift(a, target, others) <= a.quotient(others, target)
  {
    var q, d := a.quotient(others, target), Drift(a, target, others);
    assert QuotientValue(others, target, q);
    QuotientBounds(others, target, q);
    QuotientGrows(others, target, q);
    DriftIsGap(target, others, q);
    if q != others {
      assert PercentValue(q - others, q, a.percent(q - others, q));
      NearestIffClose(a.percent(q - others, q), target, q, 100 * (q - others), d);
    } else {
      NoWeight(target, q, d);
    }
  }

  // In exact arithmetic the tie reads back too.
  lemma ReadsBackInExactArithmetic(target: int, others: int)
    requires 0 <= target < 100 && others > 0
    ensures ReadBack(EXACT, target, others) == target
            <==> 2 * Drift(EXACT, target, others) <= EXACT.quotient(others, target)
  {
    var q, d := EXACT.quotient(others, target), Drift(EXACT, target, others);
    ExactIsFloat64();
    ReadsBackExactly(EXACT, target, others);
    if 2 * d == q {
      assert QuotientValue(others, target, q);
      QuotientGrows(others, target, q);
      DriftIsGap(target, others, q);
      TieRoundsUp(target, q, 100 * (q - others));
      if q == others {
        NoWeight(target, q, d);
      }
    }
  }

  lemma QuotientOfProduct(x: int, n: int, y: int)
    requires n > 0 && y == x * n
    ensures y / n == x
  {
    DivisionBounds(y, n);
    CancelFactor(x, y / n + 1, n);
    CancelFactor(y / n, x + 1, n);
  }

  lemma TieRoundsUp(target: int, t: int, w100: int)
    requires t > 0 && 2 * (target * t - w100) == t
    ensures (2 * w100 + t) / (2 * t) == target
  {
    QuotientOfProduct(target, 2 * t, 2 * w100 + t);
  }

  // From a total of 198 other weight on, every target below 100% reads back exactly.
  lemma TargetReadsBack(a: Arithmetic, target: int, others: int)
    requires Float64(a) && 0 <= target < 100 && others >= 198
    ensures 2 * Drift(a, target, others) < a.quotient(others, target)
    ensures ReadBack(a, target, others) == target
  {
    var t := a.quotient(others, target);
    assert QuotientValue(others, target, t);
    QuotientBounds(others, target, t);
    QuotientIsLarge(others, 100 - target, t);
    ReadsBackExactly(a, target, others);
  }

  lemma QuotientIsLarge(others: int, k: int, t: int)
    requires others >= 198 && 1 <= k <= 100
    requires k * t <= 100 * others <= k * t + k
    requires k == 100 ==> t == others
    ensures if k == 100 then t == others else t > others && 2 * k < t
  {
    if k < 100 {
      Distribute(t, 1, k);
      LessFactor(k, 99, others + 1);
      CancelFactor(others + 1, t + 1, k);
      LessFactor(k, 99, 2 * k + 1);
      CancelFactor(2 * k + 1, t + 1, k);
    }
  }

  lemma LessFactor(k: int, n: int, x: int)
    requires k <= n && x >= 0
    ensures k * x <= n * x
  {
    Distribute(n, -k, x);
  }

  // Below it some do not: 1% next to 98 reads back as 0%, and 2% next to 146 as 1%.
  lemma SmallTotalsDoNot(a: Arithmetic)
    requires Float64(a)
    ensures ReadBack(a, 1, 98) == 0 && ReadBack(a, 2, 146) == 1
  {
    assert QuotientValue(98, 1, a.quotient(98, 1)) && QuotientValue(146, 2, a.quotient(146, 2));
    assert PercentValue(2, 148, a.percent(2, 148));
  }

  // With no other weight, any positive target below 100% reads back as 100%.
  lemma AloneIsAllTraffic(a: Arithmetic, target: int)
    requires Float64(a) && 0 <= target < 100
    ensures ReadBack(a, target, 0) == if target == 0 then 0 else 100
  {
    if target > 0 {
      assert PercentValue(target, target, a.percent(target, target));
      PercentIsExact(a.percent(target, target), 100, target, 100 * target);
    }
  }

  // ----- the weight command, end to end -----

  lemma TotalWeightSplit(revs: seq<Revision>, i: nat, revs': seq<Revision>)
    requires i < |revs| == |revs'|
    requires forall j :: 0 <= j < |revs| && j != i ==> Current(revs'[j]) == Current(revs[j])
    ensures TotalWeight(revs') == TotalWeight(revs) - Positive(revs[i]) + Positive(revs'[i])
  {
    var ws := seq(|revs|, j requires 0 <= j < |revs| => Positive(revs[j]));
    var ws' := seq(|revs'|, j requires 0 <= j < |revs'| => Positive(revs'[j]));
    assert ws' == ws[i := Positive(revs'[i])];
    SumUpdate(ws, i, Positive(revs'[i]));
  }

  // What `rio weight` writes to the chosen revision.
  function WithPlan(revs: seq<Revision>, i: nat, plan: Plan): (revs': seq<Revision>)
    requires i < |revs|
    ensures |revs'| == |revs|
  {
    revs[i := revs[i].(weight := Some(plan.weight), rollout := Some(plan.rollout))]
  }

  // Once the rollout it starts has converged, repeating the command is refused, as the target is
  // met, exactly when the weight reads back.
  lemma WeightCommandReachesTarget(a: Arithmetic, revs: seq<Revision>, i: nat, target: int, duration: int, pause: bool,
                                   last: map<string, int>, times: seq<int>, duration': int, pause': bool)
    requires Float64(a) && i < |revs| && 0 <= target < 100
    requires TotalWeight(revs) > Positive(revs[i])
    requires forall j :: 0 <= j < |revs| && j != i ==> AtGoal(revs[j])
    requires Generate(a, revs[i], revs, target, duration, pause).Ok?
    requires
      var goal := WithPlan(revs, i, Generate(a, revs[i], revs, target, duration, pause).value);
      && Progressive(goal) && Spaced(goal, times) && |times| >= Total(goal)
      && ComputedWeightsExist(goal) && (times != [] ==> Ready(goal, last, times[0]))
    requires duration' <= 10 * 3600 * SECOND
    ensures
      var goal := WithPlan(revs, i, Generate(a, revs[i], revs, target, duration, pause).value);
      var revs' := Ticks(a, goal, last, times).revs;
      Generate(a, revs'[i], revs', target, duration', pause') == Err(AlreadyAtTarget)
      <==> ReadBack(a, target, TotalWeight(revs) - Positive(revs[i])) == target
  {
    var plan := Generate(a, revs[i], revs, target, duration, pause).value;
    var goal := WithPlan(revs, i, plan);
    var revs' := Ticks(a, goal, last, times).revs;
    Converges(a, goal, last, times);
    TotalZero(revs');
    forall j | 0 <= j < |revs| && j != i ensures Current(revs'[j]) == Current(revs[j]) {
      assert AtGoal(revs'[j]) && revs'[j] == goal[j].(computed := revs'[j].computed);
    }
    TotalWeightSplit(revs, i, revs');
    ReadsBackExactly(a, target, TotalWeight(revs) - Positive(revs[i]));
  }

  // A plan made for a duration closes the gap it was made for within 4 * steps + 1 due ticks.
  lemma PlanMeetsDuration(a: Arithmetic, revs: seq<Revision>, i: nat, target: int, duration: int, pause: bool,
                          last: map<string, int>, times: seq<int>)
    requires Float64(a) && i < |revs| && 0 <= target <= 100 && 0 <= Current(revs[i])
    requires target == 100 ==> Current(revs[i]) <= 2 * PROMOTE_WEIGHT
    requires Generate(a, revs[i], revs, target, duration, pause).Ok?
    requires Generate(a, revs[i], revs, target, duration, pause).value.rollout.increment >= 2
    requires
      var goal := WithPlan(revs, i, Generate(a, revs[i], revs, target, duration, pause).value);
      |times| as real >= 4.0 * Steps(duration) + 1.0 && Ready(goal, last, times[0]) && Spaced(goal, times)
    ensures
      var goal := WithPlan(revs, i, Generate(a, revs[i], revs, target, duration, pause).value);
      AtGoal(Ticks(a, goal, last, times).revs[i])
  {
    var plan := Generate(a, revs[i], revs, target, duration, pause).value;
    var total := TotalWeight(revs);
    var others := total - Positive(revs[i]);
    TimeBound(a, WithPlan(revs, i, plan), last, times, i, Difference(a, target, total, others), Steps(duration));
  }
}
