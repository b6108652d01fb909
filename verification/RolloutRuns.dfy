/** What runs of the rollout controller keep and where they end: progress of one pass, the
    exact stall condition, convergence, and the time an incremental rollout takes. */
module RolloutRuns {
  import opened Prelude
  import opened Services
  import opened Float64Model
  import opened Rollout

  // ----- distance to the goal -----

  function Dist(r: Revision): nat {
    if r.weight.None? then 0 else Abs(r.weight.value - Current(r))
  }

  function Dists(revs: seq<Revision>): (ds: seq<int>)
    ensures |ds| == |revs|
  {
    seq(|revs|, i requires 0 <= i < |revs| => Dist(revs[i]))
  }

  // The total distance of an app from its goal weights.
  function Total(revs: seq<Revision>): int {
    Sum(Dists(revs))
  }

  lemma {:induction false} SumOfNats(xs: seq<int>)
    requires forall i :: 0 <= i < |xs| ==> xs[i] >= 0
    ensures Sum(xs) >= 0
    ensures Sum(xs) == 0 <==> forall i :: 0 <= i < |xs| ==> xs[i] == 0
  {
    if xs != [] {
      SumOfNats(xs[1..]);
      assert forall i :: 1 <= i < |xs| ==> xs[i] == xs[1..][i - 1];
    }
  }

  lemma TotalZero(revs: seq<Revision>)
    ensures Total(revs) >= 0
    ensures Total(revs) == 0 <==> forall i :: 0 <= i < |revs| ==> AtGoal(revs[i])
  {
    SumOfNats(Dists(revs));
    assert forall i :: 0 <= i < |revs| ==> (Dists(revs)[i] == 0 <==> AtGoal(revs[i]));
  }

  // ----- what a pass may change -----

  // Specs, names and readiness are fixed, and so are weights without a goal.
  predicate Evolves(revs: seq<Revision>, revs': seq<Revision>) {
    |revs| == |revs'| &&
    forall i :: 0 <= i < |revs| ==>
      revs'[i] == revs[i].(computed := revs'[i].computed)
      && (revs[i].weight.None? ==> revs'[i].computed == revs[i].computed)
      && (revs[i].computed.Some? ==> revs'[i].computed.Some?)
  }

  // The same weights in force, up to an unset weight becoming an explicit zero.
  predicate SameWeights(revs: seq<Revision>, revs': seq<Revision>) {
    |revs| == |revs'| &&
    forall i :: 0 <= i < |revs| ==>
      revs'[i] == revs[i].(computed := revs'[i].computed) && Current(revs'[i]) == Current(revs[i])
  }

  predicate PositiveIncrements(revs: seq<Revision>) {
    forall i :: 0 <= i < |revs| && IncrementalRollout(revs[i]) ==> revs[i].rollout.value.increment >= 1
  }

  predicate DueFrom(revs: seq<Revision>, last: map<string, int>, now: int, i: nat) {
    forall j :: i <= j < |revs| && IncrementalRollout(revs[j]) ==> Due(revs[j], last, now)
  }

  predicate DistinctKeys(revs: seq<Revision>) {
    forall i, j :: 0 <= i < j < |revs| ==> Key(revs[i]) != Key(revs[j])
  }

  lemma KeysDiffer(x: Revision, y: Revision)
    requires x.namespace == y.namespace && App(x) == App(y) && x.name != "" && y.name != "" && x.name != y.name
    ensures Key(x) != Key(y)
  {
    if x.app == y.app {
      var prefix := x.namespace + "-" + x.app + "-";
      assert Key(x)[|prefix|..] == x.name && Key(y)[|prefix|..] == y.name;
    } else {
      assert (x.app == "" && y.app == x.name) || (y.app == "" && x.app == y.name);
      assert |Key(x)| == |x.namespace| + |x.app| + |x.name| + 2;
      assert |Key(y)| == |y.namespace| + |y.app| + |y.name| + 2;
    }
  }

  // Within one app and namespace, keys identify services.
  lemma KeysIdentify(revs: seq<Revision>, app: string)
    requires forall i :: 0 <= i < |revs| ==> App(revs[i]) == app && revs[i].name != ""
    requires forall i, j :: 0 <= i < j < |revs| ==>
      revs[i].namespace == revs[j].namespace && revs[i].name != revs[j].name
    ensures DistinctKeys(revs)
  {
    forall i, j | 0 <= i < j < |revs| ensures Key(revs[i]) != Key(revs[j]) {
      KeysDiffer(revs[i], revs[j]);
    }
  }

  // ----- one step -----

  // The one way a due revision off its goal fails to move: an increment of 1 scaled below 1.
  predicate Stuck(revs: seq<Revision>, r: Revision) {
    && r.weight.Some? && IncrementalRollout(r) && r.rollout.value.increment == 1
    && r.weight.value >= 100
    && if Current(r) > r.weight.value then 2 * Current(r) < 3 * r.weight.value
       else 2 * Current(r) < r.weight.value && !AllOtherServicesOff(r.name, revs)
  }

  predicate Moves(revs: seq<Revision>, i: nat)
    requires i < |revs|
  {
    !AtGoal(revs[i]) && !Stuck(revs, revs[i])
  }

  function Stepped(a: Arithmetic, revs: seq<Revision>, r: Revision): Revision
    requires r.weight.Some?
  {
    r.(computed := Some(NextWeight(a, AllOtherServicesOff(r.name, revs), r)))
  }

  lemma StepDistance(a: Arithmetic, revs: seq<Revision>, r: Revision)
    requires Float64(a) && !AtGoal(r)
    requires IncrementalRollout(r) ==> r.rollout.value.increment >= 1
    ensures Stuck(revs, r) ==> Current(Stepped(a, revs, r)) == Current(r)
    ensures !Stuck(revs, r) ==> Dist(Stepped(a, revs, r)) < Dist(r)
  {
    if IncrementalRollout(r) {
      var inc, goal, cur := r.rollout.value.increment, r.weight.value, Current(r);
      FluxBounds(a, inc, goal, cur);
      if goal >= 100 {
        RateBelowOne(goal, cur);
      }
    }
  }

  lemma TotalUpdate(revs: seq<Revision>, i: nat, r: Revision)
    requires i < |revs|
    ensures Total(revs[i := r]) == Total(revs) - Dist(revs[i]) + Dist(r)
  {
    assert Dists(revs[i := r]) == Dists(revs)[i := Dist(r)];
    SumUpdate(Dists(revs), i, Dist(r));
  }

  lemma MovesIsStable(revs: seq<Revision>, revs': seq<Revision>)
    requires SameWeights(revs, revs')
    ensures forall i :: 0 <= i < |revs| ==> Moves(revs, i) == Moves(revs', i)
  {
    forall i | 0 <= i < |revs| ensures Moves(revs, i) == Moves(revs', i) {
      var name := revs[i].name;
      assert AllOtherServicesOff(name, revs) == AllOtherServicesOff(name, revs');
    }
  }

  // ----- one pass -----

  // What adjusting the i-th revision does to the whole app.
  lemma AdjustOneEffect(a: Arithmetic, st: State, i: nat, now: int)
    requires Float64(a) && i < |st.revs|
    requires PositiveIncrements(st.revs) && DistinctKeys(st.revs) && DueFrom(st.revs, st.last, now, i)
    ensures
      var st' := AdjustOne(a, st, i, now);
      && Evolves(st.revs, st'.revs)
      && PositiveIncrements(st'.revs) && DistinctKeys(st'.revs) && DueFrom(st'.revs, st'.last, now, i + 1)
      && (Moves(st.revs, i) ==> Total(st'.revs) < Total(st.revs))
      && (!Moves(st.revs, i) ==> Total(st'.revs) == Total(st.revs) && SameWeights(st.revs, st'.revs))
  {
    var r, st' := st.revs[i], AdjustOne(a, st, i, now);
    if !AtGoal(r) {
      StepDistance(a, st.revs, r);
      TotalUpdate(st.revs, i, Stepped(a, st.revs, r));
    }
    assert forall j :: 0 <= j < |st.revs| ==> Key(st'.revs[j]) == Key(st.revs[j]);
  }

  lemma EvolvesTransitive(x: seq<Revision>, y: seq<Revision>, z: seq<Revision>)
    requires Evolves(x, y) && Evolves(y, z)
    ensures Evolves(x, z)
    ensures SameWeights(x, y) && SameWeights(y, z) ==> SameWeights(x, z)
  {
  }

  // From index i on, the total distance falls exactly if something moves; otherwise no weight changes.
  ghost predicate Lowers(revs: seq<Revision>, revs': seq<Revision>, i: nat) {
    && Evolves(revs, revs') && Total(revs') <= Total(revs)
    && ((exists j :: i <= j < |revs| && Moves(revs, j)) ==> Total(revs') < Total(revs))
    && ((forall j :: i <= j < |revs| ==> !Moves(revs, j)) ==> SameWeights(revs, revs'))
  }

  lemma LowersStep(revs: seq<Revision>, mid: seq<Revision>, revs': seq<Revision>, i: nat)
    requires Evolves(revs, mid) && i < |revs| && Lowers(mid, revs', i + 1)
    requires if Moves(revs, i) then Total(mid) < Total(revs) else Total(mid) == Total(revs) && SameWeights(revs, mid)
    ensures Lowers(revs, revs', i)
  {
    EvolvesTransitive(revs, mid, revs');
    if !Moves(revs, i) {
      MovesIsStable(revs, mid);
      if j :| i <= j < |revs| && Moves(revs, j) {
        assert Moves(mid, j);
      }
    }
  }

  lemma {:induction false} AdjustProgress(a: Arithmetic, st: State, i: nat, now: int)
    requires Float64(a) && i <= |st.revs|
    requires PositiveIncrements(st.revs) && DistinctKeys(st.revs) && DueFrom(st.revs, st.last, now, i)
    ensures Lowers(st.revs, AdjustFrom(a, st, i, now).revs, i)
    decreases |st.revs| - i
  {
    if i < |st.revs| {
      var mid := AdjustOne(a, st, i, now);
      AdjustOneEffect(a, st, i, now);
      AdjustProgress(a, mid, i + 1, now);
      LowersStep(st.revs, mid.revs, AdjustFrom(a, st, i, now).revs, i);
    }
  }

  lemma SameWeightsSameTotal(revs: seq<Revision>, revs': seq<Revision>)
    requires SameWeights(revs, revs')
    ensures Total(revs') == Total(revs)
  {
    assert Dists(revs) == Dists(revs');
  }

  // Nothing holds the rollout back and every interval has elapsed.
  predicate Ready(revs: seq<Revision>, last: map<string, int>, now: int) {
    && ComputedWeightsExist(revs) && !Blocked(revs)
    && PositiveIncrements(revs) && DistinctKeys(revs) && DueFrom(revs, last, now, 0)
  }

  // A pass lowers the total distance exactly when some revision off its goal is not stuck;
  // otherwise it leaves every weight as it is.
  lemma PassProgress(a: Arithmetic, revs: seq<Revision>, last: map<string, int>, now: int)
    requires Float64(a) && Ready(revs, last, now)
    ensures
      var revs' := Pass(a, revs, last, now).revs;
      && Evolves(revs, revs')
      && Total(revs') <= Total(revs)
      && (Total(revs') < Total(revs) <==> exists i :: 0 <= i < |revs| && Moves(revs, i))
      && ((forall i :: 0 <= i < |revs| ==> !Moves(revs, i)) ==> SameWeights(revs, revs'))
  {
    AdjustProgress(a, State(revs, last, []), 0, now);
    if forall i :: 0 <= i < |revs| ==> !Moves(revs, i) {
      SameWeightsSameTotal(revs, Pass(a, revs, last, now).revs);
    }
  }

  // At the goal, a pass changes nothing and writes no status, due or not, blocked or not.
  lemma {:induction false} GoalIsFixpoint(a: Arithmetic, revs: seq<Revision>, last: map<string, int>, now: int)
    requires ComputedWeightsExist(revs) && Total(revs) == 0
    ensures Pass(a, revs, last, now) == State(revs, last, [])
  {
    TotalZero(revs);
    GoalIsFixpointFrom(a, State(revs, last, []), 0, now);
  }

  lemma {:induction false} GoalIsFixpointFrom(a: Arithmetic, st: State, i: nat, now: int)
    requires i <= |st.revs|
    requires forall j :: 0 <= j < |st.revs| ==> AtGoal(st.revs[j])
    ensures AdjustFrom(a, st, i, now) == st
    decreases |st.revs| - i
  {
    if i < |st.revs| {
      GoalIsFixpointFrom(a, st, i + 1, now);
    }
  }

  // ----- runs with fixed specs -----

  function Ticks(a: Arithmetic, revs: seq<Revision>, last: map<string, int>, times: seq<int>): (st: State)
    ensures |st.revs| == |revs|
    decreases |times|
  {
    if times == [] then State(revs, last, [])
    else
      var st := Pass(a, revs, last, times[0]);
      Ticks(a, st.revs, st.last, times[1..])
  }

  // Consecutive ticks are at least every revision's interval apart.
  predicate Spaced(revs: seq<Revision>, times: seq<int>) {
    forall k :: 0 <= k < |times| - 1 ==> SpacedBy(revs, times[k], times[k + 1])
  }

  predicate SpacedBy(revs: seq<Revision>, t: int, t': int) {
    t <= t' &&
    forall i :: 0 <= i < |revs| && IncrementalRollout(revs[i]) ==>
      t' >= t + revs[i].rollout.value.intervalSeconds * SECOND
  }

  // A write time is either the old one or the time of this pass.
  ghost predicate OldOrNow(last: map<string, int>, last': map<string, int>, now: int) {
    forall k :: k in last' ==> last'[k] == now || (k in last && last'[k] == last[k])
  }

  lemma {:induction false} LastWrites(a: Arithmetic, st: State, i: nat, now: int)
    requires i <= |st.revs|
    ensures OldOrNow(st.last, AdjustFrom(a, st, i, now).last, now)
    decreases |st.revs| - i
  {
    if i < |st.revs| {
      var mid := AdjustOne(a, st, i, now);
      LastWrites(a, mid, i + 1, now);
      var last' := AdjustFrom(a, mid, i + 1, now).last;
      assert OldOrNow(st.last, mid.last, now) && OldOrNow(mid.last, last', now);
      forall k | k in last' ensures last'[k] == now || (k in st.last && last'[k] == st.last[k]) {
        if last'[k] != now {
          assert k in mid.last && last'[k] == mid.last[k];
        }
      }
    }
  }

  lemma ReadyAgain(a: Arithmetic, revs: seq<Revision>, last: map<string, int>, now: int, now': int)
    requires Float64(a) && Ready(revs, last, now) && SpacedBy(revs, now, now')
    ensures var st := Pass(a, revs, last, now); Ready(st.revs, st.last, now')
  {
    var st := Pass(a, revs, last, now);
    PassProgress(a, revs, last, now);
    LastWrites(a, State(revs, last, []), 0, now);
    StaysReady(revs, st.revs);
    forall i | 0 <= i < |revs| && IncrementalRollout(st.revs[i]) ensures Due(st.revs[i], st.last, now') {
      assert Key(st.revs[i]) == Key(revs[i]) && Due(revs[i], last, now);
    }
  }

  // Nothing but time can keep an app that was ready from being ready again.
  lemma StaysReady(revs: seq<Revision>, revs': seq<Revision>)
    requires Evolves(revs, revs') && ComputedWeightsExist(revs) && !Blocked(revs)
    requires PositiveIncrements(revs) && DistinctKeys(revs)
    ensures ComputedWeightsExist(revs') && !Blocked(revs') && PositiveIncrements(revs') && DistinctKeys(revs')
  {
    assert forall i :: 0 <= i < |revs| ==> Key(revs'[i]) == Key(revs[i]) && Holds(revs'[i]) == Holds(revs[i]);
    var i :| 0 <= i < |revs| && revs[i].computed.Some?;
    assert revs'[i].computed.Some?;
  }

  // After the first tick of a spaced run, the rest is again a spaced run of ready passes.
  lemma RestOfRun(a: Arithmetic, revs: seq<Revision>, last: map<string, int>, times: seq<int>)
    requires Float64(a) && times != [] && Ready(revs, last, times[0]) && Spaced(revs, times)
    ensures var st := Pass(a, revs, last, times[0]);
      && Spaced(st.revs, times[1..])
      && ComputedWeightsExist(st.revs)
      && (times[1..] != [] ==> Ready(st.revs, st.last, times[1]))
  {
    var st, rest := Pass(a, revs, last, times[0]), times[1..];
    PassProgress(a, revs, last, times[0]);
    if |times| > 1 {
      assert SpacedBy(revs, times[0], times[1]);
      ReadyAgain(a, revs, last, times[0], times[1]);
    }
    forall k | 0 <= k < |rest| - 1 ensures SpacedBy(st.revs, rest[k], rest[k + 1]) {
      assert SpacedBy(revs, times[k + 1], times[k + 2]);
    }
    var i :| 0 <= i < |revs| && revs[i].computed.Some?;
    assert st.revs[i].computed.Some?;
  }

  // No revision can get stuck: an increment of at least 2, or a goal below 100.
  predicate Progressive(revs: seq<Revision>) {
    forall i :: 0 <= i < |revs| && IncrementalRollout(revs[i]) && revs[i].weight.Some? ==>
      revs[i].rollout.value.increment >= 2 || revs[i].weight.value < 100
  }

  // Convergence: as many due ticks as the total distance suffice, and then nothing changes.
  lemma {:induction false} Converges(a: Arithmetic, revs: seq<Revision>, last: map<string, int>, times: seq<int>)
    requires Float64(a) && Progressive(revs)
    requires ComputedWeightsExist(revs)
    requires times != [] ==> Ready(revs, last, times[0])
    requires Spaced(revs, times) && |times| >= Total(revs)
    ensures var st := Ticks(a, revs, last, times);
      && Total(st.revs) == 0 && Evolves(revs, st.revs)
      && forall now :: Pass(a, st.revs, st.last, now) == State(st.revs, st.last, [])
    decreases |times|
  {
    TotalZero(revs);
    if times == [] {
      forall now { GoalIsFixpoint(a, revs, last, now); }
    } else {
      var st := Pass(a, revs, last, times[0]);
      PassProgress(a, revs, last, times[0]);
      if Total(revs) > 0 {
        var i :| 0 <= i < |revs| && !AtGoal(revs[i]);
        assert Moves(revs, i);
      }
      RestOfRun(a, revs, last, times);
      Converges(a, st.revs, st.last, times[1..]);
      EvolvesTransitive(revs, st.revs, Ticks(a, revs, last, times).revs);
    }
  }

  // The stall: once every revision off its goal is stuck, no number of due ticks moves any weight.
  lemma {:induction false} StallsForever(a: Arithmetic, revs: seq<Revision>, last: map<string, int>, times: seq<int>)
    requires Float64(a)
    requires times != [] ==> Ready(revs, last, times[0])
    requires Spaced(revs, times)
    requires forall i :: 0 <= i < |revs| ==> !Moves(revs, i)
    ensures SameWeights(revs, Ticks(a, revs, last, times).revs)
    decreases |times|
  {
    if times != [] {
      var st := Pass(a, revs, last, times[0]);
      PassProgress(a, revs, last, times[0]);
      MovesIsStable(revs, st.revs);
      RestOfRun(a, revs, last, times);
      StallsForever(a, st.revs, st.last, times[1..]);
    }
  }

  // One app in that state: a revision at 100 of 1000 with an increment of 1, next to another one.
  lemma StallExample(now: int)
    ensures
      var revs := [
        Revision("ns", "web-v1", "u1", "web", "v1", false, Some(1000), Some(RolloutConfig(1, 4, false)),
                 true, Some(100)),
        Revision("ns", "web-v0", "u0", "web", "v0", false, None, None, true, Some(100))];
      Ready(revs, map[], now) && Total(revs) > 0 && !Moves(revs, 0) && !Moves(revs, 1)
  {
    var revs := [
      Revision("ns", "web-v1", "u1", "web", "v1", false, Some(1000), Some(RolloutConfig(1, 4, false)), true, Some(100)),
      Revision("ns", "web-v0", "u0", "web", "v0", false, None, None, true, Some(100))];
    assert revs[0].computed.Some?;
    assert revs[0].name[|revs[0].name| - 1] == '1' && revs[1].name[|revs[1].name| - 1] == '0';
    KeysIdentify(revs, "web");
    TotalZero(revs);
    assert !AtGoal(revs[0]);
    assert !AllOtherServicesOff(revs[0].name, revs) by { assert Current(revs[1]) > 0; }
  }
}
