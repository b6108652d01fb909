/** Safety of the rollout controller over every run, where a run is any sequence of passes and
    commands may edit specs between them: the one even split, blocked apps, overshoot, the sign
    of weights and the spacing of incremental writes; and the time a rollout takes. */
module RolloutSafety {
  import opened Prelude
  import opened Services
  import opened Float64Model
  import opened Rollout
  import opened RolloutRuns

  // ----- runs -----

  // One call of the handler: the revisions it finds and its clock reading.
  datatype Tick = Tick(revs: seq<Revision>, now: int)

  function LastBefore(a: Arithmetic, run: seq<Tick>, last: map<string, int>, k: nat): map<string, int>
    requires k <= |run|
  {
    if k == 0 then last
    else Pass(a, run[k - 1].revs, LastBefore(a, run, last, k - 1), run[k - 1].now).last
  }

  function After(a: Arithmetic, run: seq<Tick>, last: map<string, int>, k: nat): (st: State)
    requires k < |run|
    ensures |st.revs| == |run[k].revs|
  {
    Pass(a, run[k].revs, LastBefore(a, run, last, k), run[k].now)
  }

  // Between passes, specs and readiness may change, revisions may be reordered, removed, or added
  // without a weight; a weight that is there is one the previous pass left behind.
  ghost predicate Linked(a: Arithmetic, run: seq<Tick>, last: map<string, int>) {
    forall k :: 0 < k < |run| ==> LinkedAt(a, run, last, k)
  }

  predicate LinkedAt(a: Arithmetic, run: seq<Tick>, last: map<string, int>, k: nat)
    requires 0 < k < |run|
  {
    WeightsFrom(run[k].revs, After(a, run, last, k - 1).revs)
  }

  predicate WeightsFrom(revs: seq<Revision>, before: seq<Revision>) {
    forall i :: 0 <= i < |revs| && revs[i].computed.Some? ==> HasWeight(before, revs[i].computed)
  }

  predicate HasWeight(revs: seq<Revision>, weight: Option<int>) {
    exists i :: 0 <= i < |revs| && revs[i].computed == weight
  }

  // ----- the even split, and nothing else while blocked -----

  lemma {:induction false} SplitSum(n: nat, i: nat)
    requires n >= 1 && i <= n
    ensures Sum(seq(i, j requires 0 <= j < i => SplitWeight(n, j)))
            == if i == n then PROMOTE_WEIGHT else i * (PROMOTE_WEIGHT / n)
    decreases i
  {
    if i > 0 {
      var s := seq(i, j requires 0 <= j < i => SplitWeight(n, j));
      var t := seq(i - 1, j requires 0 <= j < i - 1 => SplitWeight(n, j));
      SplitSum(n, i - 1);
      assert s == t + [SplitWeight(n, i - 1)];
      SumAppend(t, SplitWeight(n, i - 1));
    }
  }

  // The first pass over an app without weights hands out non-negative weights summing to 10000.
  lemma InitialSplitIsExact(revs: seq<Revision>)
    requires revs != []
    ensures
      var s := InitialSplit(revs);
      && (forall i :: 0 <= i < |s| ==> s[i].computed.Some? && s[i].computed.value >= 0)
      && Sum(seq(|s|, i requires 0 <= i < |s| => Current(s[i]))) == PROMOTE_WEIGHT
  {
    var s, n := InitialSplit(revs), |revs|;
    SplitSum(n, n);
    assert seq(n, i requires 0 <= i < n => Current(s[i])) == seq(n, i requires 0 <= i < n => SplitWeight(n, i));
    assert (n - 1) * (PROMOTE_WEIGHT / n) <= n * (PROMOTE_WEIGHT / n) <= PROMOTE_WEIGHT by {
      assert n * (PROMOTE_WEIGHT / n) == PROMOTE_WEIGHT - PROMOTE_WEIGHT % n;
      assert PROMOTE_WEIGHT / n >= 0;
    }
  }

  // The weights an app has after its first pass, if that pass is blocked.
  function FirstWeights(revs: seq<Revision>): (s: seq<Revision>)
    ensures |s| == |revs|
  {
    if ComputedWeightsExist(revs) then revs else InitialSplit(revs)
  }

  // `pos[j]` is the position of one revision at tick j, from tick k to tick m.
  ghost predicate Positions(run: seq<Tick>, pos: seq<nat>, k: nat, m: nat) {
    k <= m < |run| == |pos| && forall j :: k <= j <= m ==> pos[j] < |run[j].revs|
  }

  // Its weight is kept between passes; everything else about the app may change.
  ghost predicate KeepsWeight(a: Arithmetic, run: seq<Tick>, last: map<string, int>, pos: seq<nat>, k: nat, m: nat) {
    Positions(run, pos, k, m) && forall j :: k < j <= m ==> KeepsWeightAt(a, run, last, pos, j)
  }

  predicate KeepsWeightAt(a: Arithmetic, run: seq<Tick>, last: map<string, int>, pos: seq<nat>, j: nat)
    requires 0 < j < |run| == |pos| && pos[j - 1] < |run[j - 1].revs| && pos[j] < |run[j].revs|
  {
    run[j].revs[pos[j]].computed == After(a, run, last, j - 1).revs[pos[j - 1]].computed
  }

  // While some revision is paused, or unready with weight, no run changes the computed weight of a
  // revision after that one split, wherever the index puts it and whatever happens to the others.
  // A revision without a weight stays without as long as the app has weights at all.
  lemma {:induction false} BlockedRunFrozen(a: Arithmetic, run: seq<Tick>, last: map<string, int>,
                                            pos: seq<nat>, k: nat, m: nat)
    requires KeepsWeight(a, run, last, pos, k, m)
    requires forall j :: k <= j <= m ==> Blocked(run[j].revs)
    requires FirstWeights(run[k].revs)[pos[k]].computed.None? ==>
      forall j :: k < j <= m ==> ComputedWeightsExist(run[j].revs)
    ensures After(a, run, last, m).revs[pos[m]].computed == FirstWeights(run[k].revs)[pos[k]].computed
    decreases m - k
  {
    assert Blocked(run[m].revs);
    if k < m {
      BlockedRunFrozen(a, run, last, pos, k, m - 1);
      assert KeepsWeightAt(a, run, last, pos, m);
      assert ComputedWeightsExist(run[m].revs);
    }
  }

  // ----- what one pass can do to one revision -----

  // Unchanged, or moved to the goal, or moved towards it by one scaled increment.
  predicate Outcome(a: Arithmetic, r: Revision, r': Revision) {
    && r' == r.(computed := r'.computed)
    && (Current(r') == Current(r)
        || (!AtGoal(r) && exists off :: r' == r.(computed := Some(NextWeight(a, off, r)))))
  }

  lemma {:induction false} AdjustOutcome(a: Arithmetic, st: State, i: nat, now: int, j: nat)
    requires i <= |st.revs| && j < |st.revs|
    ensures
      var r' := AdjustFrom(a, st, i, now).revs[j];
      && Outcome(a, st.revs[j], r')
      && (j < i ==> r' == st.revs[j])
      && (i <= j && DistinctKeys(st.revs) && DueFrom(st.revs, st.last, now, i) && !AtGoal(st.revs[j]) ==>
            exists off :: r' == st.revs[j].(computed := Some(NextWeight(a, off, st.revs[j]))))
    decreases |st.revs| - i
  {
    if i < |st.revs| {
      var mid := AdjustOne(a, st, i, now);
      AdjustOutcome(a, mid, i + 1, now, j);
      assert forall k :: 0 <= k < |st.revs| ==> Key(mid.revs[k]) == Key(st.revs[k]);
    }
  }

  // The first pass over an app without weights is measured from its even split.
  lemma PassOutcome(a: Arithmetic, revs: seq<Revision>, last: map<string, int>, now: int, j: nat)
    requires j < |revs|
    ensures
      var r, r' := Start(revs, last).revs[j], Pass(a, revs, last, now).revs[j];
      && Outcome(a, r, r')
      && (Ready(revs, last, now) && !AtGoal(r) ==> exists off :: r' == r.(computed := Some(NextWeight(a, off, r))))
  {
    AdjustOutcome(a, Start(revs, last), 0, now, j);
  }

  // The handler's state when its loop reaches index i.
  function At(a: Arithmetic, st: State, i: nat, now: int): (st': State)
    requires i <= |st.revs|
    ensures |st'.revs| == |st.revs|
  {
    if i == 0 then st else AdjustOne(a, At(a, st, i - 1, now), i - 1, now)
  }

  lemma {:induction false} AtIsPrefix(a: Arithmetic, st: State, i: nat, now: int)
    requires i <= |st.revs|
    ensures AdjustFrom(a, st, 0, now) == AdjustFrom(a, At(a, st, i, now), i, now)
  {
    if i > 0 {
      AtIsPrefix(a, st, i - 1, now);
    }
  }

  // Up to its turn in the loop a revision is untouched.
  lemma {:induction false} AtUntouched(a: Arithmetic, st: State, i: nat, now: int, j: nat)
    requires i <= j < |st.revs|
    ensures At(a, st, i, now).revs[j] == st.revs[j]
  {
    if i > 0 {
      AtUntouched(a, st, i - 1, now, j);
    }
  }

  // Revision i gets its turn: the rollout is not blocked and, when the loop reaches it, its
  // interval has elapsed.
  predicate Turn(a: Arithmetic, revs: seq<Revision>, last: map<string, int>, now: int, i: nat)
    requires i < |revs|
  {
    && !Blocked(revs)
    && (IncrementalRollout(revs[i]) ==> Due(revs[i], At(a, Start(revs, last), i, now).last, now))
  }

  // What one pass does to one revision, exactly.
  lemma TurnEffect(a: Arithmetic, revs: seq<Revision>, last: map<string, int>, now: int, i: nat)
    requires i < |revs|
    ensures
      var r, r' := Start(revs, last).revs[i], Pass(a, revs, last, now).revs[i];
      && (AtGoal(r) ==> r' == r)
      && (!Turn(a, revs, last, now, i) ==> r' == r || (r.computed.None? && r' == r.(computed := Some(0))))
      && (Turn(a, revs, last, now, i) && !AtGoal(r) ==> r' == Stepped(a, At(a, Start(revs, last), i, now).revs, r))
  {
    if !Blocked(revs) {
      var st := Start(revs, last);
      var at := At(a, st, i, now);
      AtIsPrefix(a, st, i, now);
      AtUntouched(a, st, i, now, i);
      AdjustOutcome(a, AdjustOne(a, at, i, now), i + 1, now, i);
    }
  }

  // No pass takes any revision further from its goal, due or not, blocked or not; the first pass
  // over an app without weights is measured from its even split.
  lemma NeverFurther(a: Arithmetic, revs: seq<Revision>, last: map<string, int>, now: int, j: nat)
    requires Float64(a) && PositiveIncrements(revs) && j < |revs|
    ensures Dist(Pass(a, revs, last, now).revs[j]) <= Dist(Start(revs, last).revs[j])
  {
    var st := Start(revs, last);
    var r := st.revs[j];
    AdjustOutcome(a, st, 0, now, j);
    if !AtGoal(r) {
      OutcomeCloser(a, r, true);
      OutcomeCloser(a, r, false);
    }
  }

  lemma OutcomeCloser(a: Arithmetic, r: Revision, off: bool)
    requires Float64(a) && !AtGoal(r) && (IncrementalRollout(r) ==> r.rollout.value.increment >= 1)
    ensures Dist(r.(computed := Some(NextWeight(a, off, r)))) <= Dist(r)
  {
    if IncrementalRollout(r) {
      FluxBounds(a, r.rollout.value.increment, r.weight.value, Current(r));
    }
  }

  // ----- status writes -----

  // Every weight that a pass changes is also sent to the API server.
  lemma ChangedIsWritten(a: Arithmetic, revs: seq<Revision>, last: map<string, int>, now: int, j: nat)
    requires j < |revs|
    ensures
      var st := Pass(a, revs, last, now);
      Current(st.revs[j]) != Current(revs[j]) ==> Key(revs[j]) in st.updates
  {
    var st := Start(revs, last);
    assert Key(st.revs[j]) == Key(revs[j]);
    if !ComputedWeightsExist(revs) {
      assert st.updates[j] == Key(revs[j]);
    }
    AdjustWrites(a, st, 0, now, j);
  }

  lemma {:induction false} AdjustWrites(a: Arithmetic, st: State, i: nat, now: int, j: nat)
    requires i <= |st.revs| && j < |st.revs|
    ensures
      var st' := AdjustFrom(a, st, i, now);
      && st.updates <= st'.updates
      && (Current(st'.revs[j]) != Current(st.revs[j]) ==> Key(st.revs[j]) in st'.updates)
    decreases |st.revs| - i
  {
    if i < |st.revs| {
      var mid := AdjustOne(a, st, i, now);
      AdjustWrites(a, mid, i + 1, now, j);
      assert Key(mid.revs[j]) == Key(st.revs[j]);
      if Current(mid.revs[j]) != Current(st.revs[j]) {
        assert Key(st.revs[j]) in mid.updates;
      }
    }
  }

  // ----- overshoot -----

  predicate Passed(r: Revision, r': Revision)
    requires r.weight.Some?
  {
    (Current(r) < r.weight.value < Current(r')) || (Current(r) > r.weight.value > Current(r'))
  }

  // A pass over the goal is at most a quarter of the increment, never happens below goal 100,
  // and the next due step lands exactly on the goal whatever the other revisions do.
  lemma OvershootIsCorrected(a: Arithmetic, r: Revision, r': Revision, off: bool)
    requires Float64(a) && Outcome(a, r, r') && r.weight.Some?
    requires IncrementalRollout(r) ==> r.rollout.value.increment >= 1
    ensures Passed(r, r') ==>
      && IncrementalRollout(r) && r.weight.value >= 100
      && Dist(r') <= r.rollout.value.increment / 4
      && NextWeight(a, off, r') == r.weight.value
  {
    if IncrementalRollout(r) {
      FluxBounds(a, r.rollout.value.increment, r.weight.value, Current(r));
    }
  }

  // Revision `pos[j]` of tick j is one and the same, with an unchanged spec, from tick k to tick m;
  // the other revisions, and the order in which they are visited, are arbitrary.
  ghost predicate Follows(a: Arithmetic, run: seq<Tick>, last: map<string, int>, pos: seq<nat>, k: nat, m: nat) {
    Positions(run, pos, k, m) && forall j :: k < j <= m ==> FollowsAt(a, run, last, pos, j)
  }

  predicate FollowsAt(a: Arithmetic, run: seq<Tick>, last: map<string, int>, pos: seq<nat>, j: nat)
    requires 0 < j < |run| == |pos| && pos[j - 1] < |run[j - 1].revs| && pos[j] < |run[j].revs|
  {
    run[j].revs[pos[j]] == After(a, run, last, j - 1).revs[pos[j - 1]]
  }

  // A revision as the loop of tick j finds it.
  function StartAt(a: Arithmetic, run: seq<Tick>, last: map<string, int>, j: nat, i: nat): Revision
    requires j < |run| && i < |run[j].revs|
  {
    Start(run[j].revs, LastBefore(a, run, last, j)).revs[i]
  }

  predicate TurnAt(a: Arithmetic, run: seq<Tick>, last: map<string, int>, j: nat, i: nat)
    requires j < |run| && i < |run[j].revs|
  {
    Turn(a, run[j].revs, LastBefore(a, run, last, j), run[j].now, i)
  }

  lemma NoTurn(a: Arithmetic, run: seq<Tick>, last: map<string, int>, k: nat, i: nat)
    requires k < |run| && i < |run[k].revs| && run[k].revs[i].computed.Some?
    requires !TurnAt(a, run, last, k, i)
    ensures After(a, run, last, k).revs[i] == run[k].revs[i]
  {
    TurnEffect(a, run[k].revs, LastBefore(a, run, last, k), run[k].now, i);
  }

  lemma WaitsOnce(a: Arithmetic, run: seq<Tick>, last: map<string, int>, pos: seq<nat>, m: nat)
    requires 0 < m < |run| == |pos| && pos[m - 1] < |run[m - 1].revs| && pos[m] < |run[m].revs|
    requires FollowsAt(a, run, last, pos, m)
    requires run[m - 1].revs[pos[m - 1]].computed.Some? && !TurnAt(a, run, last, m - 1, pos[m - 1])
    ensures run[m].revs[pos[m]] == run[m - 1].revs[pos[m - 1]]
  {
    NoTurn(a, run, last, m - 1, pos[m - 1]);
  }

  // Passes in which a revision with a weight does not get its turn leave it alone.
  lemma {:induction false} WaitsForTurn(a: Arithmetic, run: seq<Tick>, last: map<string, int>,
                                        pos: seq<nat>, k: nat, m: nat)
    requires Follows(a, run, last, pos, k, m) && k < m
    requires After(a, run, last, k).revs[pos[k]].computed.Some?
    requires forall j :: k < j < m ==> !TurnAt(a, run, last, j, pos[j])
    ensures run[m].revs[pos[m]] == After(a, run, last, k).revs[pos[k]]
    decreases m - k
  {
    assert FollowsAt(a, run, last, pos, m);
    if m > k + 1 {
      WaitsForTurn(a, run, last, pos, k, m - 1);
      WaitsOnce(a, run, last, pos, m);
    }
  }

  // Over any run: a step at tick k that passes the goal passes it by at most a quarter of the
  // increment, and the first later tick at which the revision gets its turn lands on the goal.
  lemma RunCorrectsOvershoot(a: Arithmetic, run: seq<Tick>, last: map<string, int>, pos: seq<nat>, k: nat, m: nat)
    requires Float64(a) && Follows(a, run, last, pos, k, m) && k < m
    requires
      var r := StartAt(a, run, last, k, pos[k]);
      && r.weight.Some? && (IncrementalRollout(r) ==> r.rollout.value.increment >= 1)
      && Passed(r, After(a, run, last, k).revs[pos[k]])
    requires forall j :: k < j < m ==> !TurnAt(a, run, last, j, pos[j])
    requires TurnAt(a, run, last, m, pos[m])
    ensures
      var r := StartAt(a, run, last, k, pos[k]);
      r.rollout.Some? && Dist(After(a, run, last, k).revs[pos[k]]) <= r.rollout.value.increment / 4
    ensures AtGoal(After(a, run, last, m).revs[pos[m]])
  {
    var r, r' := StartAt(a, run, last, k, pos[k]), After(a, run, last, k).revs[pos[k]];
    PassOutcome(a, run[k].revs, LastBefore(a, run, last, k), run[k].now, pos[k]);
    assert r'.computed.Some?;
    WaitsForTurn(a, run, last, pos, k, m);
    TurnLandsOnGoal(a, run, last, m, pos[m], r);
  }

  lemma TurnLandsOnGoal(a: Arithmetic, run: seq<Tick>, last: map<string, int>, m: nat, i: nat, r: Revision)
    requires Float64(a) && m < |run| && i < |run[m].revs| && TurnAt(a, run, last, m, i)
    requires r.weight.Some? && (IncrementalRollout(r) ==> r.rollout.value.increment >= 1)
    requires var r' := run[m].revs[i]; r'.computed.Some? && Outcome(a, r, r') && Passed(r, r')
    ensures r.rollout.Some? && Dist(run[m].revs[i]) <= r.rollout.value.increment / 4
    ensures AtGoal(After(a, run, last, m).revs[i])
  {
    OvershootIsCorrected(a, r, run[m].revs[i], true);
    OvershootIsCorrected(a, r, run[m].revs[i], false);
    assert ComputedWeightsExist(run[m].revs);
    TurnEffect(a, run[m].revs, LastBefore(a, run, last, m), run[m].now, i);
  }

  // ----- weights stay non-negative -----

  predicate SafeSpec(r: Revision) {
    r.weight.Some? ==>
      && r.weight.value >= 0
      && (IncrementalRollout(r) ==>
            && r.rollout.value.increment >= 1
            && (r.weight.value < 100 || r.rollout.value.increment / 4 <= r.weight.value))
  }

  predicate SafeSpecs(revs: seq<Revision>) {
    forall i :: 0 <= i < |revs| ==> SafeSpec(revs[i])
  }

  predicate NonNegative(revs: seq<Revision>) {
    forall i :: 0 <= i < |revs| ==> Current(revs[i]) >= 0
  }

  lemma OutcomeNonNegative(a: Arithmetic, r: Revision, r': Revision)
    requires Float64(a) && Outcome(a, r, r') && SafeSpec(r) && Current(r) >= 0
    ensures Current(r') >= 0
  {
    if IncrementalRollout(r) && r.weight.Some? {
      FluxBounds(a, r.rollout.value.increment, r.weight.value, Current(r));
    }
  }

  lemma PassNonNegative(a: Arithmetic, revs: seq<Revision>, last: map<string, int>, now: int)
    requires Float64(a) && NonNegative(revs) && SafeSpecs(revs)
    ensures NonNegative(Pass(a, revs, last, now).revs)
  {
    var st := Start(revs, last);
    if revs != [] && !ComputedWeightsExist(revs) {
      InitialSplitIsExact(revs);
    }
    if !Blocked(revs) {
      forall i | 0 <= i < |revs| ensures Current(Pass(a, revs, last, now).revs[i]) >= 0 {
        AdjustOutcome(a, st, 0, now, i);
        OutcomeNonNegative(a, st.revs[i], Pass(a, revs, last, now).revs[i]);
      }
    }
  }

  // Over every run, whoever edits specs and whichever revisions come, go or change places.
  lemma {:induction false} RunStaysNonNegative(a: Arithmetic, run: seq<Tick>, last: map<string, int>, k: nat)
    requires Float64(a) && Linked(a, run, last) && k < |run| && NonNegative(run[0].revs)
    requires forall j :: 0 <= j < |run| ==> SafeSpecs(run[j].revs)
    ensures NonNegative(After(a, run, last, k).revs)
  {
    if k > 0 {
      RunStaysNonNegative(a, run, last, k - 1);
      assert LinkedAt(a, run, last, k);
      NonNegativeFrom(run[k].revs, After(a, run, last, k - 1).revs);
    }
    PassNonNegative(a, run[k].revs, LastBefore(a, run, last, k), run[k].now);
  }

  lemma NonNegativeFrom(revs: seq<Revision>, before: seq<Revision>)
    requires WeightsFrom(revs, before) && NonNegative(before)
    ensures NonNegative(revs)
  {
    forall i | 0 <= i < |revs| ensures Current(revs[i]) >= 0 {
      if revs[i].computed.Some? {
        assert HasWeight(before, revs[i].computed);
        var j :| 0 <= j < |before| && before[j].computed == revs[i].computed;
        assert Current(before[j]) >= 0;
      }
    }
  }

  // For goals of 100 and more the bound is exact: a quarter of the increment above the goal lets
  // some non-negative weight step below zero.
  lemma NonNegativeExactly(a: Arithmetic, r: Revision, off: bool)
    requires Float64(a) && IncrementalRollout(r) && r.weight.Some?
    requires r.rollout.value.increment >= 1 && r.weight.value >= 100
    ensures (forall c: int :: c >= 0 ==> NextWeight(a, off, r.(computed := Some(c))) >= 0)
            <==> r.rollout.value.increment / 4 <= r.weight.value
  {
    var inc, goal := r.rollout.value.increment, r.weight.value;
    if inc / 4 <= goal {
      forall c: int | c >= 0 ensures NextWeight(a, off, r.(computed := Some(c))) >= 0 {
        FluxBounds(a, inc, goal, c);
      }
    } else {
      RateBelowOne(goal, goal + inc);
      FluxBounds(a, inc, goal, goal + inc);
      assert NextWeight(a, off, r.(computed := Some(goal + inc))) < 0;
    }
  }

  // ----- spacing of incremental writes -----

  // The revision at index i of tick k was written as an incremental step.
  predicate WritesAt(a: Arithmetic, st: State, i: nat, now: int)
    requires i < |st.revs|
  {
    var r := st.revs[i];
    !AtGoal(r) && IncrementalRollout(r) && Due(r, st.last, now)
  }

  predicate WritesIn(a: Arithmetic, run: seq<Tick>, last: map<string, int>, k: nat, i: nat)
    requires k < |run| && i < |run[k].revs|
  {
    var st := Start(run[k].revs, LastBefore(a, run, last, k));
    !Blocked(run[k].revs) && WritesAt(a, At(a, st, i, run[k].now), i, run[k].now)
  }

  // A recorded write time never disappears and, with a monotone clock, never goes back.
  lemma {:induction false} LastGrows(a: Arithmetic, st: State, i: nat, now: int, key: string, t: int)
    requires i <= |st.revs| && key in st.last && t <= st.last[key] && t <= now
    ensures var last' := AdjustFrom(a, st, i, now).last; key in last' && t <= last'[key]
    decreases |st.revs| - i
  {
    if i < |st.revs| {
      LastGrows(a, AdjustOne(a, st, i, now), i + 1, now, key, t);
    }
  }

  lemma {:induction false} LastKept(a: Arithmetic, run: seq<Tick>, last: map<string, int>, k: nat, m: nat,
                                    key: string, t: int)
    requires k <= m <= |run|
    requires forall x, y :: 0 <= x <= y < |run| ==> run[x].now <= run[y].now
    requires key in LastBefore(a, run, last, k) && t <= LastBefore(a, run, last, k)[key]
    requires k < |run| ==> t <= run[k].now
    ensures key in LastBefore(a, run, last, m) && t <= LastBefore(a, run, last, m)[key]
    decreases m - k
  {
    if k < m {
      var st := Start(run[k].revs, LastBefore(a, run, last, k));
      LastGrows(a, st, 0, run[k].now, key, t);
      LastKept(a, run, last, k + 1, m, key, t);
    }
  }

  lemma {:induction false} LastAt(a: Arithmetic, st: State, i: nat, now: int, key: string, t: int)
    requires i <= |st.revs| && key in st.last && t <= st.last[key] && t <= now
    ensures var l := At(a, st, i, now).last; key in l && t <= l[key]
  {
    if i > 0 {
      LastAt(a, st, i - 1, now, key, t);
    }
  }

  // Two incremental writes under one key, at different ticks of a run with a monotone clock, are
  // at least the interval in force at the later write apart; specs may change in between.
  lemma WritesAreSpaced(a: Arithmetic, run: seq<Tick>, last: map<string, int>, k: nat, i: nat, m: nat, j: nat)
    requires forall x, y :: 0 <= x <= y < |run| ==> run[x].now <= run[y].now
    requires k < m < |run| && i < |run[k].revs| && j < |run[m].revs|
    requires WritesIn(a, run, last, k, i) && WritesIn(a, run, last, m, j)
    requires Key(run[k].revs[i]) == Key(run[m].revs[j])
    ensures run[m].revs[j].rollout.Some?
    ensures run[m].now >= run[k].now + run[m].revs[j].rollout.value.intervalSeconds * SECOND
  {
    var key, t := Key(run[k].revs[i]), run[k].now;
    WriteIsRecorded(a, run, last, k, i);
    LastKept(a, run, last, k + 1, m, key, t);
    var st := Start(run[m].revs, LastBefore(a, run, last, m));
    LastAt(a, st, j, run[m].now, key, t);
    SpecsAt(a, st, j, run[m].now, j);
  }

  // An incremental write leaves its time behind.
  lemma WriteIsRecorded(a: Arithmetic, run: seq<Tick>, last: map<string, int>, k: nat, i: nat)
    requires k < |run| && i < |run[k].revs| && WritesIn(a, run, last, k, i)
    ensures
      var l, key := LastBefore(a, run, last, k + 1), Key(run[k].revs[i]);
      key in l && run[k].now <= l[key]
  {
    var key, t := Key(run[k].revs[i]), run[k].now;
    var st := Start(run[k].revs, LastBefore(a, run, last, k));
    var at := At(a, st, i, t);
    SpecsAt(a, st, i, t, i);
    AtIsPrefix(a, st, i, t);
    LastGrows(a, AdjustOne(a, at, i, t), i + 1, t, key, t);
  }

  lemma {:induction false} SpecsAt(a: Arithmetic, st: State, i: nat, now: int, j: nat)
    requires i <= |st.revs| && j < |st.revs|
    ensures var r := At(a, st, i, now).revs[j]; r == st.revs[j].(computed := r.computed)
  {
    if i > 0 {
      SpecsAt(a, st, i - 1, now, j);
    }
  }

  // ----- how long a rollout takes -----

  // One step covers half an increment, or the rest if that is less than an increment.
  predicate Paced(inc: int, d: nat, d': nat) {
    if d < inc then d' == 0 else d' < inc || d' <= d - inc / 2
  }

  // n turns close a gap of d: the last one less than an increment, each other one half of it.
  predicate Covers(inc: int, n: nat, d: nat) {
    d == 0 || (n >= 1 && d < inc + (n - 1) * (inc / 2))
  }

  lemma CoversStep(inc: int, n: nat, d: nat, d': nat)
    requires inc >= 2 && Covers(inc, n + 1, d) && Paced(inc, d, d')
    ensures Covers(inc, n, d')
  {
    if n >= 1 {
      Distribute(n - 1, 1, inc / 2);
      assert (n - 1) * (inc / 2) >= 0;
    }
  }

  lemma CoversLess(inc: int, n: nat, d: nat, d': nat)
    requires inc >= 2 && Covers(inc, n, d) && d' <= d
    ensures Covers(inc, n, d')
  {
  }

  lemma StepPace(a: Arithmetic, r: Revision, off: bool)
    requires Float64(a) && !AtGoal(r) && IncrementalRollout(r) && r.rollout.value.increment >= 2
    ensures
      Paced(r.rollout.value.increment, Dist(r), Dist(r.(computed := Some(NextWeight(a, off, r)))))
  {
    FluxBounds(a, r.rollout.value.increment, r.weight.value, Current(r));
  }

  lemma {:induction false} TicksSuffice(a: Arithmetic, revs: seq<Revision>, last: map<string, int>, times: seq<int>,
                                        i: nat)
    requires Float64(a) && i < |revs| && IncrementalRollout(revs[i]) && revs[i].rollout.value.increment >= 2
    requires times != [] && Ready(revs, last, times[0]) && Spaced(revs, times)
    requires Covers(revs[i].rollout.value.increment, |times|, Dist(revs[i]))
    ensures AtGoal(Ticks(a, revs, last, times).revs[i])
    decreases |times|
  {
    var st, inc := Pass(a, revs, last, times[0]), revs[i].rollout.value.increment;
    DuePace(a, revs, last, times[0], i);
    RestOfRun(a, revs, last, times);
    CoversStep(inc, |times| - 1, Dist(revs[i]), Dist(st.revs[i]));
    if |times| == 1 {
      assert Ticks(a, st.revs, st.last, times[1..]) == State(st.revs, st.last, []);
    } else {
      TicksSuffice(a, st.revs, st.last, times[1..], i);
    }
  }

  lemma DuePace(a: Arithmetic, revs: seq<Revision>, last: map<string, int>, now: int, i: nat)
    requires Float64(a) && i < |revs| && IncrementalRollout(revs[i]) && revs[i].rollout.value.increment >= 2
    requires Ready(revs, last, now)
    ensures
      var r, r' := revs[i], Pass(a, revs, last, now).revs[i];
      r'.rollout == r.rollout && Paced(r.rollout.value.increment, Dist(r), Dist(r'))
  {
    PassOutcome(a, revs, last, now, i);
    if !AtGoal(revs[i]) {
      StepPace(a, revs[i], true);
      StepPace(a, revs[i], false);
    }
  }

  // The turns that the followed revision gets from tick k to tick m.
  ghost function Turns(a: Arithmetic, run: seq<Tick>, last: map<string, int>, pos: seq<nat>, k: nat, m: nat): nat
    requires Positions(run, pos, k, m)
    decreases m - k
  {
    (if TurnAt(a, run, last, k, pos[k]) then 1 else 0) + if k == m then 0 else Turns(a, run, last, pos, k + 1, m)
  }

  // One tick of the countdown: a turn covers half an increment, and no turn costs nothing.
  lemma TickPace(a: Arithmetic, run: seq<Tick>, last: map<string, int>, k: nat, i: nat)
    requires Float64(a) && k < |run| && i < |run[k].revs| && ComputedWeightsExist(run[k].revs)
    requires IncrementalRollout(run[k].revs[i]) && run[k].revs[i].rollout.value.increment >= 2
    ensures
      var r, r' := run[k].revs[i], After(a, run, last, k).revs[i];
      var inc := r.rollout.value.increment;
      && r'.rollout == r.rollout && Dist(r') <= Dist(r)
      && (TurnAt(a, run, last, k, i) ==> Paced(inc, Dist(r), Dist(r')))
  {
    var r := run[k].revs[i];
    TurnEffect(a, run[k].revs, LastBefore(a, run, last, k), run[k].now, i);
    if !AtGoal(r) {
      StepPace(a, r, true);
      StepPace(a, r, false);
      OutcomeCloser(a, r, true);
      OutcomeCloser(a, r, false);
    }
  }

  // Only the revision's own turns count, whatever the other revisions and the schedule do.
  lemma {:induction false} TurnsSuffice(a: Arithmetic, run: seq<Tick>, last: map<string, int>,
                                        pos: seq<nat>, k: nat, m: nat)
    requires Float64(a) && Follows(a, run, last, pos, k, m)
    requires forall j :: k <= j <= m ==> ComputedWeightsExist(run[j].revs)
    requires
      var r := run[k].revs[pos[k]];
      && IncrementalRollout(r) && r.rollout.value.increment >= 2
      && Covers(r.rollout.value.increment, Turns(a, run, last, pos, k, m), Dist(r))
    ensures AtGoal(After(a, run, last, m).revs[pos[m]])
    decreases m - k
  {
    var r, r' := run[k].revs[pos[k]], After(a, run, last, k).revs[pos[k]];
    var inc := r.rollout.value.increment;
    TickPace(a, run, last, k, pos[k]);
    if k < m {
      assert FollowsAt(a, run, last, pos, k + 1);
      if TurnAt(a, run, last, k, pos[k]) {
        CoversStep(inc, Turns(a, run, last, pos, k + 1, m), Dist(r), Dist(r'));
      } else {
        CoversLess(inc, Turns(a, run, last, pos, k + 1, m), Dist(r), Dist(r'));
      }
      TurnsSuffice(a, run, last, pos, k + 1, m);
    }
  }

  // A rollout whose increment divides the difference over `steps` steps closes any gap up to that
  // difference within 4 * steps + 1 due ticks.
  lemma TimeBound(a: Arithmetic, revs: seq<Revision>, last: map<string, int>, times: seq<int>, i: nat,
                  difference: int, steps: real)
    requires Float64(a) && i < |revs| && IncrementalRollout(revs[i])
    requires steps >= 1.0
    requires revs[i].rollout.value.increment == a.stride(difference, steps) >= 2
    requires Dist(revs[i]) <= Abs(difference)
    requires |times| as real >= 4.0 * steps + 1.0
    requires Ready(revs, last, times[0]) && Spaced(revs, times)
    ensures AtGoal(Ticks(a, revs, last, times).revs[i])
  {
    var inc, n := revs[i].rollout.value.increment, |times| - 1;
    assert StrideValue(difference, steps, inc);
    StrideCovers(Abs(difference), steps, inc);
    PaceBound(inc, steps, n);
    TicksSuffice(a, revs, last, times, i);
  }

  lemma StrideCovers(d: nat, steps: real, inc: int)
    requires steps >= 1.0 && d as real / steps - 1.0 < inc as real
    ensures d as real < (inc as real + 1.0) * steps
  {
    var x := d as real / steps;
    assert x * steps == d as real;
    RealScale(x, inc as real + 1.0, steps);
  }

  lemma PaceBound(inc: int, steps: real, n: int)
    requires inc >= 2 && steps >= 1.0 && n as real >= 4.0 * steps
    ensures (n * (inc / 2)) as real >= (inc as real + 1.0) * steps
  {
    var h := inc / 2;
    calc {
      (n * h) as real;
      n as real * h as real;
    >= { ScaleUp(4.0 * steps, n as real, h as real); }
      4.0 * steps * h as real;
      4.0 * h as real * steps;
    >= { ScaleUp(inc as real + 1.0, 4.0 * h as real, steps); }
      (inc as real + 1.0) * steps;
    }
  }

  lemma ScaleUp(x: real, y: real, k: real)
    requires x <= y && k >= 0.0
    ensures x * k <= y * k
  {
  }

  // The same for any schedule: 4 * steps + 1 turns of the revision itself.
  lemma TurnBound(a: Arithmetic, run: seq<Tick>, last: map<string, int>, pos: seq<nat>, k: nat, m: nat,
                  difference: int, steps: real)
    requires Float64(a) && Follows(a, run, last, pos, k, m) && steps >= 1.0
    requires forall j :: k <= j <= m ==> ComputedWeightsExist(run[j].revs)
    requires
      var r := run[k].revs[pos[k]];
      && IncrementalRollout(r) && r.rollout.value.increment == a.stride(difference, steps) >= 2
      && Dist(r) <= Abs(difference)
    requires Turns(a, run, last, pos, k, m) as real >= 4.0 * steps + 1.0
    ensures AtGoal(After(a, run, last, m).revs[pos[m]])
  {
    var inc, n := run[k].revs[pos[k]].rollout.value.increment, Turns(a, run, last, pos, k, m) - 1;
    assert StrideValue(difference, steps, inc);
    StrideCovers(Abs(difference), steps, inc);
    PaceBound(inc, steps, n);
    TurnsSuffice(a, run, last, pos, k, m);
  }
}
