/** Rollouts under any schedule: the index returns the revisions of an app in any order, another
    one at each call; the handler is called at any times, due or not; and revisions may become
    unready, or be paused and resumed.  If now and then an interval has gone by, the revisions that
    cannot get stuck end at their goals, whatever the others do. */
module RolloutSchedules {
  import opened Prelude
  import opened Services
  import opened Float64Model
  import opened Rollout
  import opened RolloutRuns
  import opened RolloutSafety

  // ----- any order -----

  lemma {:induction false} SumRemove(xs: seq<int>, i: nat)
    requires i < |xs|
    ensures Sum(xs) == xs[i] + Sum(xs[..i] + xs[i + 1..])
  {
    if i == 0 {
      assert xs[..i] + xs[i + 1..] == xs[1..];
    } else {
      SumRemove(xs[1..], i - 1);
      assert (xs[..i] + xs[i + 1..])[1..] == xs[1..][..i - 1] + xs[1..][i..];
    }
  }

  function Measure(f: Revision -> int, revs: seq<Revision>): (xs: seq<int>)
    ensures |xs| == |revs|
  {
    seq(|revs|, i requires 0 <= i < |revs| => f(revs[i]))
  }

  lemma RemoveOne(f: Revision -> int, xs: seq<Revision>, i: nat)
    requires i < |xs|
    ensures
      var rest := xs[..i] + xs[i + 1..];
      && multiset(rest) == multiset(xs) - multiset{xs[i]}
      && Sum(Measure(f, xs)) == f(xs[i]) + Sum(Measure(f, rest))
  {
    assert xs == xs[..i] + [xs[i]] + xs[i + 1..];
    SumRemove(Measure(f, xs), i);
    assert Measure(f, xs[..i] + xs[i + 1..]) == Measure(f, xs)[..i] + Measure(f, xs)[i + 1..];
  }

  lemma PositionOf(r: Revision, xs: seq<Revision>, ys: seq<Revision>) returns (i: nat)
    requires r in xs && multiset(xs) == multiset(ys)
    ensures i < |ys| && ys[i] == r
  {
    assert r in multiset(xs) && r in multiset(ys);
    i :| i < |ys| && ys[i] == r;
  }

  // A sum over the revisions does not depend on their order.
  lemma {:induction false} SumPermutes(f: Revision -> int, xs: seq<Revision>, ys: seq<Revision>)
    requires multiset(xs) == multiset(ys)
    ensures Sum(Measure(f, xs)) == Sum(Measure(f, ys))
    decreases |xs|
  {
    assert |multiset(xs)| == |xs| && |multiset(ys)| == |ys|;
    if xs != [] {
      var i := PositionOf(xs[0], xs, ys);
      var xs', ys' := xs[..0] + xs[1..], ys[..i] + ys[i + 1..];
      RemoveOne(f, xs, 0);
      RemoveOne(f, ys, i);
      assert multiset(xs') == multiset(ys');
      SumPermutes(f, xs', ys');
    }
  }

  lemma TotalPermutes(xs: seq<Revision>, ys: seq<Revision>)
    requires multiset(xs) == multiset(ys)
    ensures Total(xs) == Total(ys)
  {
    var dist: Revision -> int := r => Dist(r);
    SumPermutes(dist, xs, ys);
    assert Measure(dist, xs) == Dists(xs) && Measure(dist, ys) == Dists(ys);
  }

  // ----- the revisions that are tracked -----

  // A revision without what may change between ticks: readiness and pause.
  function Core(r: Revision): Revision {
    r.(ready := true, rollout := if r.rollout.Some? then Some(r.rollout.value.(pause := false)) else None)
  }

  // The cores of the revisions with keys in `on`.
  function Only(on: string -> bool, revs: seq<Revision>): seq<Revision> {
    if revs == [] then [] else (if on(Key(revs[0])) then [Core(revs[0])] else []) + Only(on, revs[1..])
  }

  lemma {:induction false} OnlyMember(on: string -> bool, revs: seq<Revision>, c: Revision)
    ensures c in Only(on, revs) <==> exists i :: 0 <= i < |revs| && on(Key(revs[i])) && Core(revs[i]) == c
  {
    if revs != [] {
      OnlyMember(on, revs[1..], c);
      if i :| 0 <= i < |revs| && on(Key(revs[i])) && Core(revs[i]) == c {
        assert i > 0 ==> revs[1..][i - 1] == revs[i];
      }
    }
  }

  // The distance of the tracked revisions from their goals.
  function Distance(on: string -> bool, revs: seq<Revision>): int {
    Total(Only(on, revs))
  }

  lemma TotalCons(r: Revision, revs: seq<Revision>)
    ensures Total([r] + revs) == Dist(r) + Total(revs)
  {
    assert Dists([r] + revs)[1..] == Dists(revs);
  }

  lemma DistanceStep(on: string -> bool, revs: seq<Revision>)
    requires revs != []
    ensures Distance(on, revs) == (if on(Key(revs[0])) then Dist(revs[0]) else 0) + Distance(on, revs[1..])
  {
    var rest := Only(on, revs[1..]);
    if on(Key(revs[0])) {
      TotalCons(Core(revs[0]), rest);
    } else {
      assert [] + rest == rest;
    }
  }

  lemma {:induction false} DistanceZero(on: string -> bool, revs: seq<Revision>)
    ensures Distance(on, revs) >= 0
    ensures Distance(on, revs) == 0 <==> forall i :: 0 <= i < |revs| && on(Key(revs[i])) ==> AtGoal(revs[i])
  {
    if revs != [] {
      DistanceStep(on, revs);
      DistanceZero(on, revs[1..]);
      assert forall i :: 1 <= i < |revs| ==> revs[1..][i - 1] == revs[i];
      assert forall i :: 0 <= i < |revs| - 1 ==> revs[1..][i] == revs[i + 1];
    }
  }

  predicate TrackedCloser(on: string -> bool, r: Revision, r': Revision) {
    Key(r') == Key(r) && (on(Key(r)) ==> Dist(r') <= Dist(r))
  }

  lemma {:induction false} DistanceFalls(on: string -> bool, xs: seq<Revision>, ys: seq<Revision>)
    requires |xs| == |ys| && forall i :: 0 <= i < |xs| ==> TrackedCloser(on, xs[i], ys[i])
    ensures Distance(on, ys) <= Distance(on, xs)
    ensures (exists i :: 0 <= i < |xs| && on(Key(xs[i])) && Dist(ys[i]) < Dist(xs[i])) ==>
      Distance(on, ys) < Distance(on, xs)
  {
    if xs != [] {
      assert TrackedCloser(on, xs[0], ys[0]);
      DistanceStep(on, xs);
      DistanceStep(on, ys);
      DistanceFalls(on, xs[1..], ys[1..]);
      if i :| 0 <= i < |xs| && on(Key(xs[i])) && Dist(ys[i]) < Dist(xs[i]) {
        assert i > 0 ==> xs[1..][i - 1] == xs[i] && ys[1..][i - 1] == ys[i];
      }
    }
  }

  function Everything(key: string): bool { true }

  lemma {:induction false} Cores(revs: seq<Revision>)
    ensures |Only(Everything, revs)| == |revs|
    ensures forall i :: 0 <= i < |revs| ==> Only(Everything, revs)[i] == Core(revs[i])
  {
    if revs != [] {
      Cores(revs[1..]);
    }
  }

  lemma DistanceOfAll(revs: seq<Revision>)
    ensures Distance(Everything, revs) == Total(revs)
  {
    Cores(revs);
    assert Dists(Only(Everything, revs)) == Dists(revs);
  }

  // What is tracked of an app depends only on which revisions it has.
  lemma {:induction false} OnlyCounts(on: string -> bool, revs: seq<Revision>, c: Revision)
    ensures multiset(Only(on, revs))[c] == if on(Key(c)) then multiset(Only(Everything, revs))[c] else 0
  {
    if revs != [] {
      OnlyCounts(on, revs[1..], c);
    }
  }

  lemma OnlyInAnyOrder(on: string -> bool, xs: seq<Revision>, ys: seq<Revision>)
    requires multiset(Only(Everything, xs)) == multiset(Only(Everything, ys))
    ensures multiset(Only(on, xs)) == multiset(Only(on, ys))
  {
    forall c ensures multiset(Only(on, xs))[c] == multiset(Only(on, ys))[c] {
      OnlyCounts(on, xs, c);
      OnlyCounts(on, ys, c);
    }
  }

  lemma {:induction false} DistanceSplits(on: string -> bool, off: string -> bool, revs: seq<Revision>)
    requires forall x :: on(x) <==> !off(x)
    ensures Distance(Everything, revs) == Distance(on, revs) + Distance(off, revs)
  {
    if revs != [] {
      DistanceStep(Everything, revs);
      DistanceStep(on, revs);
      DistanceStep(off, revs);
      DistanceSplits(on, off, revs[1..]);
    }
  }

  // ----- one tick -----

  // The revision has arrived or cannot get stuck.
  predicate CanFinish(r: Revision) {
    AtGoal(r) || (IncrementalRollout(r) ==>
      r.rollout.value.increment >= 2 || (r.rollout.value.increment == 1 && r.weight.value < 100))
  }

  predicate AllCanFinish(revs: seq<Revision>) {
    forall r :: r in revs ==> CanFinish(r)
  }

  // Some tracked revision off its goal gets its turn.
  predicate Effective(a: Arithmetic, on: string -> bool, revs: seq<Revision>, last: map<string, int>, now: int) {
    exists i :: 0 <= i < |revs| && on(Key(revs[i])) && !AtGoal(revs[i]) && Turn(a, revs, last, now, i)
  }

  // What every tick keeps of a revision.
  predicate Kept(r: Revision, r': Revision) {
    && r' == r.(computed := r'.computed)
    && (r.computed.Some? ==> r'.computed.Some?)
    && (AtGoal(r) ==> r' == r)
  }

  lemma OneKept(a: Arithmetic, revs: seq<Revision>, last: map<string, int>, now: int, i: nat)
    requires ComputedWeightsExist(revs) && i < |revs|
    ensures Kept(revs[i], Pass(a, revs, last, now).revs[i])
  {
    TurnEffect(a, revs, last, now, i);
  }

  // One revision in one tick: no further from its goal, and closer if it gets its turn.
  lemma OneCloser(a: Arithmetic, revs: seq<Revision>, last: map<string, int>, now: int, i: nat)
    requires Float64(a) && ComputedWeightsExist(revs) && i < |revs| && CanFinish(revs[i])
    ensures
      var r, r' := revs[i], Pass(a, revs, last, now).revs[i];
      Dist(r') <= Dist(r) && (!AtGoal(r) && Turn(a, revs, last, now, i) ==> Dist(r') < Dist(r))
  {
    TurnEffect(a, revs, last, now, i);
    if !AtGoal(revs[i]) && Turn(a, revs, last, now, i) {
      StepDistance(a, At(a, Start(revs, last), i, now).revs, revs[i]);
    }
  }

  lemma TickDescends(a: Arithmetic, on: string -> bool, revs: seq<Revision>, last: map<string, int>, now: int)
    requires Float64(a) && ComputedWeightsExist(revs) && AllCanFinish(Only(on, revs))
    ensures
      var revs' := Pass(a, revs, last, now).revs;
      && Distance(on, revs') <= Distance(on, revs)
      && (Effective(a, on, revs, last, now) ==> Distance(on, revs') < Distance(on, revs))
  {
    var revs' := Pass(a, revs, last, now).revs;
    forall i | 0 <= i < |revs|
      ensures TrackedCloser(on, revs[i], revs'[i])
      ensures on(Key(revs[i])) && !AtGoal(revs[i]) && Turn(a, revs, last, now, i) ==> Dist(revs'[i]) < Dist(revs[i])
    {
      OneKept(a, revs, last, now, i);
      if on(Key(revs[i])) {
        OnlyMember(on, revs, Core(revs[i]));
        assert CanFinish(Core(revs[i]));
        OneCloser(a, revs, last, now, i);
      }
    }
    DistanceFalls(on, revs, revs');
  }

  lemma StillCanFinish(a: Arithmetic, on: string -> bool, revs: seq<Revision>, last: map<string, int>, now: int)
    requires ComputedWeightsExist(revs) && AllCanFinish(Only(on, revs))
    ensures AllCanFinish(Only(on, Pass(a, revs, last, now).revs))
  {
    var revs' := Pass(a, revs, last, now).revs;
    forall c | c in Only(on, revs') ensures CanFinish(c) {
      OnlyMember(on, revs', c);
      var i :| 0 <= i < |revs'| && on(Key(revs'[i])) && Core(revs'[i]) == c;
      OneKept(a, revs, last, now, i);
      OnlyMember(on, revs, Core(revs[i]));
      assert CanFinish(Core(revs[i]));
    }
  }

  // The writes recorded under tracked keys.
  function Recorded(on: string -> bool, last: map<string, int>): map<string, int> {
    map x | x in last && on(x) :: last[x]
  }

  // A tick without effect on the tracked revisions records no write for them.
  lemma {:induction false} NoEffect(a: Arithmetic, on: string -> bool, revs: seq<Revision>, last: map<string, int>,
                                    now: int, i: nat)
    requires ComputedWeightsExist(revs) && !Blocked(revs) && !Effective(a, on, revs, last, now) && i <= |revs|
    ensures Recorded(on, At(a, Start(revs, last), i, now).last) == Recorded(on, last)
  {
    if i > 0 {
      NoEffect(a, on, revs, last, now, i - 1);
      AtUntouched(a, Start(revs, last), i - 1, now, i - 1);
      assert !on(Key(revs[i - 1])) || AtGoal(revs[i - 1]) || !Turn(a, revs, last, now, i - 1);
    }
  }

  lemma QuietTick(a: Arithmetic, on: string -> bool, revs: seq<Revision>, last: map<string, int>, now: int)
    requires ComputedWeightsExist(revs) && !Effective(a, on, revs, last, now)
    ensures Recorded(on, Pass(a, revs, last, now).last) == Recorded(on, last)
  {
    if !Blocked(revs) {
      NoEffect(a, on, revs, last, now, |revs|);
      AtIsPrefix(a, Start(revs, last), |revs|, now);
    }
  }

  predicate AllDue(on: string -> bool, revs: seq<Revision>, recorded: map<string, int>, now: int) {
    forall i :: 0 <= i < |revs| && on(Key(revs[i])) && IncrementalRollout(revs[i]) ==> Due(revs[i], recorded, now)
  }

  // An unblocked tick at which all tracked revisions are due has an effect on them, unless they are
  // at their goals.
  lemma DueIsEffective(a: Arithmetic, on: string -> bool, revs: seq<Revision>, last: map<string, int>, now: int)
    requires ComputedWeightsExist(revs) && !Blocked(revs) && AllDue(on, revs, Recorded(on, last), now)
    requires Distance(on, revs) > 0
    ensures Effective(a, on, revs, last, now)
  {
    DistanceZero(on, revs);
    var i :| 0 <= i < |revs| && on(Key(revs[i])) && !AtGoal(revs[i]);
    if !Effective(a, on, revs, last, now) {
      DueHasTurn(a, on, revs, last, now, i);
    }
  }

  lemma DueHasTurn(a: Arithmetic, on: string -> bool, revs: seq<Revision>, last: map<string, int>, now: int, i: nat)
    requires ComputedWeightsExist(revs) && !Blocked(revs) && !Effective(a, on, revs, last, now)
    requires i < |revs| && on(Key(revs[i])) && (IncrementalRollout(revs[i]) ==> Due(revs[i], Recorded(on, last), now))
    ensures Turn(a, revs, last, now, i)
  {
    NoEffect(a, on, revs, last, now, i);
    var at := At(a, Start(revs, last), i, now).last;
    assert Key(revs[i]) in at <==> Key(revs[i]) in Recorded(on, at);
  }

  // ----- whole runs -----

  // Tick k finds the tracked revisions as the previous one left them, up to readiness and pause, in
  // some order.  The other revisions may change in any way, come and go.
  ghost predicate Continues(a: Arithmetic, run: seq<Tick>, last: map<string, int>, on: string -> bool, k: nat)
    requires 0 < k < |run|
  {
    multiset(Only(on, run[k].revs)) == multiset(Only(on, After(a, run, last, k - 1).revs))
  }

  ghost predicate Shuffled(a: Arithmetic, run: seq<Tick>, last: map<string, int>, on: string -> bool) {
    forall k :: 0 < k < |run| ==> Continues(a, run, last, on, k)
  }

  // Every tick finds some weight: the even split is over.
  predicate Weighted(run: seq<Tick>) {
    forall k :: 0 <= k < |run| ==> ComputedWeightsExist(run[k].revs)
  }

  ghost predicate Past(m: map<string, int>, now: int) {
    forall x :: x in m ==> m[x] <= now
  }

  // The clock does not go back.
  ghost predicate Clocked(run: seq<Tick>, last: map<string, int>) {
    && (forall i, j :: 0 <= i <= j < |run| ==> run[i].now <= run[j].now)
    && (run != [] ==> Past(last, run[0].now))
  }

  ghost predicate Regular(a: Arithmetic, run: seq<Tick>, last: map<string, int>, on: string -> bool) {
    && Float64(a) && run != [] && Weighted(run) && Clocked(run, last)
    && Shuffled(a, run, last, on) && AllCanFinish(Only(on, run[0].revs))
  }

  lemma CanFinishInAnyOrder(xs: seq<Revision>, ys: seq<Revision>)
    requires multiset(xs) == multiset(ys) && AllCanFinish(xs)
    ensures AllCanFinish(ys)
  {
    forall r | r in ys ensures CanFinish(r) {
      assert r in multiset(ys) && r in xs;
    }
  }

  lemma NextCanFinish(a: Arithmetic, run: seq<Tick>, last: map<string, int>, on: string -> bool, k: nat)
    requires 0 < k < |run| && ComputedWeightsExist(run[k - 1].revs) && AllCanFinish(Only(on, run[k - 1].revs))
    requires Continues(a, run, last, on, k)
    ensures AllCanFinish(Only(on, run[k].revs))
  {
    StillCanFinish(a, on, run[k - 1].revs, LastBefore(a, run, last, k - 1), run[k - 1].now);
    CanFinishInAnyOrder(Only(on, After(a, run, last, k - 1).revs), Only(on, run[k].revs));
  }

  lemma {:induction false} CanAlwaysFinish(a: Arithmetic, run: seq<Tick>, last: map<string, int>,
                                           on: string -> bool, k: nat)
    requires Weighted(run) && Shuffled(a, run, last, on) && k < |run| && AllCanFinish(Only(on, run[0].revs))
    ensures AllCanFinish(Only(on, run[k].revs))
  {
    if k > 0 {
      CanAlwaysFinish(a, run, last, on, k - 1);
      NextCanFinish(a, run, last, on, k);
    }
  }

  predicate EffectiveAt(a: Arithmetic, run: seq<Tick>, last: map<string, int>, on: string -> bool, k: nat)
    requires k < |run|
  {
    Effective(a, on, run[k].revs, LastBefore(a, run, last, k), run[k].now)
  }

  // ----- writes and the clock -----

  function RecordedBefore(a: Arithmetic, run: seq<Tick>, last: map<string, int>, on: string -> bool,
                          k: nat): map<string, int>
    requires k <= |run|
  {
    Recorded(on, LastBefore(a, run, last, k))
  }

  // Without effects in between, the record is that of the tick before.
  lemma {:induction false} QuietRun(a: Arithmetic, run: seq<Tick>, last: map<string, int>, on: string -> bool, j: nat,
                                    k: nat)
    requires Weighted(run) && j < k <= |run|
    requires forall e :: j < e < k ==> !EffectiveAt(a, run, last, on, e)
    ensures RecordedBefore(a, run, last, on, k) == RecordedBefore(a, run, last, on, j + 1)
    decreases k - j
  {
    if j + 1 < k {
      QuietRun(a, run, last, on, j, k - 1);
      assert !EffectiveAt(a, run, last, on, k - 1);
      QuietTick(a, on, run[k - 1].revs, LastBefore(a, run, last, k - 1), run[k - 1].now);
    }
  }

  // No recorded write lies in the future.
  lemma {:induction false} WritesArePast(a: Arithmetic, run: seq<Tick>, last: map<string, int>, k: nat)
    requires Clocked(run, last) && k < |run|
    ensures Past(LastBefore(a, run, last, k + 1), run[k].now)
  {
    var earlier := LastBefore(a, run, last, k);
    if k > 0 {
      WritesArePast(a, run, last, k - 1);
      PastIsPast(earlier, run[k - 1].now, run[k].now);
    }
    LastWrites(a, Start(run[k].revs, earlier), 0, run[k].now);
  }

  lemma PastIsPast(m: map<string, int>, t: int, t': int)
    requires Past(m, t) && t <= t'
    ensures Past(m, t')
  {
  }

  // Tick k is unblocked and comes at least every tracked revision's interval after tick j.
  ghost predicate IntervalLater(run: seq<Tick>, on: string -> bool, j: nat, k: nat)
    requires j < k < |run|
  {
    && !Blocked(run[k].revs)
    && forall i :: 0 <= i < |run[k].revs| && on(Key(run[k].revs[i])) && IncrementalRollout(run[k].revs[i]) ==>
         run[k].now >= run[j].now + run[k].revs[i].rollout.value.intervalSeconds * SECOND
  }

  lemma ElapsedIsDue(run: seq<Tick>, on: string -> bool, j: nat, k: nat, recorded: map<string, int>)
    requires j < k < |run| && IntervalLater(run, on, j, k) && Past(recorded, run[j].now)
    ensures AllDue(on, run[k].revs, recorded, run[k].now)
  {
  }

  // Within an interval some tracked revision gets its turn, unless all are at their goals.
  lemma TurnWithin(a: Arithmetic, run: seq<Tick>, last: map<string, int>, on: string -> bool, j: nat, k: nat)
    requires Weighted(run) && Clocked(run, last) && j < k < |run| && IntervalLater(run, on, j, k)
    requires Distance(on, run[k].revs) > 0
    ensures exists e :: j < e <= k && EffectiveAt(a, run, last, on, e)
  {
    if forall e :: j < e < k ==> !EffectiveAt(a, run, last, on, e) {
      QuietRun(a, run, last, on, j, k);
      WritesArePast(a, run, last, j);
      ElapsedIsDue(run, on, j, k, RecordedBefore(a, run, last, on, k));
      DueIsEffective(a, on, run[k].revs, LastBefore(a, run, last, k), run[k].now);
      assert EffectiveAt(a, run, last, on, k);
    }
  }

  // ----- distances -----

  // What a tick finds and leaves of the distance, and whether it has an effect.
  datatype Event = Event(found: int, left: int, effect: bool)

  function EventOf(a: Arithmetic, run: seq<Tick>, last: map<string, int>, on: string -> bool, k: nat): Event
    requires k < |run|
  {
    Event(Distance(on, run[k].revs), Distance(on, After(a, run, last, k).revs), EffectiveAt(a, run, last, on, k))
  }

  function Events(a: Arithmetic, run: seq<Tick>, last: map<string, int>, on: string -> bool): (es: seq<Event>)
    ensures |es| == |run|
  {
    seq(|run|, k requires 0 <= k < |run| => EventOf(a, run, last, on, k))
  }

  predicate Descends(e: Event) {
    0 <= e.left <= e.found && (e.effect ==> e.left < e.found)
  }

  predicate Falling(es: seq<Event>) {
    && (forall k :: 0 <= k < |es| ==> Descends(es[k]))
    && (forall k :: 0 < k < |es| ==> Joined(es, k))
  }

  predicate Joined(es: seq<Event>, k: nat)
    requires 0 < k < |es|
  {
    es[k].found == es[k - 1].left
  }

  lemma TickEvent(a: Arithmetic, run: seq<Tick>, last: map<string, int>, on: string -> bool, k: nat)
    requires Regular(a, run, last, on) && k < |run|
    ensures Descends(EventOf(a, run, last, on, k))
  {
    CanAlwaysFinish(a, run, last, on, k);
    TickDescends(a, on, run[k].revs, LastBefore(a, run, last, k), run[k].now);
    DistanceZero(on, After(a, run, last, k).revs);
  }

  lemma SameDistance(on: string -> bool, xs: seq<Revision>, ys: seq<Revision>)
    requires multiset(Only(on, xs)) == multiset(Only(on, ys))
    ensures Distance(on, xs) == Distance(on, ys)
  {
    TotalPermutes(Only(on, xs), Only(on, ys));
  }

  lemma NextDistance(a: Arithmetic, run: seq<Tick>, last: map<string, int>, on: string -> bool, k: nat)
    requires 0 < k < |run| && Continues(a, run, last, on, k)
    ensures Distance(on, run[k].revs) == Distance(on, After(a, run, last, k - 1).revs)
  {
    SameDistance(on, run[k].revs, After(a, run, last, k - 1).revs);
  }

  lemma NextEvent(a: Arithmetic, run: seq<Tick>, last: map<string, int>, on: string -> bool, k: nat)
    requires 0 < k < |run| && Distance(on, run[k].revs) == Distance(on, After(a, run, last, k - 1).revs)
    ensures Joined(Events(a, run, last, on), k)
  {
    var es := Events(a, run, last, on);
    assert es[k] == EventOf(a, run, last, on, k) && es[k - 1] == EventOf(a, run, last, on, k - 1);
  }

  lemma TicksDescend(a: Arithmetic, run: seq<Tick>, last: map<string, int>, on: string -> bool)
    requires Regular(a, run, last, on)
    ensures var es := Events(a, run, last, on); forall k :: 0 <= k < |es| ==> Descends(es[k])
  {
    forall k | 0 <= k < |run| ensures Descends(Events(a, run, last, on)[k]) {
      TickEvent(a, run, last, on, k);
    }
  }

  lemma TicksJoin(a: Arithmetic, run: seq<Tick>, last: map<string, int>, on: string -> bool)
    requires Shuffled(a, run, last, on)
    ensures var es := Events(a, run, last, on); forall k :: 0 < k < |es| ==> Joined(es, k)
  {
    forall k | 0 < k < |run| ensures Joined(Events(a, run, last, on), k) {
      assert Continues(a, run, last, on, k);
      NextDistance(a, run, last, on, k);
      NextEvent(a, run, last, on, k);
    }
  }

  lemma RunFalls(a: Arithmetic, run: seq<Tick>, last: map<string, int>, on: string -> bool)
    requires Regular(a, run, last, on)
    ensures Falling(Events(a, run, last, on))
  {
    TicksDescend(a, run, last, on);
    TicksJoin(a, run, last, on);
  }

  lemma {:induction false} LeftFalls(es: seq<Event>, j: nat, k: nat)
    requires Falling(es) && j < k < |es|
    ensures es[k].found <= es[j].left
    ensures (exists e :: j < e < k && es[e].effect) ==> es[k].found < es[j].left
    decreases k - j
  {
    assert Joined(es, k);
    if j < k - 1 {
      LeftFalls(es, j, k - 1);
      assert Descends(es[k - 1]);
    }
  }

  predicate Lower(es: seq<Event>, j: nat, k: nat)
    requires j < |es| && k < |es|
  {
    es[k].left < es[j].left || es[k].left == 0
  }

  lemma EffectLowers(es: seq<Event>, j: nat, e: nat, k: nat)
    requires Falling(es) && j < e <= k < |es| && es[e].effect
    ensures Lower(es, j, k)
  {
    LeftFalls(es, j, k);
    assert Descends(es[k]);
  }

  lemma NothingFound(es: seq<Event>, k: nat)
    requires Falling(es) && k < |es| && es[k].found <= 0
    ensures es[k].left == 0
  {
    assert Descends(es[k]);
  }

  lemma EffectWithin(a: Arithmetic, run: seq<Tick>, last: map<string, int>, on: string -> bool, j: nat, k: nat)
    returns (e: nat)
    requires Weighted(run) && Clocked(run, last) && j < k < |run| && IntervalLater(run, on, j, k)
    requires Events(a, run, last, on)[k].found > 0
    ensures j < e <= k && Events(a, run, last, on)[e].effect
  {
    TurnWithin(a, run, last, on, j, k);
    e :| j < e <= k && EffectiveAt(a, run, last, on, e);
  }

  // Whatever else happens in between, an interval makes progress or the goals are reached.
  lemma IntervalDescends(a: Arithmetic, run: seq<Tick>, last: map<string, int>, on: string -> bool, j: nat, k: nat)
    requires Regular(a, run, last, on) && j < k < |run| && IntervalLater(run, on, j, k)
    ensures Lower(Events(a, run, last, on), j, k)
  {
    var es := Events(a, run, last, on);
    RunFalls(a, run, last, on);
    if es[k].found > 0 {
      var e := EffectWithin(a, run, last, on, j, k);
      EffectLowers(es, j, e, k);
    } else {
      NothingFound(es, k);
    }
  }

  // `marks` are ticks of the run, each an interval after the one before it.
  ghost predicate Marked(run: seq<Tick>, on: string -> bool, marks: seq<nat>) {
    && (forall x :: 0 <= x < |marks| ==> marks[x] < |run|)
    && (forall x :: 0 < x < |marks| ==> MarkedAt(run, on, marks, x))
  }

  ghost predicate MarkedAt(run: seq<Tick>, on: string -> bool, marks: seq<nat>, x: nat)
    requires 0 < x < |marks| && marks[x] < |run|
  {
    marks[x - 1] < marks[x] && IntervalLater(run, on, marks[x - 1], marks[x])
  }

  // Between consecutive marks the distance falls or is gone.
  predicate LowerAt(es: seq<Event>, marks: seq<nat>, x: nat)
    requires 0 < x < |marks| && marks[x - 1] < |es| && marks[x] < |es|
  {
    Lower(es, marks[x - 1], marks[x])
  }

  lemma {:induction false} MarksDescend(es: seq<Event>, marks: seq<nat>, x: nat)
    requires Falling(es) && x < |marks|
    requires forall y :: 0 <= y < |marks| ==> marks[y] < |es|
    requires forall y :: 0 < y < |marks| ==> LowerAt(es, marks, y)
    ensures var left := es[marks[x]].left; left + x <= es[0].found || left == 0
  {
    assert Descends(es[0]) && Descends(es[marks[x]]);
    if x > 0 {
      MarksDescend(es, marks, x - 1);
      assert LowerAt(es, marks, x);
    } else if marks[0] > 0 {
      LeftFalls(es, 0, marks[0]);
    }
  }

  lemma NothingLeft(es: seq<Event>, marks: seq<nat>, x: nat, k: nat)
    requires Falling(es) && es != [] && x < |marks| && es[0].found <= x
    requires forall y :: 0 <= y < |marks| ==> marks[y] < |es|
    requires forall y :: 0 < y < |marks| ==> LowerAt(es, marks, y)
    requires marks[x] <= k < |es|
    ensures es[k].left == 0
  {
    MarksDescend(es, marks, x);
    assert Descends(es[marks[x]]) && Descends(es[k]);
    if marks[x] < k {
      LeftFalls(es, marks[x], k);
    }
  }

  // Convergence under any order and any schedule: as many intervals as the distance suffice, and
  // every later tick leaves each tracked revision at its goal.
  lemma AnyScheduleConverges(a: Arithmetic, run: seq<Tick>, last: map<string, int>, on: string -> bool,
                             marks: seq<nat>, x: nat, k: nat)
    requires Regular(a, run, last, on) && Marked(run, on, marks)
    requires Distance(on, run[0].revs) <= x < |marks| && marks[x] <= k < |run|
    ensures forall i :: 0 <= i < |run[k].revs| && on(Key(run[k].revs[i])) ==> AtGoal(After(a, run, last, k).revs[i])
  {
    var es, revs' := Events(a, run, last, on), After(a, run, last, k).revs;
    RunFalls(a, run, last, on);
    forall y | 0 < y < |marks| ensures LowerAt(es, marks, y) {
      assert MarkedAt(run, on, marks, y);
      IntervalDescends(a, run, last, on, marks[y - 1], marks[y]);
    }
    NothingLeft(es, marks, x, k);
    DistanceZero(on, revs');
    forall i | 0 <= i < |run[k].revs| ensures Key(revs'[i]) == Key(run[k].revs[i]) {
      OneKept(a, run[k].revs, LastBefore(a, run, last, k), run[k].now, i);
    }
  }

  // ----- whole apps -----

  // Every revision has its counterpart in any order.
  lemma SamePlace(xs: seq<Revision>, ys: seq<Revision>, i: nat) returns (j: nat)
    requires multiset(Only(Everything, ys)) == multiset(Only(Everything, xs)) && i < |xs|
    ensures j < |ys| && Core(ys[j]) == Core(xs[i])
  {
    var c := Core(xs[i]);
    OnlyMember(Everything, xs, c);
    assert c in multiset(Only(Everything, xs)) && c in Only(Everything, ys);
    OnlyMember(Everything, ys, c);
    j :| j < |ys| && Everything(Key(ys[j])) && Core(ys[j]) == c;
  }

  lemma WeightInAnyOrder(xs: seq<Revision>, ys: seq<Revision>)
    requires multiset(Only(Everything, ys)) == multiset(Only(Everything, xs)) && ComputedWeightsExist(xs)
    ensures ComputedWeightsExist(ys)
  {
    var i :| 0 <= i < |xs| && xs[i].computed.Some?;
    var j := SamePlace(xs, ys, i);
    assert Core(ys[j]).computed == Core(xs[i]).computed;
  }

  lemma WeightStays(a: Arithmetic, revs: seq<Revision>, last: map<string, int>, now: int)
    requires ComputedWeightsExist(revs)
    ensures ComputedWeightsExist(Pass(a, revs, last, now).revs)
  {
    var i :| 0 <= i < |revs| && revs[i].computed.Some?;
    OneKept(a, revs, last, now, i);
  }

  // Tracking everything, weights that exist at the start exist at every tick.
  lemma {:induction false} WeightsStay(a: Arithmetic, run: seq<Tick>, last: map<string, int>, k: nat)
    requires Shuffled(a, run, last, Everything) && k < |run| && ComputedWeightsExist(run[0].revs)
    ensures ComputedWeightsExist(run[k].revs)
  {
    if k > 0 {
      WeightsStay(a, run, last, k - 1);
      assert Continues(a, run, last, Everything, k);
      WeightStays(a, run[k - 1].revs, LastBefore(a, run, last, k - 1), run[k - 1].now);
      WeightInAnyOrder(After(a, run, last, k - 1).revs, run[k].revs);
    }
  }

  // An app none of whose revisions can get stuck reaches all its goals.
  lemma WholeAppConverges(a: Arithmetic, run: seq<Tick>, last: map<string, int>, marks: seq<nat>, k: nat, i: nat)
    requires Float64(a) && Shuffled(a, run, last, Everything) && Clocked(run, last)
    requires run != [] && ComputedWeightsExist(run[0].revs) && AllCanFinish(Only(Everything, run[0].revs))
    requires Marked(run, Everything, marks) && |marks| > Distance(Everything, run[0].revs)
    requires marks != [] && marks[|marks| - 1] <= k < |run| && i < |run[k].revs|
    ensures AtGoal(After(a, run, last, k).revs[i])
  {
    forall j | 0 <= j < |run| ensures ComputedWeightsExist(run[j].revs) {
      WeightsStay(a, run, last, j);
    }
    DistanceZero(Everything, run[0].revs);
    AnyScheduleConverges(a, run, last, Everything, marks, |marks| - 1, k);
  }

  // Blocked ticks do occur in such runs: a revision paused at the first tick and resumed at the second.
  lemma BlockedTickOccurs(a: Arithmetic, r: Revision)
    requires Float64(a) && r.ready && r.computed.Some? && !AtGoal(r)
    requires r.rollout == Some(RolloutConfig(2, 4, false))
    ensures
      var paused := r.(rollout := Some(RolloutConfig(2, 4, true)));
      var run := [Tick([paused], 0), Tick([r], 1)];
      && Regular(a, run, map[], Everything) && Distance(Everything, [r]) > 0
      && Blocked(run[0].revs) && !Blocked(run[1].revs)
  {
    var paused := r.(rollout := Some(RolloutConfig(2, 4, true)));
    var run := [Tick([paused], 0), Tick([r], 1)];
    assert Holds(run[0].revs[0]) && !Holds(run[1].revs[0]);
    assert run[0].revs[0].computed.Some? && run[1].revs[0].computed.Some?;
    assert After(a, run, map[], 0).revs == [paused];
    assert Continues(a, run, map[], Everything, 1) by {
      Cores([paused]);
      Cores([r]);
      assert Only(Everything, [paused]) == Only(Everything, [r]);
    }
    Cores([paused]);
    assert forall c :: c in Only(Everything, [paused]) ==> c == Core(paused);
    DistanceZero(Everything, [r]);
    assert Everything(Key([r][0]));
  }
}
