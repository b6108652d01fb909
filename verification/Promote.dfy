/** Promoting a revision (cli/cmd/weight/weight.go) and where that leads: rollout passes take the
    promoted revision to 100% of the traffic and every other revision to 0%. */
module Promote {
  import opened Prelude
  import opened Services
  import opened Float64Model
  import opened Rollout
  import opened RolloutRuns
  import opened RolloutSafety
  import opened RolloutSchedules
  import opened Traffic
  import opened Weights

  predicate PromotedNeedsUpdate(r: Revision, weight: int, rc: Option<RolloutConfig>) {
    r.weight.None? || r.weight.value != weight || rc != r.rollout
  }

  // What promoting `version` leaves of one revision.
  function Promoted(r: Revision, version: string, rc: Option<RolloutConfig>, weight: int): Revision {
    if Version(r) == version then
      if PromotedNeedsUpdate(r, weight, rc) then r.(rollout := rc, weight := Some(weight)) else r
    else if Current(r) > 0 then r.(rollout := rc, weight := Some(0))
    else r
  }

  function PromotedAll(revs: seq<Revision>, version: string, rc: Option<RolloutConfig>, weight: int)
    : (ps: seq<Revision>)
    ensures |ps| == |revs|
  {
    seq(|revs|, i requires 0 <= i < |revs| => Promoted(revs[i], version, rc, weight))
  }

  // The services to update: the promoted one unless it is as wanted, and those that carry weight.
  predicate NeedsUpdate(r: Revision, version: string, rc: Option<RolloutConfig>, weight: int) {
    if Version(r) == version then PromotedNeedsUpdate(r, weight, rc) else Current(r) > 0
  }

  // One iteration: false when an update is needed and fails.
  method PromoteOne(s: Service, version: string, rc: Option<RolloutConfig>, weight: int, fails: string -> bool)
    returns (ok: bool)
    modifies s
    ensures ok <==> NeedsUpdate(old(s.View()), version, rc, weight) ==> !fails(s.name)
    ensures s.View() == if fails(s.name) then old(s.View()) else Promoted(old(s.View()), version, rc, weight)
  {
    var v := Version(s.View());
    if (v == version && PromotedNeedsUpdate(s.View(), weight, rc))
       || (v != version && s.computed.Some? && s.computed.value > 0)
    {
      if fails(s.name) {
        return false;
      }
      s.rollout := rc;
      if v == version {
        s.weight := Some(weight);
      } else {
        s.weight := Some(0);
      }
    }
    ok := true;
  }

  // `listed` are the app's services, absent if they cannot be listed; `fails` says which updates
  // fail.  The others go ahead, and `ok` is false if one failed or there are no services.
  method PromoteService(listed: Option<seq<Service>>, version: string, rc: Option<RolloutConfig>, weight: int,
                        fails: string -> bool) returns (ok: bool)
    requires Distinct(Found(listed))
    modifies Found(listed)
    ensures
      var before := old(Views(Found(listed)));
      ok <==> && before != []
              && forall j :: 0 <= j < |before| && NeedsUpdate(before[j], version, rc, weight) ==> !fails(before[j].name)
    ensures
      var before, after := old(Views(Found(listed))), Views(Found(listed));
      forall j :: 0 <= j < |before| ==>
        after[j] == if fails(before[j].name) then before[j] else Promoted(before[j], version, rc, weight)
    ensures ok ==> Views(Found(listed)) == PromotedAll(old(Views(Found(listed))), version, rc, weight)
  {
    if listed.None? {
      return false;
    }
    var svcs := listed.value;
    if |svcs| == 0 {
      return false;
    }
    ok := PromoteEach(svcs, version, rc, weight, fails);
  }

  method PromoteEach(svcs: seq<Service>, version: string, rc: Option<RolloutConfig>, weight: int,
                     fails: string -> bool) returns (ok: bool)
    requires Distinct(svcs)
    modifies svcs
    ensures
      var before := old(Views(svcs));
      ok <==> forall j :: 0 <= j < |before| && NeedsUpdate(before[j], version, rc, weight) ==> !fails(before[j].name)
    ensures
      var before, after := old(Views(svcs)), Views(svcs);
      forall j :: 0 <= j < |before| ==>
        after[j] == if fails(before[j].name) then before[j] else Promoted(before[j], version, rc, weight)
  {
    ok := true;
    for i := 0 to |svcs|
      invariant ok <==> forall j :: 0 <= j < i && NeedsUpdate(old(Views(svcs))[j], version, rc, weight) ==>
        !fails(old(Views(svcs))[j].name)
      invariant forall j :: 0 <= j < |svcs| ==>
        var r := old(Views(svcs))[j];
        svcs[j].View() == if j < i && !fails(r.name) then Promoted(r, version, rc, weight) else r
    {
      var updated := PromoteOne(svcs[i], version, rc, weight, fails);
      ok := ok && updated;
    }
  }

  // ----- the run after a promotion -----

  // Revision p heads for a positive goal and every other one for zero, or has no weight at all.
  predicate Promoting(revs: seq<Revision>, p: nat) {
    && p < |revs|
    && revs[p].weight.Some? && revs[p].weight.value >= 100
    && (IncrementalRollout(revs[p]) ==> revs[p].rollout.value.increment / 4 < revs[p].weight.value)
    && (forall j :: 0 <= j < |revs| && j != p ==>
          && revs[j].name != revs[p].name
          && (if revs[j].weight.Some? then revs[j].weight.value == 0 else Current(revs[j]) == 0))
  }

  predicate Settled(revs: seq<Revision>, p: nat)
    requires p < |revs|
  {
    Current(revs[p]) > 0 && forall j :: 0 <= j < |revs| && j != p ==> Current(revs[j]) == 0
  }

  // Until the promotion has settled some revision moves, whatever the increment: the others have
  // goal zero, and once they are off the promoted one jumps to its goal.
  lemma SomethingMoves(revs: seq<Revision>, p: nat)
    requires Promoting(revs, p) && !Settled(revs, p)
    ensures exists i :: 0 <= i < |revs| && Moves(revs, i)
  {
    if j :| 0 <= j < |revs| && j != p && Current(revs[j]) != 0 {
      assert Moves(revs, j);
    } else {
      assert AllOtherServicesOff(revs[p].name, revs);
      assert Moves(revs, p);
    }
  }

  lemma StaysSettled(a: Arithmetic, revs: seq<Revision>, last: map<string, int>, now: int, p: nat)
    requires Float64(a) && Promoting(revs, p) && Ready(revs, last, now)
    ensures var revs' := Pass(a, revs, last, now).revs;
      && Promoting(revs', p)
      && (Settled(revs, p) ==> Settled(revs', p))
  {
    var revs' := Pass(a, revs, last, now).revs;
    PassProgress(a, revs, last, now);
    forall j | 0 <= j < |revs| ensures Outcome(a, revs[j], revs'[j]) {
      PassOutcome(a, revs, last, now, j);
    }
    if Settled(revs, p) && IncrementalRollout(revs[p]) {
      FluxBounds(a, revs[p].rollout.value.increment, revs[p].weight.value, Current(revs[p]));
    }
  }

  lemma {:induction false} PromotionSettles(a: Arithmetic, revs: seq<Revision>, last: map<string, int>,
                                            times: seq<int>, p: nat)
    requires Float64(a) && Promoting(revs, p)
    requires times != [] ==> Ready(revs, last, times[0])
    requires Spaced(revs, times)
    requires Settled(revs, p) || |times| >= Total(revs)
    ensures var revs' := Ticks(a, revs, last, times).revs;
      Settled(revs', p) && Promoting(revs', p)
    decreases |times|
  {
    TotalZero(revs);
    if times != [] {
      var st := Pass(a, revs, last, times[0]);
      if !Settled(revs, p) {
        SomethingMoves(revs, p);
      }
      PassProgress(a, revs, last, times[0]);
      StaysSettled(a, revs, last, times[0], p);
      RestOfRun(a, revs, last, times);
      PromotionSettles(a, st.revs, st.last, times[1..], p);
    }
  }

  // ----- end to end -----

  predicate AllTraffic(ts: seq<Target>, p: nat) {
    p < |ts| && forall i :: 0 <= i < |ts| ==> ts[i].weight == if i == p then 100 else 0
  }

  lemma SettledTakesAll(a: Arithmetic, revs: seq<Revision>, p: nat)
    requires Float64(a) && Promoting(revs, p) && Settled(revs, p)
    requires forall i :: 0 <= i < |revs| ==> !revs[i].template
    ensures |TargetsForApp(a, revs)| == |revs| && AllTraffic(TargetsForApp(a, revs), p)
    ensures TargetsForApp(a, revs)[p].version == Version(revs[p])
  {
    AllTargets(revs);
    OneOnTakesAll(a, WeightsOf(Targets(revs)), p);
  }

  lemma {:induction false} AllTargets(revs: seq<Revision>)
    requires forall i :: 0 <= i < |revs| ==> !revs[i].template
    ensures |Targets(revs)| == |revs| && forall i :: 0 <= i < |revs| ==> Targets(revs)[i] == TargetOf(revs[i])
  {
    if revs != [] {
      AllTargets(revs[..|revs| - 1]);
    }
  }

  // An app one of whose revisions can be promoted: weights exist and are not negative, names and
  // versions tell the revisions apart, and no other revision that is off has a goal weight.
  predicate Promotable(revs: seq<Revision>, p: nat) {
    && p < |revs| && NonNegative(revs) && ComputedWeightsExist(revs)
    && (forall i :: 0 <= i < |revs| ==> !revs[i].template)
    && (forall j :: 0 <= j < |revs| && j != p ==>
          && revs[j].name != revs[p].name && Version(revs[j]) != Version(revs[p])
          && (Current(revs[j]) == 0 ==> revs[j].weight.None? || revs[j].weight.value == 0))
  }

  function AfterPromote(revs: seq<Revision>, p: nat, rc: Option<RolloutConfig>): (ps: seq<Revision>)
    requires p < |revs|
    ensures |ps| == |revs|
  {
    PromotedAll(revs, Version(revs[p]), rc, PROMOTE_WEIGHT)
  }

  lemma PromotionStarts(revs: seq<Revision>, p: nat, rc: Option<RolloutConfig>)
    requires Promotable(revs, p)
    requires rc.Some? ==> rc.value.increment / 4 < PROMOTE_WEIGHT
    ensures Promoting(AfterPromote(revs, p, rc), p)
  {
  }

  // Promote, then as many due ticks as the total distance: the promoted revision has all the
  // traffic.  It holds for every increment from 1 on, although an increment of 1 alone may stall.
  lemma PromoteEndToEnd(a: Arithmetic, revs: seq<Revision>, p: nat, rc: Option<RolloutConfig>,
                        last: map<string, int>, times: seq<int>)
    requires Float64(a) && Promotable(revs, p)
    requires rc.Some? ==> rc.value.increment / 4 < PROMOTE_WEIGHT
    requires times != [] ==> Ready(AfterPromote(revs, p, rc), last, times[0])
    requires Spaced(AfterPromote(revs, p, rc), times)
    requires |times| >= Total(AfterPromote(revs, p, rc))
    ensures
      var ts := TargetsForApp(a, Ticks(a, AfterPromote(revs, p, rc), last, times).revs);
      |ts| == |revs| && AllTraffic(ts, p) && ts[p].version == Version(revs[p])
  {
    var goal := AfterPromote(revs, p, rc);
    PromotionStarts(revs, p, rc);
    PromotionSettles(a, goal, last, times, p);
    SpecsKept(a, goal, last, times);
    EvolvedTakesAll(a, goal, Ticks(a, goal, last, times).revs, p);
  }

  lemma EvolvedTakesAll(a: Arithmetic, revs: seq<Revision>, revs': seq<Revision>, p: nat)
    requires Float64(a) && Evolves(revs, revs') && p < |revs| && Promoting(revs', p) && Settled(revs', p)
    requires forall i :: 0 <= i < |revs| ==> !revs[i].template
    ensures
      var ts := TargetsForApp(a, revs');
      |ts| == |revs| && AllTraffic(ts, p) && ts[p].version == Version(revs[p])
  {
    SettledTakesAll(a, revs', p);
  }

  // ----- any schedule -----

  // Counts the revisions of one name.
  function Named(name: string): Revision -> int {
    (r: Revision) => if r.name == name then 1 else 0
  }

  // The promoted revision heads for all the traffic and every other one for none.
  predicate HeadsFor(r: Revision, name: string, key: string) {
    && !r.template && (r.name == name <==> Key(r) == key)
    && if r.name == name then
         && r.weight == Some(PROMOTE_WEIGHT)
         && (IncrementalRollout(r) ==> 1 <= r.rollout.value.increment && r.rollout.value.increment / 4 < PROMOTE_WEIGHT)
       else
         CanFinish(r) && (r.weight == Some(0) || (r.weight.None? && Current(r) == 0))
  }

  // Exactly one revision is called `name`, and it alone has the key.
  ghost predicate Heading(revs: seq<Revision>, name: string, key: string) {
    && (forall i :: 0 <= i < |revs| ==> HeadsFor(revs[i], name, key))
    && Sum(Measure(Named(name), revs)) == 1
  }

  // The promoted revision is on.
  predicate On(revs: seq<Revision>, name: string) {
    forall i :: 0 <= i < |revs| && revs[i].name == name ==> Current(revs[i]) > 0
  }

  // All others are where they should be.
  predicate OthersArrived(revs: seq<Revision>, key: string) {
    forall i :: 0 <= i < |revs| && Key(revs[i]) != key ==> AtGoal(revs[i])
  }

  // The same revisions in another order, perhaps ready or paused now.
  predicate Reordered(xs: seq<Revision>, ys: seq<Revision>) {
    multiset(Only(Everything, ys)) == multiset(Only(Everything, xs))
  }

  lemma SameCount(xs: seq<Revision>, ys: seq<Revision>, name: string)
    requires Reordered(xs, ys)
    ensures Sum(Measure(Named(name), xs)) == Sum(Measure(Named(name), ys))
  {
    SumPermutes(Named(name), Only(Everything, xs), Only(Everything, ys));
    Cores(xs);
    Cores(ys);
    assert Measure(Named(name), Only(Everything, xs)) == Measure(Named(name), xs);
    assert Measure(Named(name), Only(Everything, ys)) == Measure(Named(name), ys);
  }

  lemma HeadingReordered(xs: seq<Revision>, ys: seq<Revision>, name: string, key: string)
    requires Heading(xs, name, key) && Reordered(xs, ys)
    ensures Heading(ys, name, key)
    ensures On(xs, name) ==> On(ys, name)
    ensures OthersArrived(xs, key) ==> OthersArrived(ys, key)
  {
    SameCount(xs, ys, name);
    forall i | 0 <= i < |ys|
      ensures HeadsFor(ys[i], name, key)
      ensures On(xs, name) && ys[i].name == name ==> Current(ys[i]) > 0
      ensures OthersArrived(xs, key) && Key(ys[i]) != key ==> AtGoal(ys[i])
    {
      var j := SamePlace(ys, xs, i);
      CoreHeads(xs[j], ys[i], name, key);
    }
  }

  lemma CoreHeads(r: Revision, r': Revision, name: string, key: string)
    requires Core(r) == Core(r')
    ensures HeadsFor(r, name, key) <==> HeadsFor(r', name, key)
    ensures r.name == r'.name && Key(r) == Key(r') && Current(r) == Current(r') && AtGoal(r) == AtGoal(r')
  {
    assert Key(Core(r)) == Key(r) && Key(Core(r')) == Key(r');
    assert Current(Core(r)) == Current(r) && Current(Core(r')) == Current(r');
    assert IncrementalRollout(r) == IncrementalRollout(r') && AtGoal(r) == AtGoal(r');
    assert CanFinish(r) == CanFinish(r');
  }

  lemma TickKeepsHeading(a: Arithmetic, revs: seq<Revision>, last: map<string, int>, now: int, name: string,
                         key: string)
    requires ComputedWeightsExist(revs) && Heading(revs, name, key)
    ensures Heading(Pass(a, revs, last, now).revs, name, key)
  {
    var revs' := Pass(a, revs, last, now).revs;
    forall i | 0 <= i < |revs| ensures HeadsFor(revs'[i], name, key) && revs'[i].name == revs[i].name {
      OneKept(a, revs, last, now, i);
      assert HeadsFor(revs[i], name, key);
    }
    assert Measure(Named(name), revs') == Measure(Named(name), revs);
  }

  // Once on, the promoted revision stays on: it never oversteps its goal by all of it.
  lemma TickKeepsOn(a: Arithmetic, revs: seq<Revision>, last: map<string, int>, now: int, name: string, key: string)
    requires Float64(a) && ComputedWeightsExist(revs) && Heading(revs, name, key) && On(revs, name)
    ensures On(Pass(a, revs, last, now).revs, name)
  {
    var revs' := Pass(a, revs, last, now).revs;
    forall i | 0 <= i < |revs| && revs'[i].name == name ensures Current(revs'[i]) > 0 {
      OneKept(a, revs, last, now, i);
      PassOutcome(a, revs, last, now, i);
      assert HeadsFor(revs[i], name, key);
      if IncrementalRollout(revs[i]) {
        FluxBounds(a, revs[i].rollout.value.increment, PROMOTE_WEIGHT, Current(revs[i]));
      }
    }
  }

  function Just(key: string): string -> bool {
    x => x == key
  }

  function Others(key: string): string -> bool {
    x => x != key
  }

  // Up to its turn, whatever is at its goal stays there.
  lemma {:induction false} ArrivedAt(a: Arithmetic, st: State, i: nat, now: int, j: nat)
    requires i <= |st.revs| && j < |st.revs| && AtGoal(st.revs[j])
    ensures At(a, st, i, now).revs[j] == st.revs[j]
  {
    if i > 0 {
      ArrivedAt(a, st, i - 1, now, j);
    }
  }

  // With all others off, the promoted revision's turn takes it to its goal.
  lemma JumpsOn(a: Arithmetic, revs: seq<Revision>, last: map<string, int>, now: int, name: string, key: string)
    requires Float64(a) && ComputedWeightsExist(revs) && Heading(revs, name, key) && OthersArrived(revs, key)
    requires Effective(a, Just(key), revs, last, now)
    ensures On(Pass(a, revs, last, now).revs, name)
  {
    var i :| 0 <= i < |revs| && Just(key)(Key(revs[i])) && !AtGoal(revs[i]) && Turn(a, revs, last, now, i);
    assert HeadsFor(revs[i], name, key);
    var p := OnePosition(revs, name);
    assert i == p;
    if Current(revs[i]) > 0 {
      TickKeepsOn(a, revs, last, now, name, key);
    } else {
      OthersAreOff(a, revs, last, now, name, key, i);
      TurnEffect(a, revs, last, now, i);
      forall j | 0 <= j < |revs| ensures Pass(a, revs, last, now).revs[j].name == revs[j].name {
        OneKept(a, revs, last, now, j);
      }
    }
  }

  lemma OthersAreOff(a: Arithmetic, revs: seq<Revision>, last: map<string, int>, now: int, name: string, key: string,
                     i: nat)
    requires ComputedWeightsExist(revs) && Heading(revs, name, key) && OthersArrived(revs, key) && i < |revs|
    ensures AllOtherServicesOff(name, At(a, Start(revs, last), i, now).revs)
  {
    var st := Start(revs, last);
    forall j | 0 <= j < |revs| && At(a, st, i, now).revs[j].name != name
      ensures Current(At(a, st, i, now).revs[j]) <= 0
    {
      SpecsAt(a, st, i, now, j);
      assert HeadsFor(revs[j], name, key);
      ArrivedAt(a, st, i, now, j);
    }
  }

  // A single occurrence has a position, and no second one.
  lemma OnePosition(revs: seq<Revision>, name: string) returns (p: nat)
    requires Sum(Measure(Named(name), revs)) == 1
    ensures p < |revs| && revs[p].name == name
    ensures forall j :: 0 <= j < |revs| && j != p ==> revs[j].name != name
  {
    var xs := Measure(Named(name), revs);
    SumOfNats(xs);
    p :| p < |xs| && xs[p] != 0;
    SumRemove(xs, p);
    SumOfNats(xs[..p] + xs[p + 1..]);
    forall j | 0 <= j < |revs| && j != p ensures revs[j].name != name {
      assert xs[j] == (xs[..p] + xs[p + 1..])[if j < p then j else j - 1];
    }
  }

  lemma CountsOne(revs: seq<Revision>, name: string, p: nat)
    requires p < |revs| && revs[p].name == name
    requires forall j :: 0 <= j < |revs| && j != p ==> revs[j].name != name
    ensures Sum(Measure(Named(name), revs)) == 1
  {
    var xs := Measure(Named(name), revs);
    SumRemove(xs, p);
    SumOfNats(xs[..p] + xs[p + 1..]);
  }

  // ----- runs of a promotion -----

  ghost predicate PromotionRun(a: Arithmetic, run: seq<Tick>, last: map<string, int>, name: string, key: string) {
    && Float64(a) && run != [] && Weighted(run) && Clocked(run, last)
    && Shuffled(a, run, last, Everything) && Heading(run[0].revs, name, key)
  }

  lemma {:induction false} RunKeepsHeading(a: Arithmetic, run: seq<Tick>, last: map<string, int>,
                                           name: string, key: string, k: nat)
    requires PromotionRun(a, run, last, name, key) && k < |run|
    ensures Heading(run[k].revs, name, key) && Heading(After(a, run, last, k).revs, name, key)
  {
    if k > 0 {
      RunKeepsHeading(a, run, last, name, key, k - 1);
      assert Continues(a, run, last, Everything, k);
      HeadingReordered(After(a, run, last, k - 1).revs, run[k].revs, name, key);
    }
    TickKeepsHeading(a, run[k].revs, LastBefore(a, run, last, k), run[k].now, name, key);
  }

  lemma NextOn(a: Arithmetic, run: seq<Tick>, last: map<string, int>, name: string, key: string, k: nat)
    requires PromotionRun(a, run, last, name, key) && 0 < k < |run| && On(After(a, run, last, k - 1).revs, name)
    ensures On(run[k].revs, name) && On(After(a, run, last, k).revs, name)
  {
    RunKeepsHeading(a, run, last, name, key, k - 1);
    assert Continues(a, run, last, Everything, k);
    HeadingReordered(After(a, run, last, k - 1).revs, run[k].revs, name, key);
    TickKeepsOn(a, run[k].revs, LastBefore(a, run, last, k), run[k].now, name, key);
  }

  lemma {:induction false} Persists(facts: seq<bool>, j: nat, k: nat)
    requires j <= k < |facts| && facts[j] && forall i :: 0 < i < |facts| && facts[i - 1] ==> facts[i]
    ensures facts[k]
    decreases k - j
  {
    if j < k {
      Persists(facts, j, k - 1);
    }
  }

  lemma StaysOn(a: Arithmetic, run: seq<Tick>, last: map<string, int>, name: string, key: string, j: nat, k: nat)
    requires PromotionRun(a, run, last, name, key) && j <= k < |run| && On(After(a, run, last, j).revs, name)
    ensures On(After(a, run, last, k).revs, name)
  {
    var facts := seq(|run|, i requires 0 <= i < |run| => On(After(a, run, last, i).revs, name));
    forall i | 0 < i < |run| && facts[i - 1] ensures facts[i] {
      NextOn(a, run, last, name, key, i);
    }
    Persists(facts, j, k);
  }

  // The others cannot get stuck, whatever the increment.
  lemma OthersAreRegular(a: Arithmetic, run: seq<Tick>, last: map<string, int>, name: string, key: string)
    requires PromotionRun(a, run, last, name, key)
    ensures Regular(a, run, last, Others(key))
  {
    forall k | 0 < k < |run| ensures Continues(a, run, last, Others(key), k) {
      assert Continues(a, run, last, Everything, k);
      OnlyInAnyOrder(Others(key), run[k].revs, After(a, run, last, k - 1).revs);
    }
    OthersCanFinish(run[0].revs, name, key);
  }

  lemma OthersCanFinish(revs: seq<Revision>, name: string, key: string)
    requires Heading(revs, name, key)
    ensures AllCanFinish(Only(Others(key), revs))
  {
    forall c | c in Only(Others(key), revs) ensures CanFinish(c) {
      OnlyMember(Others(key), revs, c);
      var i :| 0 <= i < |revs| && Others(key)(Key(revs[i])) && Core(revs[i]) == c;
      assert HeadsFor(revs[i], name, key);
    }
  }

  lemma FewerMarked(run: seq<Tick>, on: string -> bool, marks: seq<nat>)
    requires Marked(run, Everything, marks)
    ensures Marked(run, on, marks)
  {
    forall x | 0 < x < |marks| ensures MarkedAt(run, on, marks, x) {
      assert MarkedAt(run, Everything, marks, x);
    }
  }

  // As many intervals as their distance take all others to their goals.
  lemma OthersArrive(a: Arithmetic, run: seq<Tick>, last: map<string, int>, name: string, key: string,
                     marks: seq<nat>, x: nat, k: nat)
    requires PromotionRun(a, run, last, name, key) && Marked(run, Everything, marks)
    requires Distance(Others(key), run[0].revs) <= x < |marks| && marks[x] <= k < |run|
    ensures OthersArrived(After(a, run, last, k).revs, key)
  {
    OthersAreRegular(a, run, last, name, key);
    FewerMarked(run, Others(key), marks);
    AnyScheduleConverges(a, run, last, Others(key), marks, x, k);
    forall i | 0 <= i < |run[k].revs| ensures Key(After(a, run, last, k).revs[i]) == Key(run[k].revs[i]) {
      OneKept(a, run[k].revs, LastBefore(a, run, last, k), run[k].now, i);
    }
  }

  ghost predicate ArrivedBetween(a: Arithmetic, run: seq<Tick>, last: map<string, int>, key: string, j: nat, k: nat)
    requires k < |run|
  {
    forall e :: j <= e < k ==> OthersArrived(After(a, run, last, e).revs, key)
  }

  lemma OthersStayArrived(a: Arithmetic, run: seq<Tick>, last: map<string, int>, name: string, key: string,
                          marks: seq<nat>, x: nat, k: nat)
    requires PromotionRun(a, run, last, name, key) && Marked(run, Everything, marks)
    requires Distance(Others(key), run[0].revs) <= x < |marks| && k < |run|
    ensures ArrivedBetween(a, run, last, key, marks[x], k)
  {
    forall e | marks[x] <= e < k ensures OthersArrived(After(a, run, last, e).revs, key) {
      OthersArrive(a, run, last, name, key, marks, x, e);
    }
  }

  // Once the others have arrived, one more interval turns the promoted revision on.
  lemma TurnsOn(a: Arithmetic, run: seq<Tick>, last: map<string, int>, name: string, key: string, j: nat, k: nat)
    requires PromotionRun(a, run, last, name, key) && j < k < |run| && IntervalLater(run, Everything, j, k)
    requires ArrivedBetween(a, run, last, key, j, k)
    ensures On(After(a, run, last, k).revs, name)
  {
    RunKeepsHeading(a, run, last, name, key, k);
    if Distance(Just(key), run[k].revs) > 0 {
      TurnWithin(a, run, last, Just(key), j, k);
      var e :| j < e <= k && EffectiveAt(a, run, last, Just(key), e);
      TurnedOn(a, run, last, name, key, e);
      StaysOn(a, run, last, name, key, e, k);
    } else {
      ArrivedIsOn(run[k].revs, name, key);
      TickKeepsOn(a, run[k].revs, LastBefore(a, run, last, k), run[k].now, name, key);
    }
  }

  lemma TurnedOn(a: Arithmetic, run: seq<Tick>, last: map<string, int>, name: string, key: string, e: nat)
    requires PromotionRun(a, run, last, name, key) && 0 < e < |run| && EffectiveAt(a, run, last, Just(key), e)
    requires OthersArrived(After(a, run, last, e - 1).revs, key)
    ensures On(After(a, run, last, e).revs, name)
  {
    RunKeepsHeading(a, run, last, name, key, e - 1);
    assert Continues(a, run, last, Everything, e);
    HeadingReordered(After(a, run, last, e - 1).revs, run[e].revs, name, key);
    JumpsOn(a, run[e].revs, LastBefore(a, run, last, e), run[e].now, name, key);
  }

  lemma ArrivedIsOn(revs: seq<Revision>, name: string, key: string)
    requires Heading(revs, name, key) && Distance(Just(key), revs) <= 0
    ensures On(revs, name)
  {
    DistanceZero(Just(key), revs);
    forall i | 0 <= i < |revs| && revs[i].name == name ensures Current(revs[i]) > 0 {
      assert HeadsFor(revs[i], name, key);
      assert Just(key)(Key(revs[i]));
    }
  }

  ghost predicate TakesAll(a: Arithmetic, revs: seq<Revision>, name: string) {
    var ts := TargetsForApp(a, revs);
    |ts| == |revs| && exists q: nat :: AllTraffic(ts, q) && revs[q].name == name && ts[q].version == Version(revs[q])
  }

  lemma ArrivedTakesAll(a: Arithmetic, revs: seq<Revision>, name: string, key: string)
    requires Float64(a) && Heading(revs, name, key) && On(revs, name) && OthersArrived(revs, key)
    ensures TakesAll(a, revs, name)
  {
    var q := OnePosition(revs, name);
    forall i | 0 <= i < |revs| ensures HeadsFor(revs[i], name, key) && (i != q ==> Current(revs[i]) == 0) {
    }
    AllTargets(revs);
    OneOnTakesAll(a, WeightsOf(Targets(revs)), q);
    assert AllTraffic(TargetsForApp(a, revs), q);
  }

  // As many intervals as the total distance settle a promotion, for every increment from 1 on.
  lemma HeadingArrives(a: Arithmetic, run: seq<Tick>, last: map<string, int>, name: string, key: string,
                       marks: seq<nat>, k: nat)
    requires PromotionRun(a, run, last, name, key) && Marked(run, Everything, marks)
    requires marks != [] && |marks| > Total(run[0].revs) && marks[|marks| - 1] <= k < |run|
    ensures TakesAll(a, After(a, run, last, k).revs, name)
  {
    var n := Distance(Others(key), run[0].revs);
    DistanceOfAll(run[0].revs);
    DistanceSplits(Just(key), Others(key), run[0].revs);
    DistanceZero(Just(key), run[0].revs);
    DistanceZero(Others(key), run[0].revs);
    OthersArrive(a, run, last, name, key, marks, |marks| - 1, k);
    RunKeepsHeading(a, run, last, name, key, k);
    if Distance(Just(key), run[0].revs) == 0 {
      ArrivedIsOn(run[0].revs, name, key);
      TickKeepsOn(a, run[0].revs, last, run[0].now, name, key);
      StaysOn(a, run, last, name, key, 0, k);
    } else {
      LateOn(a, run, last, name, key, marks, n, k);
    }
    ArrivedTakesAll(a, After(a, run, last, k).revs, name, key);
  }

  lemma LateOn(a: Arithmetic, run: seq<Tick>, last: map<string, int>, name: string, key: string,
               marks: seq<nat>, n: nat, k: nat)
    requires PromotionRun(a, run, last, name, key) && Marked(run, Everything, marks)
    requires Distance(Others(key), run[0].revs) <= n && n + 1 < |marks| && marks[|marks| - 1] <= k < |run|
    ensures On(After(a, run, last, k).revs, name)
  {
    assert MarkedAt(run, Everything, marks, n + 1);
    OthersStayArrived(a, run, last, name, key, marks, n, marks[n + 1]);
    TurnsOn(a, run, last, name, key, marks[n], marks[n + 1]);
    MarksGrow(run, marks, n + 1, |marks| - 1);
    StaysOn(a, run, last, name, key, marks[n + 1], k);
  }

  lemma {:induction false} MarksGrow(run: seq<Tick>, marks: seq<nat>, x: nat, y: nat)
    requires Marked(run, Everything, marks) && x <= y < |marks|
    ensures marks[x] <= marks[y]
    decreases y - x
  {
    if x < y {
      MarksGrow(run, marks, x, y - 1);
      assert MarkedAt(run, Everything, marks, y);
    }
  }

  lemma HeadingStarts(revs: seq<Revision>, p: nat, rc: Option<RolloutConfig>)
    requires Promotable(revs, p) && DistinctKeys(revs)
    requires rc.Some? ==> 0 <= rc.value.increment && rc.value.increment / 4 < PROMOTE_WEIGHT
    ensures Heading(AfterPromote(revs, p, rc), revs[p].name, Key(revs[p]))
  {
    var goal := AfterPromote(revs, p, rc);
    CountsOne(goal, revs[p].name, p);
    forall i | 0 <= i < |goal| ensures HeadsFor(goal[i], revs[p].name, Key(revs[p])) {
      assert Key(goal[i]) == Key(revs[i]);
      assert !revs[i].template && Current(revs[i]) >= 0;
    }
  }

  // Promote, then any run of the controller, in any order and at any times, with revisions unready
  // or paused now and then, in which as many intervals go by as the total distance: from then on,
  // after every tick, the promoted revision has all the traffic and every other revision none.
  lemma PromoteAnySchedule(a: Arithmetic, revs: seq<Revision>, p: nat, rc: Option<RolloutConfig>,
                           run: seq<Tick>, last: map<string, int>, marks: seq<nat>, k: nat)
    requires Float64(a) && Promotable(revs, p) && DistinctKeys(revs)
    requires rc.Some? ==> 0 <= rc.value.increment && rc.value.increment / 4 < PROMOTE_WEIGHT
    requires Clocked(run, last) && Shuffled(a, run, last, Everything)
    requires run != [] && Reordered(AfterPromote(revs, p, rc), run[0].revs)
    requires Marked(run, Everything, marks) && |marks| > Total(AfterPromote(revs, p, rc))
    requires marks != [] && marks[|marks| - 1] <= k < |run|
    ensures TakesAll(a, After(a, run, last, k).revs, revs[p].name)
  {
    var goal, name, key := AfterPromote(revs, p, rc), revs[p].name, Key(revs[p]);
    PromotionRuns(a, revs, p, rc, run, last);
    TotalPermutes(Only(Everything, goal), Only(Everything, run[0].revs));
    DistanceOfAll(goal);
    DistanceOfAll(run[0].revs);
    HeadingArrives(a, run, last, name, key, marks, k);
  }

  lemma PromoteKeepsWeights(revs: seq<Revision>, p: nat, rc: Option<RolloutConfig>)
    requires p < |revs| && ComputedWeightsExist(revs)
    ensures ComputedWeightsExist(AfterPromote(revs, p, rc))
  {
    var i :| 0 <= i < |revs| && revs[i].computed.Some?;
    assert AfterPromote(revs, p, rc)[i].computed.Some?;
  }

  lemma PromotionRuns(a: Arithmetic, revs: seq<Revision>, p: nat, rc: Option<RolloutConfig>,
                      run: seq<Tick>, last: map<string, int>)
    requires Float64(a) && Promotable(revs, p) && DistinctKeys(revs)
    requires rc.Some? ==> 0 <= rc.value.increment && rc.value.increment / 4 < PROMOTE_WEIGHT
    requires Clocked(run, last) && Shuffled(a, run, last, Everything)
    requires run != [] && Reordered(AfterPromote(revs, p, rc), run[0].revs)
    ensures PromotionRun(a, run, last, revs[p].name, Key(revs[p]))
  {
    HeadingStarts(revs, p, rc);
    HeadingReordered(AfterPromote(revs, p, rc), run[0].revs, revs[p].name, Key(revs[p]));
    PromoteKeepsWeights(revs, p, rc);
    WeightInAnyOrder(AfterPromote(revs, p, rc), run[0].revs);
    forall k | 0 <= k < |run| ensures ComputedWeightsExist(run[k].revs) {
      WeightsStay(a, run, last, k);
    }
  }

  // What the command plans for 100% is always fit to promote with: the promote weight, and an
  // increment between 1 and four times that weight unless the change is immediate.
  lemma PlanSuitsPromote(a: Arithmetic, svc: Revision, svcs: seq<Revision>, duration: int, pause: bool)
    requires Float64(a) && Generate(a, svc, svcs, 100, duration, pause).Ok?
    ensures
      var plan := Generate(a, svc, svcs, 100, duration, pause).value;
      && plan.weight == PROMOTE_WEIGHT
      && 0 <= plan.rollout.increment && plan.rollout.increment / 4 < PROMOTE_WEIGHT
  {
    var steps := Steps(duration);
    assert StrideValue(PROMOTE_WEIGHT, steps, a.stride(PROMOTE_WEIGHT, steps));
    assert PROMOTE_WEIGHT as real / steps <= PROMOTE_WEIGHT as real;
  }

  lemma {:induction false} SpecsKept(a: Arithmetic, revs: seq<Revision>, last: map<string, int>, times: seq<int>)
    requires Float64(a) && Spaced(revs, times)
    requires times != [] ==> Ready(revs, last, times[0])
    ensures Evolves(revs, Ticks(a, revs, last, times).revs)
    decreases |times|
  {
    if times != [] {
      var st := Pass(a, revs, last, times[0]);
      PassProgress(a, revs, last, times[0]);
      RestOfRun(a, revs, last, times);
      SpecsKept(a, st.revs, st.last, times[1..]);
      EvolvesTransitive(revs, st.revs, Ticks(a, revs, last, times).revs);
    }
  }
}
