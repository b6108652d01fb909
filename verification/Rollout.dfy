/** The rollout controller (modules/service/controllers/rollout/controller.go).

    `Pass` gives the state after one call of the handler on the revisions of one app; the
    class `RolloutHandler` performs the same pass in place, on shared service objects and its
    own `lastWrite` map.  A call is one atomic step at a single clock reading `now`. */
module Rollout {
  import opened Prelude
  import opened Services
  import opened Float64Model

  const PROMOTE_WEIGHT := 10000

  // ----- reading one revision -----

  function Key(r: Revision): string {
    r.namespace + "-" + r.app + "-" + r.name
  }

  predicate BlocksRollout(r: Revision) {
    r.rollout.Some? && r.rollout.value.pause
  }

  predicate IncrementalRollout(r: Revision) {
    r.rollout.Some? && r.rollout.value.increment != 0 && r.rollout.value.intervalSeconds != 0
  }

  // The weight in force; an unset weight counts as zero.
  function Current(r: Revision): int {
    if r.computed.Some? then r.computed.value else 0
  }

  predicate AtGoal(r: Revision) {
    r.weight.None? || r.weight.value == Current(r)
  }

  // An absent entry is Go's zero time, which lies more than any interval in the past.
  predicate Due(r: Revision, last: map<string, int>, now: int)
    requires r.rollout.Some?
  {
    Key(r) in last ==> now >= last[Key(r)] + r.rollout.value.intervalSeconds * SECOND
  }

  // ----- reading the whole app -----

  predicate ComputedWeightsExist(revs: seq<Revision>) {
    exists i :: 0 <= i < |revs| && revs[i].computed.Some?
  }

  predicate Holds(r: Revision) {
    BlocksRollout(r) || (!r.ready && r.weight.Some? && r.weight.value > 0)
  }

  predicate Blocked(revs: seq<Revision>) {
    exists i :: 0 <= i < |revs| && Holds(revs[i])
  }

  predicate AllOtherServicesOff(name: string, revs: seq<Revision>) {
    forall j :: 0 <= j < |revs| && revs[j].name != name ==> Current(revs[j]) <= 0
  }

  // ----- one pass, as a function -----

  datatype State = State(revs: seq<Revision>, last: map<string, int>, updates: seq<string>)

  function SplitWeight(n: nat, i: nat): int
    requires i < n
  {
    if i != n - 1 then PROMOTE_WEIGHT / n else PROMOTE_WEIGHT - (n - 1) * (PROMOTE_WEIGHT / n)
  }

  function InitialSplit(revs: seq<Revision>): (s: seq<Revision>)
    ensures |s| == |revs|
  {
    seq(|revs|, i requires 0 <= i < |revs| => revs[i].(computed := Some(SplitWeight(|revs|, i))))
  }

  function Keys(revs: seq<Revision>): seq<string> {
    seq(|revs|, i requires 0 <= i < |revs| => Key(revs[i]))
  }

  // The weight a due revision gets: the whole gap, or one scaled increment of it.
  // `off` says whether all other services are off.
  function NextWeight(a: Arithmetic, off: bool, r: Revision): int
    requires r.weight.Some?
  {
    var gap := r.weight.value - Current(r);
    if IncrementalRollout(r) && !(Abs(gap) < r.rollout.value.increment || (gap > 0 && off))
    then
      var step := a.flux(r.rollout.value.increment, r.weight.value, Current(r));
      Current(r) + (if gap < 0 then -step else step)
    else
      r.weight.value
  }

  function AdjustOne(a: Arithmetic, st: State, i: nat, now: int): (st': State)
    requires i < |st.revs|
    ensures |st'.revs| == |st.revs|
  {
    var r := st.revs[i];
    if AtGoal(r) then
      st
    else if IncrementalRollout(r) && !Due(r, st.last, now) then
      st.(revs := st.revs[i := r.(computed := Some(Current(r)))])
    else
      State(st.revs[i := r.(computed := Some(NextWeight(a, AllOtherServicesOff(r.name, st.revs), r)))],
            if IncrementalRollout(r) then st.last[Key(r) := now] else st.last,
            st.updates + [Key(r)])
  }

  function AdjustFrom(a: Arithmetic, st: State, i: nat, now: int): (st': State)
    requires i <= |st.revs|
    ensures |st'.revs| == |st.revs|
    decreases |st.revs| - i
  {
    if i == |st.revs| then st else AdjustFrom(a, AdjustOne(a, st, i, now), i + 1, now)
  }

  function Start(revs: seq<Revision>, last: map<string, int>): (st: State)
    ensures |st.revs| == |revs|
  {
    if ComputedWeightsExist(revs) then State(revs, last, [])
    else State(InitialSplit(revs), last, Keys(revs))
  }

  function Pass(a: Arithmetic, revs: seq<Revision>, last: map<string, int>, now: int): (st: State)
    ensures |st.revs| == |revs|
  {
    var st := Start(revs, last);
    if Blocked(revs) then st else AdjustFrom(a, st, 0, now)
  }

  // ----- the handler -----

  // How a call ends: the service is gone, has no app name, could not be looked up, or a status
  // update failed; otherwise all is done.
  datatype Reply = Gone | Skip | IndexError | UpdateError | Done

  function Found(byApp: Option<seq<Service>>): seq<Service> {
    if byApp.Some? then byApp.value else []
  }

  // Templates never carry weight.
  function NonTemplates(all: seq<Service>): seq<Service> {
    if all == [] then []
    else NonTemplates(all[..|all| - 1]) + (if all[|all| - 1].template then [] else [all[|all| - 1]])
  }

  lemma {:induction false} NonTemplatesKept(all: seq<Service>)
    requires Distinct(all)
    ensures Distinct(NonTemplates(all))
    ensures forall s | s in NonTemplates(all) :: s in all && !s.template
  {
    if all != [] {
      var init, s := all[..|all| - 1], all[|all| - 1];
      NonTemplatesKept(init);
      assert s !in init;
    }
  }

  class RolloutHandler {
    var lastWrite: map<string, int>

    constructor ()
      ensures lastWrite == map[]
    {
      lastWrite := map[];
    }

    // `svc` is the changed service, absent if it is gone or being deleted; `byApp` is what the
    // service-by-app index returns, absent on an error; `fails` says which status updates fail;
    // `written` are the services whose status the API server has accepted, in order.
    method Rollout(a: Arithmetic, svc: Option<Revision>, byApp: Option<seq<Service>>, fails: string -> bool, now: int)
      returns (reply: Reply, svcs: seq<Service>, written: seq<Service>)
      requires Distinct(Found(byApp))
      modifies this, (set s | s in Found(byApp))`computed
      ensures reply.Gone? <==> svc.None?
      ensures reply.Skip? <==> svc.Some? && App(svc.value) == ""
      ensures reply.IndexError? <==> svc.Some? && App(svc.value) != "" && byApp.None?
      ensures svcs == if reply.Done? || reply.UpdateError? then NonTemplates(Found(byApp)) else []
      ensures
        var st := Pass(a, old(Views(svcs)), old(lastWrite), now);
        && Views(svcs) == st.revs
        && lastWrite == st.last
        && Sent(Selected(svcs, st.updates), fails, written)
        && (reply.UpdateError? <==> written != Selected(svcs, st.updates))
      ensures forall s | s in Found(byApp) && s !in svcs :: s.computed == old(s.computed)
    {
      svcs, written := [], [];
      if svc.None? {
        return Gone, svcs, written;
      }
      if App(svc.value) == "" {
        return Skip, svcs, written;
      }
      if byApp.None? {
        return IndexError, svcs, written;
      }
      svcs := FilterTemplates(byApp.value);
      assert Views(svcs) == old(Views(svcs));
      written, reply := RolloutAll(a, svcs, fails, now);
    }

    method RolloutAll(a: Arithmetic, svcs: seq<Service>, fails: string -> bool, now: int)
      returns (written: seq<Service>, reply: Reply)
      requires Distinct(svcs)
      modifies this, (set s | s in svcs)`computed
      ensures
        var st := Pass(a, old(Views(svcs)), old(lastWrite), now);
        && Views(svcs) == st.revs
        && lastWrite == st.last
        && Sent(Selected(svcs, st.updates), fails, written)
        && reply == if written == Selected(svcs, st.updates) then Done else UpdateError
    {
      var updatedNeeded := StartWeights(svcs);
      SplitKeepsSpecs(old(Views(svcs)));
      var blocked := AnyHolds(svcs);
      if !blocked {
        updatedNeeded := AdjustAll(a, svcs, updatedNeeded, now);
      }
      written := UpdateServices(svcs, updatedNeeded, fails);
      reply := if written == Selected(svcs, updatedNeeded) then Done else UpdateError;
    }

    method StartWeights(svcs: seq<Service>) returns (needed: seq<string>)
      requires Distinct(svcs)
      modifies (set s | s in svcs)`computed
      ensures State(Views(svcs), lastWrite, needed) == Start(old(Views(svcs)), old(lastWrite))
    {
      needed := [];
      var computed := AnyComputed(svcs);
      if !computed {
        needed := SplitEvenly(svcs);
      }
    }

    method AdjustAll(a: Arithmetic, svcs: seq<Service>, needed: seq<string>, now: int) returns (needed': seq<string>)
      requires Distinct(svcs)
      modifies this, (set s | s in svcs)`computed
      ensures State(Views(svcs), lastWrite, needed')
              == AdjustFrom(a, State(old(Views(svcs)), old(lastWrite), needed), 0, now)
    {
      needed' := needed;
      ghost var goal := AdjustFrom(a, State(Views(svcs), lastWrite, needed), 0, now);
      for i := 0 to |svcs|
        invariant AdjustFrom(a, State(Views(svcs), lastWrite, needed'), i, now) == goal
      {
        needed' := Adjust(a, svcs, i, svcs[i], needed', now);
      }
    }

    method Adjust(a: Arithmetic, svcs: seq<Service>, i: nat, s: Service, needed: seq<string>, now: int)
      returns (needed': seq<string>)
      requires Distinct(svcs) && i < |svcs| && s == svcs[i]
      modifies this, s`computed
      ensures State(Views(svcs), lastWrite, needed')
              == AdjustOne(a, State(old(Views(svcs)), old(lastWrite), needed), i, now)
    {
      needed' := needed;
      var r := s.View();
      assert old(Views(svcs))[i] == r;
      if AtGoal(r) {
        return;
      }
      var off := OthersOff(s, svcs);
      if s.computed.None? {
        s.computed := Some(0);
      }
      var computedWeight := s.computed.value;
      var weightToAdjust := s.weight.value - computedWeight;
      if IncrementalRollout(r) {
        if !Due(r, lastWrite, now) {
          assert Views(svcs) == old(Views(svcs))[i := s.View()];
          return;
        }
        if Abs(weightToAdjust) < s.rollout.value.increment || (weightToAdjust > 0 && off) {
          computedWeight := computedWeight + weightToAdjust;
        } else {
          var oneIncrement := a.flux(s.rollout.value.increment, s.weight.value, computedWeight);
          if weightToAdjust < 0 {
            oneIncrement := -oneIncrement;
          }
          computedWeight := computedWeight + oneIncrement;
        }
        s.computed := Some(computedWeight);
        lastWrite := lastWrite[Key(r) := now];
      } else {
        s.computed := Some(s.computed.value + weightToAdjust);
      }
      needed' := needed' + [Key(r)];
      assert Views(svcs) == old(Views(svcs))[i := s.View()];
    }
  }

  // The even split touches only computed weights, so it does not change what blocks a rollout.
  lemma SplitKeepsSpecs(revs: seq<Revision>)
    ensures Blocked(InitialSplit(revs)) == Blocked(revs)
  {
    var s := InitialSplit(revs);
    assert forall i :: 0 <= i < |revs| ==> Holds(s[i]) == Holds(revs[i]);
  }

  method FilterTemplates(all: seq<Service>) returns (svcs: seq<Service>)
    requires Distinct(all)
    ensures svcs == NonTemplates(all) && Distinct(svcs)
    ensures forall s | s in svcs :: s in all && !s.template
  {
    svcs := [];
    for i := 0 to |all|
      invariant svcs == NonTemplates(all[..i])
    {
      assert all[..i + 1][..i] == all[..i];
      if !all[i].template {
        svcs := svcs + [all[i]];
      }
    }
    assert all[..|all|] == all;
    NonTemplatesKept(all);
  }

  method AnyComputed(svcs: seq<Service>) returns (b: bool)
    ensures b == ComputedWeightsExist(Views(svcs))
  {
    for i := 0 to |svcs|
      invariant forall j :: 0 <= j < i ==> Views(svcs)[j].computed.None?
    {
      assert Views(svcs)[i] == svcs[i].View();
      if svcs[i].computed.Some? {
        return true;
      }
    }
    return false;
  }

  method AnyHolds(svcs: seq<Service>) returns (b: bool)
    ensures b == Blocked(Views(svcs))
  {
    for i := 0 to |svcs|
      invariant forall j :: 0 <= j < i ==> !Holds(Views(svcs)[j])
    {
      assert Views(svcs)[i] == svcs[i].View();
      if Holds(svcs[i].View()) {
        return true;
      }
    }
    return false;
  }

  method OthersOff(curr: Service, svcs: seq<Service>) returns (off: bool)
    ensures off == AllOtherServicesOff(curr.name, Views(svcs))
  {
    for i := 0 to |svcs|
      invariant forall j :: 0 <= j < i && Views(svcs)[j].name != curr.name ==> Current(Views(svcs)[j]) <= 0
    {
      assert Views(svcs)[i] == svcs[i].View();
      if svcs[i].name != curr.name && svcs[i].computed.Some? && svcs[i].computed.value > 0 {
        return false;
      }
    }
    return true;
  }

  method SplitEvenly(svcs: seq<Service>) returns (needed: seq<string>)
    requires Distinct(svcs)
    modifies (set s | s in svcs)`computed
    ensures Views(svcs) == InitialSplit(old(Views(svcs)))
    ensures needed == Keys(old(Views(svcs)))
  {
    needed := [];
    if |svcs| == 0 {
      return;
    }
    var added, add := 0, PROMOTE_WEIGHT / |svcs|;
    for i := 0 to |svcs|
      invariant added == (if i == |svcs| then i - 1 else i) * add
      invariant needed == Keys(old(Views(svcs)))[..i]
      invariant forall j :: 0 <= j < |svcs| ==>
        svcs[j].View() == if j < i then InitialSplit(old(Views(svcs)))[j] else old(Views(svcs))[j]
    {
      if i != |svcs| - 1 {
        svcs[i].computed := Some(add);
        added := added + add;
      } else {
        svcs[i].computed := Some(PROMOTE_WEIGHT - added);
      }
      needed := needed + [Key(svcs[i].View())];
    }
  }

  function Selected(svcs: seq<Service>, keys: seq<string>): seq<Service>
    reads svcs
  {
    if svcs == [] then []
    else (if Key(svcs[0].View()) in keys then [svcs[0]] else []) + Selected(svcs[1..], keys)
  }

  // Updates go out in order and stop at the first one that fails.
  predicate Sent(due: seq<Service>, fails: string -> bool, written: seq<Service>)
    reads due, written
  {
    && written <= due
    && (forall s | s in written :: !fails(Key(s.View())))
    && (written != due ==> fails(Key(due[|written|].View())))
  }

  method UpdateServices(svcs: seq<Service>, needed: seq<string>, fails: string -> bool) returns (written: seq<Service>)
    ensures Sent(Selected(svcs, needed), fails, written)
  {
    written := [];
    for i := 0 to |svcs|
      invariant written + Selected(svcs[i..], needed) == Selected(svcs, needed)
      invariant forall s | s in written :: !fails(Key(s.View()))
    {
      assert svcs[i..][1..] == svcs[i + 1..];
      if Key(svcs[i].View()) in needed {
        if fails(Key(svcs[i].View())) {
          return;
        }
        written := written + [svcs[i]];
      }
    }
  }
}
