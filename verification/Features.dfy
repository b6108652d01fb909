/** The feature controller (pkg/controllers/config/controller.go): which features a configuration
    enables, starting them after what they require, and writing the configuration back. */
module Features {
  import opened Prelude

  datatype Feature = Feature(enabled: bool, description: string, needs: seq<string>)

  type Registry = map<string, Feature>

  // ----- starting features -----

  // A witness that Requires is acyclic: every requirement ranks below the feature.
  ghost predicate Ranked(reg: Registry, rank: string -> nat) {
    forall n, k :: n in reg && 0 <= k < |reg[n].needs| ==> rank(reg[n].needs[k]) < rank(n)
  }

  // Registered, enabled, and so is everything it requires, transitively.
  ghost predicate Startable(reg: Registry, enable: set<string>, rank: string -> nat, n: string)
    requires Ranked(reg, rank)
    decreases rank(n)
  {
    n in reg && n in enable &&
    forall k :: 0 <= k < |reg[n].needs| ==> Startable(reg, enable, rank, reg[n].needs[k])
  }

  // A chain of requirements starting at p[0].
  ghost predicate Chain(reg: Registry, p: seq<string>) {
    p != [] && forall k :: 0 <= k < |p| - 1 ==> p[k] in reg && p[k + 1] in reg[p[k]].needs
  }

  // m is n, or a requirement of it, directly or not.
  ghost predicate Reaches(reg: Registry, n: string, m: string) {
    exists p :: Chain(reg, p) && p[0] == n && p[|p| - 1] == m
  }

  lemma ReachesItself(reg: Registry, n: string)
    ensures Reaches(reg, n, n)
  {
    assert Chain(reg, [n]);
  }

  lemma ReachesThrough(reg: Registry, n: string, k: nat, m: string)
    requires n in reg && k < |reg[n].needs| && Reaches(reg, reg[n].needs[k], m)
    ensures Reaches(reg, n, m)
  {
    var q :| Chain(reg, q) && q[0] == reg[n].needs[k] && q[|q| - 1] == m;
    ChainPrepend(reg, n, q);
    assert ([n] + q)[|[n] + q| - 1] == m;
  }

  lemma ChainPrepend(reg: Registry, n: string, q: seq<string>)
    requires Chain(reg, q) && n in reg && q[0] in reg[n].needs
    ensures Chain(reg, [n] + q)
  {
    var p := [n] + q;
    forall x | 0 <= x < |p| - 1 ensures p[x] in reg && p[x + 1] in reg[p[x]].needs {
      if x > 0 {
        assert q[x - 1] in reg && q[x] in reg[q[x - 1]].needs;
      }
    }
  }

  // Every requirement of a registered feature is registered.
  ghost predicate Closed(reg: Registry) {
    forall n, k :: n in reg && 0 <= k < |reg[n].needs| ==> reg[n].needs[k] in reg
  }

  lemma ClosedChains(reg: Registry, n: string, m: string)
    requires Closed(reg) && n in reg && Reaches(reg, n, m)
    ensures m in reg
  {
    var p :| Chain(reg, p) && p[0] == n && p[|p| - 1] == m;
    if |p| > 1 {
      var q := p[|p| - 2];
      assert q in reg && p[|p| - 2 + 1] in reg[q].needs;
    }
  }

  // The recursive definition is the transitive one: every chain of requirements ends at a
  // registered, enabled feature.
  lemma {:induction false} StartableIffChains(reg: Registry, enable: set<string>, rank: string -> nat, n: string)
    requires Ranked(reg, rank)
    ensures Startable(reg, enable, rank, n)
            <==> forall p :: Chain(reg, p) && p[0] == n ==> p[|p| - 1] in reg && p[|p| - 1] in enable
  {
    if Startable(reg, enable, rank, n) {
      forall p | Chain(reg, p) && p[0] == n ensures p[|p| - 1] in reg && p[|p| - 1] in enable {
        ChainFromStartable(reg, enable, rank, p);
      }
    } else {
      var p := BrokenChain(reg, enable, rank, n);
    }
  }

  lemma {:induction false} ChainFromStartable(reg: Registry, enable: set<string>, rank: string -> nat, p: seq<string>)
    requires Ranked(reg, rank) && Chain(reg, p) && Startable(reg, enable, rank, p[0])
    ensures p[|p| - 1] in reg && p[|p| - 1] in enable
    decreases |p|
  {
    if |p| > 1 {
      var k :| 0 <= k < |reg[p[0]].needs| && reg[p[0]].needs[k] == p[1];
      ChainTail(reg, p);
      ChainFromStartable(reg, enable, rank, p[1..]);
    }
  }

  lemma ChainTail(reg: Registry, p: seq<string>)
    requires Chain(reg, p) && |p| > 1
    ensures Chain(reg, p[1..])
  {
    forall k | 0 <= k < |p[1..]| - 1 ensures p[1..][k] in reg && p[1..][k + 1] in reg[p[1..][k]].needs {
      assert p[k + 1] in reg && p[k + 2] in reg[p[k + 1]].needs;
    }
  }

  lemma {:induction false} BrokenChain(reg: Registry, enable: set<string>, rank: string -> nat, n: string)
    returns (p: seq<string>)
    requires Ranked(reg, rank) && !Startable(reg, enable, rank, n)
    ensures Chain(reg, p) && p[0] == n && !(p[|p| - 1] in reg && p[|p| - 1] in enable)
    decreases rank(n)
  {
    if n !in reg || n !in enable {
      p := [n];
    } else {
      var k :| 0 <= k < |reg[n].needs| && !Startable(reg, enable, rank, reg[n].needs[k]);
      var q := BrokenChain(reg, enable, rank, reg[n].needs[k]);
      p := [n] + q;
      ChainPrepend(reg, n, q);
    }
  }

  // ----- acyclic requirements have a ranking -----

  ghost predicate Cyclic(reg: Registry) {
    exists p :: Chain(reg, p) && |p| >= 2 && p[0] == p[|p| - 1]
  }

  // The length of the longest chain of requirements from n that stays off the path.
  ghost function Height(reg: Registry, n: string, path: set<string>): nat
    decreases reg.Keys - path, 0
  {
    if n !in reg || n in path then 0 else 1 + MaxHeight(reg, reg[n].needs, |reg[n].needs|, path + {n})
  }

  ghost function MaxHeight(reg: Registry, needs: seq<string>, k: nat, path: set<string>): (h: nat)
    requires k <= |needs|
    ensures forall j :: 0 <= j < k ==> Height(reg, needs[j], path) <= h
    decreases reg.Keys - path, k
  {
    if k == 0 then 0
    else
      var h, x := MaxHeight(reg, needs, k - 1, path), Height(reg, needs[k - 1], path);
      if h < x then x else h
  }

  ghost predicate Avoids(reg: Registry, n: string, path: set<string>) {
    forall x :: x in path ==> !Reaches(reg, n, x)
  }

  lemma CycleThrough(reg: Registry, n: string, k: nat)
    requires n in reg && k < |reg[n].needs| && Reaches(reg, reg[n].needs[k], n)
    ensures Cyclic(reg)
  {
    var q :| Chain(reg, q) && q[0] == reg[n].needs[k] && q[|q| - 1] == n;
    ChainPrepend(reg, n, q);
    var p := [n] + q;
    assert Chain(reg, p) && |p| >= 2 && p[0] == p[|p| - 1];
  }

  // Without cycles, nothing on the way to n is a requirement of what n needs.
  lemma NeedsAvoid(reg: Registry, n: string, k: nat, path: set<string>)
    requires !Cyclic(reg) && n in reg && k < |reg[n].needs| && Avoids(reg, n, path)
    ensures Avoids(reg, reg[n].needs[k], path + {n})
  {
    forall x | x in path + {n} ensures !Reaches(reg, reg[n].needs[k], x) {
      if Reaches(reg, reg[n].needs[k], x) {
        if x == n {
          CycleThrough(reg, n, k);
        } else {
          ReachesThrough(reg, n, k, x);
        }
      }
    }
  }

  lemma {:induction false} HeightIgnoresPath(reg: Registry, n: string, path: set<string>, path': set<string>)
    requires !Cyclic(reg) && Avoids(reg, n, path) && Avoids(reg, n, path')
    ensures Height(reg, n, path) == Height(reg, n, path')
    decreases reg.Keys - path, 0
  {
    ReachesItself(reg, n);
    if n in reg {
      forall k | 0 <= k < |reg[n].needs|
        ensures Avoids(reg, reg[n].needs[k], path + {n}) && Avoids(reg, reg[n].needs[k], path' + {n})
      {
        NeedsAvoid(reg, n, k, path);
        NeedsAvoid(reg, n, k, path');
      }
      MaxIgnoresPath(reg, reg[n].needs, |reg[n].needs|, path + {n}, path' + {n});
    }
  }

  lemma {:induction false} MaxIgnoresPath(reg: Registry, needs: seq<string>, k: nat, path: set<string>,
                                          path': set<string>)
    requires !Cyclic(reg) && k <= |needs|
    requires forall j :: 0 <= j < k ==> Avoids(reg, needs[j], path) && Avoids(reg, needs[j], path')
    ensures MaxHeight(reg, needs, k, path) == MaxHeight(reg, needs, k, path')
    decreases reg.Keys - path, k
  {
    if k > 0 {
      MaxIgnoresPath(reg, needs, k - 1, path, path');
      HeightIgnoresPath(reg, needs[k - 1], path, path');
    }
  }

  // Requirements without a cycle can be ranked, and only those.
  lemma AcyclicIffRanked(reg: Registry)
    ensures !Cyclic(reg) <==> exists rank :: Ranked(reg, rank)
  {
    if !Cyclic(reg) {
      var rank := (n: string) => Height(reg, n, {});
      forall n, k | n in reg && 0 <= k < |reg[n].needs| ensures rank(reg[n].needs[k]) < rank(n) {
        NeedsAvoid(reg, n, k, {});
        assert Avoids(reg, reg[n].needs[k], {n}) by { assert {} + {n} == {n}; }
        HeightIgnoresPath(reg, reg[n].needs[k], {n}, {});
        assert {} + {n} == {n};
      }
      assert Ranked(reg, rank);
    }
    if rank: string -> nat :| Ranked(reg, rank) {
      forall p | Chain(reg, p) && |p| >= 2 ensures p[0] != p[|p| - 1] {
        RankFalls(reg, rank, p);
      }
    }
  }

  lemma {:induction false} RankFalls(reg: Registry, rank: string -> nat, p: seq<string>)
    requires Ranked(reg, rank) && Chain(reg, p) && |p| >= 2
    ensures rank(p[|p| - 1]) < rank(p[0])
    decreases |p|
  {
    assert p[0] in reg && p[0 + 1] in reg[p[0]].needs;
    var k :| 0 <= k < |reg[p[0]].needs| && reg[p[0]].needs[k] == p[1];
    if |p| > 2 {
      ChainTail(reg, p);
      RankFalls(reg, rank, p[1..]);
    }
  }

  // Started features are startable, started once, and each after its requirements.
  ghost predicate StartLog(reg: Registry, enable: set<string>, rank: string -> nat, log: seq<string>)
    requires Ranked(reg, rank)
  {
    && Distinct(log)
    && (forall i :: 0 <= i < |log| ==> Startable(reg, enable, rank, log[i]))
    && (forall i, k :: 0 <= i < |log| && log[i] in reg && 0 <= k < |reg[log[i]].needs| ==>
          reg[log[i]].needs[k] in log[..i])
  }

  datatype StartResult =
    | Started
    | Missing(name: string)    // a requirement is not enabled
    | Unknown(name: string)    // a requirement is not registered
    | Failed(name: string)     // Start returned an error

  // ----- the effective configuration -----

  datatype FeatureConfig = FeatureConfig(enabled: Option<bool>, description: string, options: map<string, string>)

  // The features section of the config map; None when the config map holds no data yet.
  type Config = Option<map<string, FeatureConfig>>

  const WILDCARD := "*"

  predicate Says(fs: map<string, FeatureConfig>, n: string) {
    n in fs && fs[n].enabled.Some?
  }

  // An explicit setting wins over the wildcard, which wins over the default.
  predicate EnabledBy(reg: Registry, cfg: Config, n: string) {
    if cfg.Some? && Says(cfg.value, n) then cfg.value[n].enabled.value
    else if cfg.Some? && Says(cfg.value, WILDCARD) then cfg.value[WILDCARD].enabled.value && n in reg
    else n in reg && reg[n].enabled
  }

  function Names(reg: Registry, cfg: Config): set<string> {
    reg.Keys + if cfg.Some? then cfg.value.Keys else {}
  }

  function EnabledSet(reg: Registry, cfg: Config): (s: set<string>)
    ensures forall n :: n in s <==> EnabledBy(reg, cfg, n)
  {
    set n | n in Names(reg, cfg) && EnabledBy(reg, cfg, n)
  }

  // What updateConfigMap writes for one name: a registered feature becomes explicit.
  function Entry(reg: Registry, cfg: Config, state: set<string>, n: string): FeatureConfig {
    var prev := if cfg.Some? && n in cfg.value then cfg.value[n] else FeatureConfig(None, "", map[]);
    if n in reg then FeatureConfig(Some(n in state), reg[n].description, prev.options) else prev
  }

  function Written(reg: Registry, cfg: Config, state: set<string>): map<string, FeatureConfig> {
    map n | n in Names(reg, cfg) :: Entry(reg, cfg, state, n)
  }

  // Reading back the controller's own write gives the same features as before.
  lemma ReadBack(reg: Registry, cfg: Config)
    ensures EnabledSet(reg, Some(Written(reg, cfg, EnabledSet(reg, cfg)))) == EnabledSet(reg, cfg)
  {
    var s := EnabledSet(reg, cfg);
    var cfg' := Some(Written(reg, cfg, s));
    forall n ensures EnabledBy(reg, cfg', n) == EnabledBy(reg, cfg, n) {
    }
    assert forall n :: n in EnabledSet(reg, cfg') <==> n in s;
  }

  // Writing again changes nothing, and options and unregistered entries survive every write.
  lemma WriteIsIdempotent(reg: Registry, cfg: Config, state: set<string>)
    ensures
      var fs := Written(reg, cfg, state);
      && Written(reg, Some(fs), state) == fs
      && (cfg.Some? ==> forall n :: n in cfg.value ==>
            n in fs && fs[n].options == cfg.value[n].options && (n !in reg ==> fs[n] == cfg.value[n]))
  {
    var fs := Written(reg, cfg, state);
    assert Names(reg, Some(fs)) == fs.Keys;
  }

  // ----- the controller -----

  datatype Outcome = Unchanged | Exit | Applied(started: seq<string>) | Error(result: StartResult)

  class FeatureHandler {
    const registry: Registry
    const failing: string -> bool       // whether a feature's Start returns an error
    var featureState: Option<set<string>>
    var started: seq<string>            // the Start calls of the current pass, in order

    constructor (registry: Registry, failing: string -> bool)
      ensures this.registry == registry && this.failing == failing && featureState == None
    {
      this.registry, this.failing, featureState, started := registry, failing, None, [];
    }

    method Start(enable: set<string>, n: string, ghost rank: string -> nat) returns (r: StartResult)
      requires Ranked(registry, rank) && StartLog(registry, enable, rank, started)
      modifies this`started
      ensures old(started) <= started && StartLog(registry, enable, rank, started)
      ensures forall m :: m in started && m !in old(started) ==> rank(m) <= rank(n)
      ensures r.Started? ==> n in started
      ensures r.Missing? ==> r.name in registry && r.name !in enable && !Startable(registry, enable, rank, n)
      ensures r.Unknown? ==> r.name !in registry && !Startable(registry, enable, rank, n)
      ensures r.Failed? ==> r.name in registry && r.name in enable && failing(r.name)
      ensures !r.Started? ==> Reaches(registry, n, r.name)
      decreases rank(n)
    {
      if n in started {
        return Started;
      }
      ReachesItself(registry, n);
      if n !in registry {
        return Unknown(n);
      }
      var needs := registry[n].needs;
      for k := 0 to |needs|
        invariant old(started) <= started && StartLog(registry, enable, rank, started)
        invariant forall m :: m in started && m !in old(started) ==> rank(m) < rank(n)
        invariant forall j :: 0 <= j < k ==> needs[j] in started
      {
        r := Start(enable, needs[k], rank);
        if !r.Started? {
          ReachesThrough(registry, n, k, r.name);
          return;
        }
      }
      if n in enable {
        AppendStarted(registry, enable, rank, started, n);
        started := started + [n];
        return if failing(n) then Failed(n) else Started;
      }
      return Missing(n);
    }

    // getFeatureConfig, with the registry and the configuration visited in any order.
    method GetFeatureConfig(order: seq<string>, cfg: Config) returns (enabled: set<string>)
      requires Enumerates(order, registry)
      ensures enabled == EnabledSet(registry, cfg)
    {
      var all := {};
      enabled := {};
      for i := 0 to |order|
        invariant all == set n | n in order[..i]
        invariant enabled == set n | n in order[..i] && registry[n].enabled
      {
        all := all + {order[i]};
        if registry[order[i]].enabled {
          enabled := enabled + {order[i]};
        }
      }
      assert order[..|order|] == order;
      if cfg.None? {
        return;
      }
      var fs := cfg.value;
      if Says(fs, WILDCARD) {
        if fs[WILDCARD].enabled.value {
          enabled := enabled + all;
        } else {
          enabled := {};
        }
      }
      ghost var base := enabled;
      var names := fs.Keys;
      while names != {}
        invariant names <= fs.Keys
        invariant forall n :: n in enabled <==>
          if n in fs && n !in names && Says(fs, n) then fs[n].enabled.value else n in base
      {
        var n :| n in names;
        names := names - {n};
        if fs[n].enabled.Some? {
          if !fs[n].enabled.value {
            enabled := enabled - {n};
          } else {
            enabled := enabled + {n};
          }
        }
      }
    }

    // updateConfigMap, visiting the registry in any order.
    method UpdateConfigMap(order: seq<string>, cfg: Config, state: set<string>) returns (fs: map<string, FeatureConfig>)
      requires Enumerates(order, registry)
      ensures fs == Written(registry, cfg, state)
    {
      fs := if cfg.Some? then cfg.value else map[];
      ghost var orig, done := fs, {};
      for i := 0 to |order|
        invariant done == set n | n in order[..i]
        invariant fs.Keys == orig.Keys + done
        invariant forall n :: n in fs ==> fs[n] == if n in done then Entry(registry, cfg, state, n) else orig[n]
      {
        var n := order[i];
        var f := if n in fs then fs[n] else FeatureConfig(None, "", map[]);
        assert n !in order[..i];
        fs := fs[n := FeatureConfig(Some(n in state), registry[n].description, f.options)];
        done := done + {n};
      }
      assert order[..|order|] == order;
      assert done == registry.Keys;
    }

    // onChange for the controller's config map.  `cfg'` is the config map afterwards.
    method OnChange(cfg: Config, order: seq<string>, ghost rank: string -> nat) returns (o: Outcome, cfg': Config)
      requires Enumerates(order, registry) && Ranked(registry, rank)
      modifies this
      ensures old(featureState).Some? ==>
        && o == (if old(featureState).value == EnabledSet(registry, cfg) then Unchanged else Exit)
        && cfg' == cfg && featureState == old(featureState)
      ensures old(featureState).None? ==> o.Applied? || o.Error?
      ensures o.Applied? ==>
        && featureState == Some(EnabledSet(registry, cfg))
        && cfg' == Some(Written(registry, cfg, EnabledSet(registry, cfg)))
        && StartLog(registry, EnabledSet(registry, cfg), rank, o.started)
        && (forall n :: n in registry ==>
              (n in o.started <==> Startable(registry, EnabledSet(registry, cfg), rank, n)))
      ensures o.Error? ==>
        && featureState == None && cfg' == cfg
        && ((o.result.Unknown? && !Closed(registry)) || (o.result.Failed? && failing(o.result.name)))
        && (exists n :: n in registry && Reaches(registry, n, o.result.name))
      ensures old(featureState).None? && Closed(registry) && (forall n :: n in registry ==> !failing(n)) ==> o.Applied?
    {
      cfg' := cfg;
      var newState := GetFeatureConfig(order, cfg);
      if featureState.Some? {
        o := if featureState.value == newState then Unchanged else Exit;
        return;
      }
      started := [];
      for i := 0 to |order|
        invariant featureState == None
        invariant StartLog(registry, newState, rank, started)
        invariant forall j :: 0 <= j < i && Startable(registry, newState, rank, order[j]) ==> order[j] in started
      {
        if order[i] in newState {
          var r := Start(newState, order[i], rank);
          if r.Unknown? || r.Failed? {
            if Closed(registry) {
              ClosedChains(registry, order[i], r.name);
            }
            return Error(r), cfg;
          }
        }
      }
      featureState := Some(newState);
      var fs := UpdateConfigMap(order, cfg, newState);
      o, cfg' := Applied(started), Some(fs);
    }
  }

  // The registry's names, each once, in an arbitrary order.
  ghost predicate Enumerates(order: seq<string>, reg: Registry) {
    Distinct(order) && forall n :: n in order <==> n in reg
  }

  lemma AppendStarted(reg: Registry, enable: set<string>, rank: string -> nat, log: seq<string>, n: string)
    requires Ranked(reg, rank) && StartLog(reg, enable, rank, log)
    requires n in reg && n in enable && n !in log
    requires forall k :: 0 <= k < |reg[n].needs| ==> reg[n].needs[k] in log
    ensures StartLog(reg, enable, rank, log + [n])
  {
    var log' := log + [n];
    forall k | 0 <= k < |reg[n].needs| ensures Startable(reg, enable, rank, reg[n].needs[k]) {
      assert reg[n].needs[k] in log;
      var i :| 0 <= i < |log| && log[i] == reg[n].needs[k];
    }
    forall i, k | 0 <= i < |log'| && log'[i] in reg && 0 <= k < |reg[log'[i]].needs|
      ensures reg[log'[i]].needs[k] in log'[..i]
    {
      assert log'[..i] == if i < |log| then log[..i] else log;
    }
  }

  // The controller never exits because of its own write: the next change event finds the
  // features unchanged, in any order of visiting.
  method ChangeThenOwnWrite(f: FeatureHandler, cfg: Config, order: seq<string>, order': seq<string>,
                            ghost rank: string -> nat)
    returns (first: Outcome, second: Outcome)
    requires Enumerates(order, f.registry) && Enumerates(order', f.registry) && Ranked(f.registry, rank)
    requires f.featureState.None?
    modifies f
    ensures first.Applied? ==> second == Unchanged
  {
    var cfg';
    first, cfg' := f.OnChange(cfg, order, rank);
    ReadBack(f.registry, cfg);
    second, cfg' := f.OnChange(cfg', order', rank);
  }
}
