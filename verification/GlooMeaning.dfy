/** What happens to a request: the reading of a router rule (the comments of
    pkg/apis/rio.cattle.io/v1/router.go), the reading of a Gloo route (the comments of its API),
    and exactly which rules the translation carries over unchanged. */
module GlooMeaning {
  import opened Prelude
  import opened Strings
  import opened Gloo
  import opened GlooRouter

  // ----- what can happen to a request -----

  datatype Target = Target(ref: Ref, port: nat, weight: int)

  // Times are nanoseconds; faults come with the percentage of requests they hit.
  datatype Policy = Policy(timeout: Option<int>, attempts: Option<int>, perTryTimeout: Option<int>,
                           abort: Option<(int, int)>, delay: Option<(int, int)>)

  const NO_POLICY := Policy(None, None, None, None, None)

  datatype Fate =
    | Forwarded(targets: seq<Target>, sent: Request, policy: Policy, mirror: Option<Ref>)
    | Redirected(scheme: string, host: string, path: string)
    | Delegated(ref: Ref)
    | Unrouted

  // ----- the reading of a rule -----

  function ValuesFor(nvs: seq<(string, string)>, name: string): seq<string> {
    if nvs == [] then []
    else ValuesFor(nvs[..|nvs| - 1], name) + (if nvs[|nvs| - 1].0 == name then [nvs[|nvs| - 1].1] else [])
  }

  // The values of one header: what the request brings unless it is removed, then the values added
  // and the values set.
  function HeaderValues(ops: HeaderOps, headers: map<string, string>, name: string): seq<string> {
    (if name in headers && name !in ops.remove then [headers[name]] else [])
    + ValuesFor(ops.add, name) + ValuesFor(ops.set_, name)
  }

  function NamesIn(nvs: seq<(string, string)>): set<string> {
    set i | 0 <= i < |nvs| :: nvs[i].0
  }

  // Several values make a comma-separated list.
  function RuleHeaders(ops: HeaderOps, headers: map<string, string>): map<string, string> {
    map name | name in headers.Keys + NamesIn(ops.add) + NamesIn(ops.set_) && HeaderValues(ops, headers, name) != []
      :: Join(HeaderValues(ops, headers, name), ",")
  }

  function Rewritten(rewrite: Option<Rewrite>, req: Request): Request {
    if rewrite.None? then req
    else req.(path := if rewrite.value.path != "" then rewrite.value.path else req.path,
              host := if rewrite.value.host != "" then rewrite.value.host else req.host)
  }

  function RuleRequest(rule: Rule, req: Request): Request {
    var sent := Rewritten(rule.rewrite, req);
    if rule.headers.Some? then sent.(headers := RuleHeaders(rule.headers.value, req.headers)) else sent
  }

  function RulePolicy(rule: Rule): Policy {
    Policy(
      Timeout(rule),
      if rule.retry.Some? then Some(rule.retry.value.attempts) else None,
      if rule.retry.Some? then Some(rule.retry.value.timeoutSeconds * SECOND) else None,
      if rule.fault.Some? && rule.fault.value.abortHTTPStatus > 0
      then Some((rule.fault.value.percentage, rule.fault.value.abortHTTPStatus)) else None,
      if rule.fault.Some? && rule.fault.value.delayMillis > 0
      then Some((rule.fault.value.percentage, rule.fault.value.delayMillis * MILLISECOND)) else None)
  }

  // Weights share the traffic out among several destinations; a single one has it all.
  function RuleTargets(env: Env, namespace: string, to: seq<WeightedDestination>): (ts: seq<Target>)
    ensures |ts| == |to|
  {
    seq(|to|, i requires 0 <= i < |to| =>
      Target(DestinationToRef(env, namespace, to[i].destination), PortOf(to[i].destination),
             if |to| == 1 then 1 else to[i].weight))
  }

  function RedirectTo(r: Redirect, req: Request): Fate {
    Redirected(if r.toHTTPS then "https" else req.scheme,
               if r.host != "" then r.host else req.host,
               if r.path != "" then r.path else req.path)
  }

  // A rule forwards by default, also to its mirror, or else redirects.
  function RuleFate(env: Env, namespace: string, rule: Rule, req: Request): Fate {
    if rule.to != [] then
      Forwarded(RuleTargets(env, namespace, rule.to), RuleRequest(rule, req), RulePolicy(rule),
                if rule.mirror.Some? then Some(DestinationToRef(env, namespace, rule.mirror.value)) else None)
    else if rule.redirect.Some? then RedirectTo(rule.redirect.value, req)
    else Unrouted
  }

  // ----- the reading of a route -----

  function RemoveHeaders(headers: map<string, string>, remove: seq<string>): map<string, string> {
    map name | name in headers && name !in remove :: headers[name]
  }

  // A value is appended to an existing one unless the option says otherwise.
  function AddHeader(headers: map<string, string>, h: HeaderValue): map<string, string> {
    if h.key in headers && (h.append.Some? ==> h.append.value)
    then headers[h.key := headers[h.key] + "," + h.value]
    else headers[h.key := h.value]
  }

  function AddHeaders(headers: map<string, string>, hs: seq<HeaderValue>): map<string, string> {
    if hs == [] then headers else AddHeader(AddHeaders(headers, hs[..|hs| - 1]), hs[|hs| - 1])
  }

  // The proxy removes first and then adds in order.
  function Manipulated(headers: map<string, string>, m: Manipulation): map<string, string> {
    AddHeaders(RemoveHeaders(headers, m.remove), m.add)
  }

  // The proxy swaps the part of the path that the route matched: the prefix, or all of it.
  function Swapped(spec: PathSpec, path: string, value: string): string {
    if spec.PathPrefix? && spec.prefix <= path then value + path[|spec.prefix|..] else value
  }

  function RouteRequest(spec: PathSpec, options: Options, req: Request): Request {
    req.(
      path := if options.prefixRewrite.Some? then Swapped(spec, req.path, options.prefixRewrite.value) else req.path,
      host := if options.hostRewrite.Some? then options.hostRewrite.value else req.host,
      headers :=
        if options.manipulation.Some? then Manipulated(req.headers, options.manipulation.value) else req.headers)
  }

  function RoutePolicy(options: Options): Policy {
    Policy(
      options.timeout,
      if options.retries.Some? then Some(options.retries.value.attempts) else None,
      if options.retries.Some? then Some(options.retries.value.perTryTimeout) else None,
      if options.faults.Some? && options.faults.value.abort.Some?
      then Some((options.faults.value.abort.value.0, options.faults.value.abort.value.1)) else None,
      if options.faults.Some? then options.faults.value.delay else None)
  }

  function RouteTargets(ds: seq<(Ref, nat, nat)>): (ts: seq<Target>)
    ensures |ts| == |ds|
  {
    seq(|ds|, i requires 0 <= i < |ds| => Target(ds[i].0, ds[i].1, ds[i].2))
  }

  function RouteFate(r: Route, req: Request): Fate {
    var options := if r.options.Some? then r.options.value else NO_OPTIONS;
    var spec := if r.matchers != [] then r.matchers[0].path else NoPath;
    match r.action
    case NoAction => Unrouted
    case RedirectAction(host, https, path) =>
      Redirected(if https then "https" else req.scheme, if host != "" then host else req.host,
                 if path.Some? then path.value else req.path)
    case DelegateAction(ref) => Delegated(ref)
    case SingleAction(ref, port) =>
      Forwarded([Target(ref, port, 1)], RouteRequest(spec, options, req), RoutePolicy(options), None)
    case MultiAction(ds) =>
      Forwarded(RouteTargets(ds), RouteRequest(spec, options, req), RoutePolicy(options), None)
  }

  // ----- headers -----

  function Lookup(headers: map<string, string>, name: string): Option<string> {
    if name in headers then Some(headers[name]) else None
  }

  function Listed(values: seq<string>): Option<string> {
    if values == [] then None else Some(Join(values, ","))
  }

  function KeyValues(hs: seq<HeaderValue>, name: string): seq<string> {
    if hs == [] then []
    else KeyValues(hs[..|hs| - 1], name) + (if hs[|hs| - 1].key == name then [hs[|hs| - 1].value] else [])
  }

  predicate Appending(hs: seq<HeaderValue>) {
    forall i :: 0 <= i < |hs| ==> hs[i].append.Some? ==> hs[i].append.value
  }

  // Adding one by one makes a list of all values, in order.
  lemma {:induction false} AddedAreListed(headers: map<string, string>, hs: seq<HeaderValue>, name: string)
    requires Appending(hs)
    ensures
      var kept := if name in headers then [headers[name]] else [];
      Lookup(AddHeaders(headers, hs), name) == Listed(kept + KeyValues(hs, name))
  {
    var kept := if name in headers then [headers[name]] else [];
    if hs == [] {
      assert kept + KeyValues(hs, name) == kept;
    } else {
      var init, h := hs[..|hs| - 1], hs[|hs| - 1];
      AddedAreListed(headers, init, name);
      var values := kept + KeyValues(init, name);
      if h.key == name {
        assert kept + KeyValues(hs, name) == values + [h.value];
        if values == [] {
          assert values + [h.value] == [h.value];
        } else {
          JoinAppend(values, ",", h.value);
        }
      } else {
        assert KeyValues(hs, name) == KeyValues(init, name);
      }
    }
  }

  lemma {:induction false} KeyValuesOf(hs: seq<HeaderValue>, nvs: seq<(string, string)>, name: string)
    requires |hs| == |nvs| && forall i :: 0 <= i < |hs| ==> hs[i].key == nvs[i].0 && hs[i].value == nvs[i].1
    ensures KeyValues(hs, name) == ValuesFor(nvs, name)
  {
    if hs != [] {
      KeyValuesOf(hs[..|hs| - 1], nvs[..|nvs| - 1], name);
    }
  }

  lemma {:induction false} KeyValuesAppend(hs: seq<HeaderValue>, hs': seq<HeaderValue>, name: string)
    ensures KeyValues(hs + hs', name) == KeyValues(hs, name) + KeyValues(hs', name)
  {
    if hs' == [] {
      assert hs + hs' == hs;
    } else {
      assert (hs + hs')[..|hs + hs'| - 1] == hs + hs'[..|hs'| - 1];
      KeyValuesAppend(hs, hs'[..|hs'| - 1], name);
    }
  }

  lemma ManipulationValues(ops: HeaderOps, name: string)
    ensures Appending(ManipulationOf(ops).add)
    ensures KeyValues(ManipulationOf(ops).add, name) == ValuesFor(ops.add, name) + ValuesFor(ops.set_, name)
  {
    var add := ManipulationOf(ops).add;
    var adds, sets := add[..|ops.add|], add[|ops.add|..];
    assert add == adds + sets;
    KeyValuesAppend(adds, sets, name);
    KeyValuesOf(adds, ops.add, name);
    KeyValuesOf(sets, ops.set_, name);
  }

  // The manipulation lists, for every header, the values the rule asks for.
  lemma HeaderByHeader(ops: HeaderOps, headers: map<string, string>, name: string)
    ensures Lookup(Manipulated(headers, ManipulationOf(ops)), name) == Listed(HeaderValues(ops, headers, name))
  {
    var rest := RemoveHeaders(headers, ops.remove);
    AddedAreListed(rest, ManipulationOf(ops).add, name);
    ManipulationValues(ops, name);
    var kept := if name in rest then [rest[name]] else [];
    assert kept + (ValuesFor(ops.add, name) + ValuesFor(ops.set_, name)) == HeaderValues(ops, headers, name);
  }

  lemma {:induction false} ValuesAreNamed(nvs: seq<(string, string)>, name: string)
    ensures ValuesFor(nvs, name) != [] <==> name in NamesIn(nvs)
  {
    if nvs != [] {
      var init := nvs[..|nvs| - 1];
      ValuesAreNamed(init, name);
      assert name in NamesIn(nvs) <==> name in NamesIn(init) || nvs[|nvs| - 1].0 == name by {
        if i :| 0 <= i < |nvs| - 1 && nvs[i].0 == name { assert init[i].0 == name; }
        if i :| 0 <= i < |init| && init[i].0 == name { assert nvs[i].0 == name; }
      }
    }
  }

  lemma SameLookups(x: map<string, string>, y: map<string, string>)
    requires forall name :: Lookup(x, name) == Lookup(y, name)
    ensures x == y
  {
    forall name ensures name in x <==> name in y {
      assert Lookup(x, name) == Lookup(y, name);
    }
    forall name | name in x ensures x[name] == y[name] {
      assert Lookup(x, name) == Lookup(y, name);
    }
  }

  lemma HeadersPreserved(ops: HeaderOps, headers: map<string, string>)
    ensures Manipulated(headers, ManipulationOf(ops)) == RuleHeaders(ops, headers)
  {
    var out, reading := Manipulated(headers, ManipulationOf(ops)), RuleHeaders(ops, headers);
    forall name ensures Lookup(out, name) == Lookup(reading, name) {
      HeaderByHeader(ops, headers, name);
      ValuesAreNamed(ops.add, name);
      ValuesAreNamed(ops.set_, name);
    }
    SameLookups(out, reading);
  }

  lemma {:induction false} ValuesForAppend(x: seq<(string, string)>, y: seq<(string, string)>, name: string)
    ensures ValuesFor(x + y, name) == ValuesFor(x, name) + ValuesFor(y, name)
  {
    if y == [] {
      assert x + y == x;
    } else {
      assert (x + y)[..|x + y| - 1] == x + y[..|y| - 1];
      ValuesForAppend(x, y[..|y| - 1], name);
    }
  }

  // Setting is adding: both append.
  lemma SetIsAdd(add: seq<(string, string)>, set_: seq<(string, string)>, remove: seq<string>,
                 headers: map<string, string>)
    ensures Manipulated(headers, ManipulationOf(HeaderOps(add, set_, remove)))
         == Manipulated(headers, ManipulationOf(HeaderOps(add + set_, [], remove)))
  {
    var x, y := HeaderOps(add, set_, remove), HeaderOps(add + set_, [], remove);
    forall name
      ensures Lookup(Manipulated(headers, ManipulationOf(x)), name)
           == Lookup(Manipulated(headers, ManipulationOf(y)), name)
    {
      HeaderByHeader(x, headers, name);
      HeaderByHeader(y, headers, name);
      ValuesForAppend(add, set_, name);
      assert HeaderValues(x, headers, name) == HeaderValues(y, headers, name);
    }
    SameLookups(Manipulated(headers, ManipulationOf(x)), Manipulated(headers, ManipulationOf(y)));
  }

  lemma {:induction false} JoinIsLonger(xs: seq<string>, x: string)
    requires xs != []
    ensures |Join(xs + [x], ",")| > |x|
  {
    JoinAppend(xs, ",", x);
  }

  // So a header that is set once has just its new value exactly when the request does not bring the
  // header, or it is removed, and it is not also added.
  lemma SetReplacesNothing(ops: HeaderOps, name: string, value: string, headers: map<string, string>)
    requires ValuesFor(ops.set_, name) == [value]
    ensures Lookup(Manipulated(headers, ManipulationOf(ops)), name) == Some(value)
      <==> (name !in headers || name in ops.remove) && name !in NamesIn(ops.add)
  {
    HeaderByHeader(ops, headers, name);
    ValuesAreNamed(ops.add, name);
    var kept := if name in headers && name !in ops.remove then [headers[name]] else [];
    var others := kept + ValuesFor(ops.add, name);
    assert HeaderValues(ops, headers, name) == others + [value];
    if others == [] {
      assert others + [value] == [value];
    } else {
      JoinIsLonger(others, value);
    }
  }

  // ----- what the translation carries over -----

  // A rule that matches everything and says nothing.
  const PLAIN_RULE := Rule(Match(None, None, [], []), [], None, None, None, None, None, None, None)

  predicate FitsUint32(x: int) {
    0 <= x < 0x1_0000_0000
  }

  // The per-try timeout of the generated policy is taken from the rule: it is the one of the retry
  // block exactly when the two agree, or the rule has none and the block's is zero.
  lemma PerTryTimeoutKept(rule: Rule)
    requires rule.retry.Some?
    ensures OptionsOf(rule).retries.Some?
    ensures OptionsOf(rule).retries.value.perTryTimeout == rule.retry.value.timeoutSeconds * SECOND
      <==> rule.timeoutSeconds == Some(rule.retry.value.timeoutSeconds)
           || (rule.timeoutSeconds.None? && rule.retry.value.timeoutSeconds == 0)
  {
  }

  // One rule where they do not: retries of 2 seconds each within 10 seconds.
  lemma PerTryTimeoutExample(to: WeightedDestination)
    ensures
      var rule := PLAIN_RULE.(to := [to], retry := Some(Retry(2, 3)), timeoutSeconds := Some(10));
      OptionsOf(rule).retries == Some(RetryPolicy(3, 10 * SECOND))
  {
  }

  predicate RetryCarried(rule: Rule) {
    rule.retry.Some? ==>
      && FitsUint32(rule.retry.value.attempts)
      && rule.retry.value.timeoutSeconds == if rule.timeoutSeconds.Some? then rule.timeoutSeconds.value else 0
  }

  predicate WeightsCarried(rule: Rule) {
    |rule.to| > 1 ==> forall i :: 0 <= i < |rule.to| ==> FitsUint32(rule.to[i].weight)
  }

  predicate AbortCarried(rule: Rule) {
    rule.fault.Some? && rule.fault.value.abortHTTPStatus > 0 ==> FitsUint32(rule.fault.value.abortHTTPStatus)
  }

  // No mirror; and if the rule forwards, numbers that fit and one timeout for all tries.
  predicate Carried(rule: Rule) {
    && rule.mirror.None?
    && (rule.to != [] ==> RetryCarried(rule) && WeightsCarried(rule) && AbortCarried(rule))
  }

  // The path rewrite of a rule is carried over for a request if the rule has none, or matches whole
  // paths, or the prefix it matches is all of the path.
  predicate RewriteCarried(rule: Rule, req: Request) {
    rule.rewrite.Some? && rule.rewrite.value.path != "" ==>
      var spec := PathToSpec(rule.match_.path);
      spec.PathPrefix? && spec.prefix <= req.path ==> spec.prefix == req.path
  }

  lemma SwapIsWhole(spec: PathSpec, path: string, value: string)
    ensures Swapped(spec, path, value) == value <==> (spec.PathPrefix? && spec.prefix <= path ==> spec.prefix == path)
  {
    if spec.PathPrefix? && spec.prefix <= path {
      assert |Swapped(spec, path, value)| == |value| + |path| - |spec.prefix|;
    }
  }

  lemma RequestPreserved(rule: Rule, req: Request)
    ensures RouteRequest(PathToSpec(rule.match_.path), OptionsOf(rule), req) == RuleRequest(rule, req)
            <==> RewriteCarried(rule, req)
  {
    if rule.headers.Some? {
      HeadersPreserved(rule.headers.value, req.headers);
    }
    SwapIsWhole(PathToSpec(rule.match_.path), req.path, if rule.rewrite.Some? then rule.rewrite.value.path else "");
  }

  // A rule for every path with a rewrite to /path: the request for /foo is sent on as /pathfoo.
  lemma RewriteExample(env: Env, namespace: string, to: WeightedDestination)
    ensures
      var rule := PLAIN_RULE.(to := [to], rewrite := Some(Rewrite("", "/path")));
      var fate := RouteFate(RouteOf(env, namespace, rule), Request("example.com", "/foo", "http", "GET", map[]));
      fate.Forwarded? && fate.sent.path == "/pathfoo"
  {
    assert "/foo"[1..] == "foo" && "/path" + "foo" == "/pathfoo";
  }

  // A rule with a mirror besides its destination: nothing is mirrored.
  lemma MirrorExample(env: Env, namespace: string, to: WeightedDestination, mirror: Destination, req: Request)
    ensures
      var rule := PLAIN_RULE.(to := [to], mirror := Some(mirror));
      var fate := RouteFate(RouteOf(env, namespace, rule), req);
      fate.Forwarded? && fate.mirror.None? && RuleFate(env, namespace, rule, req).mirror.Some?
  {
  }

  // Two destinations with weights 2^32 and 1: all the traffic goes to the second.
  lemma WrapExample(env: Env, namespace: string, x: Destination, y: Destination, req: Request)
    ensures
      var to := [WeightedDestination(x, 0x1_0000_0000), WeightedDestination(y, 1)];
      var fate := RouteFate(RouteOf(env, namespace, PLAIN_RULE.(to := to)), req);
      fate.Forwarded? && |fate.targets| == 2 && fate.targets[0].weight == 0 && fate.targets[1].weight == 1
  {
  }

  lemma PolicyPreserved(rule: Rule)
    ensures RoutePolicy(OptionsOf(rule)) == RulePolicy(rule) <==> RetryCarried(rule) && AbortCarried(rule)
  {
  }

  lemma TargetsPreserved(env: Env, namespace: string, rule: Rule)
    requires |rule.to| > 1
    ensures RouteTargets(Weighted(env, namespace, rule.to)) == RuleTargets(env, namespace, rule.to)
            <==> WeightsCarried(rule)
  {
    var x, y := RouteTargets(Weighted(env, namespace, rule.to)), RuleTargets(env, namespace, rule.to);
    assert forall i :: 0 <= i < |rule.to| ==> (x[i] == y[i] <==> FitsUint32(rule.to[i].weight));
  }

  // The generated route does with a request what the rule says, exactly when the rule is carried
  // over and, if it forwards, so is its rewrite of the path.
  predicate CarriedFor(rule: Rule, req: Request) {
    Carried(rule) && (rule.to != [] ==> RewriteCarried(rule, req))
  }

  lemma FatePreserved(env: Env, namespace: string, rule: Rule, req: Request)
    ensures RouteFate(RouteOf(env, namespace, rule), req) == RuleFate(env, namespace, rule, req)
            <==> CarriedFor(rule, req)
  {
    RequestPreserved(rule, req);
    PolicyPreserved(rule);
    if |rule.to| > 1 {
      TargetsPreserved(env, namespace, rule);
    } else if |rule.to| == 1 {
      assert RuleTargets(env, namespace, rule.to)
          == [Target(DestinationToRef(env, namespace, rule.to[0].destination), PortOf(rule.to[0].destination), 1)];
    }
  }

  // ----- whole routers -----

  function ServedFate(env: Env, routes: seq<Route>, req: Request): Fate {
    match Served(env, routes, req)
    case None => Unrouted
    case Some(r) => RouteFate(r, req)
  }

  // The challenge solver gets the request as it is.
  function SolverFate(ns: string, req: Request): Fate {
    Forwarded([Target(Ref("rio-acme-solver", ns), 8080, 1)], req, NO_POLICY, None)
  }

  // What the rules say about a request that comes in over TLS.
  function RouterFate(env: Env, namespace: string, rules: seq<Rule>, req: Request): Fate {
    match Applies(env, rules, req)
    case None => Unrouted
    case Some(i) => RuleFate(env, namespace, rules[i], req)
  }

  // Without TLS, a redirect to HTTPS goes before anything else in its rule.
  function PlainRouterFate(env: Env, namespace: string, rules: seq<Rule>, req: Request): Fate {
    match Applies(env, rules, req)
    case None => Unrouted
    case Some(i) =>
      if ToHTTPS(rules[i]) then RedirectTo(rules[i].redirect.value, req)
      else RuleFate(env, namespace, rules[i], req)
  }

  // A TLS copy treats a request as the router says exactly when the rule that applies is carried over.
  lemma TlsServiceFate(env: Env, namespace: string, rules: seq<Rule>, req: Request)
    requires PrefixPatterns(env) && AllExpressible(rules) && "/" <= req.path
    ensures ServedFate(env, RoutesOf(env, namespace, rules), req) == RouterFate(env, namespace, rules, req)
      <==> var i := Applies(env, rules, req); i.Some? ==> CarriedFor(rules[i.value], req)
  {
    TlsServiceRoutes(env, namespace, rules, req);
    var i := Applies(env, rules, req);
    if i.Some? {
      FatePreserved(env, namespace, rules[i.value], req);
    }
  }

  // The plain service hands challenges for public domains to the solver, and treats every other
  // request as the router says exactly when the rule that applies redirects to HTTPS or is carried over.
  lemma PlainServiceFate(env: Env, namespace: string, ns: string, rules: seq<Rule>, domains: seq<string>,
                         public: string -> bool, req: Request)
    requires PrefixPatterns(env) && AllExpressible(rules) && "/" <= req.path
    ensures
      var fate := ServedFate(env, AcmeRoutes(ns, domains, public) + PlainRoutes(env, namespace, rules), req);
      var i := Applies(env, rules, req);
      if ACME_PREFIX <= req.path && exists k :: 0 <= k < |domains| && public(domains[k]) then
        fate == SolverFate(ns, req)
      else
        fate == PlainRouterFate(env, namespace, rules, req)
        <==> (i.Some? ==> ToHTTPS(rules[i.value]) || CarriedFor(rules[i.value], req))
  {
    PlainServiceRoutes(env, namespace, ns, rules, domains, public, req);
    var i := Applies(env, rules, req);
    if i.Some? {
      FatePreserved(env, namespace, rules[i.value], req);
    }
  }
}
