/** Routers and their translation to Gloo virtual services
    (modules/gloo/pkg/vsfactory/router.go, acme.go and gloo.go): the two rule languages, what a
    request matches in each, and the translation of one rule. */
module Gloo {
  import opened Prelude

  const MILLISECOND := 1_000_000

  // ----- router rules -----

  datatype StringMatch = StringMatch(exact: string, prefix: string, regexp: string)

  datatype HeaderMatch = HeaderMatch(name: string, value: Option<StringMatch>)

  datatype Match = Match(path: Option<StringMatch>, schema: Option<StringMatch>,
                         methods: seq<string>, headers: seq<HeaderMatch>)

  datatype Destination = Destination(app: string, version: string, port: nat)

  datatype WeightedDestination = WeightedDestination(destination: Destination, weight: int)

  datatype Redirect = Redirect(host: string, path: string, toHTTPS: bool)

  datatype Rewrite = Rewrite(host: string, path: string)

  datatype HeaderOps = HeaderOps(add: seq<(string, string)>, set_: seq<(string, string)>, remove: seq<string>)

  datatype Fault = Fault(percentage: int, delayMillis: int, abortHTTPStatus: int)

  datatype Retry = Retry(timeoutSeconds: int, attempts: int)

  datatype Rule = Rule(
    match_: Match, to: seq<WeightedDestination>, redirect: Option<Redirect>, rewrite: Option<Rewrite>,
    retry: Option<Retry>, headers: Option<HeaderOps>, fault: Option<Fault>,
    mirror: Option<Destination>, timeoutSeconds: Option<int>)

  // ----- Gloo routes -----

  datatype PathSpec = NoPath | PathRegex(regex: string) | PathPrefix(prefix: string) | PathExact(exact: string)

  datatype HeaderMatcher = HeaderMatcher(name: string, value: string, regex: bool)

  datatype Matcher = Matcher(path: PathSpec, headers: seq<HeaderMatcher>, methods: seq<string>)

  datatype Ref = Ref(name: string, namespace: string)

  datatype Action =
    | NoAction
    | RedirectAction(host: string, https: bool, path: Option<string>)
    | DelegateAction(ref: Ref)
    | SingleAction(ref: Ref, port: nat)
    | MultiAction(destinations: seq<(Ref, nat, nat)>)

  datatype HeaderValue = HeaderValue(key: string, value: string, append: Option<bool>)

  datatype Manipulation = Manipulation(add: seq<HeaderValue>, remove: seq<string>)

  datatype Faults = Faults(abort: Option<(int, nat)>, delay: Option<(int, int)>)

  datatype RetryPolicy = RetryPolicy(attempts: nat, perTryTimeout: int)

  datatype Options = Options(
    manipulation: Option<Manipulation>, prefixRewrite: Option<string>, hostRewrite: Option<string>,
    faults: Option<Faults>, retries: Option<RetryPolicy>, timeout: Option<int>)

  datatype Route = Route(matchers: seq<Matcher>, action: Action, options: Option<Options>)

  // ----- requests -----

  datatype Request = Request(host: string, path: string, scheme: string, method_: string, headers: map<string, string>)

  // Regular expressions are left to the proxy; SafeConcatName's digest to the hash function.
  datatype Env = Env(regex: (string, string) -> bool, digest: string -> string)

  predicate IsMeta(c: char) {
    c in {'\\', '.', '+', '*', '?', '(', ')', '|', '[', ']', '{', '}', '^', '$'}
  }

  predicate Plain(s: string) {
    forall i :: 0 <= i < |s| ==> !IsMeta(s[i])
  }

  // For a prefix without special characters, `^prefix.*` matches the values it starts.
  ghost predicate PrefixPatterns(env: Env) {
    forall p, v :: Plain(p) ==> (env.regex("^" + p + ".*", v) <==> p <= v)
  }

  // ----- what a rule matches -----

  predicate Satisfies(env: Env, m: StringMatch, v: string) {
    && (m.exact != "" ==> v == m.exact)
    && (m.prefix != "" ==> m.prefix <= v)
    && (m.regexp != "" ==> env.regex(m.regexp, v))
  }

  predicate OptionSatisfied(env: Env, m: Option<StringMatch>, v: string) {
    m.Some? ==> Satisfies(env, m.value, v)
  }

  // A header condition asks for the header to be present and its value to fit.
  predicate HeaderSatisfied(env: Env, h: HeaderMatch, req: Request) {
    h.name in req.headers && OptionSatisfied(env, h.value, req.headers[h.name])
  }

  predicate RuleMatches(env: Env, m: Match, req: Request) {
    && OptionSatisfied(env, m.path, req.path)
    && OptionSatisfied(env, m.schema, req.scheme)
    && (m.methods == [] || req.method_ in m.methods)
    && forall i :: 0 <= i < |m.headers| ==> HeaderSatisfied(env, m.headers[i], req)
  }

  // ----- what a route matches -----

  predicate PathMatches(env: Env, p: PathSpec, path: string) {
    match p
    case NoPath => false
    case PathRegex(r) => env.regex(r, path)
    case PathPrefix(x) => x <= path
    case PathExact(x) => path == x
  }

  // An empty value asks for presence only.
  predicate HeaderMatches(env: Env, h: HeaderMatcher, req: Request) {
    && h.name in req.headers
    && (if h.regex then env.regex(h.value, req.headers[h.name])
        else h.value == "" || req.headers[h.name] == h.value)
  }

  predicate MatcherMatches(env: Env, m: Matcher, req: Request) {
    && PathMatches(env, m.path, req.path)
    && (m.methods == [] || req.method_ in m.methods)
    && forall i :: 0 <= i < |m.headers| ==> HeaderMatches(env, m.headers[i], req)
  }

  predicate RouteMatches(env: Env, r: Route, req: Request) {
    exists i :: 0 <= i < |r.matchers| && MatcherMatches(env, r.matchers[i], req)
  }

  // The route that serves a request: the first that matches.
  function Served(env: Env, routes: seq<Route>, req: Request): Option<Route> {
    if routes == [] then None
    else if RouteMatches(env, routes[0], req) then Some(routes[0])
    else Served(env, routes[1..], req)
  }

  // The rule that applies to a request: the first that matches.
  function Applies(env: Env, rules: seq<Rule>, req: Request): (r: Option<nat>)
    ensures r.Some? ==> r.value < |rules| && RuleMatches(env, rules[r.value].match_, req)
    ensures forall i :: 0 <= i < (if r.Some? then r.value else |rules|) ==> !RuleMatches(env, rules[i].match_, req)
  {
    if rules == [] then None
    else if RuleMatches(env, rules[0].match_, req) then Some(0)
    else match Applies(env, rules[1..], req)
         case None => None
         case Some(i) => Some(i + 1)
  }

  // ----- translating matches -----

  function PathToSpec(path: Option<StringMatch>): PathSpec {
    if path.None? then PathPrefix("/")
    else if path.value.regexp != "" then PathRegex(path.value.regexp)
    else if path.value.prefix != "" then PathPrefix(path.value.prefix)
    else if path.value.exact != "" then PathExact(path.value.exact)
    else NoPath
  }

  function HeaderToMatcher(h: HeaderMatch): HeaderMatcher {
    if h.value.None? then HeaderMatcher(h.name, "", false)
    else if h.value.value.regexp != "" then HeaderMatcher(h.name, h.value.value.regexp, true)
    else if h.value.value.prefix != "" then HeaderMatcher(h.name, "^" + h.value.value.prefix + ".*", true)
    else HeaderMatcher(h.name, h.value.value.exact, false)
  }

  function HeadersToMatchers(hs: seq<HeaderMatch>): (ms: seq<HeaderMatcher>)
    ensures |ms| == |hs|
  {
    seq(|hs|, i requires 0 <= i < |hs| => HeaderToMatcher(hs[i]))
  }

  function MatchSpec(m: Match): Matcher {
    Matcher(PathToSpec(m.path), HeadersToMatchers(m.headers), m.methods)
  }

  method MatchToMatch(m: Match) returns (result: Matcher)
    ensures result == MatchSpec(m)
  {
    result := Matcher(NoPath, [], []);
    if m.path.Some? {
      if m.path.value.regexp != "" {
        result := result.(path := PathRegex(m.path.value.regexp));
      } else if m.path.value.prefix != "" {
        result := result.(path := PathPrefix(m.path.value.prefix));
      } else if m.path.value.exact != "" {
        result := result.(path := PathExact(m.path.value.exact));
      }
    } else {
      result := result.(path := PathPrefix("/"));
    }
    for i := 0 to |m.headers|
      invariant result == Matcher(PathToSpec(m.path), HeadersToMatchers(m.headers)[..i], [])
    {
      var h := HeaderMatcher(m.headers[i].name, "", false);
      if m.headers[i].value.Some? {
        var v := m.headers[i].value.value;
        if v.regexp != "" {
          h := h.(regex := true, value := v.regexp);
        } else if v.prefix != "" {
          h := h.(regex := true, value := "^" + v.prefix + ".*");
        } else if v.exact != "" {
          h := h.(value := v.exact);
        }
      }
      result := result.(headers := result.headers + [h]);
    }
    result := result.(methods := m.methods);
  }

  // At most one of the three kinds is set.
  predicate OneKind(m: StringMatch) {
    && (m.exact != "" ==> m.prefix == "" && m.regexp == "")
    && (m.prefix != "" ==> m.regexp == "")
  }

  // A match Gloo can express: no scheme condition, one kind of string match at a time, a path
  // condition that is not empty, and header prefixes without special characters.
  predicate Expressible(m: Match) {
    && m.schema.None?
    && (m.path.Some? ==> OneKind(m.path.value) && m.path.value != StringMatch("", "", ""))
    && (forall i :: 0 <= i < |m.headers| && m.headers[i].value.Some? ==>
          OneKind(m.headers[i].value.value) && Plain(m.headers[i].value.value.prefix))
  }

  // The translated matcher accepts the same requests (request paths start with a slash).
  lemma MatchPreserved(env: Env, m: Match, req: Request)
    requires PrefixPatterns(env) && Expressible(m) && "/" <= req.path
    ensures MatcherMatches(env, MatchSpec(m), req) <==> RuleMatches(env, m, req)
  {
    var spec := MatchSpec(m);
    forall i | 0 <= i < |m.headers|
      ensures HeaderMatches(env, spec.headers[i], req) <==> HeaderSatisfied(env, m.headers[i], req)
    {
      HeaderPreserved(env, m.headers[i], req);
    }
    if RuleMatches(env, m, req) {
      assert forall i :: 0 <= i < |spec.headers| ==> HeaderSatisfied(env, m.headers[i], req);
    }
    if MatcherMatches(env, spec, req) {
      assert forall i :: 0 <= i < |m.headers| ==> HeaderMatches(env, spec.headers[i], req);
    }
  }

  lemma HeaderPreserved(env: Env, h: HeaderMatch, req: Request)
    requires PrefixPatterns(env)
    requires h.value.Some? ==> OneKind(h.value.value) && Plain(h.value.value.prefix)
    ensures HeaderMatches(env, HeaderToMatcher(h), req) <==> HeaderSatisfied(env, h, req)
  {
  }

  // A path condition with nothing set translates to no path specifier, and only then.
  lemma EmptyPathHasNoSpecifier(path: Option<StringMatch>)
    ensures PathToSpec(path).NoPath? <==> path == Some(StringMatch("", "", ""))
  {
  }

  // Scheme conditions are dropped: on a given request the matcher still agrees with the rule
  // exactly when the rest of the rule rejects the request or its scheme is the one asked for.
  lemma SchemeIsDropped(env: Env, m: Match, req: Request)
    requires PrefixPatterns(env) && Expressible(m.(schema := None)) && "/" <= req.path
    ensures (MatcherMatches(env, MatchSpec(m), req) <==> RuleMatches(env, m, req))
      <==> (RuleMatches(env, m.(schema := None), req) ==> OptionSatisfied(env, m.schema, req.scheme))
  {
    var rest := m.(schema := None);
    MatchPreserved(env, rest, req);
    assert MatchSpec(m) == MatchSpec(rest);
  }

  // One such rule and request: asking for https does not keep a plain request out.
  lemma SchemeIsDroppedExample(env: Env)
    ensures
      var m := Match(None, Some(StringMatch("https", "", "")), [], []);
      var req := Request("example.com", "/", "http", "GET", map[]);
      MatcherMatches(env, MatchSpec(m), req) && !RuleMatches(env, m, req)
  {
    assert "https"[4] == 's';
  }

  // ----- translating actions -----

  // name.SafeConcatName for one name.
  function SafeName(env: Env, name: string): string {
    if |name| > 63 then name[..57] + "-" + env.digest(name) else name
  }

  function DestinationToRef(env: Env, namespace: string, d: Destination): Ref {
    Ref(if d.version != "" then SafeName(env, d.app + "-" + d.version) else d.app, namespace)
  }

  function Uint32(x: int): nat {
    x % 0x1_0000_0000
  }

  function PortOf(d: Destination): nat {
    if d.port == 0 then 80 else d.port
  }

  function Weighted(env: Env, namespace: string, to: seq<WeightedDestination>): (ds: seq<(Ref, nat, nat)>)
    ensures |ds| == |to|
  {
    seq(|to|, i requires 0 <= i < |to| =>
      (DestinationToRef(env, namespace, to[i].destination), PortOf(to[i].destination), Uint32(to[i].weight)))
  }

  function RedirectOf(r: Redirect): Action {
    RedirectAction(r.host, r.toHTTPS, if r.path != "" then Some(r.path) else None)
  }

  // Destinations win over a mirror, which wins over a redirect.
  function ActionOf(env: Env, namespace: string, rule: Rule): Action {
    if |rule.to| > 1 then MultiAction(Weighted(env, namespace, rule.to))
    else if |rule.to| == 1 then
      SingleAction(DestinationToRef(env, namespace, rule.to[0].destination), PortOf(rule.to[0].destination))
    else if rule.mirror.Some? then DelegateAction(DestinationToRef(env, namespace, rule.mirror.value))
    else if rule.redirect.Some? then RedirectOf(rule.redirect.value)
    else NoAction
  }

  function ManipulationOf(h: HeaderOps): Manipulation {
    Manipulation(
      seq(|h.add|, i requires 0 <= i < |h.add| => HeaderValue(h.add[i].0, h.add[i].1, Some(true)))
      + seq(|h.set_|, i requires 0 <= i < |h.set_| => HeaderValue(h.set_[i].0, h.set_[i].1, None)),
      h.remove)
  }

  function FaultsOf(f: Fault): Faults {
    Faults(if f.abortHTTPStatus > 0 then Some((f.percentage, Uint32(f.abortHTTPStatus))) else None,
           if f.delayMillis > 0 then Some((f.percentage, f.delayMillis * MILLISECOND)) else None)
  }

  function Timeout(rule: Rule): Option<int> {
    if rule.timeoutSeconds.Some? then Some(rule.timeoutSeconds.value * SECOND) else None
  }

  function NonEmpty(s: string): Option<string> {
    if s != "" then Some(s) else None
  }

  // Every part of a rule that is not a match or an action shows up in its own option.
  function OptionsOf(rule: Rule): Options {
    Options(
      if rule.headers.Some? then Some(ManipulationOf(rule.headers.value)) else None,
      if rule.rewrite.Some? then NonEmpty(rule.rewrite.value.path) else None,
      if rule.rewrite.Some? then NonEmpty(rule.rewrite.value.host) else None,
      if rule.fault.Some? then Some(FaultsOf(rule.fault.value)) else None,
      if rule.retry.Some? then
        Some(RetryPolicy(Uint32(rule.retry.value.attempts), if Timeout(rule).Some? then Timeout(rule).value else 0))
      else None,
      Timeout(rule))
  }

  function RouteOf(env: Env, namespace: string, rule: Rule): Route {
    Route([MatchSpec(rule.match_)], ActionOf(env, namespace, rule), Some(OptionsOf(rule)))
  }

  const NO_OPTIONS := Options(None, None, None, None, None, None)

  // The order of the steps matters: each action overwrites the one before.
  method RouteToRoute(env: Env, namespace: string, rule: Rule) returns (result: Route)
    ensures result == RouteOf(env, namespace, rule)
  {
    var matcher := MatchToMatch(rule.match_);
    var options := RouteOptions(rule);
    var action := NoAction;
    if rule.redirect.Some? {
      action := RedirectOf(rule.redirect.value);
    }
    if rule.mirror.Some? {
      action := DelegateAction(DestinationToRef(env, namespace, rule.mirror.value));
    }
    if |rule.to| == 1 {
      var d := rule.to[0].destination;
      action := SingleAction(DestinationToRef(env, namespace, d), PortOf(d));
    }
    if |rule.to| > 1 {
      var destinations := MultiDestinations(env, namespace, rule.to);
      action := MultiAction(destinations);
    }
    result := Route([matcher], action, Some(options));
  }

  method RouteOptions(rule: Rule) returns (options: Options)
    ensures options == OptionsOf(rule)
  {
    options := NO_OPTIONS;
    if rule.headers.Some? {
      var manipulation := HeadersToHeaders(rule.headers.value);
      options := NO_OPTIONS.(manipulation := Some(manipulation));
    }
    if rule.fault.Some? {
      options := options.(faults := Some(FaultsOf(rule.fault.value)));
    }
    if rule.rewrite.Some? {
      if rule.rewrite.value.path != "" {
        options := options.(prefixRewrite := Some(rule.rewrite.value.path));
      }
      if rule.rewrite.value.host != "" {
        options := options.(hostRewrite := Some(rule.rewrite.value.host));
      }
    }
    if rule.retry.Some? {
      var t := 0;
      if rule.timeoutSeconds.Some? {
        t := rule.timeoutSeconds.value * SECOND;
      }
      options := options.(retries := Some(RetryPolicy(Uint32(rule.retry.value.attempts), t)));
    }
    if rule.timeoutSeconds.Some? {
      options := options.(timeout := Some(rule.timeoutSeconds.value * SECOND));
    }
  }

  method MultiDestinations(env: Env, namespace: string, to: seq<WeightedDestination>) returns (ds: seq<(Ref, nat, nat)>)
    ensures ds == Weighted(env, namespace, to)
  {
    ds := [];
    for i := 0 to |to|
      invariant ds == Weighted(env, namespace, to)[..i]
    {
      var port := to[i].destination.port;
      if port == 0 {
        port := 80;
      }
      ds := ds + [(DestinationToRef(env, namespace, to[i].destination), port, Uint32(to[i].weight))];
    }
  }

  method HeadersToHeaders(h: HeaderOps) returns (result: Manipulation)
    ensures result == ManipulationOf(h)
  {
    ghost var goal := ManipulationOf(h).add;
    var add := [];
    for i := 0 to |h.add|
      invariant add == goal[..i]
    {
      add := add + [HeaderValue(h.add[i].0, h.add[i].1, Some(true))];
    }
    for i := 0 to |h.set_|
      invariant add == goal[..|h.add| + i]
    {
      add := add + [HeaderValue(h.set_[i].0, h.set_[i].1, None)];
    }
    result := Manipulation(add, h.remove);
  }
}
