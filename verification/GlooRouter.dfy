/** Virtual services for a router: one plain service, a copy per TLS host, HTTPS redirects patched
    into the plain one by index, and ACME challenge routes put in front of it. */
module GlooRouter {
  import opened Prelude
  import opened Gloo

  // The HTTP challenge path of section 8.3 of RFC 8555.
  const ACME_PREFIX := "/.well-known/acme-challenge"

  class VirtualService {
    const ssl: Option<string>          // the TLS secret; None on the plain service
    var domains: seq<string>
    var routes: seq<Route>

    constructor (ssl: Option<string>, domains: seq<string>, routes: seq<Route>)
      ensures this.ssl == ssl && this.domains == domains && this.routes == routes
    {
      this.ssl, this.domains, this.routes := ssl, domains, routes;
    }
  }

  function RoutesOf(env: Env, namespace: string, rules: seq<Rule>): (rs: seq<Route>)
    ensures |rs| == |rules|
  {
    seq(|rules|, i requires 0 <= i < |rules| => RouteOf(env, namespace, rules[i]))
  }

  predicate ToHTTPS(rule: Rule) {
    rule.redirect.Some? && rule.redirect.value.toHTTPS
  }

  // The route of a rule on the plain service.
  function PlainRoute(env: Env, namespace: string, rule: Rule): Route {
    var r := RouteOf(env, namespace, rule);
    if ToHTTPS(rule) then r.(action := RedirectOf(rule.redirect.value)) else r
  }

  function PlainRoutes(env: Env, namespace: string, rules: seq<Rule>): (rs: seq<Route>)
    ensures |rs| == |rules|
  {
    seq(|rules|, i requires 0 <= i < |rules| => PlainRoute(env, namespace, rules[i]))
  }

  function AcmeRoute(systemNamespace: string): Route {
    Route([Matcher(PathPrefix(ACME_PREFIX), [], [])], SingleAction(Ref("rio-acme-solver", systemNamespace), 8080), None)
  }

  function AcmeRoutes(systemNamespace: string, domains: seq<string>, public: string -> bool): seq<Route> {
    if domains == [] then []
    else (if public(domains[|domains| - 1]) then [AcmeRoute(systemNamespace)] else [])
         + AcmeRoutes(systemNamespace, domains[..|domains| - 1], public)
  }

  // ----- building the services -----

  method VsForRouter(env: Env, namespace: string, rules: seq<Rule>, domains: seq<string>) returns (vs: VirtualService)
    ensures fresh(vs) && vs.ssl == None && vs.domains == domains && vs.routes == RoutesOf(env, namespace, rules)
  {
    vs := new VirtualService(None, domains, []);
    for i := 0 to |rules|
      invariant vs.domains == domains && vs.routes == RoutesOf(env, namespace, rules)[..i]
    {
      var r := RouteToRoute(env, namespace, rules[i]);
      vs.routes := vs.routes + [r];
    }
  }

  // The patch walks rules and routes by the same index.
  method PatchRedirects(rules: seq<Rule>, vs: VirtualService, ghost env: Env, ghost namespace: string)
    requires vs.routes == RoutesOf(env, namespace, rules)
    modifies vs`routes
    ensures vs.routes == PlainRoutes(env, namespace, rules)
  {
    for i := 0 to |rules|
      invariant |vs.routes| == |rules|
      invariant forall j :: 0 <= j < |rules| ==>
        vs.routes[j] == if j < i then PlainRoute(env, namespace, rules[j]) else RouteOf(env, namespace, rules[j])
    {
      if |vs.routes| <= i {
        continue;
      }
      if rules[i].redirect.Some? && rules[i].redirect.value.toHTTPS {
        vs.routes := vs.routes[i := vs.routes[i].(action := RedirectOf(rules[i].redirect.value))];
      }
    }
  }

  // Visits the plain service and its copies; only services without TLS are patched.
  method ConfigureHTTPSRedirect(rules: seq<Rule>, vs: VirtualService, copies: seq<VirtualService>,
                                ghost env: Env, ghost namespace: string)
    requires vs.ssl.None? && vs.routes == RoutesOf(env, namespace, rules)
    requires forall k :: 0 <= k < |copies| ==> copies[k].ssl.Some?
    modifies vs`routes
    ensures vs.routes == PlainRoutes(env, namespace, rules)
  {
    var vss := [vs] + copies;
    for k := 0 to |vss|
      invariant vs.routes == if k == 0 then RoutesOf(env, namespace, rules) else PlainRoutes(env, namespace, rules)
    {
      if vss[k].ssl.None? {
        assert vss[k] == vs;
        PatchRedirects(rules, vss[k], env, namespace);
      }
    }
  }

  method InjectACME(vs: VirtualService, systemNamespace: string, public: string -> bool)
    modifies vs`routes
    ensures vs.routes == AcmeRoutes(systemNamespace, vs.domains, public) + old(vs.routes)
  {
    for i := 0 to |vs.domains|
      invariant vs.routes == AcmeRoutes(systemNamespace, vs.domains[..i], public) + old(vs.routes)
    {
      assert vs.domains[..i + 1][..i] == vs.domains[..i];
      if public(vs.domains[i]) {
        vs.routes := [AcmeRoute(systemNamespace)] + vs.routes;
      }
    }
    assert vs.domains[..|vs.domains|] == vs.domains;
  }

  // A copy per host name and secret.
  method TlsCopies(vs: VirtualService, tls: seq<(string, string)>) returns (copies: seq<VirtualService>)
    ensures |copies| == |tls| && fresh(copies) && Distinct(copies)
    ensures forall k :: 0 <= k < |copies| ==>
      && copies[k].ssl == Some(tls[k].1) && copies[k].domains == [tls[k].0]
      && copies[k].routes == vs.routes
  {
    copies := [];
    for i := 0 to |tls|
      invariant |copies| == i && fresh(copies) && Distinct(copies)
      invariant forall k :: 0 <= k < |copies| ==>
        && copies[k].ssl == Some(tls[k].1) && copies[k].domains == [tls[k].0]
        && copies[k].routes == vs.routes
    {
      var copy := new VirtualService(Some(tls[i].1), [tls[i].0], vs.routes);
      assert copy !in copies;
      copies := copies + [copy];
    }
  }

  // `tls` lists host names and secrets in whatever order the map of certificates yields them.
  method ForRouter(env: Env, namespace: string, systemNamespace: string, rules: seq<Rule>, domains: seq<string>,
                   tls: seq<(string, string)>, public: string -> bool)
    returns (vs: VirtualService, copies: seq<VirtualService>)
    ensures fresh(vs) && vs.ssl == None && vs.domains == domains
    ensures vs.routes == AcmeRoutes(systemNamespace, domains, public) + PlainRoutes(env, namespace, rules)
    ensures |copies| == |tls| && fresh(copies)
    ensures forall k :: 0 <= k < |copies| ==>
      && copies[k].ssl == Some(tls[k].1) && copies[k].domains == [tls[k].0]
      && copies[k].routes == RoutesOf(env, namespace, rules)
  {
    vs := VsForRouter(env, namespace, rules, domains);
    copies := TlsCopies(vs, tls);
    ConfigureHTTPSRedirect(rules, vs, copies, env, namespace);
    InjectACME(vs, systemNamespace, public);
  }

  // ----- first-match routing is preserved -----

  ghost predicate AllExpressible(rules: seq<Rule>) {
    forall i :: 0 <= i < |rules| ==> Expressible(rules[i].match_)
  }

  lemma RouteMatchesRule(env: Env, r: Route, rule: Rule, req: Request)
    requires PrefixPatterns(env) && Expressible(rule.match_) && "/" <= req.path
    requires r.matchers == [MatchSpec(rule.match_)]
    ensures RouteMatches(env, r, req) <==> RuleMatches(env, rule.match_, req)
  {
    MatchPreserved(env, rule.match_, req);
    assert RouteMatches(env, r, req) <==> MatcherMatches(env, r.matchers[0], req);
  }

  // Any list of routes that carries the rules' matchers, in order, serves a request with the
  // route at the position of the rule that applies.
  lemma {:induction false} FirstMatchPreserved(env: Env, routes: seq<Route>, rules: seq<Rule>, req: Request)
    requires PrefixPatterns(env) && AllExpressible(rules) && "/" <= req.path && |routes| == |rules|
    requires forall i :: 0 <= i < |rules| ==> routes[i].matchers == [MatchSpec(rules[i].match_)]
    ensures Served(env, routes, req) ==
            match Applies(env, rules, req) case None => None case Some(i) => Some(routes[i])
    decreases |rules|
  {
    if rules != [] {
      RouteMatchesRule(env, routes[0], rules[0], req);
      FirstMatchPreserved(env, routes[1..], rules[1..], req);
    }
  }

  lemma {:induction false} AcmeServes(env: Env, ns: string, domains: seq<string>, public: string -> bool,
                                      rest: seq<Route>, req: Request)
    ensures
      var acme := AcmeRoutes(ns, domains, public);
      && Served(env, acme + rest, req)
         == (if acme != [] && ACME_PREFIX <= req.path then Some(AcmeRoute(ns)) else Served(env, rest, req))
      && (acme != [] <==> exists i :: 0 <= i < |domains| && public(domains[i]))
    decreases |domains|
  {
    var acme := AcmeRoutes(ns, domains, public);
    if domains == [] {
      assert acme + rest == rest;
    } else {
      var last := |domains| - 1;
      var before := AcmeRoutes(ns, domains[..last], public);
      AcmeServes(env, ns, domains[..last], public, rest, req);
      if public(domains[last]) {
        assert acme + rest == [AcmeRoute(ns)] + (before + rest);
        assert (acme + rest)[1..] == before + rest;
        assert RouteMatches(env, AcmeRoute(ns), req) <==> MatcherMatches(env, AcmeRoute(ns).matchers[0], req);
      } else {
        assert acme == before;
        if i :| 0 <= i < |domains| && public(domains[i]) {
          assert domains[..last][i] == domains[i];
        }
      }
    }
  }

  // On the plain service a request is served by the challenge solver if it is a challenge and a
  // domain is public, and otherwise by the (patched) route of the rule that applies.
  lemma PlainServiceRoutes(env: Env, namespace: string, ns: string, rules: seq<Rule>, domains: seq<string>,
                           public: string -> bool, req: Request)
    requires PrefixPatterns(env) && AllExpressible(rules) && "/" <= req.path
    ensures Served(env, AcmeRoutes(ns, domains, public) + PlainRoutes(env, namespace, rules), req) ==
      if ACME_PREFIX <= req.path && exists i :: 0 <= i < |domains| && public(domains[i]) then Some(AcmeRoute(ns))
      else match Applies(env, rules, req)
           case None => None
           case Some(i) => Some(PlainRoute(env, namespace, rules[i]))
  {
    AcmeServes(env, ns, domains, public, PlainRoutes(env, namespace, rules), req);
    FirstMatchPreserved(env, PlainRoutes(env, namespace, rules), rules, req);
  }

  // On a TLS copy, by the unpatched route, challenge or not.
  lemma TlsServiceRoutes(env: Env, namespace: string, rules: seq<Rule>, req: Request)
    requires PrefixPatterns(env) && AllExpressible(rules) && "/" <= req.path
    ensures Served(env, RoutesOf(env, namespace, rules), req) ==
      match Applies(env, rules, req)
      case None => None
      case Some(i) => Some(RouteOf(env, namespace, rules[i]))
  {
    FirstMatchPreserved(env, RoutesOf(env, namespace, rules), rules, req);
  }

  // ----- where HTTPS redirects end up -----

  predicate RedirectsToHTTPS(r: Route) {
    r.action.RedirectAction? && r.action.https
  }

  // The plain service redirects to HTTPS exactly at the rules that ask for it.
  lemma PlainRedirects(env: Env, namespace: string, rules: seq<Rule>)
    ensures forall i :: 0 <= i < |rules| ==>
      (RedirectsToHTTPS(PlainRoutes(env, namespace, rules)[i]) <==> ToHTTPS(rules[i]))
  {
  }

  // Redirecting only on the plain service works exactly when every rule redirecting to HTTPS also
  // has a destination or a mirror; otherwise the TLS copy redirects HTTPS to HTTPS.
  lemma RedirectsOnlyOnPlain(env: Env, namespace: string, rules: seq<Rule>)
    ensures (forall i :: 0 <= i < |rules| ==> !RedirectsToHTTPS(RoutesOf(env, namespace, rules)[i]))
      <==> (forall i :: 0 <= i < |rules| && ToHTTPS(rules[i]) ==> rules[i].to != [] || rules[i].mirror.Some?)
  {
    assert forall i :: 0 <= i < |rules| ==>
      (RedirectsToHTTPS(RoutesOf(env, namespace, rules)[i])
       <==> ToHTTPS(rules[i]) && rules[i].to == [] && rules[i].mirror.None?);
  }

  // One such router: its only rule redirects to HTTPS and has nowhere else to send a request.
  lemma RedirectLoopExample(env: Env, namespace: string)
    ensures
      var match_ := Match(None, None, [], []);
      var rule := Rule(match_, [], Some(Redirect("", "", true)), None, None, None, None, None, None);
      var req := Request("example.com", "/", "https", "GET", map[]);
      && Served(env, RoutesOf(env, namespace, [rule]), req) == Some(RouteOf(env, namespace, rule))
      && RedirectsToHTTPS(RouteOf(env, namespace, rule))
  {
    var match_ := Match(None, None, [], []);
    var rule := Rule(match_, [], Some(Redirect("", "", true)), None, None, None, None, None, None);
    var r := RouteOf(env, namespace, rule);
    assert RoutesOf(env, namespace, [rule])[0] == r;
    assert MatcherMatches(env, r.matchers[0], Request("example.com", "/", "https", "GET", map[]));
  }
}
