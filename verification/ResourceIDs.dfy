/** Names of services on the command line: printing an ID and looking it up again
    (cli/pkg/types/types.go, cli/pkg/clicontext/byid.go and types.go). */
module ResourceIDs {
  import opened Prelude
  import opened Strings
  import opened Services

  const SERVICE := "service"
  const DEFAULT_VERSION := "v0"

  datatype Resource = Resource(lookupName: string, name: string, namespace: string, type_: string,
                               app: string, version: string)

  // A cluster object: a service, or anything else of a known type.
  datatype Object = ServiceObject(service: Revision) | OtherObject(type_: string, namespace: string, name: string)

  function FromObject(o: Object): Resource {
    match o
    case ServiceObject(s) => Resource("", s.name, s.namespace, SERVICE, App(s), Version(s))
    case OtherObject(t, ns, n) => Resource("", n, ns, t, "", "")
  }

  function Prefix(r: Resource, defaultNamespace: string): string {
    if defaultNamespace == "" || (r.namespace != "" && r.namespace != defaultNamespace) then r.namespace + ":" else ""
  }

  function PrintID(r: Resource, defaultNamespace: string): string {
    if r.lookupName != "" then r.lookupName
    else
      Prefix(r, defaultNamespace)
      + if r.type_ == SERVICE then r.app + (if r.version != DEFAULT_VERSION then "@" + r.version else "")
        else r.type_ + "/" + r.name
  }

  method StringDefaultNamespace(r: Resource, defaultNamespace: string) returns (buf: string)
    ensures buf == PrintID(r, defaultNamespace)
  {
    if r.lookupName != "" {
      return r.lookupName;
    }
    buf := "";
    if defaultNamespace == "" || (r.namespace != "" && r.namespace != defaultNamespace) {
      buf := buf + r.namespace;
      buf := buf + ":";
    }
    ghost var prefix := buf;
    if r.type_ != SERVICE {
      buf := buf + r.type_;
      buf := buf + "/";
    }
    if r.type_ == SERVICE {
      buf := buf + r.app;
      if r.version != DEFAULT_VERSION {
        buf := buf + "@";
        buf := buf + r.version;
      }
      assert buf == prefix + (r.app + (if r.version != DEFAULT_VERSION then "@" + r.version else ""));
    } else {
      buf := buf + r.name;
      assert buf == prefix + (r.type_ + "/" + r.name);
    }
  }

  // Short and plural names of types.
  function Normalized(aliases: map<string, string>, t: string): string {
    if t == "" then SERVICE else if t in aliases then aliases[t] else t
  }

  function ParseID(aliases: map<string, string>, setNamespace: string, id: string): Resource {
    var (namespace, typeAndName) := KvRSplit(id, ":");
    var (t, nameAndVersion) := KvRSplit(typeAndName, "/");
    var (name, version) := KvSplit(nameAndVersion, "@");
    var type_ := Normalized(aliases, t);
    Resource(id, nameAndVersion, if namespace == "" then setNamespace else namespace, type_, name,
             if version == "" && type_ == SERVICE then DEFAULT_VERSION else version)
  }

  predicate Matches(s: Revision, r: Resource) {
    (r.namespace == "" || s.namespace == r.namespace) && App(s) == r.app && Version(s) == r.version
  }

  // The first service of the namespace with the app and version asked for; all namespaces when
  // the namespace is empty.
  function GetService(services: seq<Revision>, r: Resource): Option<Revision> {
    if services == [] then None
    else if Matches(services[0], r) then Some(services[0])
    else GetService(services[1..], r)
  }

  // ----- printed IDs resolve -----

  predicate CleanPart(s: string) {
    NoSpace(s) && ':' !in s && '/' !in s && '@' !in s
  }

  predicate CleanService(s: Revision) {
    && s.namespace != "" && CleanPart(s.namespace)
    && App(s) != "" && CleanPart(App(s)) && CleanPart(Version(s))
  }

  // App and version identify a service within its namespace.
  predicate DistinctServices(services: seq<Revision>) {
    forall i, j :: 0 <= i < j < |services| && services[i].namespace == services[j].namespace ==>
      App(services[i]) != App(services[j]) || Version(services[i]) != Version(services[j])
  }

  function NameAndVersion(s: Revision): string {
    App(s) + if Version(s) != DEFAULT_VERSION then "@" + Version(s) else ""
  }

  lemma NameAndVersionSplits(s: Revision)
    requires CleanService(s)
    ensures Trimmed(NameAndVersion(s)) && ':' !in NameAndVersion(s) && '/' !in NameAndVersion(s)
    ensures KvSplit(NameAndVersion(s), "@")
            == (App(s), if Version(s) == DEFAULT_VERSION then "" else Version(s))
  {
    if Version(s) == DEFAULT_VERSION {
      assert NameAndVersion(s) == App(s);
      SplitMissing(App(s), "@");
    } else {
      assert NameAndVersion(s) == App(s) + "@" + Version(s);
      SplitFound(App(s), "@", Version(s));
    }
  }

  // An ID printed for default namespace d carries the service's namespace exactly when it is not d.
  predicate Prefixed(s: Revision, d: string) {
    d == "" || s.namespace != d
  }

  // Reading, with namespace n set, an ID printed for default namespace d gives back the app, the
  // version unless it is empty, and the printed namespace or else n.
  lemma PrintedIDParses(aliases: map<string, string>, s: Revision, d: string, n: string)
    requires CleanService(s)
    ensures
      var r := ParseID(aliases, n, PrintID(FromObject(ServiceObject(s)), d));
      && r.namespace == (if Prefixed(s, d) then s.namespace else n)
      && r.type_ == SERVICE && r.app == App(s)
      && r.version == if Version(s) == "" then DEFAULT_VERSION else Version(s)
  {
    var r := FromObject(ServiceObject(s));
    NameAndVersionSplits(s);
    SplitMissing(NameAndVersion(s), "/");
    if Prefixed(s, d) {
      SplitFound(s.namespace, ":", NameAndVersion(s));
      assert PrintID(r, d) == s.namespace + ":" + NameAndVersion(s);
    } else {
      SplitMissing(NameAndVersion(s), ":");
      assert PrintID(r, d) == NameAndVersion(s);
    }
  }

  lemma {:induction false} LookupMatches(services: seq<Revision>, r: Resource)
    ensures GetService(services, r).Some? ==> Matches(GetService(services, r).value, r)
  {
    if services != [] {
      LookupMatches(services[1..], r);
    }
  }

  // The lookup returns a service exactly when it matches and no earlier one does.
  lemma {:induction false} LookupFinds(services: seq<Revision>, i: nat, r: Resource)
    requires DistinctServices(services) && i < |services|
    ensures GetService(services, r) == Some(services[i])
            <==> Matches(services[i], r) && forall j :: 0 <= j < i ==> !Matches(services[j], r)
  {
    if i > 0 {
      var rest := services[1..];
      assert rest[i - 1] == services[i];
      assert DistinctServices(rest);
      LookupFinds(rest, i - 1, r);
      assert forall j :: 0 < j < i ==> services[j] == rest[j - 1];
    } else {
      LookupMatches(services[1..], r);
    }
  }

  // No earlier service, in any namespace, has the same app and version.
  predicate FirstOfItsName(services: seq<Revision>, i: nat)
    requires i < |services|
  {
    forall j :: 0 <= j < i ==> App(services[j]) != App(services[i]) || Version(services[j]) != Version(services[i])
  }

  // An ID printed for default namespace d and read with namespace n set looks up the service it was
  // printed for exactly when the service has a version and its namespace is printed, or is n, or
  // all namespaces are searched and no service of that name comes first.
  lemma PrintedIDResolves(aliases: map<string, string>, services: seq<Revision>, i: nat, d: string, n: string)
    requires DistinctServices(services) && i < |services| && CleanService(services[i])
    ensures
      var s := services[i];
      var id := PrintID(FromObject(ServiceObject(s)), d);
      GetService(services, ParseID(aliases, n, id)) == Some(s)
      <==> && Version(s) != ""
           && (Prefixed(s, d) || n == s.namespace || (n == "" && FirstOfItsName(services, i)))
  {
    var s := services[i];
    var r := ParseID(aliases, n, PrintID(FromObject(ServiceObject(s)), d));
    PrintedIDParses(aliases, s, d, n);
    LookupFinds(services, i, r);
  }

  // Under one and the same setting, which may be no namespace at all, only the version matters.
  lemma SameSettingResolves(aliases: map<string, string>, services: seq<Revision>, i: nat, d: string)
    requires DistinctServices(services) && i < |services| && CleanService(services[i])
    ensures
      var id := PrintID(FromObject(ServiceObject(services[i])), d);
      GetService(services, ParseID(aliases, d, id)) == Some(services[i]) <==> Version(services[i]) != ""
  {
    PrintedIDResolves(aliases, services, i, d, d);
  }
}
