/** Printing, parsing and normalizing container ports (pkg/riofile/stringers/exposed_ports.go). */
module Ports {
  import opened Prelude
  import opened Strings

  // The protocol field is a string; the names the program knows, the empty string, and any other.
  datatype Protocol = Unset | TCP | UDP | HTTP2 | SCTP | GRPC | HTTP | Other(text: string)

  datatype Port = Port(name: string, expose: Option<bool>, protocol: Protocol, port: int, targetPort: int,
                       hostPort: bool)

  const NO_PORT := Port("", None, Unset, 0, 0, false)

  // ----- protocols -----

  function Text(p: Protocol): string {
    match p
    case Unset => "" case TCP => "TCP" case UDP => "UDP" case HTTP2 => "HTTP2" case SCTP => "SCTP"
    case GRPC => "GRPC" case HTTP => "HTTP" case Other(s) => s
  }

  function UpperChar(c: char): char {
    if 'a' <= c <= 'z' then c - 32 as char else c
  }

  function LowerChar(c: char): char {
    if 'A' <= c <= 'Z' then c + 32 as char else c
  }

  function ToUpper(s: string): (u: string)
    ensures |u| == |s|
  {
    seq(|s|, i requires 0 <= i < |s| => UpperChar(s[i]))
  }

  function ToLower(s: string): (l: string)
    ensures |l| == |s|
  {
    seq(|s|, i requires 0 <= i < |s| => LowerChar(s[i]))
  }

  predicate Known(p: Protocol) {
    !p.Unset? && !p.Other?
  }

  function NormalizeProtocol(proto: string): (p: Protocol)
    ensures !p.Other?
  {
    var u := ToUpper(proto);
    if u == Text(TCP) then TCP
    else if u == Text(UDP) then UDP
    else if u == Text(HTTP2) then HTTP2
    else if u == Text(SCTP) then SCTP
    else if u == Text(GRPC) then GRPC
    else if u == Text(HTTP) then HTTP
    else Unset
  }

  function Normalize(p: Port): Port {
    var p1 := if p.port == 0 then p.(port := p.targetPort) else p;
    var p2 := if p1.targetPort == 0 then p1.(targetPort := p1.port) else p1;
    if p2.protocol.Unset? then p2.(protocol := HTTP) else p2
  }

  // ----- printing -----

  // The options a port may print.
  datatype Setting = ExposeOn | Internal | OnHost | Named(name: string) | Bare(name: string)

  function KeyOf(o: Setting): string {
    match o
    case ExposeOn => "expose" case Internal => "internal" case OnHost => "hostport"
    case Named(_) => "name" case Bare(n) => n
  }

  function ValueOf(o: Setting): string {
    if o.Named? then o.name else ""
  }

  function PrintSetting(o: Setting): string {
    if o.Named? then KeyOf(o) + "=" + o.name else KeyOf(o)
  }

  predicate Keyword(name: string) {
    name == "hostport" || name == "expose"
  }

  function Settings(p: Port, protocol: Protocol): seq<Setting> {
    (if p.expose == Some(true) && protocol != HTTP then [ExposeOn]
     else if p.expose == Some(false) && protocol == HTTP then [Internal]
     else [])
    + (if p.hostPort then [OnHost] else [])
    + (if p.name == "" then [] else if Keyword(p.name) then [Named(p.name)] else [Bare(p.name)])
  }

  function PrintSettings(os: seq<Setting>): (ss: seq<string>)
    ensures |ss| == |os|
  {
    seq(|os|, i requires 0 <= i < |os| => PrintSetting(os[i]))
  }

  function Number(n: int): string {
    if n < 0 then "-" + Itoa(-n) else Itoa(n)
  }

  function PrintPorts(p: Port): string {
    var port := if p.port <= 0 then 80 else p.port;
    Number(port) + (if p.targetPort > 0 && p.targetPort != port then ":" + Number(p.targetPort) else "")
  }

  function Head(p: Port, protocol: Protocol): string {
    PrintPorts(p) + (if Known(protocol) && protocol != HTTP then "/" + ToLower(Text(protocol)) else "")
  }

  function Print(port: Port): string {
    var p := Normalize(port);
    var protocol := NormalizeProtocol(Text(p.protocol));
    Join([Head(p, protocol)] + PrintSettings(Settings(p, protocol)), ",")
  }

  method MaybeString(e: Port) returns (buf: string)
    ensures buf == Print(e)
  {
    var p := Normalize(e);
    var protocol := NormalizeProtocol(Text(p.protocol));
    buf := WriteHead(p, protocol);
    buf := WriteSettings(buf, p, protocol);
  }

  method WriteHead(p: Port, protocol: Protocol) returns (buf: string)
    ensures buf == Head(p, protocol)
  {
    var port := p.port;
    if port <= 0 {
      port := 80;
    }
    buf := Number(port);
    if p.targetPort > 0 && p.targetPort != port {
      buf := buf + (":" + Number(p.targetPort));
    }
    assert buf == PrintPorts(p);
    if Known(protocol) && protocol != HTTP {
      buf := buf + ("/" + ToLower(Text(protocol)));
    }
  }

  method WriteSettings(head: string, p: Port, protocol: Protocol) returns (buf: string)
    ensures buf == Join([head] + PrintSettings(Settings(p, protocol)), ",")
  {
    buf := head;
    ghost var os: seq<Setting> := [];
    assert [head] + PrintSettings(os) == [head];
    if p.expose.Some? {
      if p.expose.value && protocol != HTTP {
        buf := WriteSetting(buf, head, os, ExposeOn);
        os := [ExposeOn];
      } else if !p.expose.value && protocol == HTTP {
        buf := WriteSetting(buf, head, os, Internal);
        os := [Internal];
      }
    }
    if p.hostPort {
      buf := WriteSetting(buf, head, os, OnHost);
      os := os + [OnHost];
    }
    if p.name != "" {
      var o := if Keyword(p.name) then Named(p.name) else Bare(p.name);
      buf := WriteSetting(buf, head, os, o);
      os := os + [o];
    }
    assert os == Settings(p, protocol);
  }

  method WriteSetting(buf: string, ghost head: string, ghost os: seq<Setting>, o: Setting) returns (buf': string)
    requires buf == Join([head] + PrintSettings(os), ",")
    ensures buf' == Join([head] + PrintSettings(os + [o]), ",")
  {
    assert [head] + PrintSettings(os + [o]) == [head] + PrintSettings(os) + [PrintSetting(o)];
    JoinAppend([head] + PrintSettings(os), ",", PrintSetting(o));
    buf' := buf + "," + PrintSetting(o);
  }

  // ----- parsing -----

  datatype PortError = BadPort(text: string) | BadProtocol(text: string)

  // kv.SplitMapFromSlice
  function SettingMap(parts: seq<string>): map<string, string> {
    if parts == [] then map[]
    else
      var (k, v) := KvSplit(parts[|parts| - 1], "=");
      SettingMap(parts[..|parts| - 1])[k := v]
  }

  datatype Kind = SetsName | SetsExpose | SetsInternal | SetsHost | IsName

  function KindOf(k: string): Kind {
    if k == "name" then SetsName
    else if k == "expose" then SetsExpose
    else if k == "internal" then SetsInternal
    else if k == "hostport" then SetsHost
    else IsName
  }

  function ApplySetting(p: Port, k: string, v: string): Port {
    match KindOf(k)
    case SetsName => p.(name := v)
    case SetsExpose => p.(expose := Some(v != "false"))
    case SetsInternal => p.(expose := Some(false))
    case SetsHost => p.(hostPort := true)
    case IsName => p.(name := k)
  }

  function Get(m: map<string, string>, k: string): string {
    if k in m then m[k] else ""
  }

  // The options, applied in the order in which the map is visited.
  function ApplySettings(m: map<string, string>, order: seq<string>): Port {
    if order == [] then NO_PORT
    else
      var k := order[|order| - 1];
      ApplySetting(ApplySettings(m, order[..|order| - 1]), k, Get(m, k))
  }

  function Int32(n: int): int {
    (n + 0x8000_0000) % 0x1_0000_0000 - 0x8000_0000
  }

  // The result for a published port text that reads as n, a target text that reads as m, and a
  // protocol text that normalizes to protocol.
  function Assemble(p: Port, pub: string, n: Option<int>, priv: string, m: Option<int>, proto: string,
                    protocol: Protocol)
    : Result<Port, PortError>
  {
    if n.None? then Err(BadPort(pub))
    else if proto != "" && protocol.Unset? then Err(BadProtocol(proto))
    else if priv == "" then Ok(p.(port := Int32(n.value), targetPort := Int32(n.value), protocol := protocol))
    else if m.None? then Err(BadPort(priv))
    else Ok(p.(port := Int32(n.value), targetPort := Int32(m.value), protocol := protocol))
  }

  function ParseHead(p: Port, head: string): Result<Port, PortError> {
    var (ports, proto) := KvSplit(head, "/");
    var (pub, priv) := KvSplit(ports, ":");
    Assemble(p, pub, Atoi(pub), priv, Atoi(priv), proto, NormalizeProtocol(proto))
  }

  function Parse(spec: string, order: seq<string>): Result<Port, PortError> {
    var parts := SplitOn(spec, ",");
    ParseHead(ApplySettings(SettingMap(parts[1..]), order), parts[0])
  }

  ghost predicate Visits(order: seq<string>, m: map<string, string>) {
    Distinct(order) && forall k :: k in order <==> k in m
  }

  // The options are visited in some order that the program does not control.
  method ParsePort(spec: string) returns (r: Result<Port, PortError>)
    ensures exists order :: Visits(order, SettingMap(SplitOn(spec, ",")[1..])) && r == Parse(spec, order)
  {
    var parts := SplitOn(spec, ",");
    var m := SettingMap(parts[1..]);
    var result, keys := NO_PORT, m.Keys;
    ghost var order: seq<string> := [];
    while keys != {}
      invariant keys <= m.Keys && Distinct(order)
      invariant forall k :: k in order <==> k in m && k !in keys
      invariant result == ApplySettings(m, order)
    {
      var k :| k in keys;
      keys := keys - {k};
      result := ApplySetting(result, k, m[k]);
      assert (order + [k])[..|order|] == order;
      order := order + [k];
    }
    assert Visits(order, m);
    r := ParseHead(result, parts[0]);
    assert r == Parse(spec, order);
  }

  // ----- options in any order -----

  predicate Naming(k: string) {
    KindOf(k).SetsName? || KindOf(k).IsName?
  }

  // The name comes from the one naming option, wherever it is visited.
  lemma {:induction false} NameSetting(m: map<string, string>, order: seq<string>, key: Option<string>)
    requires forall k :: k in order && Naming(k) ==> key == Some(k)
    requires key.Some? ==> Naming(key.value)
    ensures ApplySettings(m, order).name ==
      if key.None? || key.value !in order then ""
      else if KindOf(key.value).SetsName? then Get(m, key.value) else key.value
  {
    if order != [] {
      var init, k := order[..|order| - 1], order[|order| - 1];
      assert order == init + [k];
      assert forall x :: x in order <==> x in init || x == k;
      assert k in order;
      NameSetting(m, init, key);
      var before, after := ApplySettings(m, init), ApplySettings(m, order);
      assert after == ApplySetting(before, k, Get(m, k));
      assert Naming(k) ==> after.name == if KindOf(k).SetsName? then Get(m, k) else k;
      assert !Naming(k) ==> after.name == before.name;
    }
  }

  ghost predicate Has(order: seq<string>, kind: Kind) {
    exists k :: k in order && KindOf(k) == kind
  }

  // The other fields do not depend on the order as long as "expose" and "internal" do not meet.
  lemma {:induction false} OtherSettings(m: map<string, string>, order: seq<string>)
    requires !(Has(order, SetsExpose) && Has(order, SetsInternal))
    requires forall k :: k in order && KindOf(k).SetsExpose? ==> Get(m, k) != "false"
    ensures
      var q := ApplySettings(m, order);
      && q.expose == (if Has(order, SetsExpose) then Some(true)
                      else if Has(order, SetsInternal) then Some(false) else None)
      && q.hostPort == Has(order, SetsHost)
      && q.port == q.targetPort == 0 && q.protocol == Unset
  {
    if order != [] {
      var init, k := order[..|order| - 1], order[|order| - 1];
      assert order == init + [k];
      assert forall x :: x in order <==> x in init || x == k;
      assert forall kind :: Has(order, kind) <==> Has(init, kind) || KindOf(k) == kind;
      OtherSettings(m, init);
    }
  }

  // ----- what comes back of the head -----

  predicate InRange(n: int) {
    0 < n < 0x8000_0000
  }

  lemma KnownProtocols(p: Protocol)
    requires Known(p)
    ensures NormalizeProtocol(Text(p)) == p && NormalizeProtocol(ToLower(Text(p))) == p
    ensures ToLower(Text(p)) != "" && NoSpace(ToLower(Text(p))) && ',' !in ToLower(Text(p))
  {
    var t := Text(p);
    assert forall i :: 0 <= i < |t| ==> ToUpper(t)[i] == t[i] && ToUpper(ToLower(t))[i] == t[i];
    assert ToUpper(t) == t && ToUpper(ToLower(t)) == t;
    TextsDiffer();
  }

  lemma TextsDiffer()
    ensures Distinct([Text(TCP), Text(UDP), Text(HTTP2), Text(SCTP), Text(GRPC), Text(HTTP)])
  {
    assert Text(TCP)[0] == 'T' && Text(UDP)[0] == 'U' && Text(SCTP)[0] == 'S' && Text(GRPC)[0] == 'G';
    assert Text(HTTP)[0] == 'H' && Text(HTTP2)[0] == 'H' && |Text(HTTP)| == 4 && |Text(HTTP2)| == 5;
  }

  lemma DigitsAreClean(n: nat)
    ensures NoSpace(Itoa(n)) && ',' !in Itoa(n) && ':' !in Itoa(n) && '/' !in Itoa(n) && Trimmed(Itoa(n))
  {
  }

  lemma PrintedPorts(p: Port)
    requires InRange(p.port) && InRange(p.targetPort)
    ensures PrintPorts(p) ==
      if p.targetPort == p.port then Itoa(p.port) else Itoa(p.port) + ":" + Itoa(p.targetPort)
    ensures Trimmed(PrintPorts(p)) && '/' !in PrintPorts(p) && ',' !in PrintPorts(p)
  {
    DigitsAreClean(p.port);
    DigitsAreClean(p.targetPort);
  }

  lemma PortsParse(p: Port)
    requires InRange(p.port) && InRange(p.targetPort)
    ensures
      var (pub, priv) := KvSplit(PrintPorts(p), ":");
      && Atoi(pub) == Some(p.port)
      && (if p.targetPort == p.port then priv == "" else priv != "" && Atoi(priv) == Some(p.targetPort))
  {
    PrintedPorts(p);
    AtoiItoa(p.port);
    AtoiItoa(p.targetPort);
    DigitsAreClean(p.port);
    DigitsAreClean(p.targetPort);
    if p.targetPort != p.port {
      SplitFound(Itoa(p.port), ":", Itoa(p.targetPort));
    } else {
      SplitMissing(Itoa(p.port), ":");
    }
  }

  lemma HeadParses(p: Port, q: Port)
    requires InRange(p.port) && InRange(p.targetPort) && Known(p.protocol)
    ensures ',' !in Head(p, p.protocol)
    ensures ParseHead(q, Head(p, p.protocol)) ==
      Ok(q.(port := p.port, targetPort := p.targetPort, protocol := if p.protocol == HTTP then Unset else p.protocol))
  {
    KnownProtocols(p.protocol);
    PortsParse(p);
    var ports, proto := PrintPorts(p), ToLower(Text(p.protocol));
    var printed := if p.protocol == HTTP then "" else proto;
    HeadSplits(p);
    NoProtocol();
    var (pub, priv) := KvSplit(ports, ":");
    AssembleInRange(q, pub, p.port, priv, p.targetPort, Atoi(priv), printed, NormalizeProtocol(printed));
  }

  lemma HeadSplits(p: Port)
    requires InRange(p.port) && InRange(p.targetPort) && Known(p.protocol)
    ensures ',' !in Head(p, p.protocol)
    ensures KvSplit(Head(p, p.protocol), "/")
            == (PrintPorts(p), if p.protocol == HTTP then "" else ToLower(Text(p.protocol)))
  {
    KnownProtocols(p.protocol);
    PrintedPorts(p);
    HeadText(p);
    if p.protocol != HTTP {
      WithSlash(PrintPorts(p), ToLower(Text(p.protocol)));
    } else {
      SplitMissing(PrintPorts(p), "/");
    }
  }

  lemma HeadText(p: Port)
    requires Known(p.protocol)
    ensures Head(p, p.protocol) ==
      if p.protocol == HTTP then PrintPorts(p) else PrintPorts(p) + "/" + ToLower(Text(p.protocol))
  {
    var ports, proto := PrintPorts(p), ToLower(Text(p.protocol));
    assert ports + ("/" + proto) == ports + "/" + proto;
    assert ports + "" == ports;
  }

  lemma WithSlash(x: string, y: string)
    requires Trimmed(x) && Trimmed(y) && '/' !in x && ',' !in x && ',' !in y
    ensures KvSplit(x + "/" + y, "/") == (x, y) && ',' !in x + "/" + y
  {
    SplitFound(x, "/", y);
  }

  lemma NoProtocol()
    ensures NormalizeProtocol("") == Unset
  {
    assert ToUpper("") == "";
  }

  lemma AssembleInRange(q: Port, pub: string, n: int, priv: string, t: int, m: Option<int>, proto: string,
                        protocol: Protocol)
    requires InRange(n) && InRange(t)
    requires if t == n then priv == "" else priv != "" && m == Some(t)
    requires proto == "" || !protocol.Unset?
    ensures Assemble(q, pub, Some(n), priv, m, proto, protocol)
            == Ok(q.(port := n, targetPort := t, protocol := protocol))
  {
  }

  // ----- what comes back of the options -----

  predicate CleanName(s: string) {
    ',' !in s && '=' !in s && Trimmed(s)
  }

  predicate CleanSetting(o: Setting) {
    (o.Named? || o.Bare?) ==> o.name != "" && CleanName(o.name)
  }

  lemma SettingParses(o: Setting)
    requires CleanSetting(o)
    ensures KvSplit(PrintSetting(o), "=") == (KeyOf(o), ValueOf(o)) && ',' !in PrintSetting(o)
  {
    KeyIsClean(o);
    if o.Named? {
      WithEquals(KeyOf(o), o.name);
    } else {
      SplitMissing(KeyOf(o), "=");
    }
  }

  lemma KeyIsClean(o: Setting)
    requires CleanSetting(o)
    ensures CleanName(KeyOf(o))
  {
  }

  lemma WithEquals(x: string, y: string)
    requires CleanName(x) && CleanName(y)
    ensures KvSplit(x + "=" + y, "=") == (x, y) && ',' !in x + "=" + y
  {
    SplitFound(x, "=", y);
  }

  function MapOf(os: seq<Setting>): map<string, string> {
    if os == [] then map[] else MapOf(os[..|os| - 1])[KeyOf(os[|os| - 1]) := ValueOf(os[|os| - 1])]
  }

  lemma {:induction false} SettingsParse(os: seq<Setting>)
    requires forall i :: 0 <= i < |os| ==> CleanSetting(os[i])
    ensures SettingMap(PrintSettings(os)) == MapOf(os)
    ensures forall i :: 0 <= i < |os| ==> ',' !in PrintSettings(os)[i]
  {
    if os != [] {
      var init, o := os[..|os| - 1], os[|os| - 1];
      SettingsParse(init);
      SettingParses(o);
      assert PrintSettings(os) == PrintSettings(init) + [PrintSetting(o)];
      MapStep(PrintSettings(init), PrintSetting(o));
    }
  }

  lemma MapStep(parts: seq<string>, part: string)
    ensures SettingMap(parts + [part]) == var (k, v) := KvSplit(part, "="); SettingMap(parts)[k := v]
  {
    assert (parts + [part])[..|parts|] == parts;
  }

  ghost predicate KeyIn(os: seq<Setting>, k: string, v: string) {
    exists o :: o in os && KeyOf(o) == k && ValueOf(o) == v
  }

  lemma {:induction false} MapKeys(os: seq<Setting>)
    ensures forall k :: k in MapOf(os) ==> KeyIn(os, k, MapOf(os)[k])
    ensures forall o :: o in os ==> KeyOf(o) in MapOf(os)
  {
    if os != [] {
      var init, last := os[..|os| - 1], os[|os| - 1];
      assert os == init + [last];
      MapKeys(init);
      forall k | k in MapOf(os) ensures KeyIn(os, k, MapOf(os)[k]) {
        if k == KeyOf(last) {
          assert last in os;
        } else {
          assert KeyIn(init, k, MapOf(init)[k]);
        }
      }
    }
  }

  lemma Kinds()
    ensures KindOf(KeyOf(ExposeOn)) == SetsExpose && KindOf(KeyOf(Internal)) == SetsInternal
    ensures KindOf(KeyOf(OnHost)) == SetsHost && KindOf("name") == SetsName
    ensures forall n :: KindOf(n) == SetsExpose || KindOf(n) == SetsHost ==> Keyword(n)
  {
    assert |"name"| == 4 && |"expose"| == 6 && |"internal"| == 8 && |"hostport"| == 8;
    assert "internal"[0] == 'i' && "hostport"[0] == 'h';
  }

  // ----- the theorem -----

  predicate CleanPort(port: Port) {
    var p := Normalize(port);
    InRange(p.port) && InRange(p.targetPort) && Known(p.protocol) && CleanName(p.name)
  }

  // Without an Expose flag that repeats the protocol's default.
  function DropRedundant(p: Port): Port {
    if p.expose == Some(p.protocol == HTTP) then p.(expose := None) else p
  }

  lemma PrintedParts(p: Port, protocol: Protocol)
    requires ',' !in Head(p, protocol) && CleanName(p.name)
    ensures
      var parts := SplitOn(Join([Head(p, protocol)] + PrintSettings(Settings(p, protocol)), ","), ",");
      parts[0] == Head(p, protocol) && SettingMap(parts[1..]) == MapOf(Settings(p, protocol))
  {
    var os := Settings(p, protocol);
    SettingsParse(os);
    var parts := [Head(p, protocol)] + PrintSettings(os);
    SplitJoin(parts, ",");
    assert parts[1..] == PrintSettings(os);
  }

  // The setting that prints the name.
  function NameSettingOf(name: string): Setting {
    if Keyword(name) then Named(name) else Bare(name)
  }

  predicate SettingFor(p: Port, o: Setting) {
    match o
    case ExposeOn => p.expose == Some(true) && p.protocol != HTTP
    case Internal => p.expose == Some(false) && p.protocol == HTTP
    case OnHost => p.hostPort
    case _ => p.name != "" && o == NameSettingOf(p.name)
  }

  lemma SettingsOf(p: Port)
    ensures forall o :: o in Settings(p, p.protocol) <==> SettingFor(p, o)
  {
  }

  // Which kind of option each setting reads back as.
  lemma SettingKind(p: Port, o: Setting)
    requires SettingFor(p, o)
    ensures KindOf(KeyOf(o)).SetsExpose? <==> o == ExposeOn
    ensures KindOf(KeyOf(o)).SetsHost? <==> o == OnHost
    ensures p.name != "internal" ==> (KindOf(KeyOf(o)).SetsInternal? <==> o == Internal)
    ensures p.name == "internal" ==> !Naming(KeyOf(o))
    ensures Naming(KeyOf(o)) ==> o == NameSettingOf(p.name)
  {
    Kinds();
  }

  // A kind of option is visited exactly when the setting of that kind was printed.
  lemma KindVisited(p: Port, order: seq<string>, o: Setting)
    requires Visits(order, MapOf(Settings(p, p.protocol)))
    requires o == ExposeOn || o == OnHost || (o == Internal && p.name != "internal")
    ensures Has(order, KindOf(KeyOf(o))) <==> SettingFor(p, o)
  {
    var os := Settings(p, p.protocol);
    SettingsOf(p);
    MapKeys(os);
    Kinds();
    if k :| k in order && KindOf(k) == KindOf(KeyOf(o)) {
      assert KeyIn(os, k, MapOf(os)[k]);
      var x :| x in os && KeyOf(x) == k;
      SettingKind(p, x);
    }
    if SettingFor(p, o) {
      assert o in os && KeyOf(o) in order;
    }
  }

  lemma OthersComeBack(p: Port, order: seq<string>)
    requires Visits(order, MapOf(Settings(p, p.protocol))) && p.name != "internal"
    ensures
      var q := ApplySettings(MapOf(Settings(p, p.protocol)), order);
      && q.expose == DropRedundant(p).expose && q.hostPort == p.hostPort
      && q.port == q.targetPort == 0 && q.protocol == Unset
  {
    KindVisited(p, order, ExposeOn);
    KindVisited(p, order, OnHost);
    KindVisited(p, order, Internal);
    Kinds();
    ExposeIsBare(p, order);
    OtherSettings(MapOf(Settings(p, p.protocol)), order);
    assert Has(order, SetsExpose) <==> SettingFor(p, ExposeOn);
    assert Has(order, SetsInternal) <==> SettingFor(p, Internal);
    if p.expose.Some? {
      var b := p.expose.value;
      assert p.expose == if b then Some(true) else Some(false);
    }
  }

  lemma ExposeIsBare(p: Port, order: seq<string>)
    requires Visits(order, MapOf(Settings(p, p.protocol)))
    ensures forall k :: k in order && KindOf(k).SetsExpose? ==> Get(MapOf(Settings(p, p.protocol)), k) == ""
  {
    var os := Settings(p, p.protocol);
    SettingsOf(p);
    MapKeys(os);
    forall k | k in order && KindOf(k).SetsExpose? ensures Get(MapOf(os), k) == "" {
      assert KeyIn(os, k, MapOf(os)[k]);
      var x :| x in os && KeyOf(x) == k && ValueOf(x) == MapOf(os)[k];
      SettingKind(p, x);
    }
  }

  // The name comes back, except for the two names the parser takes for options.
  lemma NameComesBack(p: Port, order: seq<string>)
    requires Visits(order, MapOf(Settings(p, p.protocol)))
    ensures ApplySettings(MapOf(Settings(p, p.protocol)), order).name
            == if p.name == "internal" || p.name == "name" then "" else p.name
  {
    var os, o := Settings(p, p.protocol), NameSettingOf(p.name);
    var key := if p.name == "" || p.name == "internal" then None else Some(KeyOf(o));
    SettingsOf(p);
    MapKeys(os);
    forall k | k in order && Naming(k) ensures key == Some(k) {
      assert KeyIn(os, k, MapOf(os)[k]);
      var x :| x in os && KeyOf(x) == k;
      SettingKind(p, x);
    }
    if key.Some? {
      NameKeyNames(p.name);
      assert o in os && KeyOf(o) in order;
      NameValue(p);
    }
    NameSetting(MapOf(os), order, key);
  }

  lemma NameKeyNames(name: string)
    requires name != "" && name != "internal"
    ensures Naming(KeyOf(NameSettingOf(name)))
    ensures KindOf(KeyOf(NameSettingOf(name))).SetsName? <==> Keyword(name) || name == "name"
    ensures name == "name" ==> !Keyword(name)
  {
    Kinds();
  }

  lemma NameValue(p: Port)
    requires p.name != "" && p.name != "internal"
    ensures Get(MapOf(Settings(p, p.protocol)), KeyOf(NameSettingOf(p.name))) == ValueOf(NameSettingOf(p.name))
  {
    var os, o := Settings(p, p.protocol), NameSettingOf(p.name);
    SettingsOf(p);
    MapKeys(os);
    assert o in os;
    var v := MapOf(os)[KeyOf(o)];
    assert KeyIn(os, KeyOf(o), v);
    var x :| x in os && KeyOf(x) == KeyOf(o) && ValueOf(x) == v;
    SettingKind(p, x);
    NameKeyNames(p.name);
  }

  // Printing, parsing and normalizing a clean port gives the normalized port, less a redundant
  // Expose flag, in every order of visiting the options, unless the name is one the parser takes
  // for an option; and then it never does.
  lemma PortRoundTrip(port: Port, order: seq<string>)
    requires CleanPort(port)
    requires Visits(order, SettingMap(SplitOn(Print(port), ",")[1..]))
    ensures
      var r := Parse(Print(port), order);
      (r.Ok? && Normalize(r.value) == DropRedundant(Normalize(port)))
      <==> port.name != "internal" && port.name != "name"
  {
    var p := Normalize(port);
    KnownProtocols(p.protocol);
    HeadSplits(p);
    PrintedParts(p, p.protocol);
    var q := ApplySettings(MapOf(Settings(p, p.protocol)), order);
    HeadParses(p, q);
    NameComesBack(p, order);
    if port.name != "internal" && port.name != "name" {
      OthersComeBack(p, order);
    }
    ComparePorts(p, q);
  }

  // Normalizing what was parsed only restores the protocol.
  lemma ComparePorts(p: Port, q: Port)
    requires InRange(p.port) && InRange(p.targetPort) && Known(p.protocol)
    ensures
      var protocol := if p.protocol == HTTP then Unset else p.protocol;
      var r := q.(port := p.port, targetPort := p.targetPort, protocol := protocol);
      Normalize(r) == DropRedundant(p)
      <==> q.name == p.name && q.expose == DropRedundant(p).expose && q.hostPort == p.hostPort
  {
  }
}
