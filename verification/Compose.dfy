// The generated compose file as the services and networks it declares: closed, reachable, and complete.
module Compose {
  import opened Text
  import opened Topology

  datatype Var = Var(key: string, value: string)

  // A service; one that is pulled rather than built has no target, and only an OpenSSL build has a base image.
  datatype Service = Service(name: string, target: Option<string>, base: Option<string>, env: seq<Var>,
                             networks: seq<string>)

  datatype File = File(networks: seq<string>, services: seq<Service>)

  datatype Roles = Roles(pqc: bool, ssl: bool)

  // ---------- which servers a node runs ----------

  ghost predicate Targeted(id: string, edges: seq<Edge>, proto: string) {
    exists k :: 0 <= k < |edges| && edges[k].to == id && edges[k].proto == proto
  }

  method ServerRoles(id: string, edges: seq<Edge>) returns (r: Roles)
    ensures r.pqc <==> Targeted(id, edges, "pqc")
    ensures r.ssl <==> Targeted(id, edges, "ssl")
  {
    var pqc, ssl := false, false;
    for k := 0 to |edges|
      invariant pqc <==> exists j :: 0 <= j < k && edges[j].to == id && edges[j].proto == "pqc"
      invariant ssl <==> exists j :: 0 <= j < k && edges[j].to == id && edges[j].proto == "ssl"
    {
      var e := edges[k];
      if e.to == id {
        if e.proto == "pqc" { pqc := true; } else if e.proto == "ssl" { ssl := true; }
      }
    }
    return Roles(pqc, ssl);
  }

  ghost predicate ServesSsl(n: Node, edges: seq<Edge>) {
    Targeted(n.id, edges, "ssl") || (n.kind == "openssl" && RoleName(n) == "server")
  }

  function AppsOf(n: Node): seq<string> { if n.apps == [] then [n.id] else n.apps }

  function EnvOf(n: Node, pqc: bool, ssl: bool): seq<Var> {
    [Var("NODE_NAME", n.id)]
    + (if n.kind == "java" then [Var("JAVA_APP", "1"), Var("PQCOTA_PROVIDERS", Join(n.providers, ','))] else [])
    + (if pqc then [Var("PQC_SERVER", "1")] else [])
    + (if ssl then [Var("SSL_SERVER", "1"), Var("SSL_APPS", Join(AppsOf(n), ','))] else [])
  }

  ghost function NodeEnvOf(n: Node, edges: seq<Edge>): seq<Var> {
    EnvOf(n, Targeted(n.id, edges, "pqc"), ServesSsl(n, edges))
  }

  method NodeEnv(n: Node, edges: seq<Edge>) returns (env: seq<Var>)
    ensures env == NodeEnvOf(n, edges)
  {
    env := [Var("NODE_NAME", n.id)];
    var r := ServerRoles(n.id, edges);
    if n.kind == "java" {
      env := env + [Var("JAVA_APP", "1")];
      env := env + [Var("PQCOTA_PROVIDERS", Join(n.providers, ','))];
    }
    if r.pqc {
      env := env + [Var("PQC_SERVER", "1")];
    }
    if r.ssl || (n.kind == "openssl" && RoleName(n) == "server") {
      var apps := n.apps;
      if |apps| == 0 { apps := [n.id]; }
      env := env + [Var("SSL_SERVER", "1"), Var("SSL_APPS", Join(apps, ','))];
    }
  }

  ghost predicate Sets(env: seq<Var>, key: string) { exists i :: 0 <= i < |env| && env[i].key == key }

  ghost predicate DistinctKeys(env: seq<Var>) { forall i, j :: 0 <= i < j < |env| ==> env[i].key != env[j].key }

  lemma EnvKeys(n: Node, pqc: bool, ssl: bool)
    ensures DistinctKeys(EnvOf(n, pqc, ssl))
    ensures Sets(EnvOf(n, pqc, ssl), "PQC_SERVER") <==> pqc
    ensures Sets(EnvOf(n, pqc, ssl), "SSL_SERVER") <==> ssl
    ensures Sets(EnvOf(n, pqc, ssl), "SSL_APPS") <==> ssl
  {
    var env := EnvOf(n, pqc, ssl);
    var java := if n.kind == "java" then 2 else 0;
    var at := 1 + java + (if pqc then 1 else 0);
    KeysDiffer();
    assert env[0].key == "NODE_NAME";
    assert n.kind == "java" ==> env[1].key == "JAVA_APP" && env[2].key == "PQCOTA_PROVIDERS";
    assert pqc ==> env[1 + java].key == "PQC_SERVER";
    assert ssl ==> env[at].key == "SSL_SERVER" && env[at + 1].key == "SSL_APPS";
    assert |env| == at + (if ssl then 2 else 0);
  }

  // The six variable names, told apart by their length and first letters.
  lemma KeysDiffer()
    ensures "NODE_NAME" != "JAVA_APP" && "NODE_NAME" != "PQCOTA_PROVIDERS" && "NODE_NAME" != "PQC_SERVER"
    ensures "NODE_NAME" != "SSL_SERVER" && "NODE_NAME" != "SSL_APPS" && "JAVA_APP" != "PQCOTA_PROVIDERS"
    ensures "JAVA_APP" != "PQC_SERVER" && "JAVA_APP" != "SSL_SERVER" && "JAVA_APP" != "SSL_APPS"
    ensures "PQCOTA_PROVIDERS" != "PQC_SERVER" && "PQCOTA_PROVIDERS" != "SSL_SERVER" && "PQCOTA_PROVIDERS" != "SSL_APPS"
    ensures "PQC_SERVER" != "SSL_SERVER" && "PQC_SERVER" != "SSL_APPS" && "SSL_SERVER" != "SSL_APPS"
  {
    assert "JAVA_APP"[0] == 'J' && "SSL_APPS"[0] == 'S' && "PQC_SERVER"[0] == 'P' && "SSL_SERVER"[0] == 'S';
    assert |"NODE_NAME"| == 9 && |"JAVA_APP"| == 8 && |"PQCOTA_PROVIDERS"| == 16 && |"PQC_SERVER"| == 10;
    assert |"SSL_SERVER"| == 10 && |"SSL_APPS"| == 8;
  }

  // ---------- the file ----------

  const CTL := "pqcota-ctl"
  const PG := "pqcota-demo-pg"
  const DEFAULT_NET := "pqcota-demo"

  function Nets(s: Spec): seq<string> { if s.networks == [] then [DEFAULT_NET] else s.networks }

  function NetworksOf(s: Spec, n: Node): seq<string> { if n.networks == [] then Nets(s) else n.networks }

  // A map lookup of the original gives the empty string for a missing key.
  function OrEmpty(o: Option<string>): string { match o case None => "" case Some(v) => v }

  function TargetOf(n: Node): string { if n.kind == "openssl" then OrEmpty(ForkTarget(ForkName(n))) else "node-java" }

  function BaseOf(n: Node): Option<string> {
    if n.kind == "openssl" && ForkName(n) == "openssl" then Some(OrEmpty(OpensslBase(Version(n)))) else None
  }

  ghost function ServiceOf(s: Spec, n: Node): Service {
    Service(n.id, Some(TargetOf(n)), BaseOf(n), NodeEnvOf(n, s.edges), NetworksOf(s, n))
  }

  function Controller(s: Spec): Service { Service(CTL, Some("ctl"), None, [], Nets(s)) }

  function Database(s: Spec): Service {
    Service(PG, None, None, [Var("POSTGRES_DB", "pqcota"), Var("POSTGRES_PASSWORD", "pqcota")], Nets(s))
  }

  ghost function ComposeOf(s: Spec): File {
    File(Nets(s), [Controller(s), Database(s)]
         + seq(|s.nodes|, i requires 0 <= i < |s.nodes| => ServiceOf(s, s.nodes[i])))
  }

  method Compose(s: Spec) returns (file: File)
    ensures file == ComposeOf(s)
  {
    var nets := s.networks;
    if |nets| == 0 { nets := ["pqcota-demo"]; }
    var services := [Service("pqcota-ctl", Some("ctl"), None, [], nets),
                     Service("pqcota-demo-pg", None, None,
                             [Var("POSTGRES_DB", "pqcota"), Var("POSTGRES_PASSWORD", "pqcota")], nets)];
    var nodeServices := NodeServices(s, nets);
    file := File(nets, services + nodeServices);
  }

  method NodeServices(s: Spec, nets: seq<string>) returns (services: seq<Service>)
    requires nets == Nets(s)
    ensures services == seq(|s.nodes|, i requires 0 <= i < |s.nodes| => ServiceOf(s, s.nodes[i]))
  {
    services := [];
    for i := 0 to |s.nodes|
      invariant |services| == i && forall k :: 0 <= k < i ==> services[k] == ServiceOf(s, s.nodes[k])
    {
      var service := NodeService(s, s.nodes[i], nets);
      services := services + [service];
    }
  }

  // The service of one node.
  method NodeService(s: Spec, n: Node, nets: seq<string>) returns (service: Service)
    requires nets == Nets(s)
    ensures service == ServiceOf(s, n)
  {
    var target := "node-java";
    var base: Option<string> := None;
    if n.kind == "openssl" {
      target := OrEmpty(ForkTarget(ForkName(n)));
      if ForkName(n) == "openssl" { base := Some(OrEmpty(OpensslBase(Version(n)))); }
    }
    var nn := n.networks;
    if |nn| == 0 { nn := nets; }
    var env := NodeEnv(n, s.edges);
    service := Service(n.id, Some(target), base, env, nn);
  }

  // ---------- closed ----------

  ghost predicate Joins(v: Service, declared: seq<string>) {
    forall m :: 0 <= m < |v.networks| ==> v.networks[m] in declared
  }

  ghost predicate Closed(f: File) { forall k :: 0 <= k < |f.services| ==> Joins(f.services[k], f.networks) }

  // A node's own list names nothing but the default network.
  ghost predicate OnlyDefault(n: Node) { forall m :: 0 <= m < |n.networks| ==> n.networks[m] == DEFAULT_NET }

  lemma NodeServiceAt(s: Spec, i: nat)
    requires i < |s.nodes|
    ensures ComposeOf(s).services[2 + i] == ServiceOf(s, s.nodes[i])
  {}

  lemma NodeJoins(s: Spec, i: nat)
    requires Valid(s) && i < |s.nodes|
    ensures Joins(ServiceOf(s, s.nodes[i]), Nets(s)) <==> s.networks != [] || OnlyDefault(s.nodes[i])
  {
    var n := s.nodes[i];
    assert ValidNode(s, n);
    if s.networks == [] && !OnlyDefault(n) {
      var m :| 0 <= m < |n.networks| && n.networks[m] != DEFAULT_NET;
      assert ServiceOf(s, n).networks[m] !in Nets(s);
    }
  }

  // Every service joins declared networks only, exactly when the specification declares networks or its nodes
  // name none but the default one: with no declaration the validation accepts any name.
  lemma ClosedIff(s: Spec)
    requires Valid(s)
    ensures Closed(ComposeOf(s)) <==> s.networks != [] || forall i :: 0 <= i < |s.nodes| ==> OnlyDefault(s.nodes[i])
  {
    var f := ComposeOf(s);
    if Closed(f) {
      forall i | 0 <= i < |s.nodes| ensures s.networks != [] || OnlyDefault(s.nodes[i]) {
        NodeServiceAt(s, i);
        assert Joins(f.services[2 + i], f.networks);
        NodeJoins(s, i);
      }
    }
    if s.networks != [] || forall i :: 0 <= i < |s.nodes| ==> OnlyDefault(s.nodes[i]) {
      forall k | 0 <= k < |f.services| ensures Joins(f.services[k], f.networks) {
        if k >= 2 { NodeJoins(s, k - 2); }
      }
    }
  }

  // A specification without networks, and a node that names one: valid, and its file joins an undeclared network.
  lemma UndeclaredNetworkIsAccepted()
    ensures exists s :: Valid(s) && !Closed(ComposeOf(s))
  {
    var n := Node("a", "", "java", "", None, [], [], ["x"]);
    var s := Spec([], [n], []);
    assert ValidNode(s, n) && Valid(s);
    assert |DEFAULT_NET| == 11 && |"x"| == 1;
    assert n.networks[0] != DEFAULT_NET && !OnlyDefault(s.nodes[0]);
    ClosedIff(s);
  }

  // The controller reaches a node exactly when they have a network in common.
  ghost predicate ShareNetwork(a: Service, b: Service) {
    exists m :: 0 <= m < |b.networks| && b.networks[m] in a.networks
  }

  lemma ControllerReachesIff(s: Spec, i: nat)
    requires Valid(s) && i < |s.nodes|
    ensures ShareNetwork(ComposeOf(s).services[0], ComposeOf(s).services[2 + i])
       <==> s.networks != [] || s.nodes[i].networks == [] || DEFAULT_NET in s.nodes[i].networks
  {
    var n := s.nodes[i];
    assert ValidNode(s, n);
    NodeServiceAt(s, i);
    var b := ServiceOf(s, n);
    assert b.networks[0] in b.networks;
    if s.networks != [] {
      assert b.networks[0] in Nets(s);
    } else if n.networks == [] {
      assert b.networks[0] in Nets(s);
    } else if DEFAULT_NET in n.networks {
      var m :| 0 <= m < |n.networks| && n.networks[m] == DEFAULT_NET;
      assert b.networks[m] in Nets(s);
    }
  }

  // A closed file is a reachable one.
  lemma ClosedIsReachable(s: Spec, i: nat)
    requires Valid(s) && i < |s.nodes| && Closed(ComposeOf(s))
    ensures ShareNetwork(ComposeOf(s).services[0], ComposeOf(s).services[2 + i])
  {
    ClosedIff(s);
    ControllerReachesIff(s, i);
    if s.networks == [] && s.nodes[i].networks != [] { assert s.nodes[i].networks[0] == DEFAULT_NET; }
  }

  // ---------- distinct names ----------

  ghost predicate DistinctNames(f: File) {
    forall j, k :: 0 <= j < k < |f.services| ==> f.services[j].name != f.services[k].name
  }

  lemma {:induction false} NamesDistinctIff(s: Spec)
    requires Valid(s)
    ensures DistinctNames(ComposeOf(s))
            <==> forall i :: 0 <= i < |s.nodes| ==> s.nodes[i].id != CTL && s.nodes[i].id != PG
  {
    var f := ComposeOf(s);
    assert |CTL| == 10 && |PG| == 14;
    assert f.services[0].name == CTL && f.services[1].name == PG;
    forall i | 0 <= i < |s.nodes|
      ensures f.services[2 + i].name == s.nodes[i].id
    {
      NodeServiceAt(s, i);
    }
    if forall i :: 0 <= i < |s.nodes| ==> s.nodes[i].id != CTL && s.nodes[i].id != PG {
      forall j, k | 0 <= j < k < |f.services| ensures f.services[j].name != f.services[k].name {
        if k >= 2 {
          assert f.services[2 + (k - 2)].name == s.nodes[k - 2].id;
          if j >= 2 { assert f.services[2 + (j - 2)].name == s.nodes[j - 2].id; }
        }
      }
    }
  }

  // A node called like the controller is valid, and takes its service's name.
  lemma ToolNameIsAccepted()
    ensures exists s :: Valid(s) && !DistinctNames(ComposeOf(s))
  {
    var n := Node(CTL, "", "java", "", None, [], [], []);
    var s := Spec([], [n], []);
    assert ValidId(CTL);
    assert ValidNode(s, n) && Valid(s);
    assert s.nodes[0].id == CTL;
    NamesDistinctIff(s);
  }

  // ---------- builds and servers ----------

  // The distribution that ships a version of OpenSSL; the version is 3 when none is said.
  ghost function BaseImage(version: string): string {
    match version
    case "1.1.1" => "ubuntu:20.04"
    case "3.0" => "ubuntu:22.04"
    case _ => "ubuntu:24.04"
  }

  // The image a valid node is built from: one target a kind and fork, and a base image, that of its version, exactly
  // for the OpenSSL fork.
  lemma BuildIsDefined(s: Spec, i: nat)
    requires Valid(s) && i < |s.nodes|
    ensures var n, v := s.nodes[i], ComposeOf(s).services[2 + i];
            && v.name == n.id
            && v.target == Some(if n.kind == "java" then "node-java"
                                else if SaidFork(n) == "libressl" then "node-libressl" else "node-openssl")
            && v.base == (if n.kind == "openssl" && SaidFork(n) != "libressl" then Some(BaseImage(SaidVersion(n)))
                          else None)
  {
    ValidIff(s);
    assert AcceptedNode(s, s.nodes[i]);
    NodeServiceAt(s, i);
    BuildOf(s, s.nodes[i]);
  }

  lemma BuildOf(s: Spec, n: Node)
    requires AcceptedNode(s, n)
    ensures TargetOf(n) == (if n.kind == "java" then "node-java"
                            else if SaidFork(n) == "libressl" then "node-libressl" else "node-openssl")
    ensures BaseOf(n) == if n.kind == "openssl" && SaidFork(n) != "libressl" then Some(BaseImage(SaidVersion(n)))
                         else None
  {
    assert |"openssl"| == 7 && |"java"| == 4 && |"libressl"| == 8;
  }

  // The controller and the database join every network of the file; the controller is the image built for it.
  lemma ToolsJoinEverything(s: Spec)
    ensures var f := ComposeOf(s);
            && f.networks == (if s.networks == [] then ["pqcota-demo"] else s.networks)
            && |f.services| == 2 + |s.nodes|
            && f.services[0] == Service("pqcota-ctl", Some("ctl"), None, [], f.networks)
            && f.services[1].name == "pqcota-demo-pg" && f.services[1].target == None && f.services[1].base == None
            && f.services[1].networks == f.networks
            && (forall v :: v in f.services[1].env <==> v == Var("POSTGRES_DB", "pqcota")
                                                        || v == Var("POSTGRES_PASSWORD", "pqcota"))
  {}

  // Every variable a node's service sets, with its value.
  lemma EnvSays(s: Spec, i: nat, v: Var)
    requires i < |s.nodes|
    ensures var n, env := s.nodes[i], ComposeOf(s).services[2 + i].env;
            v in env
            <==> || v == Var("NODE_NAME", n.id)
                 || (n.kind == "java"
                     && (v == Var("JAVA_APP", "1") || v == Var("PQCOTA_PROVIDERS", Join(n.providers, ','))))
                 || (Targeted(n.id, s.edges, "pqc") && v == Var("PQC_SERVER", "1"))
                 || ((Targeted(n.id, s.edges, "ssl") || (n.kind == "openssl" && n.role == "server"))
                     && (v == Var("SSL_SERVER", "1")
                         || v == Var("SSL_APPS", Join(if n.apps == [] then [n.id] else n.apps, ','))))
  {
    NodeServiceAt(s, i);
    assert |"server"| == 6 && |"client"| == 6 && "server"[0] != "client"[0];
    var n := s.nodes[i];
    EnvHolds(n, Targeted(n.id, s.edges, "pqc"), ServesSsl(n, s.edges), v);
  }

  lemma EnvHolds(n: Node, pqc: bool, ssl: bool, v: Var)
    ensures v in EnvOf(n, pqc, ssl)
            <==> || v == Var("NODE_NAME", n.id)
                 || (n.kind == "java"
                     && (v == Var("JAVA_APP", "1") || v == Var("PQCOTA_PROVIDERS", Join(n.providers, ','))))
                 || (pqc && v == Var("PQC_SERVER", "1"))
                 || (ssl && (v == Var("SSL_SERVER", "1")
                             || v == Var("SSL_APPS", Join(if n.apps == [] then [n.id] else n.apps, ','))))
  {}

  // A node runs a PQC server exactly when a pqc edge ends at it, and an SSL server exactly when an ssl edge ends at it
  // or it is an OpenSSL server; and no variable is set twice.
  lemma ServersMatchEdges(s: Spec, i: nat)
    requires i < |s.nodes|
    ensures Sets(ComposeOf(s).services[2 + i].env, "PQC_SERVER") <==> Targeted(s.nodes[i].id, s.edges, "pqc")
    ensures Sets(ComposeOf(s).services[2 + i].env, "SSL_SERVER") <==> ServesSsl(s.nodes[i], s.edges)
    ensures DistinctKeys(ComposeOf(s).services[2 + i].env)
  {
    NodeServiceAt(s, i);
    EnvKeys(s.nodes[i], Targeted(s.nodes[i].id, s.edges, "pqc"), ServesSsl(s.nodes[i], s.edges));
  }

  ghost predicate Runs(f: File, k: nat, name: string, server: string) {
    k < |f.services| && f.services[k].name == name && Sets(f.services[k].env, server)
  }

  // Every handshake the traffic file asks for has a server waiting for it: pqc and ssl edges end at one service that
  // runs that server. An ssh edge needs none of these.
  lemma EveryEdgeHasItsServer(s: Spec, k: nat)
    requires Valid(s) && k < |s.edges|
    ensures s.edges[k].proto == "pqc" ==> exists i :: Runs(ComposeOf(s), i, s.edges[k].to, "PQC_SERVER")
    ensures s.edges[k].proto == "ssl" ==> exists i :: Runs(ComposeOf(s), i, s.edges[k].to, "SSL_SERVER")
  {
    var e := s.edges[k];
    assert ValidEdge(s, e);
    var i :| 0 <= i < |s.nodes| && s.nodes[i].id == e.to;
    NodeServiceAt(s, i);
    assert Targeted(s.nodes[i].id, s.edges, e.proto);
    ServersMatchEdges(s, i);
    assert e.proto == "pqc" ==> Runs(ComposeOf(s), 2 + i, e.to, "PQC_SERVER");
    assert e.proto == "ssl" ==> Runs(ComposeOf(s), 2 + i, e.to, "SSL_SERVER");
  }

  // The applications a server loads, read back from its variable: those listed, or the node's own id when none is.
  lemma AppsReadBack(s: Spec, i: nat)
    requires Valid(s) && i < |s.nodes| && ServesSsl(s.nodes[i], s.edges)
    requires forall k :: 0 <= k < |s.nodes[i].apps| ==> ',' !in s.nodes[i].apps[k]
    ensures exists v :: v in ComposeOf(s).services[2 + i].env && v.key == "SSL_APPS"
                        && Split(v.value, ',') == if s.nodes[i].apps == [] then [s.nodes[i].id] else s.nodes[i].apps
  {
    var n := s.nodes[i];
    NodeServiceAt(s, i);
    assert ValidNode(s, n);
    IdIsPlain(n.id, ',');
    SplitOfJoin(AppsOf(n), ',');
    assert Var("SSL_APPS", Join(AppsOf(n), ',')) in [Var("SSL_SERVER", "1"), Var("SSL_APPS", Join(AppsOf(n), ','))];
  }
}
