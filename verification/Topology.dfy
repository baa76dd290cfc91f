// topogen's input: the demo topology and its validation.
module Topology {
  import opened Text

  datatype OpenSSL = OpenSSL(fork: string, version: string)

  datatype Node = Node(id: string, name: string, kind: string, role: string, openssl: Option<OpenSSL>,
                       providers: seq<string>, apps: seq<string>, networks: seq<string>)

  datatype Edge = Edge(from: string, to: string, proto: string, port: int)

  datatype Spec = Spec(networks: seq<string>, nodes: seq<Node>, edges: seq<Edge>)

  // ---------- defaults and the support matrix ----------

  function ForkName(n: Node): string {
    if n.openssl.Some? && n.openssl.value.fork != "" then n.openssl.value.fork else "openssl"
  }

  function Version(n: Node): string {
    if n.openssl.Some? && n.openssl.value.version != "" then n.openssl.value.version else "3"
  }

  function RoleName(n: Node): string { if n.role != "" then n.role else "client" }

  function DisplayName(n: Node): string { if n.name != "" then n.name else n.id }

  function OpensslBase(version: string): Option<string> {
    if version == "1.1.1" then Some("ubuntu:20.04")
    else if version == "3.0" then Some("ubuntu:22.04")
    else if version == "3" || version == "3.x" then Some("ubuntu:24.04")
    else None
  }

  function ForkTarget(fork: string): Option<string> {
    if fork == "openssl" then Some("node-openssl") else if fork == "libressl" then Some("node-libressl") else None
  }

  predicate ForkUnsupported(fork: string) { fork == "boringssl" || fork == "aws-lc" }

  // ---------- validation ----------

  datatype Problem =
    | NoNodes
    | BadId(i: nat) | DuplicateId(i: nat)
    | UnsupportedFork(i: nat) | UnknownFork(i: nat) | UnsupportedVersion(i: nat) | BadRole(i: nat) | BadKind(i: nat)
    | UndeclaredNetwork(i: nat)
    | UnknownFrom(k: nat) | UnknownTo(k: nat) | BadProto(k: nat)

  predicate IdChar(c: char) { 'a' <= c <= 'z' || '0' <= c <= '9' || c == '-' }

  // ^[a-z0-9][a-z0-9-]*$
  predicate ValidId(id: string) { id != "" && id[0] != '-' && forall i :: 0 <= i < |id| ==> IdChar(id[i]) }

  predicate ValidProto(p: string) { p == "pqc" || p == "ssl" || p == "ssh" }

  function KindProblem(n: Node, i: nat): Option<Problem> {
    if n.kind == "openssl" then
      if ForkUnsupported(ForkName(n)) then Some(UnsupportedFork(i))
      else if ForkTarget(ForkName(n)).None? then Some(UnknownFork(i))
      else if ForkName(n) == "openssl" && OpensslBase(Version(n)).None? then Some(UnsupportedVersion(i))
      else if RoleName(n) != "client" && RoleName(n) != "server" then Some(BadRole(i))
      else None
    else if n.kind == "java" then None
    else Some(BadKind(i))
  }

  // What a valid specification is, said node by node and edge by edge.
  ghost predicate Valid(s: Spec) {
    && s.nodes != []
    && (forall i :: 0 <= i < |s.nodes| ==> ValidNode(s, s.nodes[i]))
    && DistinctIds(s.nodes)
    && (forall k :: 0 <= k < |s.edges| ==> ValidEdge(s, s.edges[k]))
  }

  ghost predicate ValidNode(s: Spec, n: Node) {
    && ValidId(n.id)
    && KindProblem(n, 0).None?
    && (s.networks != [] ==> forall m :: 0 <= m < |n.networks| ==> n.networks[m] in s.networks)
  }

  ghost predicate DistinctIds(nodes: seq<Node>) { forall i, j :: 0 <= i < j < |nodes| ==> nodes[i].id != nodes[j].id }

  ghost predicate HasNode(nodes: seq<Node>, id: string) { exists i :: 0 <= i < |nodes| && nodes[i].id == id }

  ghost predicate ValidEdge(s: Spec, e: Edge) {
    HasNode(s.nodes, e.from) && HasNode(s.nodes, e.to) && ValidProto(e.proto)
  }

  ghost predicate Declared(n: Node, nets: set<string>) {
    nets != {} ==> forall m :: 0 <= m < |n.networks| ==> n.networks[m] in nets
  }

  // ---------- the same in the words of the input ----------

  // A lower-case letter or a digit, and then any of these and hyphens.
  ghost predicate IdText(id: string) {
    && id != "" && (LowerCase(id[0]) || Figure(id[0]))
    && forall i :: 0 < i < |id| ==> LowerCase(id[i]) || Figure(id[i]) || id[i] == '-'
  }

  ghost predicate LowerCase(c: char) { 'a' <= c <= 'z' }

  ghost predicate Figure(c: char) { '0' <= c <= '9' }

  // What a node says of its OpenSSL; nothing said reads as the empty text.
  ghost function SaidFork(n: Node): string { if n.openssl.None? then "" else n.openssl.value.fork }

  ghost function SaidVersion(n: Node): string { if n.openssl.None? then "" else n.openssl.value.version }

  // OpenSSL, the default fork, in one of four spellings of a version or the default one; or LibreSSL in any.
  ghost predicate Supported(n: Node) {
    || SaidFork(n) == "libressl"
    || ((SaidFork(n) == "" || SaidFork(n) == "openssl")
        && (SaidVersion(n) == "" || SaidVersion(n) == "1.1.1" || SaidVersion(n) == "3.0" || SaidVersion(n) == "3"
            || SaidVersion(n) == "3.x"))
  }

  ghost predicate AcceptedNode(s: Spec, n: Node) {
    && IdText(n.id)
    && (|| n.kind == "java"
        || (n.kind == "openssl" && Supported(n) && (n.role == "" || n.role == "client" || n.role == "server")))
    && (s.networks != [] ==> forall m :: 0 <= m < |n.networks| ==> n.networks[m] in s.networks)
  }

  ghost predicate AcceptedEdge(s: Spec, e: Edge) {
    && Known(s, e.from) && Known(s, e.to)
    && (e.proto == "pqc" || e.proto == "ssl" || e.proto == "ssh")
  }

  ghost predicate Accepted(s: Spec) {
    && |s.nodes| > 0
    && (forall i :: 0 <= i < |s.nodes| ==> AcceptedNode(s, s.nodes[i]))
    && (forall i, j :: 0 <= i < |s.nodes| && 0 <= j < |s.nodes| && s.nodes[i].id == s.nodes[j].id ==> i == j)
    && (forall k :: 0 <= k < |s.edges| ==> AcceptedEdge(s, s.edges[k]))
  }

  lemma KindIff(n: Node)
    ensures KindProblem(n, 0).None?
            <==> || n.kind == "java"
                 || (n.kind == "openssl" && Supported(n) && (n.role == "" || n.role == "client" || n.role == "server"))
  {
    assert |"openssl"| == 7 && |"java"| == 4 && |"libressl"| == 8 && |"boringssl"| == 9 && |"aws-lc"| == 6;
  }

  lemma IdTextIff(id: string)
    ensures IdText(id) <==> ValidId(id)
  {
    if IdText(id) { assert forall i :: 0 <= i < |id| ==> IdChar(id[i]); }
  }

  lemma AcceptedNodeIff(s: Spec, n: Node)
    ensures AcceptedNode(s, n) <==> ValidNode(s, n)
  {
    KindIff(n);
    IdTextIff(n.id);
  }

  lemma ValidIff(s: Spec)
    ensures Accepted(s) <==> Valid(s)
  {
    forall i | 0 <= i < |s.nodes| ensures AcceptedNode(s, s.nodes[i]) <==> ValidNode(s, s.nodes[i]) {
      AcceptedNodeIff(s, s.nodes[i]);
    }
    assert forall k :: 0 <= k < |s.edges| ==> (AcceptedEdge(s, s.edges[k]) <==> ValidEdge(s, s.edges[k]));
  }

  // ---------- which problem is reported ----------

  // The nodes before node i are accepted, and no two of them are called the same.
  ghost predicate Reached(s: Spec, i: nat) {
    && i < |s.nodes| && DistinctIds(s.nodes[..i])
    && forall j :: 0 <= j < i ==> AcceptedNode(s, s.nodes[j])
  }

  ghost predicate Known(s: Spec, id: string) { exists i :: 0 <= i < |s.nodes| && s.nodes[i].id == id }

  // All nodes are accepted, and the edges before edge k.
  ghost predicate ReachedEdge(s: Spec, k: nat) {
    && k < |s.edges| && DistinctIds(s.nodes)
    && (forall j :: 0 <= j < |s.nodes| ==> AcceptedNode(s, s.nodes[j]))
    && forall j :: 0 <= j < k ==> AcceptedEdge(s, s.edges[j])
  }

  // What each problem says of the specification, and that none comes before it.
  ghost predicate Blames(s: Spec, p: Problem) {
    match p
    case NoNodes => s.nodes == []
    case BadId(i) => Reached(s, i) && !IdText(s.nodes[i].id)
    case DuplicateId(i) => Reached(s, i) && IdText(s.nodes[i].id) && HasNode(s.nodes[..i], s.nodes[i].id)
    case UnsupportedFork(i) => NewNode(s, i) && s.nodes[i].kind == "openssl" && HasNoServer(SaidFork(s.nodes[i]))
    case UnknownFork(i) =>
      && NewNode(s, i) && s.nodes[i].kind == "openssl" && !HasNoServer(SaidFork(s.nodes[i]))
      && SaidFork(s.nodes[i]) != "" && SaidFork(s.nodes[i]) != "openssl" && SaidFork(s.nodes[i]) != "libressl"
    case UnsupportedVersion(i) =>
      && NewNode(s, i) && s.nodes[i].kind == "openssl" && !Supported(s.nodes[i])
      && (SaidFork(s.nodes[i]) == "" || SaidFork(s.nodes[i]) == "openssl")
    case BadRole(i) =>
      && NewNode(s, i) && s.nodes[i].kind == "openssl" && Supported(s.nodes[i])
      && s.nodes[i].role != "" && s.nodes[i].role != "client" && s.nodes[i].role != "server"
    case BadKind(i) => NewNode(s, i) && s.nodes[i].kind != "openssl" && s.nodes[i].kind != "java"
    case UndeclaredNetwork(i) =>
      && NewNode(s, i) && KindProblem(s.nodes[i], 0).None?
      && s.networks != [] && exists m :: 0 <= m < |s.nodes[i].networks| && s.nodes[i].networks[m] !in s.networks
    case UnknownFrom(k) => ReachedEdge(s, k) && !Known(s, s.edges[k].from)
    case UnknownTo(k) => ReachedEdge(s, k) && Known(s, s.edges[k].from) && !Known(s, s.edges[k].to)
    case BadProto(k) =>
      && ReachedEdge(s, k) && Known(s, s.edges[k].from) && Known(s, s.edges[k].to)
      && s.edges[k].proto != "pqc" && s.edges[k].proto != "ssl" && s.edges[k].proto != "ssh"
  }

  ghost predicate NewNode(s: Spec, i: nat) {
    Reached(s, i) && IdText(s.nodes[i].id) && !HasNode(s.nodes[..i], s.nodes[i].id)
  }

  ghost predicate HasNoServer(fork: string) { fork == "boringssl" || fork == "aws-lc" }

  ghost function NodeProblem(n: Node, i: nat, nets: set<string>, ids: set<string>): Option<Problem> {
    if !ValidId(n.id) then Some(BadId(i))
    else if n.id in ids then Some(DuplicateId(i))
    else if KindProblem(n, i).Some? then KindProblem(n, i)
    else if !Declared(n, nets) then Some(UndeclaredNetwork(i))
    else None
  }

  lemma KindProblemIs(n: Node, i: nat)
    ensures KindProblem(n, i)
            == if n.kind == "java" then None
               else if n.kind != "openssl" then Some(BadKind(i))
               else if HasNoServer(SaidFork(n)) then Some(UnsupportedFork(i))
               else if SaidFork(n) != "" && SaidFork(n) != "openssl" && SaidFork(n) != "libressl"
                 then Some(UnknownFork(i))
               else if !Supported(n) then Some(UnsupportedVersion(i))
               else if n.role != "" && n.role != "client" && n.role != "server" then Some(BadRole(i))
               else None
  {
    assert |"openssl"| == 7 && |"java"| == 4 && |"libressl"| == 8 && |"boringssl"| == 9 && |"aws-lc"| == 6;
  }

  lemma NodeProblemIsBlamed(s: Spec, i: nat, nets: set<string>, ids: set<string>)
    requires Reached(s, i) && nets == (set x | x in s.networks)
    requires s.nodes[i].id in ids <==> HasNode(s.nodes[..i], s.nodes[i].id)
    requires NodeProblem(s.nodes[i], i, nets, ids).Some?
    ensures Blames(s, NodeProblem(s.nodes[i], i, nets, ids).value)
  {
    var n := s.nodes[i];
    IdTextIff(n.id);
    if IdText(n.id) && n.id !in ids {
      assert NewNode(s, i);
      SameKindProblem(n, i);
      KindProblemIs(n, i);
      DeclaredIff(s, n, nets);
    }
  }

  // The checks on one node, given the declared networks and the ids seen before it.
  method CheckNode(n: Node, i: nat, nets: set<string>, ids: set<string>) returns (problem: Option<Problem>)
    ensures problem == NodeProblem(n, i, nets, ids)
  {
    if !ValidId(n.id) { return Some(BadId(i)); }
    if n.id in ids { return Some(DuplicateId(i)); }
    var kind := KindProblem(n, i);
    if kind.Some? { return kind; }
    for m := 0 to |n.networks|
      invariant nets != {} ==> forall l :: 0 <= l < m ==> n.networks[l] in nets
    {
      if nets != {} && n.networks[m] !in nets { return Some(UndeclaredNetwork(i)); }
    }
    return None;
  }

  method CheckEdges(s: Spec, ids: set<string>) returns (problem: Option<Problem>)
    requires forall x :: x in ids <==> HasNode(s.nodes, x)
    requires DistinctIds(s.nodes) && forall j :: 0 <= j < |s.nodes| ==> AcceptedNode(s, s.nodes[j])
    ensures problem.None? <==> forall k :: 0 <= k < |s.edges| ==> AcceptedEdge(s, s.edges[k])
    ensures problem.Some? ==> Blames(s, problem.value)
  {
    for k := 0 to |s.edges|
      invariant forall j :: 0 <= j < k ==> AcceptedEdge(s, s.edges[j])
    {
      var e := s.edges[k];
      assert forall x :: x in ids <==> Known(s, x);
      if e.from !in ids { return Some(UnknownFrom(k)); }
      if e.to !in ids { return Some(UnknownTo(k)); }
      if !ValidProto(e.proto) { return Some(BadProto(k)); }
    }
    return None;
  }

  // The loop over the nodes; the ids it has collected are those of all nodes when it finds nothing.
  method CheckNodes(s: Spec, nets: set<string>) returns (problem: Option<Problem>, ids: set<string>)
    requires nets == set x | x in s.networks
    ensures problem.None? <==> DistinctIds(s.nodes) && forall i :: 0 <= i < |s.nodes| ==> AcceptedNode(s, s.nodes[i])
    ensures problem.None? ==> forall x :: x in ids <==> HasNode(s.nodes, x)
    ensures problem.Some? ==> Blames(s, problem.value)
  {
    ids := {};
    for i := 0 to |s.nodes|
      invariant forall x :: x in ids <==> HasNode(s.nodes[..i], x)
      invariant DistinctIds(s.nodes[..i]) && forall j :: 0 <= j < i ==> AcceptedNode(s, s.nodes[j])
    {
      problem := CheckNode(s.nodes[i], i, nets, ids);
      if problem.Some? {
        NodeProblemIsBlamed(s, i, nets, ids);
        NodeIsRefused(s, i, nets, ids);
        return;
      }
      NodeIsAccepted(s, i, nets, ids);
      ids := ids + {s.nodes[i].id};
    }
    assert s.nodes[..|s.nodes|] == s.nodes;
    problem := None;
  }

  lemma NodeIsRefused(s: Spec, i: nat, nets: set<string>, ids: set<string>)
    requires Reached(s, i) && nets == (set x | x in s.networks)
    requires forall x :: x in ids <==> HasNode(s.nodes[..i], x)
    requires NodeProblem(s.nodes[i], i, nets, ids).Some?
    ensures !(DistinctIds(s.nodes) && AcceptedNode(s, s.nodes[i]))
  {
    AcceptedNodeIff(s, s.nodes[i]);
    ValidNodeIff(s, s.nodes[i], i, nets);
    SeenTwice(s.nodes, i);
  }

  lemma NodeIsAccepted(s: Spec, i: nat, nets: set<string>, ids: set<string>)
    requires Reached(s, i) && nets == (set x | x in s.networks)
    requires forall x :: x in ids <==> HasNode(s.nodes[..i], x)
    requires NodeProblem(s.nodes[i], i, nets, ids).None?
    ensures AcceptedNode(s, s.nodes[i]) && DistinctIds(s.nodes[..i + 1])
    ensures forall x :: x in ids + {s.nodes[i].id} <==> HasNode(s.nodes[..i + 1], x)
  {
    AcceptedNodeIff(s, s.nodes[i]);
    ValidNodeIff(s, s.nodes[i], i, nets);
    HasNodeStep(s.nodes, i);
    DistinctStep(s.nodes, i);
  }

  // Validate accepts exactly the valid specifications, and reports the first problem of any other.
  method Validate(s: Spec) returns (problem: Option<Problem>)
    ensures problem.None? <==> Valid(s)
    ensures problem.None? <==> Accepted(s)
    ensures problem.Some? ==> Blames(s, problem.value)
  {
    ValidIff(s);
    if |s.nodes| == 0 { return Some(NoNodes); }
    var nets: set<string> := {};
    for m := 0 to |s.networks|
      invariant nets == set x | x in s.networks[..m]
    {
      nets := nets + {s.networks[m]};
    }
    assert s.networks[..|s.networks|] == s.networks;
    var ids;
    problem, ids := CheckNodes(s, nets);
    if problem.Some? { return; }
    problem := CheckEdges(s, ids);
  }

  lemma SameKindProblem(n: Node, i: nat)
    ensures KindProblem(n, i).None? <==> KindProblem(n, 0).None?
  {}

  lemma DeclaredIff(s: Spec, n: Node, nets: set<string>)
    requires nets == set x | x in s.networks
    ensures Declared(n, nets)
            <==> (s.networks != [] ==> forall m :: 0 <= m < |n.networks| ==> n.networks[m] in s.networks)
  {
    if s.networks != [] { assert s.networks[0] in nets; }
  }

  lemma ValidNodeIff(s: Spec, n: Node, i: nat, nets: set<string>)
    requires nets == set x | x in s.networks
    ensures ValidNode(s, n) <==> ValidId(n.id) && KindProblem(n, i).None? && Declared(n, nets)
  {
    SameKindProblem(n, i);
    DeclaredIff(s, n, nets);
  }

  lemma SeenTwice(nodes: seq<Node>, i: nat)
    requires i < |nodes|
    ensures HasNode(nodes[..i], nodes[i].id) ==> !DistinctIds(nodes)
  {
    if j :| 0 <= j < i && nodes[..i][j].id == nodes[i].id {
      assert nodes[j].id == nodes[i].id;
    }
  }

  lemma HasNodeStep(nodes: seq<Node>, i: nat)
    requires i < |nodes|
    ensures forall x :: HasNode(nodes[..i + 1], x) <==> HasNode(nodes[..i], x) || x == nodes[i].id
  {
    forall x ensures HasNode(nodes[..i + 1], x) <==> HasNode(nodes[..i], x) || x == nodes[i].id {
      assert nodes[..i + 1][i] == nodes[i] && forall j :: 0 <= j < i ==> nodes[..i + 1][j] == nodes[..i][j];
    }
  }

  lemma DistinctStep(nodes: seq<Node>, i: nat)
    requires i < |nodes| && DistinctIds(nodes[..i]) && !HasNode(nodes[..i], nodes[i].id)
    ensures DistinctIds(nodes[..i + 1])
  {
    assert forall j :: 0 <= j < i ==> nodes[..i][j] == nodes[j];
  }

  // An id holds none of the characters the generated files use as separators.
  lemma IdIsPlain(id: string, c: char)
    requires ValidId(id) && !IdChar(c)
    ensures c !in id
  {}
}
