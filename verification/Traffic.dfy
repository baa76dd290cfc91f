// groups.ini: who belongs to which group and which handshakes each node makes, as printed and as read back.
module Traffic {
  import opened Text
  import opened Topology
  import opened Numbers
  import Str

  // ---------- printing ----------

  function TargetPort(e: Edge): int { if e.port != 0 then e.port else if e.proto == "ssh" then 22 else 4433 }

  function TargetWord(e: Edge): string { e.proto + ":" + e.to + ":" + PrintInt(TargetPort(e)) }

  function Words(): Edge -> string { e => TargetWord(e) }

  function TargetWords(edges: seq<Edge>): seq<string> { Map(Words(), edges) }

  // The edges leaving a node, in the order of the specification.
  function OutEdges(edges: seq<Edge>, id: string): seq<Edge> {
    if edges == [] then []
    else
      var before := OutEdges(edges[..|edges| - 1], id);
      var e := edges[|edges| - 1];
      if e.from == id then before + [e] else before
  }

  function TrafficOf(edges: seq<Edge>, id: string): string { Join(TargetWords(OutEdges(edges, id)), ' ') }

  function HostLine(edges: seq<Edge>, id: string): string { id + " traffic=" + "\"" + TrafficOf(edges, id) + "\"" }

  function OfKind(nodes: seq<Node>, kind: string): seq<Node> {
    if nodes == [] then []
    else
      var before := OfKind(nodes[..|nodes| - 1], kind);
      if nodes[|nodes| - 1].kind == kind then before + [nodes[|nodes| - 1]] else before
  }

  function LineFor(edges: seq<Edge>): Node -> string { (n: Node) => HostLine(edges, n.id) }

  function HostLines(members: seq<Node>, edges: seq<Edge>): seq<string> {
    Map(LineFor(edges), members)
  }

  function Section(members: seq<Node>, edges: seq<Edge>, kind: string): seq<string> {
    if members == [] then [] else ["[" + kind + "]"] + HostLines(members, edges) + [""]
  }

  function GeneratedBy(): string {
    "# generated by topogen —" + " group membership and " + "traffic scenarios " + "(no connection details)."
  }

  function ConnectionNote(): string {
    "# connection details " + "(host, user, key) live" + " in targets.ini, which" + " pqcota-hosts builds"
      + " from hosts.csv."
  }

  function Header(): seq<string> {
    [GeneratedBy(), ConnectionNote(), ""]
  }

  function Interpreter(): string { "ansible_python_" + "interpreter=" + "/usr/bin/python3" }

  function Trailer(): seq<string> {
    ["[targets:children]", "openssl", "java"] + [""] + ["[all:vars]", "window=16", Interpreter()]
  }

  function GroupsLines(s: Spec): seq<string> {
    Header() + Section(OfKind(s.nodes, "openssl"), s.edges, "openssl")
    + Section(OfKind(s.nodes, "java"), s.edges, "java") + Trailer()
  }

  function Lookup(m: map<string, seq<string>>, id: string): seq<string> { if id in m then m[id] else [] }

  method Word(e: Edge) returns (word: string)
    ensures word == TargetWord(e)
  {
    var port := e.port;
    if port == 0 {
      port := if e.proto == "ssh" then 22 else 4433;
    }
    word := e.proto + ":" + e.to + ":" + PrintInt(port);
  }

  lemma SourceGrows(edges: seq<Edge>, k: nat, id: string)
    requires k < |edges|
    ensures TargetWords(OutEdges(edges[..k + 1], id))
         == TargetWords(OutEdges(edges[..k], id)) + (if edges[k].from == id then [TargetWord(edges[k])] else [])
  {
    assert edges[..k + 1][..k] == edges[..k];
    if edges[k].from == id {
      LastWord(OutEdges(edges[..k + 1], id));
    }
  }

  // The target words of each source, gathered edge by edge.
  method BySource(edges: seq<Edge>) returns (bySrc: map<string, seq<string>>)
    ensures forall id :: Lookup(bySrc, id) == TargetWords(OutEdges(edges, id))
  {
    bySrc := map[];
    for k := 0 to |edges|
      invariant forall id :: Lookup(bySrc, id) == TargetWords(OutEdges(edges[..k], id))
    {
      var e := edges[k];
      assert edges[..k + 1][..k] == edges[..k];
      var word := Word(e);
      forall id ensures TargetWords(OutEdges(edges[..k + 1], id))
                     == TargetWords(OutEdges(edges[..k], id)) + (if e.from == id then [word] else [])
      {
        SourceGrows(edges, k, id);
      }
      bySrc := bySrc[e.from := Lookup(bySrc, e.from) + [word]];
    }
    assert edges[..|edges|] == edges;
  }

  method Members(nodes: seq<Node>, kind: string) returns (members: seq<Node>)
    ensures members == OfKind(nodes, kind)
  {
    members := [];
    for i := 0 to |nodes|
      invariant members == OfKind(nodes[..i], kind)
    {
      assert nodes[..i + 1][..i] == nodes[..i];
      if nodes[i].kind == kind { members := members + [nodes[i]]; }
    }
    assert nodes[..|nodes|] == nodes;
  }

  // The file, written through a map from sources to target words.
  method GroupsINI(s: Spec) returns (text: string)
    ensures text == Unlines(GroupsLines(s), '\n')
  {
    var bySrc := BySource(s.edges);
    ghost var ssl := Section(OfKind(s.nodes, "openssl"), s.edges, "openssl");
    ghost var java := Section(OfKind(s.nodes, "java"), s.edges, "java");
    text := Unlines(Header(), '\n');
    text := WriteSection(s, bySrc, "openssl", text, Header());
    text := WriteSection(s, bySrc, "java", text, Header() + ssl);
    UnlinesAppend(Header() + ssl + java, Trailer(), '\n');
    text := text + Unlines(Trailer(), '\n');
  }

  method WriteSection(s: Spec, bySrc: map<string, seq<string>>, kind: string, before: string,
                      ghost written: seq<string>)
    returns (text: string)
    requires forall id :: Lookup(bySrc, id) == TargetWords(OutEdges(s.edges, id))
    requires before == Unlines(written, '\n')
    ensures text == Unlines(written + Section(OfKind(s.nodes, kind), s.edges, kind), '\n')
  {
    var members := Members(s.nodes, kind);
    if |members| == 0 {
      assert written + [] == written;
      return before;
    }
    text := WriteMembers(s.edges, bySrc, members, before + ("[" + kind + "]") + "\n", written + ["[" + kind + "]"])
      by { OneMoreLine(written, "[" + kind + "]"); }
    SectionLines(written, members, s.edges, kind);
    text := text + "\n";
  }

  lemma OneMoreLine(written: seq<string>, line: string)
    ensures Unlines(written + [line], '\n') == Unlines(written, '\n') + line + "\n"
  {
    assert (written + [line])[..|written|] == written;
  }

  lemma SectionLines(written: seq<string>, members: seq<Node>, edges: seq<Edge>, kind: string)
    requires members != []
    ensures Unlines(written + Section(members, edges, kind), '\n')
         == Unlines(written + ["[" + kind + "]"] + HostLines(members, edges), '\n') + "\n"
  {
    var head, lines := ["[" + kind + "]"], HostLines(members, edges);
    AssociateThree(written, head, lines, [""]);
    BlankEnds(written + head + lines);
  }

  lemma AssociateThree(w: seq<string>, a: seq<string>, b: seq<string>, c: seq<string>)
    ensures w + (a + b + c) == w + a + b + c
  {}

  lemma BlankEnds(lines: seq<string>)
    ensures Unlines(lines + [""], '\n') == Unlines(lines, '\n') + "\n"
  {
    OneMoreLine(lines, "");
    assert Unlines(lines, '\n') + "" == Unlines(lines, '\n');
  }

  method WriteMembers(edges: seq<Edge>, bySrc: map<string, seq<string>>, members: seq<Node>, before: string,
                      ghost written: seq<string>)
    returns (text: string)
    requires forall id :: Lookup(bySrc, id) == TargetWords(OutEdges(edges, id))
    requires before == Unlines(written, '\n')
    ensures text == Unlines(written + HostLines(members, edges), '\n')
  {
    ghost var lines := HostLines(members, edges);
    text := before;
    assert written + lines[..0] == written;
    for i := 0 to |members|
      invariant text == Unlines(written + lines[..i], '\n')
    {
      var line := MemberLine(members[i].id, Lookup(bySrc, members[i].id), edges);
      LinesGrow(written, lines, i);
      text := text + line + "\n";
    }
    assert lines[..|members|] == lines;
  }

  method MemberLine(id: string, words: seq<string>, ghost edges: seq<Edge>) returns (line: string)
    requires words == TargetWords(OutEdges(edges, id))
    ensures line == HostLine(edges, id)
  {
    line := id + " traffic=" + "\"" + Join(words, ' ') + "\"";
  }

  lemma LinesGrow(written: seq<string>, lines: seq<string>, i: nat)
    requires i < |lines|
    ensures Unlines(written + lines[..i + 1], '\n') == Unlines(written + lines[..i], '\n') + lines[i] + "\n"
  {
    OneMoreLine(written + lines[..i], lines[i]);
    assert written + lines[..i + 1] == written + lines[..i] + [lines[i]];
  }

  // ---------- reading ----------

  datatype Target = Target(kind: string, host: string, port: string)

  datatype Host = Host(group: string, id: string, traffic: seq<Target>)

  datatype Ini = Ini(section: string, hosts: seq<Host>, children: seq<string>, vars: seq<string>)

  // IFS=: read -r kind host port, with the traffic script's default port.
  function ReadTarget(word: string): Target {
    var f := Split(word, ':');
    var port := if |f| > 2 then Join(f[2..], ':') else "";
    Target(f[0], if |f| > 1 then f[1] else "", if port != "" then port else "443")
  }

  function ReadTargets(words: seq<string>): seq<Target> {
    if words == [] then []
    else
      var before := ReadTargets(words[..|words| - 1]);
      if words[|words| - 1] == "" then before else before + [ReadTarget(words[|words| - 1])]
  }

  // A host line: an id, one space, and the quoted traffic value, which the shell splits at spaces.
  function ReadHost(group: string, line: string): Host {
    var f := Split(line, '"');
    if |f| == 3 && f[2] == "" && |f[0]| >= 9 && Str.HasSuffix(f[0], " traffic=") then
      Host(group, f[0][..|f[0]| - 9], ReadTargets(Split(f[1], ' ')))
    else Host(group, line, [])
  }

  function ReadLine(st: Ini, line: string): Ini {
    if line == "" || line[0] == '#' then st
    else if line[0] == '['
      then st.(section := line[1..|line| - (if line[|line| - 1] == ']' && |line| > 1 then 1 else 0)])
    else if st.section == "targets:children" then st.(children := st.children + [line])
    else if st.section == "all:vars" then st.(vars := st.vars + [line])
    else st.(hosts := st.hosts + [ReadHost(st.section, line)])
  }

  function ReadLines(st: Ini, lines: seq<string>): Ini {
    if lines == [] then st else ReadLine(ReadLines(st, lines[..|lines| - 1]), lines[|lines| - 1])
  }

  function ReadGroups(text: string): Ini { ReadLines(Ini("", [], [], []), Split(text, '\n')) }

  // ---------- what the printed words hold ----------

  predicate WordChar(c: char) { IdChar(c) || c == ':' }

  predicate ValueChar(c: char) { WordChar(c) || c == ' ' }

  ghost predicate GoodEdges(edges: seq<Edge>) {
    forall k :: 0 <= k < |edges| ==> ValidId(edges[k].to) && ValidProto(edges[k].proto)
  }

  lemma ValidEdgesAreGood(s: Spec)
    requires Valid(s)
    ensures GoodEdges(s.edges)
  {
    forall k | 0 <= k < |s.edges| ensures ValidId(s.edges[k].to) {
      assert ValidEdge(s, s.edges[k]);
    }
  }

  lemma {:induction false} OutEdgesAreGood(edges: seq<Edge>, id: string)
    requires GoodEdges(edges)
    ensures GoodEdges(OutEdges(edges, id))
  {
    if edges == [] {
    } else {
      OutEdgesAreGood(edges[..|edges| - 1], id);
    }
  }

  lemma ThreeFieldsRead(kind: string, host: string, port: string)
    requires ':' !in kind && ':' !in host && ':' !in port && port != ""
    ensures ReadTarget(kind + ":" + host + ":" + port) == Target(kind, host, port)
  {
    SplitOfThree(kind, host, port, ':');
    assert kind + [':'] + host + [':'] + port == kind + ":" + host + ":" + port;
    assert [kind, host, port][2..] == [port];
  }

  lemma PortIsPlain(port: int)
    ensures ReadInt(PrintInt(port)) == Some(port) && PrintInt(port) != "" && ':' !in PrintInt(port)
    ensures forall i :: 0 <= i < |PrintInt(port)| ==> IdChar(PrintInt(port)[i])
  {
    IntRoundTrip(port);
    assert ReadInt("") == None;
  }

  lemma ProtoIsPlain(proto: string)
    requires ValidProto(proto)
    ensures ':' !in proto && proto != "" && forall i :: 0 <= i < |proto| ==> IdChar(proto[i])
  {}

  lemma TargetWordReads(e: Edge)
    requires ValidId(e.to) && ValidProto(e.proto)
    ensures ReadTarget(TargetWord(e)) == TargetOf(e)
    ensures ReadInt(ReadTarget(TargetWord(e)).port) == Some(TargetPort(e))
    ensures TargetWord(e) != "" && forall i :: 0 <= i < |TargetWord(e)| ==> WordChar(TargetWord(e)[i])
  {
    IdIsPlain(e.to, ':');
    ProtoIsPlain(e.proto);
    PortIsPlain(TargetPort(e));
    ThreeFieldsRead(e.proto, e.to, PrintInt(TargetPort(e)));
    WordChars(e.proto, e.to, PrintInt(TargetPort(e)));
  }

  // What a target says of its edge: the protocol, the node, and the edge's own port or the default of the protocol.
  ghost predicate TargetFor(e: Edge, t: Target) {
    && t.kind == e.proto && t.host == e.to
    && (e.port != 0 ==> ReadInt(t.port) == Some(e.port))
    && (e.port == 0 && e.proto == "ssh" ==> ReadInt(t.port) == Some(22))
    && (e.port == 0 && (e.proto == "pqc" || e.proto == "ssl") ==> ReadInt(t.port) == Some(4433))
  }

  lemma TargetIsFor(e: Edge)
    requires ValidId(e.to) && ValidProto(e.proto)
    ensures TargetFor(e, TargetOf(e)) && TargetFor(e, ReadTarget(TargetWord(e)))
  {
    TargetWordReads(e);
    ProtosDiffer();
  }

  lemma ProtosDiffer()
    ensures "ssh" != "pqc" && "ssh" != "ssl"
  {
    assert "ssh"[2] == 'h' && "ssl"[2] == 'l' && "pqc"[0] == 'p' && "ssh"[0] == 's';
  }

  ghost predicate TargetsFor(edges: seq<Edge>, ts: seq<Target>) {
    |ts| == |edges| && forall k :: 0 <= k < |edges| ==> TargetFor(edges[k], ts[k])
  }

  lemma TargetsAreFor(edges: seq<Edge>)
    requires GoodEdges(edges)
    ensures TargetsFor(edges, TargetsOf(edges))
  {
    forall k | 0 <= k < |edges| ensures TargetFor(edges[k], TargetsOf(edges)[k]) { TargetIsFor(edges[k]); }
  }

  lemma WordChars(kind: string, host: string, port: string)
    requires forall i :: 0 <= i < |kind| ==> IdChar(kind[i])
    requires forall i :: 0 <= i < |host| ==> IdChar(host[i])
    requires forall i :: 0 <= i < |port| ==> IdChar(port[i])
    ensures forall i :: 0 <= i < |kind + ":" + host + ":" + port| ==> WordChar((kind + ":" + host + ":" + port)[i])
  {}

  lemma {:induction false} JoinedWordsAreValueChars(words: seq<string>)
    requires forall k, i :: 0 <= k < |words| && 0 <= i < |words[k]| ==> WordChar(words[k][i])
    ensures forall i :: 0 <= i < |Join(words, ' ')| ==> ValueChar(Join(words, ' ')[i])
  {
    if |words| > 1 { JoinedWordsAreValueChars(words[1..]); }
  }

  function TargetOf(e: Edge): Target { Target(e.proto, e.to, PrintInt(TargetPort(e))) }

  function Targets(): Edge -> Target { e => TargetOf(e) }

  function TargetsOf(edges: seq<Edge>): seq<Target> { Map(Targets(), edges) }

  lemma ReadMoreWords(words: seq<string>, w: string)
    requires w != ""
    ensures ReadTargets(words + [w]) == ReadTargets(words) + [ReadTarget(w)]
  {
    assert (words + [w])[..|words|] == words;
  }

  // Reading back the words of a list of edges gives one target an edge.
  lemma {:induction false} WordsRead(edges: seq<Edge>)
    requires GoodEdges(edges)
    ensures ReadTargets(TargetWords(edges)) == TargetsOf(edges)
  {
    if edges == [] {
    } else {
      var n := |edges| - 1;
      WordsRead(edges[..n]);
      OneWordReads(edges[n]);
      ReadMoreWords(TargetWords(edges[..n]), TargetWord(edges[n]));
      LastWord(edges);
      LastTarget(edges);
    }
  }

  lemma OneWordReads(e: Edge)
    requires ValidId(e.to) && ValidProto(e.proto)
    ensures TargetWord(e) != "" && ReadTarget(TargetWord(e)) == TargetOf(e)
  {
    TargetWordReads(e);
  }

  lemma LastWord(edges: seq<Edge>)
    requires edges != []
    ensures TargetWords(edges) == TargetWords(edges[..|edges| - 1]) + [TargetWord(edges[|edges| - 1])]
  {
    MapLast(Words(), edges);
  }

  lemma LastTarget(edges: seq<Edge>)
    requires edges != []
    ensures TargetsOf(edges) == TargetsOf(edges[..|edges| - 1]) + [TargetOf(edges[|edges| - 1])]
  {
    MapLast(Targets(), edges);
  }

  // The traffic value of a list of edges, split at spaces and at colons, is that list with its ports filled in.
  lemma TrafficRoundTrip(edges: seq<Edge>)
    requires GoodEdges(edges)
    ensures ReadTargets(Split(Join(TargetWords(edges), ' '), ' ')) == TargetsOf(edges)
    ensures TargetsFor(edges, TargetsOf(edges))
    ensures forall i :: 0 <= i < |Join(TargetWords(edges), ' ')| ==> ValueChar(Join(TargetWords(edges), ' ')[i])
  {
    TargetsAreFor(edges);
    var words := TargetWords(edges);
    forall k | 0 <= k < |words| ensures ' ' !in words[k] && forall i :: 0 <= i < |words[k]| ==> WordChar(words[k][i]) {
      TargetWordReads(edges[k]);
    }
    JoinedWordsAreValueChars(words);
    if edges == [] {
      assert Split("", ' ') == [""] && [""][..0] == [];
    } else {
      SplitOfJoin(words, ' ');
      WordsRead(edges);
    }
  }

  // ---------- one host line ----------

  lemma HostLineReads(edges: seq<Edge>, id: string, group: string)
    requires GoodEdges(edges) && ValidId(id)
    ensures ReadHost(group, HostLine(edges, id)) == Host(group, id, TargetsOf(OutEdges(edges, id)))
    ensures '\n' !in HostLine(edges, id)
    ensures HostLine(edges, id) != "" && HostLine(edges, id)[0] != '#' && HostLine(edges, id)[0] != '['
  {
    OutEdgesAreGood(edges, id);
    TrafficRoundTrip(OutEdges(edges, id));
    IdIsPlain(id, '"');
    IdIsPlain(id, '\n');
    ValueIsPlain(TrafficOf(edges, id));
    QuotedHostReads(group, id, TrafficOf(edges, id));
    HostLineChars(id, TrafficOf(edges, id));
  }

  lemma ValueIsPlain(value: string)
    requires forall i :: 0 <= i < |value| ==> ValueChar(value[i])
    ensures '"' !in value && '\n' !in value
  {}

  lemma HostLineChars(id: string, value: string)
    requires ValidId(id) && '\n' !in id && '\n' !in value
    ensures var line := id + " traffic=" + "\"" + value + "\"";
            '\n' !in line && line != "" && line[0] != '#' && line[0] != '['
  {
    assert (id + " traffic=" + "\"" + value + "\"")[0] == id[0];
  }

  lemma QuotedHostReads(group: string, id: string, value: string)
    requires '"' !in id && '"' !in value
    ensures ReadHost(group, id + " traffic=" + "\"" + value + "\"") == Host(group, id, ReadTargets(Split(value, ' ')))
  {
    var head := id + " traffic=";
    assert |" traffic="| == 9;
    SplitOfThree(head, value, "", '"');
    assert head + ['"'] + value + ['"'] + "" == id + " traffic=" + "\"" + value + "\"";
    assert Str.HasSuffix(head, " traffic=") && head[..|head| - 9] == id;
  }

  // ---------- the whole file ----------

  function HostFor(edges: seq<Edge>, group: string): Node -> Host {
    (n: Node) => Host(group, n.id, TargetsOf(OutEdges(edges, n.id)))
  }

  function HostsOf(members: seq<Node>, edges: seq<Edge>, group: string): seq<Host> {
    Map(HostFor(edges, group), members)
  }

  function Hosts(s: Spec): seq<Host> {
    HostsOf(OfKind(s.nodes, "openssl"), s.edges, "openssl") + HostsOf(OfKind(s.nodes, "java"), s.edges, "java")
  }

  ghost predicate GoodIds(nodes: seq<Node>) { forall i :: 0 <= i < |nodes| ==> ValidId(nodes[i].id) }

  lemma {:induction false} OfKindIsGood(nodes: seq<Node>, kind: string)
    requires GoodIds(nodes)
    ensures GoodIds(OfKind(nodes, kind))
  {
    if nodes == [] {
    } else {
      OfKindIsGood(nodes[..|nodes| - 1], kind);
    }
  }

  lemma {:induction false} ReadLinesAppend(st: Ini, a: seq<string>, b: seq<string>)
    ensures ReadLines(st, a + b) == ReadLines(ReadLines(st, a), b)
  {
    if b == [] {
      assert a + b == a;
    } else {
      var n := |b| - 1;
      ReadLinesAppend(st, a, b[..n]);
      assert (a + b)[..|a| + n] == a + b[..n];
    }
  }

  lemma {:induction false} HostLinesRead(st: Ini, members: seq<Node>, edges: seq<Edge>)
    requires GoodIds(members) && GoodEdges(edges)
    requires st.section != "targets:children" && st.section != "all:vars"
    ensures ReadLines(st, HostLines(members, edges)) == st.(hosts := st.hosts + HostsOf(members, edges, st.section))
  {
    if members == [] {
      assert st.hosts + [] == st.hosts;
    } else {
      var n := |members| - 1;
      HostLinesRead(st, members[..n], edges);
      HostLineReads(edges, members[n].id, st.section);
      ReadMore(st, HostLines(members[..n], edges), HostLine(edges, members[n].id));
      LastHost(members, edges, st.section);
    }
  }

  lemma LastHost(members: seq<Node>, edges: seq<Edge>, group: string)
    requires members != []
    ensures var n := |members| - 1;
            && HostLines(members, edges) == HostLines(members[..n], edges) + [HostLine(edges, members[n].id)]
            && HostsOf(members, edges, group)
               == HostsOf(members[..n], edges, group)
                 + [Host(group, members[n].id, TargetsOf(OutEdges(edges, members[n].id)))]
  {
    MapLast(LineFor(edges), members);
    MapLast(HostFor(edges, group), members);
  }

  lemma SectionReads(st: Ini, members: seq<Node>, edges: seq<Edge>, kind: string)
    requires GoodIds(members) && GoodEdges(edges) && (kind == "openssl" || kind == "java")
    ensures ReadLines(st, Section(members, edges, kind)).hosts == st.hosts + HostsOf(members, edges, kind)
    ensures ReadLines(st, Section(members, edges, kind)).children == st.children
    ensures ReadLines(st, Section(members, edges, kind)).vars == st.vars
  {
    if members != [] {
      var head := ["[" + kind + "]"];
      var line := "[" + kind + "]";
      assert line[1..|line| - 1] == kind;
      assert head[..0] == [];
      assert ReadLines(st, head) == ReadLine(ReadLines(st, []), line) == st.(section := kind);
      HostLinesRead(st.(section := kind), members, edges);
      ReadLinesAppend(st, head, HostLines(members, edges));
      assert [""][..0] == [];
      ReadLinesAppend(st, head + HostLines(members, edges), [""]);
    }
  }

  lemma ReadMore(st: Ini, lines: seq<string>, line: string)
    ensures ReadLines(st, lines + [line]) == ReadLine(ReadLines(st, lines), line)
  {
    assert (lines + [line])[..|lines|] == lines;
  }

  lemma ReadThree(st: Ini, a: string, b: string, c: string)
    ensures ReadLines(st, [a, b, c]) == ReadLine(ReadLine(ReadLine(st, a), b), c)
  {
    assert [] + [a] == [a] && [a] + [b] == [a, b] && [a, b] + [c] == [a, b, c];
    ReadMore(st, [], a);
    ReadMore(st, [a], b);
    ReadMore(st, [a, b], c);
  }

  function Children(): seq<string> { ["[targets:children]", "openssl", "java"] }

  function Vars(): seq<string> { ["[all:vars]", "window=16", Interpreter()] }

  lemma ChildrenRead(st: Ini)
    requires st.children == []
    ensures ReadLines(st, Children()) == Ini("targets:children", st.hosts, ["openssl", "java"], st.vars)
  {
    var head := "[targets:children]";
    assert head[1..|head| - 1] == "targets:children";
    ReadThree(st, head, "openssl", "java");
  }

  // The variables of every host: the window of a scan, and the interpreter.
  function Variables(): seq<string> { ["window=16", "ansible_python_interpreter=/usr/bin/python3"] }

  lemma VarsAre()
    ensures Vars() == ["[all:vars]"] + Variables()
  {
    assert Interpreter() == "ansible_python_interpreter=/usr/bin/python3";
  }

  lemma VarRead(st: Ini, line: string)
    requires st.section == "all:vars" && line != "" && line[0] != '#' && line[0] != '['
    ensures ReadLine(st, line) == st.(vars := st.vars + [line])
  {
    assert "targets:children"[0] == 't' && "all:vars"[0] == 'a';
  }

  lemma VarsRead(st: Ini)
    requires st.vars == []
    ensures ReadLines(st, Vars()) == st.(section := "all:vars", vars := Variables())
  {
    var head := "[all:vars]";
    var v := Variables();
    assert head[1..|head| - 1] == "all:vars";
    assert v[0][0] == 'w' && v[1][0] == 'a';
    VarsAre();
    ReadThree(st, head, v[0], v[1]);
    var inside := st.(section := "all:vars");
    VarRead(inside, v[0]);
    VarRead(inside.(vars := [v[0]]), v[1]);
    assert [] + [v[0]] == [v[0]] && [v[0]] + [v[1]] == v;
  }

  lemma TrailerReads(st: Ini)
    requires st.children == [] && st.vars == []
    ensures ReadLines(st, Trailer()) == Ini("all:vars", st.hosts, ["openssl", "java"], Variables())
  {
    ChildrenRead(st);
    ReadMore(st, Children(), "");
    VarsRead(ReadLines(st, Children()));
    ReadLinesAppend(st, Children() + [""], Vars());
  }

  lemma HeaderReads(st: Ini)
    ensures ReadLines(st, Header()) == st
  {
    assert GeneratedBy()[0] == '#' && ConnectionNote()[0] == '#';
    ReadThree(st, GeneratedBy(), ConnectionNote(), "");
  }

  ghost predicate AllLines(ls: seq<string>) { forall i :: 0 <= i < |ls| ==> '\n' !in ls[i] }

  lemma FourAreLines(h: seq<string>, a: seq<string>, b: seq<string>, t: seq<string>)
    requires AllLines(h) && AllLines(a) && AllLines(b) && AllLines(t)
    ensures AllLines(h + a + b + t)
  {}

  lemma GeneratedByIsALine()
    ensures '\n' !in GeneratedBy()
  {}

  lemma ConnectionNoteIsALine()
    ensures '\n' !in ConnectionNote()
  {}

  lemma HeaderIsLines()
    ensures AllLines(Header())
  {
    GeneratedByIsALine();
    ConnectionNoteIsALine();
  }

  lemma TrailerIsLines()
    ensures AllLines(Trailer())
  {
    assert '\n' !in Interpreter();
    assert AllLines(Children() + [""]) && AllLines(Vars());
  }

  lemma ReadFour(st: Ini, h: seq<string>, a: seq<string>, b: seq<string>, t: seq<string>)
    ensures ReadLines(st, h + a + b + t) == ReadLines(ReadLines(ReadLines(ReadLines(st, h), a), b), t)
  {
    ReadLinesAppend(st, h + a + b, t);
    ReadLinesAppend(st, h + a, b);
    ReadLinesAppend(st, h, a);
  }

  lemma LinesAreLines(s: Spec)
    requires GoodIds(s.nodes) && GoodEdges(s.edges)
    ensures AllLines(GroupsLines(s))
  {
    HeaderIsLines();
    TrailerIsLines();
    SectionIsLines(s, "openssl");
    SectionIsLines(s, "java");
    FourAreLines(Header(), Section(OfKind(s.nodes, "openssl"), s.edges, "openssl"),
                 Section(OfKind(s.nodes, "java"), s.edges, "java"), Trailer());
  }

  lemma SectionIsLines(s: Spec, kind: string)
    requires GoodIds(s.nodes) && GoodEdges(s.edges) && (kind == "openssl" || kind == "java")
    ensures AllLines(Section(OfKind(s.nodes, kind), s.edges, kind))
  {
    var members := OfKind(s.nodes, kind);
    OfKindIsGood(s.nodes, kind);
    forall i | 0 <= i < |members| ensures '\n' !in HostLine(s.edges, members[i].id) {
      HostLineReads(s.edges, members[i].id, kind);
    }
  }

  // Reading the printed file gives every member of each kind, in order, with its out-edges as targets.
  lemma GroupsRoundTrip(s: Spec)
    requires Valid(s)
    ensures ReadGroups(Unlines(GroupsLines(s), '\n')) == Ini("all:vars", Hosts(s), ["openssl", "java"], Variables())
  {
    ValidEdgesAreGood(s);
    OfKindIsGood(s.nodes, "openssl");
    OfKindIsGood(s.nodes, "java");
    LinesAreLines(s);
    SplitOfUnlines(GroupsLines(s), '\n');
    var st := Ini("", [], [], []);
    var a := Section(OfKind(s.nodes, "openssl"), s.edges, "openssl");
    var b := Section(OfKind(s.nodes, "java"), s.edges, "java");
    ReadFour(st, Header(), a, b, Trailer());
    HeaderReads(st);
    SectionReads(st, OfKind(s.nodes, "openssl"), s.edges, "openssl");
    SectionReads(ReadLines(st, a), OfKind(s.nodes, "java"), s.edges, "java");
    TrailerReads(ReadLines(ReadLines(st, a), b));
    assert st.hosts + HostsOf(OfKind(s.nodes, "openssl"), s.edges, "openssl")
        == HostsOf(OfKind(s.nodes, "openssl"), s.edges, "openssl");
    ReadMore(st, GroupsLines(s), "");
  }

  // ---------- every node once, and every edge once ----------

  function Entries(hosts: seq<Host>): nat {
    if hosts == [] then 0 else Entries(hosts[..|hosts| - 1]) + |hosts[|hosts| - 1].traffic|
  }

  function OutTotal(nodes: seq<Node>, edges: seq<Edge>): nat {
    if nodes == [] then 0 else OutTotal(nodes[..|nodes| - 1], edges) + |OutEdges(edges, nodes[|nodes| - 1].id)|
  }

  lemma {:induction false} EntriesOfMembers(members: seq<Node>, edges: seq<Edge>, group: string)
    ensures Entries(HostsOf(members, edges, group)) == OutTotal(members, edges)
  {
    if members == [] {
    } else {
      var n := |members| - 1;
      EntriesOfMembers(members[..n], edges, group);
      assert HostsOf(members, edges, group)[..n] == HostsOf(members[..n], edges, group);
    }
  }

  lemma {:induction false} EntriesAppend(a: seq<Host>, b: seq<Host>)
    ensures Entries(a + b) == Entries(a) + Entries(b)
  {
    if b == [] {
      assert a + b == a;
    } else {
      EntriesAppend(a, b[..|b| - 1]);
      assert (a + b)[..|a| + |b| - 1] == a + b[..|b| - 1];
    }
  }

  lemma {:induction false} KindsSplitTotal(nodes: seq<Node>, edges: seq<Edge>)
    requires forall i :: 0 <= i < |nodes| ==> nodes[i].kind == "openssl" || nodes[i].kind == "java"
    ensures OutTotal(OfKind(nodes, "openssl"), edges) + OutTotal(OfKind(nodes, "java"), edges) == OutTotal(nodes, edges)
  {
    if nodes == [] {
    } else {
      var n := |nodes| - 1;
      KindsSplitTotal(nodes[..n], edges);
      KindMore(nodes, "openssl", edges);
      KindMore(nodes, "java", edges);
    }
  }

  lemma KindMore(nodes: seq<Node>, kind: string, edges: seq<Edge>)
    requires nodes != []
    ensures OutTotal(OfKind(nodes, kind), edges)
         == OutTotal(OfKind(nodes[..|nodes| - 1], kind), edges)
            + (if nodes[|nodes| - 1].kind == kind then |OutEdges(edges, nodes[|nodes| - 1].id)| else 0)
  {
    var before := OfKind(nodes[..|nodes| - 1], kind);
    assert (before + [nodes[|nodes| - 1]])[..|before|] == before;
  }

  lemma {:induction false} OneMoreEdge(nodes: seq<Node>, edges: seq<Edge>)
    requires edges != [] && DistinctIds(nodes)
    ensures OutTotal(nodes, edges)
         == OutTotal(nodes, edges[..|edges| - 1]) + (if HasNode(nodes, edges[|edges| - 1].from) then 1 else 0)
  {
    if nodes == [] {
    } else {
      var n := |nodes| - 1;
      OneMoreEdge(nodes[..n], edges);
      var from := edges[|edges| - 1].from;
      assert nodes[..n + 1] == nodes;
      HasNodeStep(nodes, n);
      assert HasNode(nodes[..n], nodes[n].id) ==> false;
    }
  }

  lemma {:induction false} NoEdgesNoTotal(nodes: seq<Node>)
    ensures OutTotal(nodes, []) == 0
  {
    if nodes == [] {
    } else {
      NoEdgesNoTotal(nodes[..|nodes| - 1]);
    }
  }

  lemma {:induction false} EveryEdgeLeavesOnce(nodes: seq<Node>, edges: seq<Edge>)
    requires DistinctIds(nodes) && forall k :: 0 <= k < |edges| ==> HasNode(nodes, edges[k].from)
    ensures OutTotal(nodes, edges) == |edges|
  {
    if edges == [] {
      NoEdgesNoTotal(nodes);
    } else {
      EveryEdgeLeavesOnce(nodes, edges[..|edges| - 1]);
      OneMoreEdge(nodes, edges);
    }
  }

  // The entries read back are as many as the edges, which is the number the manifest prints.
  lemma EntriesConserveEdges(s: Spec)
    requires Valid(s)
    ensures Entries(ReadGroups(Unlines(GroupsLines(s), '\n')).hosts) == |s.edges|
  {
    GroupsRoundTrip(s);
    EntriesAppend(HostsOf(OfKind(s.nodes, "openssl"), s.edges, "openssl"),
                  HostsOf(OfKind(s.nodes, "java"), s.edges, "java"));
    EntriesOfMembers(OfKind(s.nodes, "openssl"), s.edges, "openssl");
    EntriesOfMembers(OfKind(s.nodes, "java"), s.edges, "java");
    forall i | 0 <= i < |s.nodes| ensures s.nodes[i].kind == "openssl" || s.nodes[i].kind == "java" {
      assert ValidNode(s, s.nodes[i]);
    }
    KindsSplitTotal(s.nodes, s.edges);
    forall k | 0 <= k < |s.edges| ensures HasNode(s.nodes, s.edges[k].from) {
      assert ValidEdge(s, s.edges[k]);
    }
    EveryEdgeLeavesOnce(s.nodes, s.edges);
  }

  // How many hosts carry an id.
  function Times(hosts: seq<Host>, id: string): nat {
    if hosts == [] then 0 else Times(hosts[..|hosts| - 1], id) + (if hosts[|hosts| - 1].id == id then 1 else 0)
  }

  lemma {:induction false} TimesAppend(a: seq<Host>, b: seq<Host>, id: string)
    ensures Times(a + b, id) == Times(a, id) + Times(b, id)
  {
    if b == [] {
      assert a + b == a;
    } else {
      TimesAppend(a, b[..|b| - 1], id);
      assert (a + b)[..|a| + |b| - 1] == a + b[..|b| - 1];
    }
  }

  ghost predicate HasOfKind(nodes: seq<Node>, id: string, kind: string) {
    exists i :: 0 <= i < |nodes| && nodes[i].id == id && nodes[i].kind == kind
  }

  lemma {:induction false} TimesOfKind(nodes: seq<Node>, edges: seq<Edge>, kind: string, id: string)
    requires DistinctIds(nodes)
    ensures Times(HostsOf(OfKind(nodes, kind), edges, kind), id) == if HasOfKind(nodes, id, kind) then 1 else 0
  {
    if nodes == [] {
    } else {
      var n := |nodes| - 1;
      TimesOfKind(nodes[..n], edges, kind, id);
      if nodes[n].kind == kind {
        assert HostsOf(OfKind(nodes, kind), edges, kind)[..|OfKind(nodes, kind)| - 1]
            == HostsOf(OfKind(nodes[..n], kind), edges, kind);
      }
      HasOfKindStep(nodes, id, kind);
    }
  }

  lemma HasOfKindStep(nodes: seq<Node>, id: string, kind: string)
    requires nodes != []
    ensures HasOfKind(nodes, id, kind) <==>
            HasOfKind(nodes[..|nodes| - 1], id, kind)
              || (nodes[|nodes| - 1].id == id && nodes[|nodes| - 1].kind == kind)
  {
    assert forall i :: 0 <= i < |nodes| - 1 ==> nodes[..|nodes| - 1][i] == nodes[i];
  }

  function HostOf(n: Node, edges: seq<Edge>): Host { Host(n.kind, n.id, TargetsOf(OutEdges(edges, n.id))) }

  lemma HostListed(nodes: seq<Node>, edges: seq<Edge>, i: nat)
    requires i < |nodes|
    ensures HostOf(nodes[i], edges) in HostsOf(OfKind(nodes, nodes[i].kind), edges, nodes[i].kind)
  {
    var members := OfKind(nodes, nodes[i].kind);
    InItsKind(nodes, i);
    var k :| 0 <= k < |members| && members[k] == nodes[i];
    assert HostsOf(members, edges, nodes[i].kind)[k] == HostOf(nodes[i], edges);
  }

  lemma OneKind(s: Spec, i: nat)
    requires Valid(s) && i < |s.nodes|
    ensures s.nodes[i].kind == "openssl" || s.nodes[i].kind == "java"
    ensures HasOfKind(s.nodes, s.nodes[i].id, "openssl") <==> s.nodes[i].kind == "openssl"
    ensures HasOfKind(s.nodes, s.nodes[i].id, "java") <==> s.nodes[i].kind == "java"
  {
    assert ValidNode(s, s.nodes[i]);
  }

  // Every node is in exactly one group, that group is its kind, and its targets are its out-edges.
  lemma EveryNodeInOneGroup(s: Spec, i: nat)
    requires Valid(s) && i < |s.nodes|
    ensures Times(ReadGroups(Unlines(GroupsLines(s), '\n')).hosts, s.nodes[i].id) == 1
    ensures HostOf(s.nodes[i], s.edges) in ReadGroups(Unlines(GroupsLines(s), '\n')).hosts
    ensures TargetsFor(OutEdges(s.edges, s.nodes[i].id), HostOf(s.nodes[i], s.edges).traffic)
  {
    GroupsRoundTrip(s);
    ValidEdgesAreGood(s);
    OutEdgesAreGood(s.edges, s.nodes[i].id);
    TargetsAreFor(OutEdges(s.edges, s.nodes[i].id));
    var id := s.nodes[i].id;
    OneKind(s, i);
    TimesAppend(HostsOf(OfKind(s.nodes, "openssl"), s.edges, "openssl"),
                HostsOf(OfKind(s.nodes, "java"), s.edges, "java"), id);
    TimesOfKind(s.nodes, s.edges, "openssl", id);
    TimesOfKind(s.nodes, s.edges, "java", id);
    HostListed(s.nodes, s.edges, i);
    if s.nodes[i].kind == "openssl" { assert s.nodes[i].kind != "java"; }
  }

  lemma {:induction false} InItsKind(nodes: seq<Node>, i: nat)
    requires i < |nodes|
    ensures nodes[i] in OfKind(nodes, nodes[i].kind)
  {
    if i < |nodes| - 1 { InItsKind(nodes[..|nodes| - 1], i); }
  }

  // ---------- the groups targets is made of ----------

  ghost predicate HasKind(nodes: seq<Node>, kind: string) { exists i :: 0 <= i < |nodes| && nodes[i].kind == kind }

  lemma KindIsListedIff(nodes: seq<Node>, kind: string)
    ensures OfKind(nodes, kind) != [] <==> HasKind(nodes, kind)
  {
    if i :| 0 <= i < |nodes| && nodes[i].kind == kind {
      InItsKind(nodes, i);
    }
    if !HasKind(nodes, kind) {
      NoneOfKind(nodes, kind);
    }
  }

  // A line that opens the section of a kind.
  function Opening(kind: string): string { "[" + kind + "]" }

  // Among the lines of a section, only its first opens one, and only its own.
  lemma SectionOpens(members: seq<Node>, edges: seq<Edge>, kind: string, other: string)
    requires GoodIds(members) && GoodEdges(edges)
    ensures Opening(other) in Section(members, edges, kind) <==> members != [] && other == kind
  {
    var lines := Section(members, edges, kind);
    OpeningsDiffer(other, kind);
    forall i | 0 <= i < |members| ensures HostLines(members, edges)[i] != Opening(other) {
      HostLineReads(edges, members[i].id, kind);
      assert Opening(other)[0] == '[';
    }
    if members != [] {
      assert lines[0] == Opening(kind);
      assert Opening(other) !in HostLines(members, edges) + [""];
    }
  }

  lemma OpeningsDiffer(a: string, b: string)
    ensures Opening(a) == Opening(b) <==> a == b
    ensures Opening(a) != ""
  {
    assert Opening(a)[1..|Opening(a)| - 1] == a && Opening(b)[1..|Opening(b)| - 1] == b;
  }

  lemma FixedLinesOpen(kind: string)
    requires kind == "openssl" || kind == "java"
    ensures Opening(kind) !in Header() && Opening(kind) !in Trailer()
  {
    var o := Opening(kind);
    assert o[0] == '[' && GeneratedBy()[0] == '#' && ConnectionNote()[0] == '#' && Interpreter()[0] == 'a';
    assert |o| <= 9 && o[1] != 't' && o[1] != 'a';
    assert "[targets:children]"[1] == 't' && "[all:vars]"[1] == 'a';
    assert "openssl"[0] == 'o' && "java"[0] == 'j' && "window=16"[0] == 'w';
  }

  lemma InFour(h: seq<string>, a: seq<string>, b: seq<string>, t: seq<string>, x: string)
    ensures x in h + a + b + t <==> x in h || x in a || x in b || x in t
  {}

  // The file opens the section of a kind exactly when some node is of that kind.
  lemma SectionDeclaredIff(s: Spec, kind: string)
    requires Valid(s) && (kind == "openssl" || kind == "java")
    ensures Opening(kind) in GroupsLines(s) <==> HasKind(s.nodes, kind)
  {
    ValidEdgesAreGood(s);
    OfKindIsGood(s.nodes, "openssl");
    OfKindIsGood(s.nodes, "java");
    FixedLinesOpen(kind);
    SectionOpens(OfKind(s.nodes, "openssl"), s.edges, "openssl", kind);
    SectionOpens(OfKind(s.nodes, "java"), s.edges, "java", kind);
    KindIsListedIff(s.nodes, kind);
    KindsDiffer();
    InFour(Header(), Section(OfKind(s.nodes, "openssl"), s.edges, "openssl"),
           Section(OfKind(s.nodes, "java"), s.edges, "java"), Trailer(), Opening(kind));
  }

  lemma KindsDiffer()
    ensures "openssl" != "java"
  {
    assert "openssl"[0] == 'o' && "java"[0] == 'j';
  }

  // Every group that targets is made of is declared in the printed file.
  ghost predicate ChildrenDeclared(s: Spec) {
    forall c :: c in ReadGroups(Unlines(GroupsLines(s), '\n')).children ==> Opening(c) in GroupsLines(s)
  }

  // That holds exactly when the specification has both kinds of node: an empty kind is skipped above the lines that
  // still name it.
  lemma ChildGroupsDeclaredIff(s: Spec)
    requires Valid(s)
    ensures ChildrenDeclared(s) <==> HasKind(s.nodes, "openssl") && HasKind(s.nodes, "java")
  {
    GroupsRoundTrip(s);
    var children := ReadGroups(Unlines(GroupsLines(s), '\n')).children;
    assert children == ["openssl", "java"] && children[0] == "openssl" && children[1] == "java";
    SectionDeclaredIff(s, "openssl");
    SectionDeclaredIff(s, "java");
  }

  // A specification of one Java node is valid, and its file names a group it does not declare.
  lemma JavaOnlyLacksAGroup()
    ensures exists s :: Valid(s) && !ChildrenDeclared(s)
  {
    var n := Node("a", "", "java", "", None, [], [], []);
    var s := Spec([], [n], []);
    assert ValidNode(s, n);
    assert Valid(s);
    KindsDiffer();
    assert !HasKind(s.nodes, "openssl");
    ChildGroupsDeclaredIff(s);
  }

  lemma {:induction false} NoneOfKind(nodes: seq<Node>, kind: string)
    requires forall i :: 0 <= i < |nodes| ==> nodes[i].kind != kind
    ensures OfKind(nodes, kind) == []
  {
    if nodes == [] {
    } else {
      NoneOfKind(nodes[..|nodes| - 1], kind);
    }
  }

  // A word without a port is read with the traffic script's own default.
  lemma NoPortReads(kind: string, host: string)
    requires ':' !in kind && ':' !in host
    ensures ReadTarget(kind + [':'] + host) == Target(kind, host, "443")
  {
    SplitAtSeparator(kind, ':', host);
    SplitOfPlain(kind, ':');
    SplitOfPlain(host, ':');
  }
}
