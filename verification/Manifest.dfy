// manifest.env: the shell declarations the demo scripts source, as printed and as a POSIX shell reads them.
module Manifest {
  import opened Text
  import opened Topology
  import opened Numbers

  // ---------- printing ----------

  // strings.ReplaceAll of a quote by close, escaped quote, open.
  function ReplaceQuotes(s: string): string {
    if s == "" then "" else (if s[0] == '\'' then "'\\''" else [s[0]]) + ReplaceQuotes(s[1..])
  }

  function ShellSingle(s: string): string { "'" + ReplaceQuotes(s) + "'" }

  function Ids(nodes: seq<Node>): seq<string> { seq(|nodes|, i requires 0 <= i < |nodes| => nodes[i].id) }

  function CommentText(): string {
    " human <node-id> — " + "the display name. An id " + "it does not know " + "prints as itself."
  }

  function Function(): string { "human() {\n" + "  case \"$1\" in\n" }

  function Preamble(): string { "\n#" + CommentText() + "\n" + Function() }

  function Command(): string { ") printf '%s\\n' " }

  function ClauseText(n: Node): string { "  " + n.id + Command() + ShellSingle(DisplayName(n)) + " ;;" + "\n" }

  function ClausesText(nodes: seq<Node>): string {
    if nodes == [] then "" else ClausesText(nodes[..|nodes| - 1]) + ClauseText(nodes[|nodes| - 1])
  }

  lemma ClausesNext(nodes: seq<Node>, i: nat)
    requires i < |nodes|
    ensures ClausesText(nodes[..i + 1]) == ClausesText(nodes[..i]) + ClauseText(nodes[i])
  {
    assert nodes[..i + 1][..i] == nodes[..i];
  }

  function Closing(): string { "  " + "*" + Command() + "\"$1\"" + " ;;" + "\n" + "  " + "esac" + "\n}\n" }

  function HeadText(ids: seq<string>, count: nat): string {
    "NODES=(" + Join(ids, ' ') + ")" + "\nEDGE_COUNT=" + PrintNat(count) + Preamble()
  }

  function ManifestText(s: Spec): string { HeadText(Ids(s.nodes), |s.edges|) + ClausesText(s.nodes) + Closing() }

  method ManifestEnv(s: Spec) returns (text: string)
    ensures text == ManifestText(s)
  {
    var ids: seq<string> := [];
    for i := 0 to |s.nodes|
      invariant ids == Ids(s.nodes)[..i]
    {
      ids := ids + [s.nodes[i].id];
    }
    assert ids == Ids(s.nodes);
    text := WriteClauses(HeadText(ids, |s.edges|), s.nodes);
    text := text + Closing();
  }

  method WriteClauses(before: string, nodes: seq<Node>) returns (text: string)
    ensures text == before + ClausesText(nodes)
  {
    text := before;
    for i := 0 to |nodes|
      invariant text == before + ClausesText(nodes[..i])
    {
      ClausesNext(nodes, i);
      Associate(before, ClausesText(nodes[..i]), ClauseText(nodes[i]));
      text := text + ClauseText(nodes[i]);
    }
    assert nodes[..|nodes|] == nodes;
  }

  // ---------- reading words: sections 2.2.1 and 2.2.2 of the POSIX Shell Command Language ----------

  datatype Part<T> = Bad | Part(value: T, rest: string)

  predicate EndsWord(c: char) {
    c == ' ' || c == '\t' || c == '\n' || c == ';' || c == '(' || c == ')' || c == '&' || c == '|' || c == '<'
      || c == '>'
  }

  // Unquoted characters that start an expansion or a double quote, which these words never use.
  predicate Expands(c: char) {
    c == '"' || c == '$' || c == '`' || c == '*' || c == '?' || c == '[' || c == '~' || c == '#'
  }

  function Prepend(c: char, p: Part<string>): Part<string> {
    match p case Bad => Bad case Part(w, rest) => Part([c] + w, rest)
  }

  // The rest of a word, outside quotes: a backslash keeps the next character, and escaped newlines vanish.
  function Unquoted(s: string): (p: Part<string>)
    ensures p.Part? ==> |p.rest| <= |s|
    decreases |s|
  {
    if s == "" || EndsWord(s[0]) then Part("", s)
    else if s[0] == '\'' then Quoted(s[1..])
    else if s[0] == '\\' then
      if |s| == 1 then Bad else if s[1] == '\n' then Unquoted(s[2..]) else Prepend(s[1], Unquoted(s[2..]))
    else if Expands(s[0]) then Bad
    else Prepend(s[0], Unquoted(s[1..]))
  }

  // The rest of a word, inside single quotes: every character stands for itself up to the next quote.
  function Quoted(s: string): (p: Part<string>)
    ensures p.Part? ==> |p.rest| < |s|
    decreases |s|
  {
    if s == "" then Bad else if s[0] == '\'' then Unquoted(s[1..]) else Prepend(s[0], Quoted(s[1..]))
  }

  ghost predicate AtEnd(rest: string) { rest == "" || EndsWord(rest[0]) }

  lemma {:induction false} QuotedReads(s: string, rest: string)
    requires AtEnd(rest)
    ensures Quoted(ReplaceQuotes(s) + "'" + rest) == Part(s, rest)
  {
    if s == "" {
      assert "'" + rest == ReplaceQuotes(s) + "'" + rest && ("'" + rest)[1..] == rest;
    } else {
      QuotedReads(s[1..], rest);
      var tail := ReplaceQuotes(s[1..]) + "'" + rest;
      assert s == [s[0]] + s[1..];
      if s[0] == '\'' {
        EscapedQuoteReads(tail);
        assert ReplaceQuotes(s) + "'" + rest == "'\\''" + tail;
      } else {
        assert ReplaceQuotes(s) + "'" + rest == [s[0]] + tail && ([s[0]] + tail)[1..] == tail;
      }
    }
  }

  lemma EscapedQuoteReads(tail: string)
    ensures Quoted("'\\''" + tail) == Prepend('\'', Quoted(tail))
  {
    var open := "'" + tail;
    assert open[1..] == tail && Unquoted(open) == Quoted(tail);
    var escaped := "\\'" + open;
    assert escaped[2..] == open && Unquoted(escaped) == Prepend('\'', Unquoted(open));
    var s := "'" + escaped;
    assert s[1..] == escaped && Quoted(s) == Unquoted(escaped);
    assert s == "'\\''" + tail;
  }

  // A quoted text is one word, and that word is the text, whatever characters it holds.
  lemma ShellSingleReads(s: string, rest: string)
    requires AtEnd(rest)
    ensures Unquoted(ShellSingle(s) + rest) == Part(s, rest)
  {
    QuotedReads(s, rest);
    assert (ShellSingle(s) + rest)[1..] == ReplaceQuotes(s) + "'" + rest;
  }

  ghost predicate PlainWord(w: string) { forall i :: 0 <= i < |w| ==> IdChar(w[i]) }

  lemma {:induction false} PlainReads(w: string, rest: string)
    requires PlainWord(w) && AtEnd(rest)
    ensures Unquoted(w + rest) == Part(w, rest)
  {
    if w == "" {
      assert w + rest == rest;
    } else {
      PlainReads(w[1..], rest);
      assert (w + rest)[1..] == w[1..] + rest && w == [w[0]] + w[1..];
    }
  }

  // ---------- reading the file ----------

  function Expect(s: string, p: string): Option<string> {
    if |p| <= |s| && s[..|p|] == p then Some(s[|p|..]) else None
  }

  lemma Expected(p: string, rest: string)
    ensures Expect(p + rest, p) == Some(rest)
  {
    assert (p + rest)[..|p|] == p && (p + rest)[|p|..] == rest;
  }

  // The words of an array assignment, up to its closing parenthesis.
  function ReadWords(s: string): (p: Part<seq<string>>)
    decreases |s|
  {
    if s == "" then Bad
    else if s[0] == ')' then Part([], s[1..])
    else if s[0] == ' ' then ReadWords(s[1..])
    else match Unquoted(s) {
      case Bad => Bad
      case Part(w, rest) =>
        if |rest| == |s| then Bad
        else match ReadWords(rest) case Bad => Bad case Part(more, end) => Part([w] + more, end)
    }
  }

  lemma OneWordRead(w: string, rest: string)
    requires PlainWord(w) && w != "" && AtEnd(rest) && rest != ""
    ensures ReadWords(w + rest)
         == match ReadWords(rest) { case Bad => Bad case Part(more, end) => Part([w] + more, end) }
  {
    PlainReads(w, rest);
    assert (w + rest)[0] == w[0];
  }

  lemma {:induction false} WordsRead(ids: seq<string>, rest: string)
    requires ids != [] && forall i :: 0 <= i < |ids| ==> PlainWord(ids[i]) && ids[i] != ""
    ensures ReadWords(Join(ids, ' ') + ")" + rest) == Part(ids, rest)
  {
    if |ids| == 1 {
      LastWordRead(ids[0], rest);
      assert ids == [ids[0]];
    } else {
      WordsRead(ids[1..], rest);
      NextWordRead(ids[0], Join(ids[1..], ' ') + ")" + rest, ids[1..], rest);
      RegroupWords(ids[0], Join(ids[1..], ' '), ")", rest);
      assert ids == [ids[0]] + ids[1..];
    }
  }

  lemma LastWordRead(w: string, rest: string)
    requires PlainWord(w) && w != ""
    ensures ReadWords(w + ")" + rest) == Part([w], rest)
  {
    var close := ")" + rest;
    assert close[1..] == rest;
    Associate(w, ")", rest);
    OneWordRead(w, close);
    assert [w] + [] == [w];
  }

  lemma NextWordRead(w: string, s: string, more: seq<string>, end: string)
    requires PlainWord(w) && w != "" && ReadWords(s) == Part(more, end)
    ensures ReadWords(w + ([' '] + s)) == Part([w] + more, end)
  {
    var next := [' '] + s;
    assert next[1..] == s;
    OneWordRead(w, next);
  }

  lemma RegroupWords(w: string, j: string, p: string, rest: string)
    ensures w + ([' '] + (j + p + rest)) == w + [' '] + j + p + rest
  {}

  // A clause of the case command: no pattern is the star, and no argument is the quoted first parameter.
  datatype Clause = Clause(pattern: Option<string>, arg: Option<string>)

  function SkipBlank(s: string): (r: string)
    ensures |r| <= |s|
  {
    if s != "" && (s[0] == ' ' || s[0] == '\n') then SkipBlank(s[1..]) else s
  }

  function Wrap(p: Part<string>): Part<Option<string>> {
    match p case Bad => Bad case Part(w, rest) => Part(Some(w), rest)
  }

  function ReadPattern(s: string): (p: Part<Option<string>>)
    ensures p.Part? ==> |p.rest| <= |s|
  {
    match Expect(s, "*") case Some(rest) => Part(None, rest) case None => Wrap(Unquoted(s))
  }

  function ReadArg(s: string): (p: Part<Option<string>>)
    ensures p.Part? ==> |p.rest| <= |s|
  {
    match Expect(s, "\"$1\"") case Some(rest) => Part(None, rest) case None => Wrap(Unquoted(s))
  }

  // The command of a clause: it prints one word and a newline.
  const PRINTF := ") printf '%s\\n' "

  function ReadBody(s: string): (p: Part<Option<string>>)
    ensures p.Part? ==> |p.rest| < |s|
  {
    match Expect(s, PRINTF) {
      case None => Bad
      case Some(a) =>
        match ReadArg(a) {
          case Bad => Bad
          case Part(arg, b) => match Expect(b, " ;;") case None => Bad case Some(c) => Part(arg, c)
        }
    }
  }

  // The clauses up to the reserved word that ends the command, which is recognised wherever a pattern may start.
  function ReadClauses(s: string): Part<seq<Clause>>
    decreases |s|
  {
    match ReadPattern(SkipBlank(s)) {
      case Bad => Bad
      case Part(pattern, a) =>
        if pattern == Some("esac") then Part([], a)
        else match ReadBody(a) {
          case Bad => Bad
          case Part(arg, b) => AddClause(Clause(pattern, arg), ReadClauses(b))
        }
    }
  }

  function AddClause(c: Clause, p: Part<seq<Clause>>): Part<seq<Clause>> {
    match p case Bad => Bad case Part(more, rest) => Part([c] + more, rest)
  }

  datatype Shell = Shell(nodes: seq<string>, edgeCount: Option<nat>, clauses: seq<Clause>)

  // What sourcing the file declares; none for a syntax error.
  function Source(text: string): Option<Shell> {
    match Expect(text, "NODES=(") {
      case None => None
      case Some(a) => SourceNodes(ReadWords(a))
    }
  }

  function SourceNodes(p: Part<seq<string>>): Option<Shell> {
    match p case Bad => None case Part(nodes, b) => SourceCount(nodes, b)
  }

  function SourceCount(nodes: seq<string>, s: string): Option<Shell> {
    match Expect(s, "\nEDGE_COUNT=") {
      case None => None
      case Some(c) => match Unquoted(c) case Bad => None case Part(count, d) => SourceBody(nodes, ReadNat(count), d)
    }
  }

  // The rest of a text after its first newline.
  function AfterLine(s: string): string {
    if s == "" then "" else if s[0] == '\n' then s[1..] else AfterLine(s[1..])
  }

  // A comment on a line of its own is passed over.
  function SkipComment(s: string): Option<string> {
    match Expect(s, "\n#") case None => None case Some(rest) => Some(AfterLine(rest))
  }

  function SourceBody(nodes: seq<string>, count: Option<nat>, s: string): Option<Shell> {
    match SkipComment(s) {
      case None => None
      case Some(d) =>
        match Expect(d, "human() {\n  case \"$1\" in\n")
        case None => None
        case Some(e) => Finish(nodes, count, ReadClauses(e))
    }
  }

  function Finish(nodes: seq<string>, count: Option<nat>, p: Part<seq<Clause>>): Option<Shell> {
    if p.Part? && p.rest == "\n}\n" then Some(Shell(nodes, count, p.value)) else None
  }

  // human <arg>: the first clause that matches prints its argument and a newline.
  function Human(clauses: seq<Clause>, arg: string): string {
    if clauses == [] then ""
    else if clauses[0].pattern.None? || clauses[0].pattern.value == arg then
      (match clauses[0].arg case None => arg case Some(w) => w) + "\n"
    else Human(clauses[1..], arg)
  }

  // ---------- reading back what was printed ----------

  function ClauseOf(n: Node): Clause { Clause(Some(n.id), Some(DisplayName(n))) }

  lemma BlanksSkipped(s: string)
    requires s != "" && s[0] != ' ' && s[0] != '\n'
    ensures SkipBlank("  " + s) == s && SkipBlank("\n" + ("  " + s)) == s
  {
    var one, two := " " + s, "  " + s;
    assert one[1..] == s && two[1..] == one && ("\n" + two)[1..] == two;
    assert SkipBlank(one) == s && SkipBlank(two) == s;
  }

  lemma BodyReads(name: string, rest: string)
    ensures ReadBody(Command() + ShellSingle(name) + " ;;" + rest) == Part(Some(name), rest)
  {
    var b := " ;;" + rest;
    var a := ShellSingle(name) + b;
    assert Command() + ShellSingle(name) + " ;;" + rest == Command() + a;
    Expected(Command(), a);
    ShellSingleReads(name, b);
    assert a[0] == '\'' && "\"$1\""[0] == '"';
    NotExpected(a, "\"$1\"");
    Expected(" ;;", rest);
  }

  lemma NotExpected(s: string, p: string)
    requires s != "" && p != "" && s[0] != p[0]
    ensures Expect(s, p) == None
  {
    if |p| <= |s| { assert s[..|p|][0] == s[0]; }
  }

  lemma PatternReads(id: string, rest: string)
    requires ValidId(id)
    ensures ReadPattern(id + Command() + rest) == Part(Some(id), Command() + rest)
  {
    PlainReads(id, Command() + rest);
    assert id + Command() + rest == id + (Command() + rest);
    NotExpected(id + Command() + rest, "*");
  }

  lemma Regroup(a: string, b: string, c: string, d: string, e: string, f: string, rest: string)
    ensures a + b + c + d + e + f + rest == a + (b + c + (d + e + (f + rest)))
  {}

  lemma RegroupBody(c: string, d: string, e: string, rest: string)
    ensures c + (d + e + rest) == c + d + e + rest
  {}

  // One printed clause, read from its start or from the newline before it.
  lemma ClauseStarts(n: Node, rest: string)
    requires ValidId(n.id)
    ensures var body := ShellSingle(DisplayName(n)) + " ;;" + ("\n" + rest);
            && ReadPattern(SkipBlank(ClauseText(n) + rest)) == Part(Some(n.id), Command() + body)
            && ReadPattern(SkipBlank("\n" + (ClauseText(n) + rest))) == Part(Some(n.id), Command() + body)
            && ReadBody(Command() + body) == Part(Some(DisplayName(n)), "\n" + rest)
  {
    var q := ShellSingle(DisplayName(n));
    var body := q + " ;;" + ("\n" + rest);
    Regroup("  ", n.id, Command(), q, " ;;", "\n", rest);
    var s := n.id + Command() + body;
    assert s[0] == n.id[0];
    BlanksSkipped(s);
    PatternReads(n.id, body);
    RegroupBody(Command(), q, " ;;", "\n" + rest);
    BodyReads(DisplayName(n), "\n" + rest);
  }

  lemma ClauseReads(n: Node, rest: string)
    requires ValidId(n.id) && n.id != "esac"
    ensures ReadClauses(ClauseText(n) + rest) == AddClause(ClauseOf(n), ReadClauses("\n" + rest))
    ensures ReadClauses("\n" + (ClauseText(n) + rest)) == AddClause(ClauseOf(n), ReadClauses("\n" + rest))
  {
    ClauseStarts(n, rest);
  }

  lemma NextClauseReads(n: Node, text: string, rest: string, more: seq<Clause>, end: string)
    requires ValidId(n.id) && n.id != "esac" && text == ClauseText(n) + rest
    requires ReadClauses("\n" + rest) == Part(more, end)
    ensures ReadClauses("\n" + text) == Part([ClauseOf(n)] + more, end)
  {
    ClauseReads(n, rest);
  }

  // A node named like the reserved word ends the command at its clause.
  lemma EsacEnds(n: Node, rest: string)
    requires n.id == "esac"
    ensures ReadClauses("\n" + (ClauseText(n) + rest)).Part? && ReadClauses(ClauseText(n) + rest).Part?
    ensures ReadClauses("\n" + (ClauseText(n) + rest)).rest != "\n}\n"
            && ReadClauses(ClauseText(n) + rest).rest != "\n}\n"
  {
    ClauseStarts(n, rest);
    var body := ShellSingle(DisplayName(n)) + " ;;" + ("\n" + rest);
    assert (Command() + body)[0] == ')';
  }

  // A text that ends the command with the default clause.
  ghost predicate EndsClauses(closing: string) {
    ReadClauses("\n" + closing) == Part([Clause(None, None)], "\n}\n")
  }

  lemma ClosingReads()
    ensures EndsClauses(Closing())
  {
    var end := "\n" + ("  " + ("esac" + "\n}\n"));
    RegroupClosing("  ", "*", Command(), "\"$1\"", " ;;", "\n", "  ", "esac", "\n}\n");
    DefaultReads(end);
    EsacReads(end);
    assert [Clause(None, None)] + [] == [Clause(None, None)];
  }

  lemma RegroupClosing(a: string, b: string, c: string, d: string, e: string, f: string, g: string, h: string,
                       i: string)
    ensures a + b + c + d + e + f + g + h + i == a + (b + (c + (d + (e + (f + (g + (h + i)))))))
  {}

  lemma DefaultReads(end: string)
    ensures ReadClauses("\n" + ("  " + ("*" + (Command() + ("\"$1\"" + (" ;;" + end))))))
         == AddClause(Clause(None, None), ReadClauses(end))
  {
    var body := Command() + ("\"$1\"" + (" ;;" + end));
    BlanksSkipped("*" + body);
    Expected("*", body);
    Expected(Command(), "\"$1\"" + (" ;;" + end));
    Expected("\"$1\"", " ;;" + end);
    Expected(" ;;", end);
  }

  lemma EsacReads(end: string)
    requires end == "\n" + ("  " + ("esac" + "\n}\n"))
    ensures ReadClauses(end) == Part([], "\n}\n")
  {
    var s := "esac" + "\n}\n";
    BlanksSkipped(s);
    PlainReads("esac", "\n}\n");
    NotExpected(s, "*");
  }

  // The clauses text from clause i on.
  function From(nodes: seq<Node>, i: nat, closing: string): string
    requires i <= |nodes|
    decreases |nodes| - i
  {
    if i == |nodes| then closing else ClauseText(nodes[i]) + From(nodes, i + 1, closing)
  }

  lemma {:induction false} FromIsClausesText(nodes: seq<Node>, i: nat, closing: string)
    requires i <= |nodes|
    ensures ClausesText(nodes[..i]) + From(nodes, i, closing) == ClausesText(nodes) + closing
    decreases |nodes| - i
  {
    if i == |nodes| {
      assert nodes[..i] == nodes;
    } else {
      FromIsClausesText(nodes, i + 1, closing);
      ClausesNext(nodes, i);
      Associate(ClausesText(nodes[..i]), ClauseText(nodes[i]), From(nodes, i + 1, closing));
    }
  }

  ghost predicate GoodIds(nodes: seq<Node>) { forall i :: 0 <= i < |nodes| ==> ValidId(nodes[i].id) }

  ghost predicate NoEsac(nodes: seq<Node>) { forall i :: 0 <= i < |nodes| ==> nodes[i].id != "esac" }

  function Rest(nodes: seq<Node>, i: nat): seq<Clause>
    requires i <= |nodes|
    decreases |nodes| - i
  {
    if i == |nodes| then [Clause(None, None)] else [ClauseOf(nodes[i])] + Rest(nodes, i + 1)
  }

  lemma {:induction false} ClausesRead(nodes: seq<Node>, i: nat, closing: string)
    requires i <= |nodes| && GoodIds(nodes) && NoEsac(nodes) && EndsClauses(closing)
    ensures ReadClauses("\n" + From(nodes, i, closing)) == Part(Rest(nodes, i), "\n}\n")
    decreases |nodes| - i
  {
    if i == |nodes| {
    } else {
      ClausesRead(nodes, i + 1, closing);
      FromStep(nodes, i, closing);
      NextClauseReads(nodes[i], From(nodes, i, closing), From(nodes, i + 1, closing), Rest(nodes, i + 1), "\n}\n");
    }
  }

  lemma FromStep(nodes: seq<Node>, i: nat, closing: string)
    requires i < |nodes|
    ensures From(nodes, i, closing) == ClauseText(nodes[i]) + From(nodes, i + 1, closing)
    ensures Rest(nodes, i) == [ClauseOf(nodes[i])] + Rest(nodes, i + 1)
  {}

  lemma {:induction false} EsacBreaks(nodes: seq<Node>, i: nat, closing: string)
    requires i < |nodes| && GoodIds(nodes) && exists j :: i <= j < |nodes| && nodes[j].id == "esac"
    ensures ReadClauses("\n" + From(nodes, i, closing)).Part?
            ==> ReadClauses("\n" + From(nodes, i, closing)).rest != "\n}\n"
    decreases |nodes| - i
  {
    if nodes[i].id == "esac" {
      EsacEnds(nodes[i], From(nodes, i + 1, closing));
    } else {
      EsacBreaks(nodes, i + 1, closing);
      ClauseReads(nodes[i], From(nodes, i + 1, closing));
    }
  }

  // The first clause is read with or without the newline before it.
  lemma FirstClauseReads(nodes: seq<Node>, closing: string)
    requires nodes != [] && GoodIds(nodes) && EndsClauses(closing)
    ensures NoEsac(nodes) ==> ReadClauses(From(nodes, 0, closing)) == Part(Rest(nodes, 0), "\n}\n")
    ensures !NoEsac(nodes) && ReadClauses(From(nodes, 0, closing)).Part?
            ==> ReadClauses(From(nodes, 0, closing)).rest != "\n}\n"
  {
    if NoEsac(nodes) {
      ClausesRead(nodes, 1, closing);
      ClauseReads(nodes[0], From(nodes, 1, closing));
    } else if nodes[0].id == "esac" {
      EsacEnds(nodes[0], From(nodes, 1, closing));
    } else {
      EsacBreaks(nodes, 1, closing);
      ClauseReads(nodes[0], From(nodes, 1, closing));
    }
  }

  lemma ValidIdsAreGood(s: Spec)
    requires Valid(s)
    ensures GoodIds(s.nodes)
  {
    forall i | 0 <= i < |s.nodes| ensures ValidId(s.nodes[i].id) {
      assert ValidNode(s, s.nodes[i]);
    }
  }

  lemma NodesRead(ids: seq<string>, b: string)
    requires ids != [] && forall i :: 0 <= i < |ids| ==> PlainWord(ids[i]) && ids[i] != ""
    ensures Source("NODES=(" + (Join(ids, ' ') + ")" + b)) == SourceCount(ids, b)
  {
    WordsRead(ids, b);
    NodesStart(Join(ids, ' ') + ")" + b);
  }

  lemma NodesStart(a: string)
    ensures Source("NODES=(" + a) == SourceNodes(ReadWords(a))
  {
    Expected("NODES=(", a);
  }

  lemma CountReads(nodes: seq<string>, count: nat, d: string)
    requires d != "" && d[0] == '\n'
    ensures SourceCount(nodes, "\nEDGE_COUNT=" + (PrintNat(count) + d)) == SourceBody(nodes, Some(count), d)
  {
    Expected("\nEDGE_COUNT=", PrintNat(count) + d);
    NatRoundTrip(count);
    PlainReads(PrintNat(count), d);
  }

  lemma RegroupHead(a: string, b: string, c: string, d: string, e: string, f: string, g: string)
    ensures a + b + c + d + e + f + g == a + (b + c + (d + (e + (f + g))))
  {}

  // Reading up to the clauses, for any text after them.
  lemma HeadReads(nodes: seq<Node>, count: nat, clauses: string)
    requires nodes != [] && GoodIds(nodes)
    ensures Source(HeadText(Ids(nodes), count) + clauses)
         == Finish(Ids(nodes), Some(count), ReadClauses(clauses))
  {
    RegroupHead("NODES=(", Join(Ids(nodes), ' '), ")", "\nEDGE_COUNT=", PrintNat(count), Preamble(), clauses);
    var d := Preamble() + clauses;
    PreambleReads(clauses);
    NodesRead(Ids(nodes), "\nEDGE_COUNT=" + (PrintNat(count) + d));
    PreambleStarts();
    CountReads(Ids(nodes), count, d);
    Expected("human() {\n  case \"$1\" in\n", clauses);
  }

  lemma PreambleStarts()
    ensures Preamble() != "" && Preamble()[0] == '\n'
  {
    assert "\n#"[0] == '\n';
  }

  lemma {:induction false} AfterLineOf(a: string, rest: string)
    requires '\n' !in a
    ensures AfterLine(a + ("\n" + rest)) == rest
  {
    if a == "" {
      assert a + ("\n" + rest) == "\n" + rest && ("\n" + rest)[1..] == rest;
    } else {
      assert (a + ("\n" + rest))[1..] == a[1..] + ("\n" + rest);
      AfterLineOf(a[1..], rest);
    }
  }

  lemma CommentIsALine()
    ensures '\n' !in CommentText()
  {
    assert '\n' !in " human <node-id> — " && '\n' !in "the display name. An id ";
    assert '\n' !in "it does not know " && '\n' !in "prints as itself.";
  }

  lemma {:induction false} PreambleReads(clauses: string)
    ensures SkipComment(Preamble() + clauses) == Some("human() {\n  case \"$1\" in\n" + clauses)
  {
    CommentIsALine();
    var comment := CommentText();
    assert Function() == "human() {\n  case \"$1\" in\n";
    assert Preamble() + clauses == "\n#" + (comment + ("\n" + (Function() + clauses)));
    Expected("\n#", comment + ("\n" + (Function() + clauses)));
    AfterLineOf(comment, Function() + clauses);
  }

  lemma RegroupManifest(a: string, b: string, c: string)
    ensures a + b + c == a + (b + c)
  {}

  // The printed file sources exactly when no node is named esac; then it declares the ids in order, the number of
  // edges, and one clause a node before the default.
  lemma ManifestSources(s: Spec)
    requires Valid(s)
    ensures Source(ManifestText(s))
         == if NoEsac(s.nodes) then Some(Shell(Ids(s.nodes), Some(|s.edges|), Rest(s.nodes, 0))) else None
  {
    ValidIdsAreGood(s);
    FromIsClausesText(s.nodes, 0, Closing());
    assert ClausesText(s.nodes[..0]) == "";
    assert From(s.nodes, 0, Closing()) == ClausesText(s.nodes) + Closing();
    RegroupManifest(HeadText(Ids(s.nodes), |s.edges|), ClausesText(s.nodes), Closing());
    HeadReads(s.nodes, |s.edges|, From(s.nodes, 0, Closing()));
    ClosingReads();
    FirstClauseReads(s.nodes, Closing());
  }

  lemma {:induction false} HumanOfRest(nodes: seq<Node>, i: nat, arg: string)
    requires i <= |nodes| && DistinctIds(nodes)
    ensures forall k :: i <= k < |nodes| && nodes[k].id == arg
              ==> Human(Rest(nodes, i), arg) == DisplayName(nodes[k]) + "\n"
    ensures (forall k :: i <= k < |nodes| ==> nodes[k].id != arg) ==> Human(Rest(nodes, i), arg) == arg + "\n"
    decreases |nodes| - i
  {
    if i >= |nodes| {
    } else {
      HumanOfRest(nodes, i + 1, arg);
      assert Rest(nodes, i)[1..] == Rest(nodes, i + 1) && Rest(nodes, i)[0] == ClauseOf(nodes[i]);
    }
  }

  // human prints the name of every node for its id, a node without a name being called by its id, and any other
  // argument as itself.
  lemma HumanPrintsNames(s: Spec, arg: string)
    requires Valid(s) && NoEsac(s.nodes)
    ensures Source(ManifestText(s)).Some? && Source(ManifestText(s)).value.nodes == Ids(s.nodes)
    ensures forall k :: 0 <= k < |s.nodes| && s.nodes[k].id == arg
              ==> Human(Source(ManifestText(s)).value.clauses, arg)
                  == (if s.nodes[k].name == "" then arg else s.nodes[k].name) + "\n"
    ensures !HasNode(s.nodes, arg) ==> Human(Source(ManifestText(s)).value.clauses, arg) == arg + "\n"
  {
    ManifestSources(s);
    HumanOfRest(s.nodes, 0, arg);
  }

  // A specification the validation accepts and the shell then cannot source.
  lemma EsacIsAccepted()
    ensures exists s :: Valid(s) && Source(ManifestText(s)) == None
  {
    var n := Node("esac", "", "java", "", None, [], [], []);
    var s := Spec([], [n], []);
    assert ValidNode(s, n);
    assert Valid(s);
    assert s.nodes[0].id == "esac";
    ManifestSources(s);
  }

  // ---------- the special characters of the shell ----------

  lemma EndsWordIff(c: char)
    ensures EndsWord(c) <==> c in {' ', '\t', '\n', ';', '(', ')', '&', '|', '<', '>'}
  {}

  lemma ExpandsIff(c: char)
    ensures Expands(c) <==> c in {'"', '$', '`', '*', '?', '[', '~', '#'}
  {}
}
