// What a line of checkdeps' rule file says, and what the lines it says nothing with leave of the file.
module DepsLines {
  import opened Text
  import opened Str
  import opened DepsConfig
  import opened DepsRulesFile
  import opened Trimming

  // ---------- lines that say nothing ----------

  // A line without its carriage returns at the end.
  ghost predicate Body(raw: string, line: string) {
    && line <= raw && (forall i :: |line| <= i < |raw| ==> raw[i] == '\r')
    && (line != "" ==> line[|line| - 1] != '\r')
  }

  lemma {:induction false} BodyIs(raw: string)
    ensures Body(raw, TrimRightChar(raw, '\r'))
  {
    if raw != "" && raw[|raw| - 1] == '\r' { BodyIs(raw[..|raw| - 1]); }
  }

  lemma OneBody(raw: string, line: string)
    requires Body(raw, line)
    ensures line == TrimRightChar(raw, '\r')
  {
    BodyIs(raw);
    var other := TrimRightChar(raw, '\r');
    assert other != "" ==> other[|other| - 1] == raw[|other| - 1];
    assert line != "" ==> line[|line| - 1] == raw[|line| - 1];
    assert line == raw[..|line|] && other == raw[..|other|];
  }

  // White space only, or a hash first.
  ghost predicate Silent(raw: string) { Blanks(raw) || (raw != "" && raw[0] == '#') }

  lemma BlankIff(s: string)
    ensures TrimSpace(s) == "" <==> Blanks(s)
  {
    if TrimSpace(s) == "" { var a, b := TrimParts(s); }
    if Blanks(s) {
      assert s + ("" + "") == s;
      TrimOf(s, "", "");
    }
  }

  lemma {:induction false} IgnoredIff(raw: string)
    ensures ParseLine(raw).Ignored? <==> Silent(raw)
  {
    var line := TrimRightChar(raw, '\r');
    BodyIs(raw);
    BlankIff(line);
    assert Blanks(line) <==> Blanks(raw);
    assert |"#"| == 1 && "#"[0] == '#';
  }

  // ---------- lines that say something ----------

  // A prefix that ends in a slash, after its repository and a colon or alone.
  ghost predicate FieldSays(f: string, c: Class) {
    && c.prefix != "" && c.prefix[|c.prefix| - 1] == '/'
    && (if c.repo == "" then f == c.prefix && ':' !in f else ':' !in c.repo && f == c.repo + [':'] + c.prefix)
  }

  lemma {:induction false} FieldIff(f: string, area: string, c: Class)
    ensures ParseClass(f, area) == ClassLine(c) <==> c.area == area && FieldSays(f, c)
  {
    if c.area == area && FieldSays(f, c) {
      SlashEnds(c.prefix);
      if c.repo == "" { UnqualifiedParses(c.prefix, area); } else { QualifiedParses(c); }
    }
    if ParseClass(f, area) == ClassLine(c) {
      assert |"/"| == 1 && "/"[0] == '/';
      var i := IndexFrom(f, ':', 0);
      if i < |f| {
        CutIsSlice(f, i + 1, |f|);
        assert f == f[..i] + [':'] + f[i + 1..];
      }
    }
  }

  lemma {:induction false} Fields(line: string, col: seq<string>)
    requires col != [] && forall k :: 0 <= k < |col| ==> '\t' !in col[k]
    ensures line == Join(col, '\t') <==> Split(line, '\t') == col
  {
    JoinOfSplit(line, '\t');
    SplitOfJoin(col, '\t');
  }

  lemma {:induction false} Spoken(raw: string, line: string)
    requires Body(raw, line)
    ensures !Silent(raw) ==> ParseLine(raw) == ParseFields(Split(line, '\t'))
  {
    OneBody(raw, line);
    BlankIff(line);
    assert Blanks(line) <==> Blanks(raw);
    assert |"#"| == 1 && "#"[0] == '#';
  }

  lemma KeywordsDiffer()
    ensures "class" != "allow" && "class" != "bare" && "allow" != "bare"
  {
    assert |"bare"| == 4 && |"class"| == 5 && |"allow"| == 5 && "allow"[0] == 'a' && "class"[0] == 'c';
  }

  // The keyword, a field that says the repository and the prefix, and the area.
  ghost predicate ClassSaid(line: string, c: Class, f: string) {
    && line == Join(["class", f, c.area], '\t') && '\t' !in f && '\t' !in c.area && FieldSays(f, c)
  }

  lemma {:induction false} ClassLineIff(raw: string, line: string, c: Class)
    requires Body(raw, line)
    ensures ParseLine(raw) == ClassLine(c) <==> !Silent(raw) && exists f :: ClassSaid(line, c, f)
  {
    IgnoredIff(raw);
    Spoken(raw, line);
    if ParseLine(raw) == ClassLine(c) { ClassIsSaid(line, c); }
    if !Silent(raw) {
      if f :| ClassSaid(line, c, f) { SaidIsClass(line, c, f); }
    }
  }

  lemma {:induction false} ClassFields(col: seq<string>, c: Class)
    requires col != [] && ParseFields(col) == ClassLine(c)
    ensures |col| == 3 && col[0] == "class" && ParseClass(col[1], col[2]) == ClassLine(c)
  {
    KeywordsDiffer();
  }

  lemma ThreeFields(col: seq<string>)
    requires |col| == 3
    ensures col == [col[0], col[1], col[2]]
  {}

  lemma {:induction false} ClassIsSaid(line: string, c: Class)
    requires ParseFields(Split(line, '\t')) == ClassLine(c)
    ensures exists f :: ClassSaid(line, c, f)
  {
    var col := Split(line, '\t');
    ClassFields(col, c);
    ThreeFields(col);
    FieldIff(col[1], col[2], c);
    JoinOfSplit(line, '\t');
    assert ClassSaid(line, c, col[1]);
  }

  lemma {:induction false} SaidIsClass(line: string, c: Class, f: string)
    requires ClassSaid(line, c, f)
    ensures ParseFields(Split(line, '\t')) == ClassLine(c)
  {
    KeywordsDiffer();
    Fields(line, ["class", f, c.area]);
    FieldIff(f, c.area, c);
  }

  // The keyword, the area, the areas it may import with commas between them, the rule, and a hint or none.
  ghost predicate AllowSaid(line: string, area: string, row: AllowRow, list: string) {
    && (line == Join(["allow", area, list, row.rule, row.hint], '\t')
        || (row.hint == "" && line == Join(["allow", area, list, row.rule], '\t')))
    && '\t' !in area && '\t' !in list && '\t' !in row.rule && '\t' !in row.hint
    && row.areas == set a | a in Split(list, ',') :: TrimSpace(a)
  }

  lemma {:induction false} AllowLineIff(raw: string, line: string, area: string, row: AllowRow)
    requires Body(raw, line)
    ensures ParseLine(raw) == AllowLine(area, row) <==> !Silent(raw) && exists list :: AllowSaid(line, area, row, list)
  {
    IgnoredIff(raw);
    Spoken(raw, line);
    if ParseLine(raw) == AllowLine(area, row) { AllowIsSaid(line, area, row); }
    if !Silent(raw) {
      if list :| AllowSaid(line, area, row, list) { SaidIsAllow(line, area, row, list); }
    }
  }

  lemma {:induction false} AllowIsSaid(line: string, area: string, row: AllowRow)
    requires ParseFields(Split(line, '\t')) == AllowLine(area, row)
    ensures exists list :: AllowSaid(line, area, row, list)
  {
    KeywordsDiffer();
    var col := Split(line, '\t');
    JoinOfSplit(line, '\t');
    if |col| == 5 {
      assert col == ["allow", area, col[2], row.rule, row.hint];
    } else {
      assert col == ["allow", area, col[2], row.rule];
    }
    assert AllowSaid(line, area, row, col[2]);
  }

  lemma {:induction false} SaidIsAllow(line: string, area: string, row: AllowRow, list: string)
    requires AllowSaid(line, area, row, list)
    ensures ParseFields(Split(line, '\t')) == AllowLine(area, row)
  {
    KeywordsDiffer();
    if line == Join(["allow", area, list, row.rule, row.hint], '\t') {
      Fields(line, ["allow", area, list, row.rule, row.hint]);
    } else {
      Fields(line, ["allow", area, list, row.rule]);
    }
  }

  lemma {:induction false} BareLineIff(raw: string, line: string, area: string)
    requires Body(raw, line)
    ensures ParseLine(raw) == BareLine(area) <==> !Silent(raw) && line == Join(["bare", area], '\t') && '\t' !in area
  {
    IgnoredIff(raw);
    Spoken(raw, line);
    BareFieldsIff(line, area);
  }

  lemma {:induction false} BareFieldsIff(line: string, area: string)
    ensures ParseFields(Split(line, '\t')) == BareLine(area) <==> line == Join(["bare", area], '\t') && '\t' !in area
  {
    KeywordsDiffer();
    var col := Split(line, '\t');
    JoinOfSplit(line, '\t');
    if ParseFields(col) == BareLine(area) { assert col == ["bare", area]; }
    if '\t' !in area { Fields(line, ["bare", area]); }
  }

  // ---------- the file without the silent lines ----------

  ghost function Telling(lines: seq<string>): seq<string> {
    if lines == [] then [] else (if Silent(lines[0]) then [] else [lines[0]]) + Telling(lines[1..])
  }

  ghost predicate NoneBad(ps: seq<RuleLine>) { forall k :: 0 <= k < |ps| ==> !ps[k].BadLine? }

  // Two lists of parsed lines that hold the same.
  ghost predicate SameRules(a: seq<RuleLine>, b: seq<RuleLine>) {
    ClassesIn(a) == ClassesIn(b) && AllowIn(a) == AllowIn(b) && BareIn(a) == BareIn(b) && (NoneBad(a) <==> NoneBad(b))
  }

  lemma {:induction false} SameAfter(p: seq<RuleLine>, a: seq<RuleLine>, b: seq<RuleLine>)
    requires SameRules(a, b)
    ensures SameRules(p + a, p + b)
  {
    ParsedAppend(p, a);
    ParsedAppend(p, b);
    NoneBadAppend(p, a);
    NoneBadAppend(p, b);
  }

  lemma NoneBadAppend(p: seq<RuleLine>, a: seq<RuleLine>)
    ensures NoneBad(p + a) <==> NoneBad(p) && NoneBad(a)
  {
    if NoneBad(p + a) {
      assert forall k :: 0 <= k < |p| ==> (p + a)[k] == p[k];
      assert forall k :: 0 <= k < |a| ==> (p + a)[|p| + k] == a[k];
    }
  }

  lemma {:induction false} IgnoredAddsNothing(a: seq<RuleLine>)
    ensures SameRules([Ignored] + a, a)
  {
    ParsedAppend([Ignored], a);
    NoneBadAppend([Ignored], a);
    assert [Ignored][..0] == [] && [] + ClassesIn(a) == ClassesIn(a) && map[] + AllowIn(a) == AllowIn(a);
  }

  // Blank lines and comments change nothing that a rule file holds, wherever they stand.
  lemma {:induction false} SilentLinesDoNotMatter(lines: seq<string>)
    ensures SameRules(ParseAll(lines), ParseAll(Telling(lines)))
  {
    if lines == [] {
    } else {
      var raw, rest := lines[0], lines[1..];
      SilentLinesDoNotMatter(rest);
      IgnoredIff(raw);
      assert lines == [raw] + rest;
      ParseAppend(Parser(), [raw], rest);
      ParseAppend(Parser(), [raw], Telling(rest));
      assert ParseAll([raw]) == [ParseLine(raw)];
      if Silent(raw) {
        IgnoredAddsNothing(ParseAll(rest));
        assert [] + Telling(rest) == Telling(rest);
      } else {
        SameAfter([ParseLine(raw)], ParseAll(rest), ParseAll(Telling(rest)));
      }
    }
  }

  // A file whose lines, but for comments and blank ones, are those of the shipped file loads as it.
  lemma {:induction false} CommentedFileLoads(lines: seq<string>, hints: seq<string>)
    requires Hints(hints) && Telling(lines) == ShippedLines(hints)
    ensures WellFormed(lines) && ClassesOf(lines) == ShippedClasses() && BareOf(lines) == {CROSSSTAGE}
    ensures AllowOf(lines) == RowsOf(ShippedRows(), hints)
  {
    SilentLinesDoNotMatter(lines);
    ShippedFileLoads(hints);
    assert NoneBad(ParseAll(ShippedLines(hints)));
  }

  // ---------- directories and modules ----------

  // A directory without the slashes around it, and one slash.
  lemma {:induction false} SlashedIs(a: nat, d: string, b: nat)
    requires d == "" || (d[0] != '/' && d[|d| - 1] != '/')
    ensures Slashed(Slashes(a) + (d + Slashes(b))) == d + "/"
  {
    if d == "" {
      assert Slashes(a) + (d + Slashes(b)) == Slashes(a + b) + "";
      TrimLeftOfSlashes(a + b, "");
    } else {
      TrimLeftOfSlashes(a, d + Slashes(b));
      TrimRightOfSlashes(d, b);
    }
  }

  ghost function Slashes(n: nat): string { seq(n, i => '/') }

  lemma {:induction false} TrimLeftOfSlashes(n: nat, t: string)
    requires t == "" || t[0] != '/'
    ensures TrimLeftChar(Slashes(n) + t, '/') == t
  {
    if n == 0 {
      assert Slashes(n) + t == t;
    } else {
      assert (Slashes(n) + t)[1..] == Slashes(n - 1) + t;
      TrimLeftOfSlashes(n - 1, t);
    }
  }

  lemma {:induction false} TrimRightOfSlashes(t: string, n: nat)
    requires t == "" || t[|t| - 1] != '/'
    ensures TrimRightChar(t + Slashes(n), '/') == t
  {
    if n == 0 {
      assert t + Slashes(n) == t;
    } else {
      assert (t + Slashes(n))[..|t| + n - 1] == t + Slashes(n - 1);
      TrimRightOfSlashes(t, n - 1);
    }
  }

  // A module holds its own path, resolved as its root, and every path below it.
  lemma WithinIff(p: string, m: string)
    ensures Within(p, m) <==> p == m || exists rest :: p == m + (['/'] + rest)
    ensures Inside(m, m).0 == ""
  {
    assert "/" == ['/'];
    if HasPrefix(p, m + "/") { assert p == m + (['/'] + p[|m| + 1..]); }
    if rest :| p == m + (['/'] + rest) { assert p[..|m| + 1] == m + "/"; }
  }

  // The path inside is what follows the slash, and the repository is the last segment of the module.
  lemma InsideIs(owner: string, name: string, rest: string)
    requires '/' !in name && (owner == "" || owner[|owner| - 1] == '/')
    ensures var m := owner + name; var p := m + (['/'] + rest); Within(p, m) && Inside(p, m) == (rest, name)
  {
    var m := owner + name;
    var p := m + (['/'] + rest);
    WithinIff(p, m);
    assert p[|m| + 1..] == rest;
    BaseOfLast(owner, name);
  }
}
