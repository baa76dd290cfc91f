// The rule file that ships with checkdeps, line by line, and what loading it gives.
module DepsRulesFile {
  import opened Text
  import opened Str
  import opened DepsConfig

  const COMMON := "common"
  const PROCS := "procs"
  const COLLECTOR := "collector"
  const DISCOVERY := "discovery"
  const INVENTORY := "inventory"
  const PROVISIONING := "provisioning"
  const CROSSSTAGE := "crossstage"
  const LEAF := "leaf"

  // ---------- the lines ----------

  function CommonClass(k: nat): Class {
    if k == 0 then Class("", "gen/", COMMON)
    else if k == 1 then Class("pqcota-common", "cmd/", COMMON)
    else if k == 2 then Class("", "pkg/kernel/", COMMON)
    else Class("", "pkg/org/", COMMON)
  }

  function DiscoveryClass(k: nat): Class {
    if k == 0 then Class("", "pkg/discovery/procs/", PROCS)
    else if k == 1 then Class("", "collectors/", COLLECTOR)
    else if k == 2 then Class("pqcota-discovery", "cmd/", DISCOVERY)
    else Class("", "pkg/discovery/", DISCOVERY)
  }

  function LaterClass(k: nat): Class {
    if k < 2 then InventoryClass(k) else ProvisioningClass(k - 2)
  }

  function InventoryClass(k: nat): Class {
    if k == 0 then Class("pqcota-inventory", "cmd/", INVENTORY) else Class("", "pkg/inventory/", INVENTORY)
  }

  function ProvisioningClass(k: nat): Class {
    if k == 0 then Class("pqcota-provisioning", "cmd/", PROVISIONING) else Class("", "pkg/provisioning/", PROVISIONING)
  }

  function LastClass(k: nat): Class {
    if k == 0 then Class("", "test/crossstage/", CROSSSTAGE)
    else if k == 1 then Class("", "tools/", LEAF)
    else Class("", "demo/", LEAF)
  }

  function ShippedClass(k: nat): Class {
    if k < 4 then CommonClass(k)
    else if k < 8 then DiscoveryClass(k - 4)
    else if k < 12 then LaterClass(k - 8)
    else LastClass(k - 12)
  }

  // An allow line without its hint, which is free text.
  datatype Row = Row(area: string, areas: seq<string>, rule: string)

  function ShippedAllow(k: nat): Row {
    if k == 0 then Row(COMMON, [COMMON], "R1")
    else if k == 1 then Row(PROCS, [COMMON, PROCS], "R5b")
    else if k == 2 then Row(COLLECTOR, [COMMON, COLLECTOR, PROCS], "R5")
    else if k == 3 then Row(DISCOVERY, [COMMON, DISCOVERY, COLLECTOR, PROCS, INVENTORY], "R4")
    else if k == 4 then Row(INVENTORY, [COMMON, INVENTORY], "R2")
    else if k == 5 then Row(PROVISIONING, [COMMON, INVENTORY, PROVISIONING], "R3")
    else if k == 6 then
      Row(CROSSSTAGE, [COMMON, PROCS, COLLECTOR, DISCOVERY, INVENTORY, PROVISIONING, CROSSSTAGE, LEAF], "R6")
    else Row(LEAF, [COMMON, PROCS, COLLECTOR, DISCOVERY, INVENTORY, PROVISIONING, LEAF], "R7")
  }

  function ClassField(c: Class): string { if c.repo == "" then c.prefix else c.repo + [':'] + c.prefix }

  function ClassText(c: Class): string { Join(["class", ClassField(c), c.area], '\t') }

  function AllowText(row: Row, hint: string): string {
    Join(["allow", row.area, Join(row.areas, ','), row.rule, hint], '\t')
  }

  function BareText(area: string): string { Join(["bare", area], '\t') }

  // ---------- parsing one line ----------

  // A name as the file writes them: letters, digits, hyphens and slashes.
  predicate NameChar(c: char) { 'a' <= c <= 'z' || 'A' <= c <= 'Z' || '0' <= c <= '9' || c == '-' || c == '/' }

  predicate Name(s: string) { s != "" && forall i :: 0 <= i < |s| ==> NameChar(s[i]) }

  // Free text of one field.
  predicate Hint(s: string) { '\t' !in s && '\r' !in s }

  lemma {:induction false} JoinHolds(fields: seq<string>, c: char, sep: char)
    requires c != sep && forall k :: 0 <= k < |fields| ==> c !in fields[k]
    ensures c !in Join(fields, sep)
  {
    if |fields| <= 1 {
    } else {
      JoinHolds(fields[1..], c, sep);
    }
  }

  lemma {:induction false} NamedLineParses(line: string)
    requires line != "" && NameChar(line[0]) && '\r' !in line
    ensures ParseLine(line) == ParseFields(Split(line, '\t'))
  {
    assert TrimRightChar(line, '\r') == line;
    TrimEndKeepsHead(line);
    assert "#"[0] == '#';
  }

  // A line of tab-separated fields that starts with a name is parsed field by field.
  lemma {:induction false} FieldsParse(fields: seq<string>)
    requires fields != [] && Name(fields[0]) && forall k :: 0 <= k < |fields| ==> Hint(fields[k])
    ensures ParseLine(Join(fields, '\t')) == ParseFields(fields)
  {
    JoinHolds(fields, '\r', '\t');
    NamedLineParses(Join(fields, '\t'));
    SplitOfJoin(fields, '\t');
  }

  lemma {:induction false} NameIsHint(s: string)
    requires Name(s)
    ensures Hint(s) && ':' !in s && ',' !in s && !IsSpace(s[0]) && !IsSpace(s[|s| - 1])
  {
    assert NameChar(s[0]) && NameChar(s[|s| - 1]);
  }

  ghost predicate GoodClass(c: Class) {
    (c.repo == "" || Name(c.repo)) && Name(c.prefix) && c.prefix[|c.prefix| - 1] == '/' && Name(c.area)
  }

  lemma {:induction false} ClassFieldParses(c: Class)
    requires GoodClass(c)
    ensures ParseClass(ClassField(c), c.area) == ClassLine(c) && Hint(ClassField(c))
  {
    NameIsHint(c.prefix);
    SlashEnds(c.prefix);
    if c.repo == "" {
      UnqualifiedParses(c.prefix, c.area);
    } else {
      NameIsHint(c.repo);
      QualifiedParses(c);
    }
  }

  lemma {:induction false} UnqualifiedParses(prefix: string, area: string)
    requires ':' !in prefix && HasSuffix(prefix, "/")
    ensures ParseClass(prefix, area) == ClassLine(Class("", prefix, area))
  {}

  lemma SlashEnds(p: string)
    requires p != "" && p[|p| - 1] == '/'
    ensures HasSuffix(p, "/")
  {
    assert |"/"| == 1 && "/"[0] == '/';
  }

  lemma {:induction false} QualifiedParses(c: Class)
    requires c.repo != "" && ':' !in c.repo && HasSuffix(c.prefix, "/")
    ensures ParseClass(c.repo + [':'] + c.prefix, c.area) == ClassLine(c)
  {
    QualifiedField(c.repo, c.prefix);
  }

  lemma {:induction false} QualifiedField(repo: string, prefix: string)
    requires ':' !in repo
    ensures var f := repo + [':'] + prefix;
            IndexFrom(f, ':', 0) == |repo| && f[..|repo|] == repo && Cut(f, |repo| + 1, |f|) == prefix
  {
    var f := repo + [':'] + prefix;
    IndexFromFirst(f, ':', 0, |repo|);
  }

  lemma KeywordsAreNames()
    ensures Name("class") && Name("allow") && Name("bare")
  {}

  // Which kind of line a keyword starts.
  lemma {:induction false} KeywordParses(f: string, g: string, h: string, i: string)
    ensures ParseFields(["class", f, g]) == ParseClass(f, g)
    ensures ParseFields(["allow", f, g, h, i]) == AllowLine(f, AllowRow(h, i, TrimmedSet(Split(g, ','))))
    ensures ParseFields(["bare", f]) == BareLine(f)
  {
    assert |"bare"| == 4 && |"class"| == 5 && |"allow"| == 5 && "allow"[0] == 'a' && "class"[0] == 'c';
  }

  lemma {:induction false} ClassTextParses(c: Class)
    requires GoodClass(c)
    ensures ParseLine(ClassText(c)) == ClassLine(c)
  {
    ClassFieldParses(c);
    NameIsHint(c.area);
    KeywordsAreNames();
    NameIsHint("class");
    FieldsParse(["class", ClassField(c), c.area]);
    KeywordParses(ClassField(c), c.area, "", "");
  }

  ghost predicate GoodRow(row: Row) {
    Name(row.area) && Name(row.rule) && row.areas != [] && forall k :: 0 <= k < |row.areas| ==> Name(row.areas[k])
  }

  function AreaSet(areas: seq<string>): set<string> { set a | a in areas }

  lemma NothingToTrim(s: string)
    requires Name(s)
    ensures TrimSpace(s) == s
  {
    NameIsHint(s);
  }

  lemma AreasParse(areas: seq<string>)
    requires areas != [] && forall k :: 0 <= k < |areas| ==> Name(areas[k])
    ensures TrimmedSet(Split(Join(areas, ','), ',')) == AreaSet(areas) && Hint(Join(areas, ','))
  {
    forall k | 0 <= k < |areas| ensures ',' !in areas[k] && Hint(areas[k]) && TrimSpace(areas[k]) == areas[k] {
      NameIsHint(areas[k]);
      NothingToTrim(areas[k]);
    }
    SplitOfJoin(areas, ',');
    JoinHolds(areas, '\t', ',');
    JoinHolds(areas, '\r', ',');
    forall a ensures a in TrimmedSet(areas) <==> a in AreaSet(areas) {
      if a in AreaSet(areas) { assert TrimSpace(a) == a; }
    }
  }

  lemma AllowTextParses(row: Row, hint: string)
    requires GoodRow(row) && Hint(hint)
    ensures ParseLine(AllowText(row, hint)) == AllowLine(row.area, AllowRow(row.rule, hint, AreaSet(row.areas)))
  {
    AreasParse(row.areas);
    NameIsHint(row.area);
    NameIsHint(row.rule);
    KeywordsAreNames();
    NameIsHint("allow");
    FieldsParse(["allow", row.area, Join(row.areas, ','), row.rule, hint]);
    KeywordParses(row.area, Join(row.areas, ','), row.rule, hint);
  }

  lemma BareTextParses(area: string)
    requires Name(area)
    ensures ParseLine(BareText(area)) == BareLine(area)
  {
    NameIsHint(area);
    KeywordsAreNames();
    NameIsHint("bare");
    FieldsParse(["bare", area]);
    KeywordParses(area, "", "", "");
  }

  // ---------- the names of the file ----------

  lemma StageNames()
    ensures Name(COMMON) && Name(PROCS) && Name(COLLECTOR) && Name(DISCOVERY)
  {}

  lemma LaterNames()
    ensures Name(INVENTORY) && Name(PROVISIONING) && Name(CROSSSTAGE) && Name(LEAF)
  {}

  lemma RuleNames()
    ensures Name("R1") && Name("R2") && Name("R3") && Name("R4") && Name("R5") && Name("R5b") && Name("R6")
            && Name("R7")
  {}

  lemma CommonClassIsGood(k: nat)
    ensures GoodClass(CommonClass(k))
  {
    StageNames();
  }

  lemma DiscoveryClassIsGood(k: nat)
    ensures GoodClass(DiscoveryClass(k))
  {
    StageNames();
  }

  lemma InventoryClassIsGood(k: nat)
    ensures GoodClass(InventoryClass(k))
  {
    LaterNames();
  }

  lemma ProvisioningClassIsGood(k: nat)
    ensures GoodClass(ProvisioningClass(k))
  {
    LaterNames();
  }

  lemma LaterClassIsGood(k: nat)
    ensures GoodClass(LaterClass(k))
  {
    if k < 2 { InventoryClassIsGood(k); } else { ProvisioningClassIsGood(k - 2); }
  }

  lemma LastClassIsGood(k: nat)
    ensures GoodClass(LastClass(k))
  {
    LaterNames();
  }

  lemma ShippedClassIsGood(k: nat)
    ensures GoodClass(ShippedClass(k))
  {
    if k < 4 {
      CommonClassIsGood(k);
    } else if k < 8 {
      DiscoveryClassIsGood(k - 4);
    } else if k < 12 {
      LaterClassIsGood(k - 8);
    } else {
      LastClassIsGood(k - 12);
    }
  }

  lemma ShippedAllowIsGood(k: nat)
    ensures GoodRow(ShippedAllow(k))
  {
    StageNames();
    LaterNames();
    RuleNames();
  }

  // ---------- parsed lines ----------

  lemma LastOfSum(a: seq<RuleLine>, b: seq<RuleLine>)
    requires b != []
    ensures (a + b)[..|a + b| - 1] == a + b[..|b| - 1] && (a + b)[|a + b| - 1] == b[|b| - 1]
  {}

  lemma {:induction false} ClassesAppend(a: seq<RuleLine>, b: seq<RuleLine>)
    ensures ClassesIn(a + b) == ClassesIn(a) + ClassesIn(b)
  {
    if b == [] {
      assert a + b == a;
    } else {
      ClassesAppend(a, b[..|b| - 1]);
      LastOfSum(a, b);
    }
  }

  lemma {:induction false} AllowAppend(a: seq<RuleLine>, b: seq<RuleLine>)
    ensures AllowIn(a + b) == AllowIn(a) + AllowIn(b)
  {
    if b == [] {
      assert a + b == a;
    } else {
      AllowAppend(a, b[..|b| - 1]);
      LastOfSum(a, b);
    }
  }

  lemma {:induction false} BareAppend(a: seq<RuleLine>, b: seq<RuleLine>)
    ensures BareIn(a + b) == BareIn(a) + BareIn(b)
  {
    if b == [] {
      assert a + b == a;
    } else {
      BareAppend(a, b[..|b| - 1]);
      LastOfSum(a, b);
    }
  }

  lemma ParsedAppend(a: seq<RuleLine>, b: seq<RuleLine>)
    ensures ClassesIn(a + b) == ClassesIn(a) + ClassesIn(b)
    ensures AllowIn(a + b) == AllowIn(a) + AllowIn(b)
    ensures BareIn(a + b) == BareIn(a) + BareIn(b)
  {
    ClassesAppend(a, b);
    AllowAppend(a, b);
    BareAppend(a, b);
  }

  function ClassLines(cs: seq<Class>): seq<RuleLine> { seq(|cs|, k requires 0 <= k < |cs| => ClassLine(cs[k])) }

  lemma {:induction false} OnlyClasses(cs: seq<Class>)
    ensures ClassesIn(ClassLines(cs)) == cs && AllowIn(ClassLines(cs)) == map[] && BareIn(ClassLines(cs)) == {}
  {
    if cs == [] {
    } else {
      OnlyClasses(cs[..|cs| - 1]);
      assert ClassLines(cs)[..|cs| - 1] == ClassLines(cs[..|cs| - 1]);
    }
  }

  // The rows of a list of allow lines, a later one of an area replacing an earlier one.
  function RowsOf(rows: seq<Row>, hints: seq<string>): map<string, AllowRow>
    requires |rows| == |hints|
  {
    if rows == [] then map[]
    else
      var n := |rows| - 1;
      RowsOf(rows[..n], hints[..n])[rows[n].area := AllowRow(rows[n].rule, hints[n], AreaSet(rows[n].areas))]
  }

  function AllowLines(rows: seq<Row>, hints: seq<string>): seq<RuleLine>
    requires |rows| == |hints|
  {
    seq(|rows|,
        k requires 0 <= k < |rows| => AllowLine(rows[k].area, AllowRow(rows[k].rule, hints[k], AreaSet(rows[k].areas))))
  }

  lemma {:induction false} OnlyRows(rows: seq<Row>, hints: seq<string>)
    requires |rows| == |hints|
    ensures ClassesIn(AllowLines(rows, hints)) == [] && AllowIn(AllowLines(rows, hints)) == RowsOf(rows, hints)
    ensures BareIn(AllowLines(rows, hints)) == {}
  {
    if rows == [] {
    } else {
      var n := |rows| - 1;
      OnlyRows(rows[..n], hints[..n]);
      assert AllowLines(rows, hints)[..n] == AllowLines(rows[..n], hints[..n]);
    }
  }

  lemma OnlyBare(area: string)
    ensures ClassesIn([BareLine(area)]) == [] && AllowIn([BareLine(area)]) == map[]
            && BareIn([BareLine(area)]) == {area}
  {
    assert [BareLine(area)][..0] == [];
  }

  // ---------- the whole file ----------

  function Texts(cs: seq<Class>, rows: seq<Row>, hints: seq<string>, bare: string): seq<string>
    requires |rows| == |hints|
  {
    ClassTexts(cs) + AllowTexts(rows, hints) + [BareText(bare)]
  }

  function ClassTexts(cs: seq<Class>): seq<string> { seq(|cs|, k requires 0 <= k < |cs| => ClassText(cs[k])) }

  function AllowTexts(rows: seq<Row>, hints: seq<string>): seq<string>
    requires |rows| == |hints|
  {
    seq(|rows|, k requires 0 <= k < |rows| => AllowText(rows[k], hints[k]))
  }

  ghost predicate GoodFile(cs: seq<Class>, rows: seq<Row>, hints: seq<string>, bare: string) {
    && |rows| == |hints| && Name(bare)
    && (forall k :: 0 <= k < |cs| ==> GoodClass(cs[k]))
    && (forall k :: 0 <= k < |rows| ==> GoodRow(rows[k]) && Hint(hints[k]))
  }

  lemma TextsParse(cs: seq<Class>, rows: seq<Row>, hints: seq<string>, bare: string)
    requires GoodFile(cs, rows, hints, bare)
    ensures ParseAll(Texts(cs, rows, hints, bare)) == ClassLines(cs) + AllowLines(rows, hints) + [BareLine(bare)]
  {
    var a, b := ClassTexts(cs), AllowTexts(rows, hints);
    ParseAppend(Parser(), a + b, [BareText(bare)]);
    ParseAppend(Parser(), a, b);
    ClassTextsParse(cs);
    AllowTextsParse(rows, hints);
    BareTextParses(bare);
    assert ParseAll([BareText(bare)]) == [BareLine(bare)];
  }

  lemma ParseAppend(parse: string -> RuleLine, a: seq<string>, b: seq<string>)
    ensures ParseBy(parse, a + b) == ParseBy(parse, a) + ParseBy(parse, b)
  {}

  lemma ClassTextsParse(cs: seq<Class>)
    requires forall k :: 0 <= k < |cs| ==> GoodClass(cs[k])
    ensures ParseAll(ClassTexts(cs)) == ClassLines(cs)
  {
    forall k | 0 <= k < |cs| ensures ParseAll(ClassTexts(cs))[k] == ClassLines(cs)[k] { ClassTextParses(cs[k]); }
  }

  lemma AllowTextsParse(rows: seq<Row>, hints: seq<string>)
    requires |rows| == |hints| && forall k :: 0 <= k < |rows| ==> GoodRow(rows[k]) && Hint(hints[k])
    ensures ParseAll(AllowTexts(rows, hints)) == AllowLines(rows, hints)
  {
    forall k | 0 <= k < |rows| ensures ParseAll(AllowTexts(rows, hints))[k] == AllowLines(rows, hints)[k] {
      AllowTextParses(rows[k], hints[k]);
    }
  }

  lemma PartsHold(cs: seq<Class>, rows: seq<Row>, hints: seq<string>, bare: string)
    requires |rows| == |hints|
    ensures var ps := ClassLines(cs) + AllowLines(rows, hints) + [BareLine(bare)];
            ClassesIn(ps) == cs && AllowIn(ps) == RowsOf(rows, hints) && BareIn(ps) == {bare}
  {
    var a, b, c := ClassLines(cs), AllowLines(rows, hints), [BareLine(bare)];
    ParsedAppend(a + b, c);
    ParsedAppend(a, b);
    OnlyClasses(cs);
    OnlyRows(rows, hints);
    OnlyBare(bare);
    assert map[] + RowsOf(rows, hints) + map[] == RowsOf(rows, hints) && cs + [] + [] == cs;
  }

  lemma PartsAreGood(cs: seq<Class>, rows: seq<Row>, hints: seq<string>, bare: string)
    requires |rows| == |hints|
    ensures var ps := ClassLines(cs) + AllowLines(rows, hints) + [BareLine(bare)];
            forall k :: 0 <= k < |ps| ==> !ps[k].BadLine?
  {}

  // A file of class lines, allow lines and one bare line holds exactly those classes, rows and area.
  lemma FileHolds(cs: seq<Class>, rows: seq<Row>, hints: seq<string>, bare: string)
    requires GoodFile(cs, rows, hints, bare)
    ensures var lines := Texts(cs, rows, hints, bare);
            && ClassesOf(lines) == cs && AllowOf(lines) == RowsOf(rows, hints) && BareOf(lines) == {bare}
            && forall k :: 0 <= k < |lines| ==> !ParseAll(lines)[k].BadLine?
  {
    TextsParse(cs, rows, hints, bare);
    PartsHold(cs, rows, hints, bare);
    PartsAreGood(cs, rows, hints, bare);
  }

  // ---------- the shipped file ----------

  function ShippedClasses(): seq<Class> { seq(15, k requires 0 <= k < 15 => ShippedClass(k)) }

  function ShippedRows(): seq<Row> { seq(8, k requires 0 <= k < 8 => ShippedAllow(k)) }

  // The rule lines of the shipped file, for any hints.
  function ShippedLines(hints: seq<string>): seq<string>
    requires |hints| == 8
  {
    Texts(ShippedClasses(), ShippedRows(), hints, CROSSSTAGE)
  }

  ghost predicate Hints(hints: seq<string>) { |hints| == 8 && forall k :: 0 <= k < 8 ==> Hint(hints[k]) }

  lemma ShippedFileIsGood(hints: seq<string>)
    requires Hints(hints)
    ensures GoodFile(ShippedClasses(), ShippedRows(), hints, CROSSSTAGE)
  {
    forall k | 0 <= k < 15 ensures GoodClass(ShippedClasses()[k]) { ShippedClassIsGood(k); }
    forall k | 0 <= k < 8 ensures GoodRow(ShippedRows()[k]) { ShippedAllowIsGood(k); }
    LaterNames();
  }

  // ---------- the areas ----------

  function Areas(): set<string> { {COMMON, PROCS, COLLECTOR, DISCOVERY, INVENTORY, PROVISIONING, CROSSSTAGE, LEAF} }

  function ShippedRow(area: string): set<string> {
    if area == COMMON then {COMMON}
    else if area == PROCS then {COMMON, PROCS}
    else if area == COLLECTOR then {COMMON, COLLECTOR, PROCS}
    else if area == DISCOVERY then {COMMON, DISCOVERY, COLLECTOR, PROCS, INVENTORY}
    else if area == INVENTORY then {COMMON, INVENTORY}
    else if area == PROVISIONING then {COMMON, INVENTORY, PROVISIONING}
    else if area == CROSSSTAGE then {COMMON, PROCS, COLLECTOR, DISCOVERY, INVENTORY, PROVISIONING, CROSSSTAGE, LEAF}
    else if area == LEAF then {COMMON, PROCS, COLLECTOR, DISCOVERY, INVENTORY, PROVISIONING, LEAF}
    else {}
  }

  lemma NamesDiffer()
    ensures COMMON != PROCS && COMMON != COLLECTOR && COMMON != DISCOVERY && COMMON != INVENTORY
            && COMMON != PROVISIONING && COMMON != CROSSSTAGE && COMMON != LEAF
    ensures PROCS != COLLECTOR && PROCS != DISCOVERY && PROCS != INVENTORY && PROCS != PROVISIONING
            && PROCS != CROSSSTAGE && PROCS != LEAF
    ensures COLLECTOR != DISCOVERY && COLLECTOR != INVENTORY && COLLECTOR != PROVISIONING && COLLECTOR != CROSSSTAGE
            && COLLECTOR != LEAF
    ensures DISCOVERY != INVENTORY && DISCOVERY != PROVISIONING && DISCOVERY != CROSSSTAGE && DISCOVERY != LEAF
    ensures INVENTORY != PROVISIONING && INVENTORY != CROSSSTAGE && INVENTORY != LEAF
    ensures PROVISIONING != CROSSSTAGE && PROVISIONING != LEAF && CROSSSTAGE != LEAF
  {
    assert COMMON[0] == 'c' && PROCS[0] == 'p' && COLLECTOR[0] == 'c' && DISCOVERY[0] == 'd' && INVENTORY[0] == 'i'
        && PROVISIONING[0] == 'p' && CROSSSTAGE[0] == 'c' && LEAF[0] == 'l';
    assert |COMMON| == 6 && |COLLECTOR| == 9 && |CROSSSTAGE| == 10 && |PROCS| == 5 && |PROVISIONING| == 12;
  }

  // Each allow line gives its area the row of the table.
  lemma AllowLineIsRow(k: nat)
    requires k < 8
    ensures var row := ShippedAllow(k); AreaSet(row.areas) == ShippedRow(row.area) && row.area in Areas()
  {
    NamesDiffer();
  }

  lemma AllowAreasDiffer(j: nat, k: nat)
    requires j < k < 8
    ensures ShippedAllow(j).area != ShippedAllow(k).area
  {
    NamesDiffer();
  }

  lemma EveryAreaHasALine(area: string) returns (k: nat)
    requires area in Areas()
    ensures k < 8 && ShippedAllow(k).area == area
  {
    k := if area == COMMON then 0 else if area == PROCS then 1 else if area == COLLECTOR then 2
         else if area == DISCOVERY then 3 else if area == INVENTORY then 4 else if area == PROVISIONING then 5
         else if area == CROSSSTAGE then 6 else 7;
  }

  // With different areas, each line's row stands.
  lemma {:induction false} RowStands(rows: seq<Row>, hints: seq<string>, k: nat)
    requires |rows| == |hints| && k < |rows| && forall i, j :: 0 <= i < j < |rows| ==> rows[i].area != rows[j].area
    ensures rows[k].area in RowsOf(rows, hints)
    ensures RowsOf(rows, hints)[rows[k].area].areas == AreaSet(rows[k].areas)
  {
    var n := |rows| - 1;
    if k == n {
    } else {
      RowStands(rows[..n], hints[..n], k);
    }
  }

  lemma {:induction false} RowsKeys(rows: seq<Row>, hints: seq<string>, a: string)
    requires |rows| == |hints|
    ensures a in RowsOf(rows, hints) <==> exists k :: 0 <= k < |rows| && rows[k].area == a
  {
    if rows == [] {
    } else {
      var n := |rows| - 1;
      RowsKeys(rows[..n], hints[..n], a);
      assert forall k :: 0 <= k < n ==> rows[..n][k] == rows[k];
    }
  }

  // The rows of the shipped file: the table, for the eight areas.
  lemma ShippedRowsAre(hints: seq<string>, a: string)
    requires Hints(hints)
    ensures a in RowsOf(ShippedRows(), hints) <==> a in Areas()
    ensures a in Areas() ==> RowsOf(ShippedRows(), hints)[a].areas == ShippedRow(a)
  {
    var rows := ShippedRows();
    RowsKeys(rows, hints, a);
    forall i, j | 0 <= i < j < |rows| ensures rows[i].area != rows[j].area { AllowAreasDiffer(i, j); }
    forall k | 0 <= k < 8 ensures rows[k].area in Areas() { AllowLineIsRow(k); }
    if a in Areas() {
      var k := EveryAreaHasALine(a);
      assert rows[k].area == a;
      RowStands(rows, hints, k);
      AllowLineIsRow(k);
    }
  }

  lemma ShippedRowsInside(a: string)
    ensures ShippedRow(a) <= Areas() && (a !in Areas() ==> ShippedRow(a) == {})
  {}

  lemma ClassAreasAre()
    ensures AreasOf(ShippedClasses()) == Areas()
  {
    forall k | 0 <= k < 15 ensures ShippedClasses()[k].area in Areas() { ClassAreaKnown(k); }
    forall a | a in Areas() ensures a in AreasOf(ShippedClasses()) {
      var k := EveryAreaHasAClass(a);
      assert ShippedClasses()[k].area == a;
    }
  }

  lemma ClassAreaKnown(k: nat)
    ensures ShippedClass(k).area in Areas()
  {}

  lemma EveryAreaHasAClass(area: string) returns (k: nat)
    requires area in Areas()
    ensures k < 15 && ShippedClass(k).area == area
  {
    k := if area == COMMON then 0 else if area == PROCS then 4 else if area == COLLECTOR then 5
         else if area == DISCOVERY then 7 else if area == INVENTORY then 9 else if area == PROVISIONING then 11
         else if area == CROSSSTAGE then 12 else 13;
  }

  // The shipped file loads, whatever its hints say: its classes and rows are the ones above.
  lemma ShippedFileLoads(hints: seq<string>)
    requires Hints(hints)
    ensures WellFormed(ShippedLines(hints))
    ensures ClassesOf(ShippedLines(hints)) == ShippedClasses() && BareOf(ShippedLines(hints)) == {CROSSSTAGE}
    ensures AllowOf(ShippedLines(hints)) == RowsOf(ShippedRows(), hints)
  {
    ShippedFileIsGood(hints);
    FileHolds(ShippedClasses(), ShippedRows(), hints, CROSSSTAGE);
    ClassAreasAre();
    var allow := RowsOf(ShippedRows(), hints);
    forall a ensures (a in allow <==> a in Areas()) && (a in allow ==> allow[a].areas <= Areas()) {
      ShippedRowsAre(hints, a);
      ShippedRowsInside(a);
    }
    assert allow.Keys == Areas();
    assert Agreed(allow, {CROSSSTAGE}, Areas());
  }
}
