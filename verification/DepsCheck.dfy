// checkdeps' gate: what it reports for a list of files, and what a silent gate says about whole import paths.
module DepsCheck {
  import opened Text
  import opened Str
  import opened DepsConfig

  // What the Go parser yields for a file: whether it has a package comment and declarations, and its import paths.
  datatype Source = Source(doc: bool, decls: bool, imports: seq<string>)

  // A file by its directory and base name; parsed is None when the file cannot be parsed or an import path cannot be
  // unquoted.
  datatype GoFile = GoFile(dir: string, base: string, parsed: Option<Source>)

  datatype Finding =
    | UnclassifiedFile(file: GoFile)
    | NotBare(file: GoFile, area: string)
    | NoPackageDoc(file: GoFile)
    | DeclsInDoc(file: GoFile)
    | UnclassifiedImport(file: GoFile, to: string)
    | ForbiddenImport(file: GoFile, area: string, to: string, target: string)

  // The configuration as the checker uses it, for one repository: where a directory of a repository belongs, and which
  // directory of which repository an import path names.
  datatype Rules = Rules(self: string, areaOf: (string, string) -> string, resolve: string -> Option<(string, string)>,
                         allow: map<string, AllowRow>, bare: set<string>)

  function RulesWith(modules: seq<string>, self: string, classes: seq<Class>, allow: map<string, AllowRow>,
                     bare: set<string>)
    : Rules
  {
    Rules(self, (repo, dir) => AreaOf(classes, repo, dir), p => RelOf(modules, p), allow, bare)
  }

  function AllowedFrom(allow: map<string, AllowRow>, area: string): set<string> {
    if area in allow then allow[area].areas else {}
  }

  // hasDir(f, "testdata"): some directory segment is testdata. The Go tool ignores such directories too.
  predicate InTestdata(dir: string) { "testdata" in Split(dir, '/') }

  predicate BareFileName(base: string) { base == "doc.go" || HasSuffix(base, "_test.go") }

  // How a path is shown: with its repository when that is another one.
  function Shown(r: Rules, repo: string, rel: string): string { if repo != r.self then repo + "/" + rel else rel }

  function ImportFindings(r: Rules, f: GoFile, area: string, imports: seq<string>): seq<Finding> {
    if imports == [] then []
    else
      var rest := ImportFindings(r, f, area, imports[..|imports| - 1]);
      match r.resolve(imports[|imports| - 1])
      case None => rest
      case Some((rel, repo)) =>
        var to := r.areaOf(repo, rel);
        if to == "" then rest + [UnclassifiedImport(f, Shown(r, repo, rel))]
        else if to !in AllowedFrom(r.allow, area) then rest + [ForbiddenImport(f, area, Shown(r, repo, rel), to)]
        else rest
  }

  function DocFindings(f: GoFile, src: Source): seq<Finding> {
    (if !src.doc then [NoPackageDoc(f)] else []) + (if src.decls then [DeclsInDoc(f)] else [])
  }

  // The findings of one measured file in a classified directory; None when it cannot be parsed.
  function FileFindings(r: Rules, f: GoFile, area: string): Option<seq<Finding>> {
    if area in r.bare && !BareFileName(f.base) then Some([NotBare(f, area)])
    else if f.parsed.None? then None
    else
      Some((if area in r.bare && f.base == "doc.go" then DocFindings(f, f.parsed.value) else [])
           + ImportFindings(r, f, area, f.parsed.value.imports))
  }

  // What one file adds; a file of an unclassified directory adds nothing when its directory is reported already.
  function FileStep(r: Rules, f: GoFile, reported: bool): Option<seq<Finding>> {
    var area := r.areaOf(r.self, f.dir);
    if InTestdata(f.dir) then Some([])
    else if area == "" then Some(if reported then [] else [UnclassifiedFile(f)])
    else FileFindings(r, f, area)
  }

  function Append(a: Option<seq<Finding>>, b: Option<seq<Finding>>): Option<seq<Finding>> {
    if a.None? || b.None? then None else Some(a.value + b.value)
  }

  // All findings of the first n files, in file order.
  function Findings(r: Rules, files: seq<GoFile>, n: nat): Option<seq<Finding>>
    requires n <= |files|
  {
    if n == 0 then Some([])
    else
      Append(Findings(r, files, n - 1), FileStep(r, files[n - 1], Reported(files, n - 1, files[n - 1].dir)))
  }

  // An earlier measured file lies in the same directory.
  predicate Reported(files: seq<GoFile>, n: nat, dir: string)
    requires n <= |files|
  {
    exists i :: 0 <= i < n && !InTestdata(files[i].dir) && files[i].dir == dir
  }

  // How many of the imports lie inside the measured modules.
  function Internal(modules: seq<string>, imports: seq<string>): nat {
    if imports == [] then 0
    else Internal(modules, imports[..|imports| - 1]) + if RelOf(modules, imports[|imports| - 1]).Some? then 1 else 0
  }

  function RulesOf(c: Config): Rules
    reads c
  { RulesWith(c.modules, c.self, c.classes, c.allow, c.bare) }

  method CheckImports(cfg: Config, f: GoFile, area: string, imports: seq<string>)
    returns (out: seq<Finding>, count: nat)
    ensures out == ImportFindings(RulesOf(cfg), f, area, imports) && count == Internal(cfg.modules, imports)
  {
    ghost var r := RulesOf(cfg);
    out, count := [], 0;
    for i := 0 to |imports|
      invariant out == ImportFindings(r, f, area, imports[..i]) && count == Internal(cfg.modules, imports[..i])
    {
      assert imports[..i + 1][..i] == imports[..i];
      var inside := ResolveImport(cfg.modules, imports[i]);
      if inside.Some? {
        var (rel, repo) := inside.value;
        count := count + 1;
        var to := cfg.AreaIn(repo, rel);
        var shown := if repo != cfg.self then repo + "/" + rel else rel;
        if to == "" {
          out := out + [UnclassifiedImport(f, shown)];
        } else if to !in AllowedFrom(cfg.allow, area) {
          out := out + [ForbiddenImport(f, area, shown, to)];
        }
      }
    }
    assert imports[..|imports|] == imports;
  }

  // The directories noted as unclassified are those of the measured files so far that no class covers.
  ghost predicate Notes(r: Rules, files: seq<GoFile>, n: nat, noted: set<string>)
    requires n <= |files|
  {
    forall dir :: dir in noted <==> r.areaOf(r.self, dir) == "" && Reported(files, n, dir)
  }

  lemma NotesOneMore(r: Rules, files: seq<GoFile>, n: nat, noted: set<string>, unclassified: bool)
    requires n < |files| && Notes(r, files, n, noted)
    requires unclassified <==> !InTestdata(files[n].dir) && r.areaOf(r.self, files[n].dir) == ""
    ensures Notes(r, files, n + 1, if unclassified then noted + {files[n].dir} else noted)
  {
    forall dir ensures Reported(files, n + 1, dir)
                       <==> Reported(files, n, dir) || (!InTestdata(files[n].dir) && files[n].dir == dir) { }
  }

  // The findings are in file order; sorting their printed lines is not modelled.
  method Check(files: seq<GoFile>, cfg: Config) returns (out: Option<seq<Finding>>)
    ensures out == Findings(RulesOf(cfg), files, |files|)
  {
    ghost var r := RulesOf(cfg);
    var findings: seq<Finding> := [];
    var noted: set<string> := {};
    for n := 0 to |files|
      invariant Findings(r, files, n) == Some(findings) && Notes(r, files, n, noted)
    {
      var more, unclassified := CheckFile(cfg, files[n], files[n].dir in noted);
      StepIgnoresNote(r, files[n], files[n].dir in noted, Reported(files, n, files[n].dir));
      if more.None? {
        FailureStays(r, files, n + 1, |files|);
        return None;
      }
      findings := findings + more.value;
      NotesOneMore(r, files, n, noted, unclassified);
      noted := if unclassified then noted + {files[n].dir} else noted;
    }
    return Some(findings);
  }

  // Whether the directory is reported matters only when it is unclassified.
  lemma StepIgnoresNote(r: Rules, f: GoFile, a: bool, b: bool)
    requires r.areaOf(r.self, f.dir) == "" ==> a == b
    ensures FileStep(r, f, a) == FileStep(r, f, b)
  {
  }

  // One turn of check's loop; the second result says whether the file's directory is to be noted.
  method CheckFile(cfg: Config, f: GoFile, reported: bool) returns (out: Option<seq<Finding>>, unclassified: bool)
    ensures out == FileStep(RulesOf(cfg), f, reported)
    ensures unclassified <==> !InTestdata(f.dir) && RulesOf(cfg).areaOf(cfg.self, f.dir) == ""
  {
    if InTestdata(f.dir) { return Some([]), false; }
    var area := cfg.AreaIn(cfg.self, f.dir);
    if area == "" {
      return Some(if reported then [] else [UnclassifiedFile(f)]), true;
    }
    if area in cfg.bare && !BareFileName(f.base) {
      return Some([NotBare(f, area)]), false;
    }
    if f.parsed.None? { return None, false; }
    var found := if area in cfg.bare && f.base == "doc.go" then DocFindings(f, f.parsed.value) else [];
    var imports, count := CheckImports(cfg, f, area, f.parsed.value.imports);
    return Some(found + imports), false;
  }

  lemma {:induction false} FailureStays(r: Rules, files: seq<GoFile>, n: nat, m: nat)
    requires n <= m <= |files| && Findings(r, files, n).None?
    ensures Findings(r, files, m).None?
  {
    if n < m {
      FailureStays(r, files, n, m - 1);
    }
  }

  // ---------- silence ----------

  predicate ImportOk(r: Rules, area: string, p: string) {
    match r.resolve(p)
    case None => true
    case Some((rel, repo)) => r.areaOf(repo, rel) != "" && r.areaOf(repo, rel) in AllowedFrom(r.allow, area)
  }

  predicate FileOk(r: Rules, f: GoFile) {
    var area := r.areaOf(r.self, f.dir);
    InTestdata(f.dir)
    || (&& area != "" && f.parsed.Some?
        && (area in r.bare ==> BareFileName(f.base)
                               && (f.base == "doc.go" ==> f.parsed.value.doc && !f.parsed.value.decls))
        && forall i :: 0 <= i < |f.parsed.value.imports| ==> ImportOk(r, area, f.parsed.value.imports[i]))
  }

  lemma {:induction false} NoImportFindings(r: Rules, f: GoFile, area: string, imports: seq<string>)
    ensures ImportFindings(r, f, area, imports) == []
            <==> forall i :: 0 <= i < |imports| ==> ImportOk(r, area, imports[i])
  {
    if imports == [] {
    } else {
      var n := |imports| - 1;
      NoImportFindings(r, f, area, imports[..n]);
      assert forall i :: 0 <= i < n ==> imports[..n][i] == imports[i];
    }
  }

  lemma StepIsSilent(r: Rules, f: GoFile, reported: bool)
    ensures FileStep(r, f, reported) == Some([])
            <==> FileOk(r, f) || (!InTestdata(f.dir) && r.areaOf(r.self, f.dir) == "" && reported)
  {
    var area := r.areaOf(r.self, f.dir);
    if f.parsed.Some? {
      NoImportFindings(r, f, area, f.parsed.value.imports);
      var doc := if area in r.bare && f.base == "doc.go" then DocFindings(f, f.parsed.value) else [];
      var imports := ImportFindings(r, f, area, f.parsed.value.imports);
      assert |doc + imports| == |doc| + |imports|;
    }
  }

  lemma AppendIsSilent(a: Option<seq<Finding>>, b: Option<seq<Finding>>)
    ensures Append(a, b) == Some([]) <==> a == Some([]) && b == Some([])
  {
    if a.Some? && b.Some? {
      assert |a.value + b.value| == |a.value| + |b.value|;
    }
  }

  // A directory reported before holds a file that is not in order.
  lemma ReportedIsNotOk(r: Rules, files: seq<GoFile>, n: nat, dir: string)
    requires n <= |files| && Reported(files, n, dir) && r.areaOf(r.self, dir) == ""
    ensures exists i :: 0 <= i < n && !FileOk(r, files[i])
  {
    var i :| 0 <= i < n && !InTestdata(files[i].dir) && files[i].dir == dir;
    assert !FileOk(r, files[i]);
  }

  // The gate is silent exactly when every measured file is in order.
  lemma {:induction false} SilenceMeansOk(r: Rules, files: seq<GoFile>, n: nat)
    requires n <= |files|
    ensures Findings(r, files, n) == Some([]) <==> forall i :: 0 <= i < n ==> FileOk(r, files[i])
  {
    if n == 0 {
    } else {
      var f := files[n - 1];
      var reported := Reported(files, n - 1, f.dir);
      SilenceMeansOk(r, files, n - 1);
      StepIsSilent(r, f, reported);
      AppendIsSilent(Findings(r, files, n - 1), FileStep(r, f, reported));
      if reported && r.areaOf(r.self, f.dir) == "" { ReportedIsNotOk(r, files, n - 1, f.dir); }
    }
  }

  // ---------- which findings ----------

  // Import k of the file is at fault, and x says so.
  ghost predicate ImportDue(r: Rules, f: GoFile, area: string, imports: seq<string>, k: nat, x: Finding) {
    && k < |imports| && r.resolve(imports[k]).Some?
    && var (rel, repo) := r.resolve(imports[k]).value;
       var to := r.areaOf(repo, rel);
       if to == "" then x == UnclassifiedImport(f, Shown(r, repo, rel))
       else to !in AllowedFrom(r.allow, area) && x == ForbiddenImport(f, area, Shown(r, repo, rel), to)
  }

  ghost predicate AnyDue(r: Rules, f: GoFile, area: string, imports: seq<string>, x: Finding) {
    exists k: nat :: ImportDue(r, f, area, imports, k, x)
  }

  lemma {:induction false} ImportFindingsAreDue(r: Rules, f: GoFile, area: string, imports: seq<string>, x: Finding)
    ensures x in ImportFindings(r, f, area, imports) <==> AnyDue(r, f, area, imports, x)
  {
    if imports == [] {
    } else {
      ImportFindingsAreDue(r, f, area, imports[..|imports| - 1], x);
      LastImport(r, f, area, imports, x);
      DueBefore(r, f, area, imports, x);
    }
  }

  lemma LastImport(r: Rules, f: GoFile, area: string, imports: seq<string>, x: Finding)
    requires imports != []
    ensures x in ImportFindings(r, f, area, imports)
       <==> x in ImportFindings(r, f, area, imports[..|imports| - 1])
              || ImportDue(r, f, area, imports, |imports| - 1, x)
  {}

  lemma DueBefore(r: Rules, f: GoFile, area: string, imports: seq<string>, x: Finding)
    requires imports != []
    ensures AnyDue(r, f, area, imports, x)
       <==> AnyDue(r, f, area, imports[..|imports| - 1], x) || ImportDue(r, f, area, imports, |imports| - 1, x)
  {
    var before := imports[..|imports| - 1];
    forall k: nat | k < |before| ensures ImportDue(r, f, area, before, k, x) <==> ImportDue(r, f, area, imports, k, x) {
      assert before[k] == imports[k];
    }
  }

  // File i is measured and x is one of the things wrong with it; a directory is reported at its first file only.
  ghost predicate Due(r: Rules, files: seq<GoFile>, i: nat, x: Finding) {
    && i < |files| && !InTestdata(files[i].dir)
    && var f, area := files[i], r.areaOf(r.self, files[i].dir);
       if area == "" then x == UnclassifiedFile(f) && !Reported(files, i, f.dir)
       else if area in r.bare && !BareFileName(f.base) then x == NotBare(f, area)
       else f.parsed.Some? && (DocDue(r, f, area, x) || AnyDue(r, f, area, f.parsed.value.imports, x))
  }

  ghost predicate DocDue(r: Rules, f: GoFile, area: string, x: Finding) {
    f.parsed.Some? && area in r.bare && f.base == "doc.go"
    && ((x == NoPackageDoc(f) && !f.parsed.value.doc) || (x == DeclsInDoc(f) && f.parsed.value.decls))
  }

  // The check stops at a file it has to read and cannot.
  ghost predicate Unreadable(r: Rules, f: GoFile) {
    var area := r.areaOf(r.self, f.dir);
    !InTestdata(f.dir) && area != "" && !(area in r.bare && !BareFileName(f.base)) && f.parsed.None?
  }

  lemma StepIsDue(r: Rules, files: seq<GoFile>, i: nat, x: Finding)
    requires i < |files|
    ensures var step := FileStep(r, files[i], Reported(files, i, files[i].dir));
            && (step.None? <==> Unreadable(r, files[i]))
            && (step.Some? ==> (x in step.value <==> Due(r, files, i, x)))
  {
    var f, area := files[i], r.areaOf(r.self, files[i].dir);
    if f.parsed.Some? {
      ImportFindingsAreDue(r, f, area, f.parsed.value.imports, x);
    }
  }

  ghost predicate UnreadableUpTo(r: Rules, files: seq<GoFile>, n: nat)
    requires n <= |files|
  {
    exists i :: 0 <= i < n && Unreadable(r, files[i])
  }

  ghost predicate DueUpTo(r: Rules, files: seq<GoFile>, n: nat, x: Finding) {
    exists i: nat :: i < n && Due(r, files, i, x)
  }

  lemma UpToStep(r: Rules, files: seq<GoFile>, n: nat, x: Finding)
    requires 0 < n <= |files|
    ensures UnreadableUpTo(r, files, n) <==> UnreadableUpTo(r, files, n - 1) || Unreadable(r, files[n - 1])
    ensures DueUpTo(r, files, n, x) <==> DueUpTo(r, files, n - 1, x) || Due(r, files, n - 1, x)
  {
    assert Due(r, files, n - 1, x) ==> DueUpTo(r, files, n, x);
  }

  // What is reported: the check fails exactly when some file it has to read cannot be read, and otherwise reports
  // exactly the findings that are due.
  lemma {:induction false} FindingsAreDue(r: Rules, files: seq<GoFile>, n: nat, x: Finding)
    requires n <= |files|
    ensures Findings(r, files, n).None? <==> UnreadableUpTo(r, files, n)
    ensures Findings(r, files, n).Some? ==> (x in Findings(r, files, n).value <==> DueUpTo(r, files, n, x))
  {
    if n == 0 {
    } else {
      FindingsAreDue(r, files, n - 1, x);
      StepIsDue(r, files, n - 1, x);
      UpToStep(r, files, n, x);
      InAppend(Findings(r, files, n - 1), FileStep(r, files[n - 1], Reported(files, n - 1, files[n - 1].dir)), x);
    }
  }

  lemma InAppend(a: Option<seq<Finding>>, b: Option<seq<Finding>>, x: Finding)
    ensures Append(a, b).None? <==> a.None? || b.None?
    ensures Append(a, b).Some? ==> (x in Append(a, b).value <==> x in a.value || x in b.value)
  {}

  // ---------- import paths across repositories ----------

  // A measured repository: its name (the last segment of its module path) and its files.
  datatype Root = Root(repo: string, files: seq<GoFile>)

  // A package: a directory in a repository.
  datatype Package = Package(repo: string, dir: string)

  // The rules as main sets them for one root.
  function For(r: Rules, root: Root): Rules { r.(self := root.repo) }

  // main reports nothing: the gate is silent on every root.
  ghost predicate Silent(r: Rules, roots: seq<Root>) {
    forall i :: 0 <= i < |roots| ==> Findings(For(r, roots[i]), roots[i].files, |roots[i].files|) == Some([])
  }

  function AreaOfPackage(r: Rules, p: Package): string { r.areaOf(p.repo, p.dir) }

  // Some file of package p imports package q.
  ghost predicate Imports(r: Rules, roots: seq<Root>, p: Package, q: Package) {
    exists i, j, k :: ImportAt(r, roots, p, q, i, j, k)
  }

  ghost predicate ImportAt(r: Rules, roots: seq<Root>, p: Package, q: Package, i: nat, j: nat, k: nat) {
    && i < |roots| && j < |roots[i].files|
    && var f := roots[i].files[j];
       roots[i].repo == p.repo && f.dir == p.dir
       && f.parsed.Some? && k < |f.parsed.value.imports|
       && r.resolve(f.parsed.value.imports[k]) == Some((q.dir, q.repo))
  }

  ghost predicate IsPath(r: Rules, roots: seq<Root>, path: seq<Package>) {
    forall i :: 0 <= i < |path| - 1 ==> !InTestdata(path[i].dir) && Imports(r, roots, path[i], path[i + 1])
  }

  // The rows are transitively closed: what an allowed area may import is allowed too.
  ghost predicate Closed(allow: map<string, AllowRow>) {
    forall a, b :: b in AllowedFrom(allow, a) ==> AllowedFrom(allow, b) <= AllowedFrom(allow, a)
  }

  // No two areas may import each other.
  ghost predicate Antisymmetric(allow: map<string, AllowRow>) {
    forall a, b :: b in AllowedFrom(allow, a) && a in AllowedFrom(allow, b) ==> a == b
  }

  lemma SilentFile(r: Rules, roots: seq<Root>, i: nat, j: nat)
    requires Silent(r, roots) && i < |roots| && j < |roots[i].files|
    ensures FileOk(For(r, roots[i]), roots[i].files[j])
  {
    SilenceMeansOk(For(r, roots[i]), roots[i].files, |roots[i].files|);
  }

  lemma OkImport(r: Rules, f: GoFile, k: nat, to: Package)
    requires FileOk(r, f) && !InTestdata(f.dir) && f.parsed.Some? && k < |f.parsed.value.imports|
    requires r.resolve(f.parsed.value.imports[k]) == Some((to.dir, to.repo))
    ensures r.areaOf(r.self, f.dir) != "" && AreaOfPackage(r, to) != ""
    ensures AreaOfPackage(r, to) in AllowedFrom(r.allow, r.areaOf(r.self, f.dir))
  {
    assert ImportOk(r, r.areaOf(r.self, f.dir), f.parsed.value.imports[k]);
  }

  lemma EdgeIsAllowed(r: Rules, roots: seq<Root>, p: Package, q: Package)
    requires Silent(r, roots) && !InTestdata(p.dir) && Imports(r, roots, p, q)
    ensures AreaOfPackage(r, p) != "" && AreaOfPackage(r, q) != ""
    ensures AreaOfPackage(r, q) in AllowedFrom(r.allow, AreaOfPackage(r, p))
  {
    var i: nat, j: nat, k: nat :| ImportAt(r, roots, p, q, i, j, k);
    SilentFile(r, roots, i, j);
    OkImport(For(r, roots[i]), roots[i].files[j], k, q);
  }

  // Along an import path of any length, the target's area is in the allow row of the source's area.
  lemma {:induction false} PathsAreLayered(r: Rules, roots: seq<Root>, path: seq<Package>)
    requires Silent(r, roots) && Closed(r.allow) && IsPath(r, roots, path) && |path| >= 2
    ensures AreaOfPackage(r, path[|path| - 1]) != ""
    ensures AreaOfPackage(r, path[|path| - 1]) in AllowedFrom(r.allow, AreaOfPackage(r, path[0]))
  {
    var n := |path| - 1;
    EdgeIsAllowed(r, roots, path[n - 1], path[n]);
    if n > 1 {
      PathsAreLayered(r, roots, path[..n]);
    }
  }

  // A condition to check before a run: no measured file outside testdata imports a package inside it.
  ghost predicate KeepsOut(r: Rules, f: GoFile) {
    !InTestdata(f.dir) && f.parsed.Some? ==>
      forall k :: 0 <= k < |f.parsed.value.imports| ==> OutsideImport(r, f.parsed.value.imports[k])
  }

  predicate OutsideImport(r: Rules, p: string) {
    match r.resolve(p) case None => true case Some((rel, _)) => !InTestdata(rel)
  }

  ghost predicate NoTestdataImports(r: Rules, roots: seq<Root>) {
    forall i, j :: 0 <= i < |roots| && 0 <= j < |roots[i].files| ==> KeepsOut(r, roots[i].files[j])
  }

  // An import path, whatever packages it goes through.
  ghost predicate IsImportPath(r: Rules, roots: seq<Root>, path: seq<Package>) {
    forall i :: 0 <= i < |path| - 1 ==> Imports(r, roots, path[i], path[i + 1])
  }

  lemma EdgeStaysOut(r: Rules, roots: seq<Root>, p: Package, q: Package)
    requires NoTestdataImports(r, roots) && !InTestdata(p.dir) && Imports(r, roots, p, q)
    ensures !InTestdata(q.dir)
  {
    var i: nat, j: nat, k: nat :| ImportAt(r, roots, p, q, i, j, k);
    assert KeepsOut(r, roots[i].files[j]);
    assert OutsideImport(r, roots[i].files[j].parsed.value.imports[k]);
  }

  // From outside testdata, every import path stays outside.
  lemma {:induction false} PathStaysOut(r: Rules, roots: seq<Root>, path: seq<Package>)
    requires NoTestdataImports(r, roots) && IsImportPath(r, roots, path) && path != [] && !InTestdata(path[0].dir)
    ensures IsPath(r, roots, path) && !InTestdata(path[|path| - 1].dir)
  {
    if |path| == 1 {
    } else {
      var n := |path| - 1;
      PathStaysOut(r, roots, path[..n]);
      EdgeStaysOut(r, roots, path[n - 1], path[n]);
      forall i | 0 <= i < n ensures !InTestdata(path[i].dir) {
        assert path[..n][i] == path[i];
      }
    }
  }

  // With that condition, every import path from outside testdata is layered, whatever it goes through.
  lemma AllPathsAreLayered(r: Rules, roots: seq<Root>, path: seq<Package>)
    requires Silent(r, roots) && Closed(r.allow) && NoTestdataImports(r, roots)
    requires IsImportPath(r, roots, path) && |path| >= 2 && !InTestdata(path[0].dir)
    ensures AreaOfPackage(r, path[|path| - 1]) != ""
    ensures AreaOfPackage(r, path[|path| - 1]) in AllowedFrom(r.allow, AreaOfPackage(r, path[0]))
  {
    PathStaysOut(r, roots, path);
    PathsAreLayered(r, roots, path);
  }

  // An import cycle stays in one area.
  lemma CyclesStayInOneArea(r: Rules, roots: seq<Root>, path: seq<Package>, i: nat)
    requires Silent(r, roots) && Closed(r.allow) && Antisymmetric(r.allow) && IsPath(r, roots, path)
    requires |path| >= 2 && path[0] == path[|path| - 1] && i < |path|
    ensures AreaOfPackage(r, path[i]) == AreaOfPackage(r, path[0])
  {
    if 0 < i < |path| - 1 {
      PathsAreLayered(r, roots, path[..i + 1]);
      PathsAreLayered(r, roots, path[i..]);
    }
  }

  ghost predicate SilentUpTo(r: Rules, roots: seq<Root>, n: nat)
    requires n <= |roots|
  {
    forall i :: 0 <= i < n ==> Findings(For(r, roots[i]), roots[i].files, |roots[i].files|) == Some([])
  }

  lemma SilentOneMore(r: Rules, roots: seq<Root>, n: nat)
    requires n < |roots|
    ensures SilentUpTo(r, roots, n + 1)
            <==> SilentUpTo(r, roots, n) && Findings(For(r, roots[n]), roots[n].files, |roots[n].files|) == Some([])
    ensures Silent(r, roots) ==> SilentUpTo(r, roots, n + 1)
  {
  }

  lemma SelfIsAField(modules: seq<string>, self: string, classes: seq<Class>, allow: map<string, AllowRow>,
                     bare: set<string>, root: Root)
    ensures For(RulesWith(modules, self, classes, allow, bare), root)
            == RulesWith(modules, root.repo, classes, allow, bare)
  {
  }

  // main's loop: the same configuration with self set to each root in turn. None when some root cannot be read.
  method CheckAll(cfg: Config, roots: seq<Root>) returns (bad: Option<seq<Finding>>)
    modifies cfg`self
    ensures bad == Some([]) <==> Silent(old(RulesOf(cfg)), roots)
  {
    ghost var r := RulesOf(cfg);
    ghost var self := cfg.self;
    var all: seq<Finding> := [];
    for n := 0 to |roots|
      invariant all == [] <==> SilentUpTo(r, roots, n)
    {
      cfg.self := roots[n].repo;
      SelfIsAField(cfg.modules, self, cfg.classes, cfg.allow, cfg.bare, roots[n]);
      var more := Check(roots[n].files, cfg);
      SilentOneMore(r, roots, n);
      if more.None? { return None; }
      assert |all + more.value| == |all| + |more.value|;
      all := all + more.value;
    }
    assert SilentUpTo(r, roots, |roots|) <==> Silent(r, roots);
    return Some(all);
  }
}
