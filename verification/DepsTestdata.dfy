// How the shipped class lines classify the stages, and the one way an import gets past the gate.
module DepsTestdata {
  import opened Text
  import opened Str
  import opened DepsConfig
  import opened DepsAreas
  import opened DepsCheck
  import opened DepsRulesFile
  import opened DepsShipped

  // ---------- the stages' directories ----------

  lemma StageLines()
    ensures ShippedClass(7) == Class("", "pkg/discovery/", DISCOVERY)
    ensures ShippedClass(11) == Class("", "pkg/provisioning/", PROVISIONING)
  {}

  // Everything under pkg/discovery/ but its procs is discovery, in every repository.
  lemma UnderDiscovery(repo: string, dir: string)
    requires HasPrefix(Slashed(dir), "pkg/discovery/") && !HasPrefix(Slashed(dir), "pkg/discovery/procs/")
    ensures AreaOf(StableSort(ShippedClasses()), repo, dir) == DISCOVERY
  {
    StageLines();
    ShippedAreaIs(repo, dir, 7);
  }

  // Everything under pkg/provisioning/ is provisioning.
  lemma UnderProvisioning(repo: string, dir: string)
    requires HasPrefix(Slashed(dir), "pkg/provisioning/")
    ensures AreaOf(StableSort(ShippedClasses()), repo, dir) == PROVISIONING
  {
    StageLines();
    ShippedAreaIs(repo, dir, 11);
  }

  // ---------- what the testdata exception costs ----------

  function A(): string { "pkg/discovery" + ['/'] + "a" }

  function T(): string { "pkg/discovery" + ['/'] + ("testdata" + ['/'] + "t") }

  function X(): string { "pkg/provisioning" + ['/'] + "x" }

  // The configuration of one module m, loaded from the shipped file.
  function Loaded(hints: seq<string>): Rules
    requires |hints| == 8
  {
    RulesWith(["m"], "m", StableSort(ClassesOf(ShippedLines(hints))), AllowOf(ShippedLines(hints)),
              BareOf(ShippedLines(hints)))
  }

  function Importer(): GoFile { GoFile(A(), "a.go", Some(Source(false, true, ["m/" + T()]))) }

  function Hidden(): GoFile { GoFile(T(), "t.go", Some(Source(false, true, ["m/" + X()]))) }

  function TwoFiles(): seq<Root> { [Root("m", [Importer(), Hidden()])] }

  lemma SlashedPlain(dir: string)
    requires dir != "" && dir[0] != '/' && dir[|dir| - 1] != '/'
    ensures Slashed(dir) == dir + "/"
  {}

  lemma DirsAreClassified(repo: string)
    ensures var cs := StableSort(ShippedClasses());
            AreaOf(cs, repo, A()) == DISCOVERY && AreaOf(cs, repo, T()) == DISCOVERY
            && AreaOf(cs, repo, X()) == PROVISIONING
  {
    SlashedDirs();
    UnderDiscovery(repo, A());
    UnderDiscovery(repo, T());
    UnderProvisioning(repo, X());
  }

  lemma SlashedUnder(base: string, rest: string)
    requires base != "" && base[0] != '/' && rest != "" && rest[|rest| - 1] != '/'
    ensures Slashed(base + ['/'] + rest) == base + ['/'] + rest + "/"
    ensures HasPrefix(Slashed(base + ['/'] + rest), base + ['/'])
  {
    SlashedPlain(base + ['/'] + rest);
  }

  // Something in the stage whose name starts otherwise than the procs directory.
  lemma InStage(base: string, stage: string, procs: string, rest: string)
    requires base != "" && base[0] != '/' && rest != "" && rest[|rest| - 1] != '/'
    requires stage == base + ['/'] && |procs| > |stage| && procs[|stage|] != rest[0]
    ensures var d := Slashed(base + ['/'] + rest); HasPrefix(d, stage) && !HasPrefix(d, procs)
  {
    SlashedUnder(base, rest);
    assert Slashed(base + ['/'] + rest)[|stage|] == rest[0];
  }

  lemma StagePrefixes()
    ensures "pkg/discovery/" == "pkg/discovery" + ['/'] && |"pkg/discovery"| == 13
    ensures "pkg/provisioning/" == "pkg/provisioning" + ['/']
  {}

  lemma ProcsPrefix()
    ensures |"pkg/discovery/procs/"| == 20 && "pkg/discovery/procs/"[14] == 'p'
  {}

  // Something in pkg/discovery whose name does not start with a p.
  lemma InDiscovery(rest: string)
    requires rest != "" && rest[0] != 'p' && rest[|rest| - 1] != '/'
    ensures var d := Slashed("pkg/discovery" + ['/'] + rest);
            HasPrefix(d, "pkg/discovery/") && !HasPrefix(d, "pkg/discovery/procs/")
  {
    StagePrefixes();
    ProcsPrefix();
    InStage("pkg/discovery", "pkg/discovery/", "pkg/discovery/procs/", rest);
  }

  lemma SlashedDirs()
    ensures HasPrefix(Slashed(A()), "pkg/discovery/") && !HasPrefix(Slashed(A()), "pkg/discovery/procs/")
    ensures HasPrefix(Slashed(T()), "pkg/discovery/") && !HasPrefix(Slashed(T()), "pkg/discovery/procs/")
    ensures HasPrefix(Slashed(X()), "pkg/provisioning/")
  {
    InDiscovery("a");
    InDiscovery("testdata" + ['/'] + "t");
    StagePrefixes();
    SlashedUnder("pkg/provisioning", "x");
  }

  lemma InModule(d: string)
    ensures RelOf(["m"], "m/" + d) == Some((d, "m"))
  {
    var p := "m/" + d;
    assert p[..2] == "m/" && "m" + "/" == "m/" && |"m"| == 1 && |p| >= 2;
    assert BaseOf("m") == BaseOf("m"[..0]) + ['m'] == "m";
  }

  lemma SplitDiscovery(rest: string)
    ensures Split("pkg/discovery" + ['/'] + rest, '/') == ["pkg"] + ["discovery"] + Split(rest, '/')
  {
    var d := "pkg" + ['/'] + "discovery";
    assert d == "pkg/discovery";
    SplitOfPlain("pkg", '/');
    SplitOfPlain("discovery", '/');
    SplitAtSeparator("pkg", '/', "discovery");
    SplitAtSeparator(d, '/', rest);
  }

  lemma DirsInTestdata()
    ensures !InTestdata(A()) && InTestdata(T())
  {
    SplitDiscovery("a");
    SplitOfPlain("a", '/');
    NotAmong("pkg", "discovery", "a", "testdata");
    SplitDiscovery("testdata" + ['/'] + "t");
    SplitOfPlain("testdata", '/');
    SplitOfPlain("t", '/');
    SplitAtSeparator("testdata", '/', "t");
    Among("pkg", "discovery", "testdata", "t");
  }

  lemma NotAmong(a: string, b: string, c: string, w: string)
    requires |a| != |w| && |b| != |w| && |c| != |w|
    ensures w !in [a] + [b] + [c]
  {}

  lemma Among(a: string, b: string, w: string, c: string)
    ensures w in [a] + [b] + ([w] + [c])
  {
    assert ([a] + [b] + ([w] + [c]))[2] == w;
  }

  lemma LoadedIs(hints: seq<string>)
    requires Hints(hints)
    ensures HasShippedRows(Loaded(hints).allow) && Loaded(hints).bare == {CROSSSTAGE} && Loaded(hints).self == "m"
    ensures forall repo, dir :: Loaded(hints).areaOf(repo, dir) == AreaOf(StableSort(ShippedClasses()), repo, dir)
    ensures forall p :: Loaded(hints).resolve(p) == RelOf(["m"], p)
  {
    ShippedFileLoads(hints);
    ShippedFileHasItsRows(hints);
  }

  lemma DiscoveryRow()
    ensures DISCOVERY in ShippedRow(DISCOVERY) && PROVISIONING !in ShippedRow(DISCOVERY)
    ensures DISCOVERY != "" && DISCOVERY != CROSSSTAGE
  {
    NamesDiffer();
  }

  // The importer may import what it imports.
  lemma ImporterPasses(r: Rules)
    requires r.areaOf(r.self, A()) == DISCOVERY && r.bare == {CROSSSTAGE} && HasShippedRows(r.allow)
    requires r.resolve("m/" + T()) == Some((T(), "m")) && r.areaOf("m", T()) == DISCOVERY
    ensures FileOk(r, Importer())
  {
    DiscoveryRow();
    assert AllowedFrom(r.allow, DISCOVERY) == ShippedRow(DISCOVERY);
    assert ImportOk(r, DISCOVERY, "m/" + T());
  }

  lemma TwoFilesAreSilent(r: Rules)
    requires r.self == "m" && FileOk(r, Importer()) && InTestdata(T())
    ensures Silent(r, TwoFiles())
  {
    var roots := TwoFiles();
    assert For(r, roots[0]) == r;
    assert FileOk(r, Hidden());
    SilenceMeansOk(r, roots[0].files, 2);
  }

  lemma TwoFilesImport(r: Rules)
    requires r.resolve("m/" + T()) == Some((T(), "m")) && r.resolve("m/" + X()) == Some((X(), "m"))
    ensures Imports(r, TwoFiles(), Package("m", A()), Package("m", T()))
    ensures Imports(r, TwoFiles(), Package("m", T()), Package("m", X()))
  {
    assert ImportAt(r, TwoFiles(), Package("m", A()), Package("m", T()), 0, 0, 0);
    assert ImportAt(r, TwoFiles(), Package("m", T()), Package("m", X()), 0, 1, 0);
  }

  // Leaving out testdata matters: with the shipped file loaded the gate is silent on these two files, yet a discovery
  // package reaches a provisioning package, which its area may not import, through a package in testdata.
  lemma TestdataHidesAnImport(hints: seq<string>)
    requires Hints(hints)
    ensures var r, roots := Loaded(hints), TwoFiles();
            var a, t, x := Package("m", A()), Package("m", T()), Package("m", X());
            && WellFormed(ShippedLines(hints)) && Silent(r, roots)
            && !InTestdata(a.dir) && InTestdata(t.dir) && Imports(r, roots, a, t) && Imports(r, roots, t, x)
            && AreaOfPackage(r, a) == DISCOVERY && AreaOfPackage(r, x) == PROVISIONING
            && PROVISIONING !in AllowedFrom(r.allow, DISCOVERY)
  {
    var r := Loaded(hints);
    ShippedFileLoads(hints);
    LoadedIs(hints);
    DirsAreClassified("m");
    DirsInTestdata();
    InModule(T());
    InModule(X());
    ImporterPasses(r);
    TwoFilesAreSilent(r);
    TwoFilesImport(r);
    DiscoveryRow();
    assert AllowedFrom(r.allow, DISCOVERY) == ShippedRow(DISCOVERY);
  }
}
