// What the files the gate does not read may hold: exactly when its silence says something about every import path.
module DepsHidden {
  import opened Text
  import opened Str
  import opened DepsConfig
  import opened DepsCheck

  // The same repositories with the same files outside testdata; inside it anything may stand.
  ghost predicate SameOutside(roots: seq<Root>, other: seq<Root>) {
    |roots| == |other| && forall i :: 0 <= i < |roots| ==> SameRoot(roots[i], other[i])
  }

  ghost predicate SameRoot(a: Root, b: Root) {
    a.repo == b.repo && forall f: GoFile :: !InTestdata(f.dir) ==> (f in a.files <==> f in b.files)
  }

  // The end of the path is in the allow row of its start.
  ghost predicate Layered(r: Rules, path: seq<Package>)
    requires path != []
  {
    var area := AreaOfPackage(r, path[|path| - 1]);
    area != "" && area in AllowedFrom(r.allow, AreaOfPackage(r, path[0]))
  }

  ghost predicate LayeredIn(r: Rules, roots: seq<Root>, path: seq<Package>) {
    IsImportPath(r, roots, path) && |path| >= 2 && !InTestdata(path[0].dir) ==> Layered(r, path)
  }

  // Whatever testdata holds, every import path from outside it is layered.
  ghost predicate AlwaysLayered(r: Rules, roots: seq<Root>) {
    forall other, path: seq<Package> :: SameOutside(roots, other) ==> LayeredIn(r, other, path)
  }

  // Every package an import path names lies in the repository of some root.
  ghost predicate ResolvesToRoots(r: Rules, roots: seq<Root>) {
    forall p :: r.resolve(p).Some? ==> exists i :: 0 <= i < |roots| && roots[i].repo == r.resolve(p).value.1
  }

  // Some import path names a directory that has no area.
  ghost predicate NamesNoArea(r: Rules, p: string) {
    match r.resolve(p) case None => false case Some((rel, repo)) => r.areaOf(repo, rel) == ""
  }

  // ---------- the condition is enough ----------

  lemma SilentOutside(r: Rules, roots: seq<Root>, other: seq<Root>)
    requires Silent(r, roots) && SameOutside(roots, other)
    ensures Silent(r, other)
  {
    forall i | 0 <= i < |other|
      ensures Findings(For(r, other[i]), other[i].files, |other[i].files|) == Some([])
    {
      assert SameRoot(roots[i], other[i]);
      forall j | 0 <= j < |other[i].files| ensures FileOk(For(r, other[i]), other[i].files[j]) {
        var f := other[i].files[j];
        if !InTestdata(f.dir) {
          var k :| 0 <= k < |roots[i].files| && roots[i].files[k] == f;
          SilentFile(r, roots, i, k);
        }
      }
      SilenceMeansOk(For(r, other[i]), other[i].files, |other[i].files|);
    }
  }

  lemma KeepsOutOutside(r: Rules, roots: seq<Root>, other: seq<Root>)
    requires NoTestdataImports(r, roots) && SameOutside(roots, other)
    ensures NoTestdataImports(r, other)
  {
    forall i, j | 0 <= i < |other| && 0 <= j < |other[i].files| ensures KeepsOut(r, other[i].files[j]) {
      assert SameRoot(roots[i], other[i]);
      var f := other[i].files[j];
      if !InTestdata(f.dir) {
        var k :| 0 <= k < |roots[i].files| && roots[i].files[k] == f;
        assert KeepsOut(r, roots[i].files[k]);
      }
    }
  }

  // ---------- and needed ----------

  // The roots with one more file in root i.
  function WithFile(roots: seq<Root>, i: nat, f: GoFile): seq<Root>
    requires i < |roots|
  {
    roots[i := roots[i].(files := roots[i].files + [f])]
  }

  lemma HiddenFileIsOutside(roots: seq<Root>, i: nat, f: GoFile)
    requires i < |roots| && InTestdata(f.dir)
    ensures SameOutside(roots, WithFile(roots, i, f))
  {
    forall k | 0 <= k < |roots| ensures SameRoot(roots[k], WithFile(roots, i, f)[k]) {}
  }

  lemma StillImports(r: Rules, roots: seq<Root>, i: nat, f: GoFile, p: Package, q: Package)
    requires i < |roots| && Imports(r, roots, p, q)
    ensures Imports(r, WithFile(roots, i, f), p, q)
  {
    var a: nat, b: nat, c: nat :| ImportAt(r, roots, p, q, a, b, c);
    assert ImportAt(r, WithFile(roots, i, f), p, q, a, b, c);
  }

  lemma NewImport(r: Rules, roots: seq<Root>, i: nat, f: GoFile, q: Package)
    requires i < |roots| && f.parsed.Some? && |f.parsed.value.imports| == 1
    requires r.resolve(f.parsed.value.imports[0]) == Some((q.dir, q.repo))
    ensures Imports(r, WithFile(roots, i, f), Package(roots[i].repo, f.dir), q)
  {
    var other := WithFile(roots, i, f);
    assert other[i].files[|roots[i].files|] == f;
    assert ImportAt(r, other, Package(roots[i].repo, f.dir), q, i, |roots[i].files|, 0);
  }

  // An import of a testdata package, and one file in that package which imports a directory without an area.
  lemma HiddenFileBreaks(r: Rules, roots: seq<Root>, p: Package, q: Package, i: nat, x: string)
    requires Imports(r, roots, p, q) && !InTestdata(p.dir) && InTestdata(q.dir)
    requires i < |roots| && roots[i].repo == q.repo && NamesNoArea(r, x)
    ensures !AlwaysLayered(r, roots)
  {
    var (rel, repo) := r.resolve(x).value;
    var f := GoFile(q.dir, "x.go", Some(Source(false, true, [x])));
    var other, end := WithFile(roots, i, f), Package(repo, rel);
    HiddenFileIsOutside(roots, i, f);
    StillImports(r, roots, i, f, p, q);
    NewImport(r, roots, i, f, end);
    var path := [p, q, end];
    assert IsImportPath(r, other, path);
    assert !Layered(r, path);
    assert !LayeredIn(r, other, path);
  }

  lemma TestdataImport(r: Rules, roots: seq<Root>) returns (p: Package, q: Package)
    requires !NoTestdataImports(r, roots)
    ensures Imports(r, roots, p, q) && !InTestdata(p.dir) && InTestdata(q.dir)
    ensures exists x :: r.resolve(x) == Some((q.dir, q.repo))
  {
    var i, j :| 0 <= i < |roots| && 0 <= j < |roots[i].files| && !KeepsOut(r, roots[i].files[j]);
    var f := roots[i].files[j];
    var k :| 0 <= k < |f.parsed.value.imports| && !OutsideImport(r, f.parsed.value.imports[k]);
    var (rel, repo) := r.resolve(f.parsed.value.imports[k]).value;
    p, q := Package(roots[i].repo, f.dir), Package(repo, rel);
    assert ImportAt(r, roots, p, q, i, j, k);
  }

  // The exact condition: a silent gate with closed rows vouches for every import path from outside testdata, whatever
  // testdata holds, if and only if no measured file outside testdata imports a testdata package.
  lemma AlwaysLayeredIff(r: Rules, roots: seq<Root>, x: string)
    requires Silent(r, roots) && Closed(r.allow) && ResolvesToRoots(r, roots) && NamesNoArea(r, x)
    ensures AlwaysLayered(r, roots) <==> NoTestdataImports(r, roots)
  {
    if NoTestdataImports(r, roots) {
      forall other, path: seq<Package> | SameOutside(roots, other) ensures LayeredIn(r, other, path) {
        SilentOutside(r, roots, other);
        KeepsOutOutside(r, roots, other);
        if IsImportPath(r, other, path) && |path| >= 2 && !InTestdata(path[0].dir) {
          AllPathsAreLayered(r, other, path);
        }
      }
    } else {
      var p, q := TestdataImport(r, roots);
      var y :| r.resolve(y) == Some((q.dir, q.repo));
      var i :| 0 <= i < |roots| && roots[i].repo == q.repo;
      HiddenFileBreaks(r, roots, p, q, i, x);
    }
  }

  // ---------- the configuration main builds ----------

  // One root a module, called by the last segment of the module path.
  ghost predicate RootsOf(modules: seq<string>, roots: seq<Root>) {
    |modules| == |roots| && forall i :: 0 <= i < |roots| ==> roots[i].repo == BaseOf(modules[i])
  }

  lemma ModulesResolveToRoots(modules: seq<string>, self: string, classes: seq<Class>, allow: map<string, AllowRow>,
                              bare: set<string>, roots: seq<Root>)
    requires RootsOf(modules, roots)
    ensures ResolvesToRoots(RulesWith(modules, self, classes, allow, bare), roots)
  {
    var r := RulesWith(modules, self, classes, allow, bare);
    forall p | r.resolve(p).Some? ensures exists i :: 0 <= i < |roots| && roots[i].repo == r.resolve(p).value.1 {
      var m := RelOfIsInside(modules, p);
      var i :| 0 <= i < |modules| && modules[i] == m;
      assert roots[i].repo == BaseOf(m) == r.resolve(p).value.1;
    }
  }

  // A module's own root has no area, whatever the classes.
  lemma ModuleRootHasNoArea(modules: seq<string>, self: string, classes: seq<Class>, allow: map<string, AllowRow>,
                            bare: set<string>)
    requires modules != []
    ensures NamesNoArea(RulesWith(modules, self, classes, allow, bare), modules[0])
  {
    assert RelOf(modules, modules[0]) == Some(("", BaseOf(modules[0])));
    assert Slashed("") == "/";
  }

  // So for any rule file and any repositories that main is run on, given only that the gate is silent and the rows are
  // closed.
  lemma GateVouchesIff(modules: seq<string>, self: string, classes: seq<Class>, allow: map<string, AllowRow>,
                       bare: set<string>, roots: seq<Root>)
    requires modules != [] && RootsOf(modules, roots) && Closed(allow)
    requires Silent(RulesWith(modules, self, classes, allow, bare), roots)
    ensures var r := RulesWith(modules, self, classes, allow, bare);
            AlwaysLayered(r, roots) <==> NoTestdataImports(r, roots)
  {
    ModulesResolveToRoots(modules, self, classes, allow, bare, roots);
    ModuleRootHasNoArea(modules, self, classes, allow, bare);
    AlwaysLayeredIff(RulesWith(modules, self, classes, allow, bare), roots, modules[0]);
  }
}
