// What the rule file that ships with checkdeps rules out for whole import paths.
module DepsShipped {
  import opened DepsConfig
  import opened DepsCheck
  import opened DepsHidden
  import opened DepsRulesFile

  // A configuration whose allow rows are the shipped ones.
  ghost predicate HasShippedRows(allow: map<string, AllowRow>) { forall a :: AllowedFrom(allow, a) == ShippedRow(a) }

  // The rules of the shipped file, loaded for some modules.
  function ShippedRules(modules: seq<string>, self: string, hints: seq<string>): Rules
    requires Hints(hints)
  {
    var lines := ShippedLines(hints);
    RulesWith(modules, self, StableSort(ClassesOf(lines)), AllowOf(lines), BareOf(lines))
  }

  // The shipped file gives such a configuration.
  lemma ShippedFileHasItsRows(hints: seq<string>)
    requires Hints(hints)
    ensures HasShippedRows(AllowOf(ShippedLines(hints)))
  {
    ShippedFileLoads(hints);
    forall a ensures AllowedFrom(AllowOf(ShippedLines(hints)), a) == ShippedRow(a) {
      ShippedRowsAre(hints, a);
      ShippedRowsInside(a);
    }
  }

  lemma ShippedRowsAreClosed(a: string, b: string)
    requires b in ShippedRow(a)
    ensures ShippedRow(b) <= ShippedRow(a)
  {
    NamesDiffer();
  }

  lemma ShippedRowsAreAntisymmetric(a: string, b: string)
    requires b in ShippedRow(a) && a in ShippedRow(b)
    ensures a == b
  {
    NamesDiffer();
  }

  lemma ShippedIsLayered(allow: map<string, AllowRow>)
    requires HasShippedRows(allow)
    ensures Closed(allow) && Antisymmetric(allow)
  {
    forall a, b | b in AllowedFrom(allow, a) ensures AllowedFrom(allow, b) <= AllowedFrom(allow, a) {
      ShippedRowsAreClosed(a, b);
    }
    forall a, b | b in AllowedFrom(allow, a) && a in AllowedFrom(allow, b) ensures a == b {
      ShippedRowsAreAntisymmetric(a, b);
    }
  }

  // Discovery and provisioning are apart, collectors are held to common, procs and collectors, and common and inventory
  // reach no other stage.
  ghost predicate Apart(from: string, to: string) {
    && !(from == DISCOVERY && to == PROVISIONING) && !(from == PROVISIONING && to == DISCOVERY)
    && (from == COLLECTOR ==> to in {COMMON, PROCS, COLLECTOR})
    && (from == INVENTORY ==> to in {COMMON, INVENTORY})
    && (from == COMMON ==> to == COMMON)
  }

  lemma RowsKeepApart(from: string, to: string)
    requires to in ShippedRow(from)
    ensures Apart(from, to)
  {
    NamesDiffer();
  }

  // With the shipped rows a silent gate keeps the stages apart along import paths of any length that leave testdata
  // aside.
  lemma StagesStayApart(r: Rules, roots: seq<Root>, path: seq<Package>)
    requires Silent(r, roots) && HasShippedRows(r.allow) && IsPath(r, roots, path) && |path| >= 2
    ensures Apart(AreaOfPackage(r, path[0]), AreaOfPackage(r, path[|path| - 1]))
  {
    ShippedIsLayered(r.allow);
    PathsAreLayered(r, roots, path);
    RowsKeepApart(AreaOfPackage(r, path[0]), AreaOfPackage(r, path[|path| - 1]));
  }

  // And along every import path from outside testdata, when no measured file out there imports into testdata.
  lemma StagesStayApartEverywhere(r: Rules, roots: seq<Root>, path: seq<Package>)
    requires Silent(r, roots) && HasShippedRows(r.allow) && NoTestdataImports(r, roots)
    requires IsImportPath(r, roots, path) && |path| >= 2 && !InTestdata(path[0].dir)
    ensures Apart(AreaOfPackage(r, path[0]), AreaOfPackage(r, path[|path| - 1]))
  {
    PathStaysOut(r, roots, path);
    StagesStayApart(r, roots, path);
  }

  // With the shipped file loaded, whatever the modules: exactly then does a silent gate vouch for every import path
  // from outside testdata, whatever testdata holds.
  lemma ShippedGateVouchesIff(modules: seq<string>, self: string, hints: seq<string>, roots: seq<Root>)
    requires Hints(hints) && modules != [] && RootsOf(modules, roots)
    requires Silent(ShippedRules(modules, self, hints), roots)
    ensures AlwaysLayered(ShippedRules(modules, self, hints), roots)
            <==> NoTestdataImports(ShippedRules(modules, self, hints), roots)
  {
    var lines := ShippedLines(hints);
    ShippedFileHasItsRows(hints);
    ShippedIsLayered(AllowOf(lines));
    GateVouchesIff(modules, self, StableSort(ClassesOf(lines)), AllowOf(lines), BareOf(lines), roots);
  }

  lemma NoCycleCrossesAnArea(r: Rules, roots: seq<Root>, path: seq<Package>, i: nat)
    requires Silent(r, roots) && HasShippedRows(r.allow) && IsPath(r, roots, path)
    requires |path| >= 2 && path[0] == path[|path| - 1] && i < |path|
    ensures AreaOfPackage(r, path[i]) == AreaOfPackage(r, path[0])
  {
    ShippedIsLayered(r.allow);
    CyclesStayInOneArea(r, roots, path, i);
  }
}
