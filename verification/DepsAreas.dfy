// Which area the shipped class lines give every directory of every repository.
module DepsAreas {
  import opened Str
  import opened DepsConfig
  import opened DepsRulesFile

  // The lines differ in their first two letters, or, below pkg/, in the letter after it.
  lemma Leads(k: nat)
    requires k < 15
    ensures var p := ShippedClass(k).prefix;
            && |p| > 3
            && (k == 0 ==> p[0] == 'g') && (k == 14 ==> p[0] == 'd')
            && (k == 1 || k == 6 || k == 8 || k == 10 ==> p == "cmd/" && p[0] == 'c' && p[1] == 'm')
            && (k == 5 ==> p[0] == 'c' && p[1] == 'o')
            && (k == 12 ==> p[0] == 't' && p[1] == 'e') && (k == 13 ==> p[0] == 't' && p[1] == 'o')
  {}

  lemma LeadsBelowPkg(k: nat)
    requires k < 15
    ensures var p := ShippedClass(k).prefix;
            (k == 2 || k == 3 || k == 4 || k == 7 || k == 9 || k == 11 ==> |p| > 4 && p[0] == 'p')
    ensures var p := ShippedClass(k).prefix;
            && (k == 2 ==> p[4] == 'k') && (k == 3 ==> p[4] == 'o') && (k == 4 || k == 7 ==> p[4] == 'd')
            && (k == 9 ==> p[4] == 'i') && (k == 11 ==> p[4] == 'p')
  {}

  lemma Repositories()
    ensures ShippedClass(1).repo == "pqcota-common" && ShippedClass(6).repo == "pqcota-discovery"
    ensures ShippedClass(8).repo == "pqcota-inventory" && ShippedClass(10).repo == "pqcota-provisioning"
    ensures forall k: nat :: k < 15 && k != 1 && k != 6 && k != 8 && k != 10 ==> ShippedClass(k).repo == ""
  {}

  lemma RepositoriesDiffer()
    ensures "pqcota-common" != "pqcota-discovery" && "pqcota-common" != "pqcota-inventory"
    ensures "pqcota-common" != "pqcota-provisioning" && "pqcota-discovery" != "pqcota-inventory"
    ensures "pqcota-discovery" != "pqcota-provisioning" && "pqcota-inventory" != "pqcota-provisioning"
  {
    assert "pqcota-common"[7] == 'c' && "pqcota-discovery"[7] == 'd' && "pqcota-inventory"[7] == 'i';
    assert "pqcota-provisioning"[7] == 'p';
  }

  lemma PrefixLeads(d: string, p: string)
    requires HasPrefix(d, p) && |p| > 3
    ensures |d| >= |p| && d[0] == p[0] && d[1] == p[1] && (|p| > 4 ==> d[4] == p[4])
  {}

  // Two lines apply to one directory only where procs lies in discovery.
  lemma OneLineApplies(repo: string, d: string, j: nat, k: nat)
    requires j < k < 15 && Applies(ShippedClass(j), repo, d) && Applies(ShippedClass(k), repo, d)
    ensures j == 4 && k == 7
  {
    Leads(j);
    Leads(k);
    LeadsBelowPkg(j);
    LeadsBelowPkg(k);
    PrefixLeads(d, ShippedClass(j).prefix);
    PrefixLeads(d, ShippedClass(k).prefix);
    Repositories();
    RepositoriesDiffer();
  }

  lemma ProcsLine()
    ensures ShippedClass(4) == Class("", "pkg/discovery/procs/", PROCS) && |"pkg/discovery/procs/"| == 20
    ensures ShippedClass(7) == Class("", "pkg/discovery/", DISCOVERY) && |"pkg/discovery/"| == 14
  {}

  // A directory a line covers is in that line's area; only the procs directories are taken out of discovery.
  lemma ShippedAreaIs(repo: string, dir: string, k: nat)
    requires k < 15 && Applies(ShippedClass(k), repo, Slashed(dir))
    requires k == 7 ==> !HasPrefix(Slashed(dir), "pkg/discovery/procs/")
    ensures AreaOf(StableSort(ShippedClasses()), repo, dir) == ShippedClass(k).area
  {
    var cs, d := ShippedClasses(), Slashed(dir);
    Leads(k);
    assert d != "/";
    assert cs[k] == ShippedClass(k) && cs[k] in cs;
    var i := ClassifierIsLongestPrefix(cs, repo, dir);
    assert cs[i] == ShippedClass(i) && Wins(cs, i, k);
    ProcsLine();
    if i < k { OneLineApplies(repo, d, i, k); } else if k < i { OneLineApplies(repo, d, k, i); }
  }

  // And one no line covers is in none.
  lemma ShippedAreaIsNone(repo: string, dir: string)
    requires forall k: nat :: k < 15 ==> !Applies(ShippedClass(k), repo, Slashed(dir))
    ensures AreaOf(StableSort(ShippedClasses()), repo, dir) == ""
  {
    var cs := ShippedClasses();
    forall c | c in cs ensures !Applies(c, repo, Slashed(dir)) {
      var k :| 0 <= k < |cs| && cs[k] == c;
      assert cs[k] == ShippedClass(k);
    }
    var i := ClassifierIsLongestPrefix(cs, repo, dir);
  }

  // So procs is procs, whatever the repository, though it lies in discovery.
  lemma UnderProcs(repo: string, dir: string)
    requires HasPrefix(Slashed(dir), "pkg/discovery/procs/")
    ensures AreaOf(StableSort(ShippedClasses()), repo, dir) == PROCS
  {
    ProcsLine();
    ShippedAreaIs(repo, dir, 4);
  }

  // A command belongs to the stage of its repository, and to no area in any other.
  lemma UnderCmd(repo: string, dir: string)
    requires HasPrefix(Slashed(dir), "cmd/")
    ensures AreaOf(StableSort(ShippedClasses()), repo, dir)
         == if repo == "pqcota-common" then COMMON else if repo == "pqcota-discovery" then DISCOVERY
            else if repo == "pqcota-inventory" then INVENTORY else if repo == "pqcota-provisioning" then PROVISIONING
            else ""
  {
    var d := Slashed(dir);
    Leads(1);
    Leads(6);
    Leads(8);
    Leads(10);
    Repositories();
    CommandAreas();
    if repo == "pqcota-common" {
      ShippedAreaIs(repo, dir, 1);
    } else if repo == "pqcota-discovery" {
      ShippedAreaIs(repo, dir, 6);
    } else if repo == "pqcota-inventory" {
      ShippedAreaIs(repo, dir, 8);
    } else if repo == "pqcota-provisioning" {
      ShippedAreaIs(repo, dir, 10);
    } else {
      forall k: nat | k < 15 ensures !Applies(ShippedClass(k), repo, d) { NoCommandLine(repo, d, k); }
      ShippedAreaIsNone(repo, dir);
    }
  }

  lemma CommandAreas()
    ensures ShippedClass(1).area == COMMON && ShippedClass(6).area == DISCOVERY
    ensures ShippedClass(8).area == INVENTORY && ShippedClass(10).area == PROVISIONING
  {}

  lemma NoCommandLine(repo: string, d: string, k: nat)
    requires k < 15 && HasPrefix(d, "cmd/") && repo != "pqcota-common" && repo != "pqcota-discovery"
    requires repo != "pqcota-inventory" && repo != "pqcota-provisioning"
    ensures !Applies(ShippedClass(k), repo, d)
  {
    Leads(k);
    LeadsBelowPkg(k);
    Repositories();
    PrefixLeads(d, "cmd/");
    if HasPrefix(d, ShippedClass(k).prefix) { PrefixLeads(d, ShippedClass(k).prefix); }
  }
}
