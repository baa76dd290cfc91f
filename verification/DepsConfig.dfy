// checkdeps' rule file: parsing and validating it, the longest-prefix classifier, and resolving import paths.
module DepsConfig {
  import opened Text
  import opened Str

  // A class line: an empty repo applies to every repository.
  datatype Class = Class(repo: string, prefix: string, area: string)

  datatype AllowRow = AllowRow(rule: string, hint: string, areas: set<string>)

  datatype RuleLine = Ignored | ClassLine(class_: Class) | AllowLine(area: string, row: AllowRow)
    | BareLine(bare: string) | BadLine

  // ---------- one line ----------

  function ParseClass(field: string, area: string): RuleLine {
    var i := IndexFrom(field, ':', 0);
    var repo := if i < |field| then field[..i] else "";
    var prefix := if i < |field| then Cut(field, i + 1, |field|) else field;
    if i < |field| && repo == "" then BadLine
    else if !HasSuffix(prefix, "/") then BadLine
    else ClassLine(Class(repo, prefix, area))
  }

  function TrimmedSet(fields: seq<string>): set<string> { set f | f in fields :: TrimSpace(f) }

  function ParseLine(raw: string): RuleLine {
    var line := TrimRightChar(raw, '\r');
    if TrimSpace(line) == "" || HasPrefix(line, "#") then Ignored
    else
      ParseFields(Split(line, '\t'))
  }

  function ParseFields(col: seq<string>): RuleLine
    requires col != []
  {
    if col[0] == "class" then
      if |col| != 3 then BadLine else ParseClass(col[1], col[2])
    else if col[0] == "allow" then
      if |col| < 4 || |col| > 5 then BadLine
      else AllowLine(col[1], AllowRow(col[3], if |col| == 5 then col[4] else "", TrimmedSet(Split(col[2], ','))))
    else if col[0] == "bare" then
      if |col| != 2 then BadLine else BareLine(col[1])
    else BadLine
  }

  // ---------- the whole file ----------

  function AddClass(rest: seq<Class>, p: RuleLine): seq<Class> {
    match p case ClassLine(c) => rest + [c] case _ => rest
  }

  function AddAllow(rest: map<string, AllowRow>, p: RuleLine): map<string, AllowRow> {
    match p case AllowLine(a, row) => rest[a := row] case _ => rest
  }

  function AddBare(rest: set<string>, p: RuleLine): set<string> {
    match p case BareLine(a) => rest + {a} case _ => rest
  }

  // The lines, parsed one by one.
  function ParseBy(parse: string -> RuleLine, lines: seq<string>): (ps: seq<RuleLine>)
    ensures |ps| == |lines|
  {
    seq(|lines|, k requires 0 <= k < |lines| => parse(lines[k]))
  }

  function Parser(): string -> RuleLine { line => ParseLine(line) }

  function ParseAll(lines: seq<string>): (ps: seq<RuleLine>)
    ensures |ps| == |lines|
  {
    ParseBy(Parser(), lines)
  }

  function ClassesIn(ps: seq<RuleLine>): seq<Class> {
    if ps == [] then [] else AddClass(ClassesIn(ps[..|ps| - 1]), ps[|ps| - 1])
  }

  // A later allow line of the same area replaces an earlier one.
  function AllowIn(ps: seq<RuleLine>): map<string, AllowRow> {
    if ps == [] then map[] else AddAllow(AllowIn(ps[..|ps| - 1]), ps[|ps| - 1])
  }

  function BareIn(ps: seq<RuleLine>): set<string> {
    if ps == [] then {} else AddBare(BareIn(ps[..|ps| - 1]), ps[|ps| - 1])
  }

  function ClassesOf(lines: seq<string>): seq<Class> { ClassesIn(ParseAll(lines)) }

  function AllowOf(lines: seq<string>): map<string, AllowRow> { AllowIn(ParseAll(lines)) }

  function BareOf(lines: seq<string>): set<string> { BareIn(ParseAll(lines)) }

  function AreasOf(classes: seq<Class>): set<string> { set c | c in classes :: c.area }

  // What loadConfig accepts: every line well-formed, every area with exactly the allow row it needs, and no rule about
  // an area no class names.
  ghost predicate WellFormed(lines: seq<string>) { WellParsed(ParseAll(lines)) }

  ghost predicate WellParsed(ps: seq<RuleLine>) {
    && (forall i :: 0 <= i < |ps| ==> !ps[i].BadLine?)
    && Agreed(AllowIn(ps), BareIn(ps), AreasOf(ClassesIn(ps)))
  }

  ghost predicate Agreed(allow: map<string, AllowRow>, bare: set<string>, areas: set<string>) {
    allow.Keys == areas && (forall a :: a in allow ==> allow[a].areas <= areas) && bare <= areas
  }

  // ---------- the stable sort ----------

  // The comparator's key: longer prefixes first, and on equal length a repository-qualified one.
  function Rank(c: Class): nat { 2 * |c.prefix| + if c.repo != "" then 1 else 0 }

  // Class a is searched before class b: its prefix is longer, or as long and only a is for one repository.
  predicate Ahead(a: Class, b: Class) {
    |a.prefix| > |b.prefix| || (|a.prefix| == |b.prefix| && a.repo != "" && b.repo == "")
  }

  lemma RankIsAhead(a: Class, b: Class)
    ensures Rank(a) > Rank(b) <==> Ahead(a, b)
  {}

  // After every class of the same or a higher rank.
  function Insert(s: seq<Class>, c: Class): seq<Class> {
    if s == [] then [c]
    else if Rank(s[|s| - 1]) >= Rank(c) then s + [c]
    else Insert(s[..|s| - 1], c) + [s[|s| - 1]]
  }

  function StableSort(cs: seq<Class>): seq<Class> {
    if cs == [] then [] else Insert(StableSort(cs[..|cs| - 1]), cs[|cs| - 1])
  }

  ghost predicate Descending(s: seq<Class>) { forall i, j :: 0 <= i < j < |s| ==> Rank(s[i]) >= Rank(s[j]) }

  // No class stands behind one it is searched before.
  ghost predicate InSearchOrder(s: seq<Class>) { forall i, j :: 0 <= i < j < |s| ==> !Ahead(s[j], s[i]) }

  // The classes with prefixes of one length that are, or are not, for one repository, in order.
  function Alike(s: seq<Class>, length: nat, qualified: bool): seq<Class> {
    if s == [] then []
    else
      var before, c := Alike(s[..|s| - 1], length, qualified), s[|s| - 1];
      if |c.prefix| == length && (c.repo != "" <==> qualified) then before + [c] else before
  }

  lemma {:induction false} AlikeIsOfRank(s: seq<Class>, length: nat, qualified: bool)
    ensures Alike(s, length, qualified) == OfRank(s, 2 * length + if qualified then 1 else 0)
  {
    if s == [] {
    } else {
      AlikeIsOfRank(s[..|s| - 1], length, qualified);
    }
  }

  function IfRank(c: Class, r: nat): seq<Class> { if Rank(c) == r then [c] else [] }

  function OfRank(s: seq<Class>, r: nat): seq<Class> {
    if s == [] then [] else OfRank(s[..|s| - 1], r) + IfRank(s[|s| - 1], r)
  }

  lemma {:induction false} InsertElements(s: seq<Class>, c: Class)
    ensures multiset(Insert(s, c)) == multiset(s) + multiset{c}
  {
    if s != [] && Rank(s[|s| - 1]) < Rank(c) {
      InsertElements(s[..|s| - 1], c);
      assert s == s[..|s| - 1] + [s[|s| - 1]];
    }
  }

  ghost predicate AtLeast(s: seq<Class>, r: nat) { forall i :: 0 <= i < |s| ==> Rank(s[i]) >= r }

  lemma {:induction false} InsertAtLeast(s: seq<Class>, c: Class, r: nat)
    requires AtLeast(s, r) && Rank(c) >= r
    ensures AtLeast(Insert(s, c), r)
  {
    if s != [] && Rank(s[|s| - 1]) < Rank(c) { InsertAtLeast(s[..|s| - 1], c, r); }
  }

  lemma DescendingSnoc(s: seq<Class>, x: Class)
    requires Descending(s) && AtLeast(s, Rank(x))
    ensures Descending(s + [x])
  {}

  lemma {:induction false} InsertDescending(s: seq<Class>, c: Class)
    requires Descending(s)
    ensures Descending(Insert(s, c))
  {
    if s == [] {
    } else {
      var n := |s| - 1;
      if Rank(s[n]) < Rank(c) {
        InsertDescending(s[..n], c);
        InsertAtLeast(s[..n], c, Rank(s[n]));
        DescendingSnoc(Insert(s[..n], c), s[n]);
      } else {
        assert AtLeast(s, Rank(c));
        DescendingSnoc(s, c);
      }
    }
  }

  lemma OfRankSnoc(s: seq<Class>, c: Class, r: nat)
    ensures OfRank(s + [c], r) == OfRank(s, r) + IfRank(c, r)
  {
    assert (s + [c])[..|s|] == s;
  }

  lemma {:induction false} InsertStable(s: seq<Class>, c: Class, r: nat)
    ensures OfRank(Insert(s, c), r) == OfRank(s, r) + IfRank(c, r)
  {
    if s == [] {
      OfRankSnoc([], c, r);
      assert [] + [c] == [c];
    } else if Rank(s[|s| - 1]) >= Rank(c) {
      OfRankSnoc(s, c, r);
    } else {
      InsertStable(s[..|s| - 1], c, r);
      OfRankSnoc(Insert(s[..|s| - 1], c), s[|s| - 1], r);
      OfDifferentRank(OfRank(s[..|s| - 1], r), c, s[|s| - 1], r);
    }
  }

  // Classes of different rank are not both of rank r.
  lemma OfDifferentRank(before: seq<Class>, c: Class, d: Class, r: nat)
    requires Rank(c) != Rank(d)
    ensures before + IfRank(c, r) + IfRank(d, r) == before + IfRank(d, r) + IfRank(c, r)
  {}

  // The sort is one: same classes, highest rank first, and equal ranks in file order.
  lemma {:induction false} StableSortPermutes(cs: seq<Class>)
    ensures multiset(StableSort(cs)) == multiset(cs)
  {
    if cs == [] {
    } else {
      StableSortPermutes(cs[..|cs| - 1]);
      InsertElements(StableSort(cs[..|cs| - 1]), cs[|cs| - 1]);
      MultisetOfLast(cs);
    }
  }

  lemma MultisetOfLast<T>(s: seq<T>)
    requires s != []
    ensures multiset(s) == multiset(s[..|s| - 1]) + multiset{s[|s| - 1]}
  {
    assert s == s[..|s| - 1] + [s[|s| - 1]];
  }

  lemma {:induction false} SortDescends(cs: seq<Class>)
    ensures Descending(StableSort(cs))
  {
    if cs == [] {
    } else {
      SortDescends(cs[..|cs| - 1]);
      InsertDescending(StableSort(cs[..|cs| - 1]), cs[|cs| - 1]);
    }
  }

  // Longer prefixes first, and on equal length those for one repository.
  lemma StableSortSorts(cs: seq<Class>)
    ensures InSearchOrder(StableSort(cs))
  {
    SortDescends(cs);
    var s := StableSort(cs);
    forall i, j | 0 <= i < j < |s| ensures !Ahead(s[j], s[i]) { RankIsAhead(s[j], s[i]); }
  }

  // Classes alike in both stay in file order.
  lemma StableSortIsStable(cs: seq<Class>, length: nat, qualified: bool)
    ensures Alike(StableSort(cs), length, qualified) == Alike(cs, length, qualified)
  {
    AlikeIsOfRank(cs, length, qualified);
    AlikeIsOfRank(StableSort(cs), length, qualified);
    SortKeepsRanks(cs, 2 * length + if qualified then 1 else 0);
  }

  lemma {:induction false} SortKeepsRanks(cs: seq<Class>, r: nat)
    ensures OfRank(StableSort(cs), r) == OfRank(cs, r)
  {
    if cs == [] {
    } else {
      SortKeepsRanks(cs[..|cs| - 1], r);
      InsertStable(StableSort(cs[..|cs| - 1]), cs[|cs| - 1], r);
    }
  }

  // ---------- the classifier ----------

  // strings.Trim(dir, "/") + "/"
  function Slashed(dir: string): string { TrimChar(dir, '/') + "/" }

  predicate Applies(c: Class, repo: string, d: string) {
    HasPrefix(d, c.prefix) && (c.repo == "" || c.repo == repo)
  }

  // The scan over the sorted classes: the first that applies; None for the module root or when none applies.
  function FirstMatch(cs: seq<Class>, repo: string, d: string): Option<Class> {
    if cs == [] then None
    else if Applies(cs[0], repo, d) then Some(cs[0])
    else FirstMatch(cs[1..], repo, d)
  }

  function AreaOf(cs: seq<Class>, repo: string, dir: string): string {
    if Slashed(dir) == "/" then ""
    else match FirstMatch(cs, repo, Slashed(dir)) case None => "" case Some(c) => c.area
  }

  // The best class in file order: a later one wins only by a strictly higher rank.
  function Best(cs: seq<Class>, repo: string, d: string): Option<Class> {
    if cs == [] then None
    else
      var before, last := Best(cs[..|cs| - 1], repo, d), cs[|cs| - 1];
      if Applies(last, repo, d) && (before.None? || Rank(before.value) < Rank(last)) then Some(last) else before
  }

  lemma {:induction false} FirstMatchSnoc(s: seq<Class>, c: Class, repo: string, d: string)
    ensures FirstMatch(s + [c], repo, d)
            == if FirstMatch(s, repo, d).Some? then FirstMatch(s, repo, d)
               else if Applies(c, repo, d) then Some(c) else None
  {
    if s == [] {
      assert s + [c] == [c] && [c][1..] == [];
    } else {
      FirstMatchSnoc(s[1..], c, repo, d);
      assert (s + [c])[1..] == s[1..] + [c];
    }
  }

  lemma {:induction false} FirstMatchIn(s: seq<Class>, repo: string, d: string)
    ensures FirstMatch(s, repo, d).Some?
            ==> FirstMatch(s, repo, d).value in s && Applies(FirstMatch(s, repo, d).value, repo, d)
    ensures FirstMatch(s, repo, d).None? ==> forall c :: c in s ==> !Applies(c, repo, d)
  {
    if s == [] {
    } else {
      FirstMatchIn(s[1..], repo, d);
    }
  }

  // What inserting a class does to the first match f.
  ghost predicate Takes(found: Option<Class>, f: Option<Class>, c: Class, repo: string, d: string) {
    found == if Applies(c, repo, d) && (f.None? || Rank(f.value) < Rank(c)) then Some(c) else f
  }

  lemma {:induction false} FirstMatchInsert(s: seq<Class>, c: Class, repo: string, d: string)
    requires Descending(s)
    ensures Takes(FirstMatch(Insert(s, c), repo, d), FirstMatch(s, repo, d), c, repo, d)
  {
    FirstMatchIn(s, repo, d);
    if s == [] {
    } else {
      if Rank(s[|s| - 1]) >= Rank(c) {
        FirstMatchSnoc(s, c, repo, d);
      } else {
        FirstMatchInsert(s[..|s| - 1], c, repo, d);
        FirstMatchBefore(s, c, repo, d);
      }
    }
  }

  lemma FirstMatchBefore(s: seq<Class>, c: Class, repo: string, d: string)
    requires s != [] && Rank(s[|s| - 1]) < Rank(c)
    requires Takes(FirstMatch(Insert(s[..|s| - 1], c), repo, d), FirstMatch(s[..|s| - 1], repo, d), c, repo, d)
    ensures Takes(FirstMatch(Insert(s, c), repo, d), FirstMatch(s, repo, d), c, repo, d)
  {
    var n := |s| - 1;
    FirstMatchSnoc(s[..n], s[n], repo, d);
    FirstMatchSnoc(Insert(s[..n], c), s[n], repo, d);
    assert s == s[..n] + [s[n]];
  }

  // The sort refines the declarative choice: scanning the sorted list finds the best class of the file.
  lemma {:induction false} SortedScanFindsBest(cs: seq<Class>, repo: string, d: string)
    ensures FirstMatch(StableSort(cs), repo, d) == Best(cs, repo, d)
  {
    if cs == [] {
    } else {
      var n := |cs| - 1;
      SortedScanFindsBest(cs[..n], repo, d);
      SortDescends(cs[..n]);
      FirstMatchInsert(StableSort(cs[..n]), cs[n], repo, d);
    }
  }

  // cs[i] applies, and against every other applicable class it has the longer prefix; or one as long, and is the one
  // for this repository; or it comes first.
  ghost predicate IsBest(cs: seq<Class>, repo: string, d: string, i: nat) {
    && i < |cs| && Applies(cs[i], repo, d)
    && forall j :: 0 <= j < |cs| && Applies(cs[j], repo, d) ==> Wins(cs, i, j)
  }

  ghost predicate Wins(cs: seq<Class>, i: nat, j: nat)
    requires i < |cs| && j < |cs|
  {
    || |cs[i].prefix| > |cs[j].prefix|
    || (|cs[i].prefix| == |cs[j].prefix| && cs[i].repo != "" && cs[j].repo == "")
    || (|cs[i].prefix| == |cs[j].prefix| && (cs[i].repo != "" <==> cs[j].repo != "") && i <= j)
  }

  // The same by rank.
  ghost predicate IsTop(cs: seq<Class>, repo: string, d: string, i: nat) {
    && i < |cs| && Applies(cs[i], repo, d)
    && (forall j :: 0 <= j < |cs| && Applies(cs[j], repo, d) ==> Rank(cs[j]) <= Rank(cs[i]))
    && (forall j :: 0 <= j < i && Applies(cs[j], repo, d) ==> Rank(cs[j]) < Rank(cs[i]))
  }

  lemma TopIsBest(cs: seq<Class>, repo: string, d: string, i: nat)
    requires IsTop(cs, repo, d, i)
    ensures IsBest(cs, repo, d, i)
  {
    forall j | 0 <= j < |cs| && Applies(cs[j], repo, d) ensures Wins(cs, i, j) {
      RankIsAhead(cs[i], cs[j]);
      RankIsAhead(cs[j], cs[i]);
    }
  }

  // The best class has the highest rank of the applicable ones, and is the earliest of that rank.
  lemma {:induction false} BestIsLongest(cs: seq<Class>, repo: string, d: string) returns (i: int)
    ensures Best(cs, repo, d).None? ==> forall j :: 0 <= j < |cs| ==> !Applies(cs[j], repo, d)
    ensures Best(cs, repo, d).Some? ==> i >= 0 && IsTop(cs, repo, d, i) && cs[i] == Best(cs, repo, d).value
  {
    i := -1;
    if cs == [] {
    } else {
      var n := |cs| - 1;
      i := BestIsLongest(cs[..n], repo, d);
      assert forall j :: 0 <= j < n ==> cs[..n][j] == cs[j];
      var before := Best(cs[..n], repo, d);
      if Applies(cs[n], repo, d) && (before.None? || Rank(before.value) < Rank(cs[n])) {
        i := n;
      }
    }
  }

  // The classifier: the area of the best class, or none for the module root and for paths no class covers.
  lemma ClassifierIsLongestPrefix(cs: seq<Class>, repo: string, dir: string) returns (i: int)
    ensures var d := Slashed(dir);
            if d != "/" && exists c :: c in cs && Applies(c, repo, d)
            then i >= 0 && IsBest(cs, repo, d, i) && AreaOf(StableSort(cs), repo, dir) == cs[i].area
            else AreaOf(StableSort(cs), repo, dir) == ""
  {
    SortedScanFindsBest(cs, repo, Slashed(dir));
    i := BestIsLongest(cs, repo, Slashed(dir));
    if Best(cs, repo, Slashed(dir)).Some? { TopIsBest(cs, repo, Slashed(dir), i); }
  }

  // A (repository, prefix) pair names one class.
  ghost predicate NoRepeats(cs: seq<Class>) {
    forall a, b :: a in cs && b in cs && a.repo == b.repo && a.prefix == b.prefix ==> a == b
  }

  // Two applicable classes of the same rank have the same repository and prefix.
  lemma SameRankSameKey(a: Class, b: Class, repo: string, d: string)
    requires Applies(a, repo, d) && Applies(b, repo, d) && Rank(a) == Rank(b)
    ensures a.repo == b.repo && a.prefix == b.prefix
  {
    assert |a.prefix| == |b.prefix|;
    assert a.prefix == d[..|a.prefix|] && b.prefix == d[..|b.prefix|];
  }

  // An applicable class of the list that no applicable one outranks.
  ghost predicate Dominant(c: Class, cs: seq<Class>, repo: string, d: string) {
    c in cs && Applies(c, repo, d) && forall x :: x in cs && Applies(x, repo, d) ==> Rank(x) <= Rank(c)
  }

  lemma BestIsDominant(cs: seq<Class>, repo: string, d: string)
    ensures Best(cs, repo, d).Some? ==> Dominant(Best(cs, repo, d).value, cs, repo, d)
    ensures Best(cs, repo, d).None? ==> forall x :: x in cs ==> !Applies(x, repo, d)
  {
    var i := BestIsLongest(cs, repo, d);
  }

  lemma DominantIsUnique(a: Class, b: Class, cs: seq<Class>, other: seq<Class>, repo: string, d: string)
    requires NoRepeats(cs) && forall c :: c in cs <==> c in other
    requires Dominant(a, cs, repo, d) && Dominant(b, other, repo, d)
    ensures a == b
  {
    SameRankSameKey(a, b, repo, d);
  }

  lemma SameMembers<T>(a: seq<T>, b: seq<T>)
    requires multiset(a) == multiset(b)
    ensures forall x :: x in a <==> x in b
  {
    assert forall x :: x in a <==> x in multiset(a);
    assert forall x :: x in b <==> x in multiset(b);
  }

  lemma BestOfSameClasses(cs: seq<Class>, other: seq<Class>, repo: string, d: string)
    requires multiset(cs) == multiset(other) && NoRepeats(cs)
    ensures Best(cs, repo, d) == Best(other, repo, d)
  {
    SameMembers(cs, other);
    BestIsDominant(cs, repo, d);
    BestIsDominant(other, repo, d);
    var a, b := Best(cs, repo, d), Best(other, repo, d);
    if a.Some? && b.Some? {
      DominantIsUnique(a.value, b.value, cs, other, repo, d);
    }
  }

  // When no (repository, prefix) pair repeats, the order of the class lines does not matter.
  lemma OrderDoesNotMatter(cs: seq<Class>, other: seq<Class>, repo: string, dir: string)
    requires multiset(cs) == multiset(other) && NoRepeats(cs)
    ensures AreaOf(StableSort(cs), repo, dir) == AreaOf(StableSort(other), repo, dir)
  {
    SortedScanFindsBest(cs, repo, Slashed(dir));
    SortedScanFindsBest(other, repo, Slashed(dir));
    BestOfSameClasses(cs, other, repo, Slashed(dir));
  }

  // With slashes at the end of both, a string prefix is a prefix of path segments.
  lemma PrefixIsSegmentPrefix(p: string, d: string)
    ensures HasPrefix(d + "/", p + "/") <==> Split(p, '/') <= Split(d, '/')
  {
    if HasPrefix(d + "/", p + "/") { PrefixSplits(p, d); }
    if Split(p, '/') <= Split(d, '/') { SegmentsArePrefix(p, d); }
  }

  lemma PrefixSplits(p: string, d: string)
    requires p + ['/'] <= d + ['/']
    ensures Split(p, '/') <= Split(d, '/')
  {
    if |p| == |d| {
      assert p == (d + ['/'])[..|p|] == d;
    } else {
      var rest := d[|p| + 1..];
      assert d[..|p|] == (p + ['/'])[..|p|] && (d + ['/'])[|p|] == (p + ['/'])[|p|];
      assert d == p + ['/'] + rest;
      SplitAtSeparator(p, '/', rest);
    }
  }

  lemma SegmentsArePrefix(p: string, d: string)
    requires Split(p, '/') <= Split(d, '/')
    ensures p + ['/'] <= d + ['/']
  {
    JoinOfSplit(p, '/');
    JoinOfSplit(d, '/');
    var ps, ds := Split(p, '/'), Split(d, '/');
    var rest := ds[|ps|..];
    assert ds == ps + rest;
    if rest == [] {
      assert ds == ps;
    } else {
      JoinAppend(ps, rest, '/');
    }
  }

  // ---------- import paths ----------

  predicate Within(p: string, m: string) { p == m || HasPrefix(p, m + "/") }

  // The path inside module m, and the module's repository name.
  function Inside(p: string, m: string): (string, string)
    requires Within(p, m)
  {
    (if p == m then "" else p[|m| + 1..], BaseOf(m))
  }

  // relOf: inside the first module that holds the path.
  function RelOf(modules: seq<string>, p: string): Option<(string, string)> {
    if modules == [] then None
    else if Within(p, modules[0]) then Some(Inside(p, modules[0]))
    else RelOf(modules[1..], p)
  }

  method ResolveImport(modules: seq<string>, p: string) returns (r: Option<(string, string)>)
    ensures r == RelOf(modules, p)
  {
    for i := 0 to |modules|
      invariant RelOf(modules, p) == RelOf(modules[i..], p)
    {
      var m := modules[i];
      assert modules[i..][1..] == modules[i + 1..];
      if p == m { return Some(("", BaseOf(m))); }
      if HasPrefix(p, m + "/") { return Some((p[|m| + 1..], BaseOf(m))); }
    }
    return None;
  }

  // No module path is a directory above another.
  ghost predicate Separate(modules: seq<string>) {
    forall a, b :: a in modules && b in modules && a != b ==> !Within(a, b)
  }

  // A path is resolved in a module that holds it, or no module does.
  lemma {:induction false} RelOfIsInside(modules: seq<string>, p: string) returns (m: string)
    ensures RelOf(modules, p).Some? ==> m in modules && Within(p, m) && RelOf(modules, p).value == Inside(p, m)
    ensures RelOf(modules, p).None? ==> forall a :: a in modules ==> !Within(p, a)
  {
    m := "";
    if modules == [] {
    } else {
      m := RelOfIsInside(modules[1..], p);
      if Within(p, modules[0]) {
        m := modules[0];
      }
    }
  }

  // Two modules that hold the same path hold one another.
  lemma WithinBoth(p: string, a: string, b: string)
    requires Within(p, a) && Within(p, b)
    ensures Within(a, b) || Within(b, a)
  {
    if |a| < |b| {
      assert b[..|a| + 1] == p[..|a| + 1] || b == p;
    } else if |b| < |a| {
      assert a[..|b| + 1] == p[..|b| + 1] || a == p;
    } else {
      assert a == p[..|a|] && b == p[..|b|];
    }
  }

  // Then the order in which the modules are given does not matter.
  lemma ModuleOrderDoesNotMatter(modules: seq<string>, other: seq<string>, p: string)
    requires Separate(modules) && multiset(modules) == multiset(other)
    ensures RelOf(modules, p) == RelOf(other, p)
  {
    SameMembers(modules, other);
    var a := RelOfIsInside(modules, p);
    var b := RelOfIsInside(other, p);
    if RelOf(modules, p).Some? && RelOf(other, p).Some? {
      WithinBoth(p, a, b);
    }
  }

  // Every order of the modules resolves every path alike.
  ghost predicate AnyOrder(modules: seq<string>) {
    forall other: seq<string>, p: string ::
      multiset(modules) == multiset(other) ==> RelOf(modules, p) == RelOf(other, p)
  }

  // Some order has module m first, and there m resolves what lies in it.
  lemma FirstModuleWins(m: string, modules: seq<string>, p: string)
    requires m in modules && Within(p, m)
    ensures exists other :: multiset(modules) == multiset(other) && RelOf(other, p) == Some(Inside(p, m))
  {
    var i :| 0 <= i < |modules| && modules[i] == m;
    var rest := modules[..i] + modules[i + 1..];
    MovedToFront(modules, i);
    RelOfFirst(m, rest, p);
    assert multiset(modules) == multiset([m] + rest) && RelOf([m] + rest, p) == Some(Inside(p, m));
  }

  lemma MovedToFront<T>(s: seq<T>, i: nat)
    requires i < |s|
    ensures multiset(s) == multiset([s[i]] + (s[..i] + s[i + 1..]))
  {
    assert s == s[..i] + [s[i]] + s[i + 1..];
  }

  lemma RelOfFirst(m: string, rest: seq<string>, p: string)
    requires Within(p, m)
    ensures RelOf([m] + rest, p) == Some(Inside(p, m))
  {}

  lemma InsideIsLonger(a: string, b: string)
    requires a != b && Within(a, b) && a[|a| - 1] != '/'
    ensures |a| > |b| + 1
  {
    assert (b + "/")[|b|] == '/' && a[|b|] == (b + "/")[|b|];
  }

  // A module inside another is resolved as its own root or as a directory of that other, whichever comes first.
  lemma NestedOrdersDiffer(modules: seq<string>, a: string, b: string)
    requires a in modules && b in modules && a != b && Within(a, b) && a[|a| - 1] != '/'
    ensures !AnyOrder(modules)
  {
    FirstModuleWins(a, modules, a);
    FirstModuleWins(b, modules, a);
    InsideIsLonger(a, b);
    assert Inside(a, a).0 == "" && Inside(a, b).0 != "";
  }

  // For modules that end in no slash, the order is irrelevant if and only if no module lies within another.
  lemma ModuleOrderIff(modules: seq<string>)
    requires forall m :: m in modules ==> m != "" && m[|m| - 1] != '/'
    ensures AnyOrder(modules) <==> Separate(modules)
  {
    if Separate(modules) {
      forall other: seq<string>, p: string | multiset(modules) == multiset(other)
        ensures RelOf(modules, p) == RelOf(other, p)
      {
        ModuleOrderDoesNotMatter(modules, other, p);
      }
    } else {
      var a, b :| a in modules && b in modules && a != b && Within(a, b);
      NestedOrdersDiffer(modules, a, b);
    }
  }

  // ---------- loading ----------

  datatype LoadError = BadRuleLine(n: nat) | InconsistentRules

  class Config {
    var modules: seq<string>
    var self: string
    var classes: seq<Class>
    var allow: map<string, AllowRow>
    var bare: set<string>
    var areas: set<string>

    constructor (ms: seq<string>)
      ensures modules == ms && self == "" && classes == [] && allow == map[] && bare == {} && areas == {}
    {
      modules, self, classes, allow, bare, areas := ms, "", [], map[], {}, {};
    }

    // The fields hold what the parsed lines say, classes still in file order.
    ghost predicate Holds(ps: seq<RuleLine>)
      reads this
    {
      classes == ClassesIn(ps) && allow == AllowIn(ps) && bare == BareIn(ps) && areas == AreasOf(ClassesIn(ps))
    }

    // One turn of loadConfig's loop over the file, for a parsed line.
    method Take(p: RuleLine, ghost before: seq<RuleLine>) returns (ok: bool)
      requires Holds(before)
      modifies this
      ensures modules == old(modules) && self == old(self)
      ensures ok <==> !p.BadLine?
      ensures Holds(before + [p])
    {
      assert (before + [p])[..|before|] == before;
      match p
      case Ignored => ok := true;
      case ClassLine(c) =>
        classes := classes + [c];
        areas := areas + {c.area};
        ok := true;
      case AllowLine(a, row) =>
        allow := allow[a := row];
        ok := true;
      case BareLine(a) =>
        bare := bare + {a};
        ok := true;
      case BadLine => ok := false;
    }

    // The checks after the loop.
    method Consistent() returns (ok: bool)
      ensures ok <==> Agreed(allow, bare, areas)
    {
      ok := allow.Keys <= areas && (forall a | a in allow :: allow[a].areas <= areas) && areas <= allow.Keys
        && bare <= areas;
    }

    method AreaIn(repo: string, dir: string) returns (area: string)
      ensures area == AreaOf(classes, repo, dir)
    {
      var d := Slashed(dir);
      if d == "/" { return ""; }
      for i := 0 to |classes|
        invariant FirstMatch(classes, repo, d) == FirstMatch(classes[i..], repo, d)
      {
        assert classes[i..][1..] == classes[i + 1..];
        if Applies(classes[i], repo, d) { return classes[i].area; }
      }
      return "";
    }
  }

  // The loop and the checks, for any parser of one line: success exactly on lines that parse well, and the first bad
  // line otherwise.
  method LoadLines(lines: seq<string>, parse: string -> RuleLine, modules: seq<string>)
    returns (cfg: Config, error: Option<LoadError>)
    ensures fresh(cfg) && cfg.modules == modules
    ensures error.None? <==> WellParsed(ParseBy(parse, lines))
    ensures error.None? ==> var ps := ParseBy(parse, lines);
                            cfg.classes == StableSort(ClassesIn(ps)) && cfg.allow == AllowIn(ps)
                            && cfg.bare == BareIn(ps) && cfg.areas == AreasOf(ClassesIn(ps))
    ensures error.Some? && error.value.BadRuleLine?
            ==> 0 < error.value.n <= |lines| && parse(lines[error.value.n - 1]).BadLine?
                && forall i :: 0 <= i < error.value.n - 1 ==> !parse(lines[i]).BadLine?
    ensures error == Some(InconsistentRules) ==> forall i :: 0 <= i < |lines| ==> !parse(lines[i]).BadLine?
  {
    cfg := new Config(modules);
    ghost var ps := ParseBy(parse, lines);
    for n := 0 to |lines|
      invariant fresh(cfg) && cfg.modules == modules && cfg.Holds(ps[..n])
      invariant forall i :: 0 <= i < n ==> !parse(lines[i]).BadLine?
    {
      assert ps[..n] + [ps[n]] == ps[..n + 1];
      var p := parse(lines[n]);
      var ok := cfg.Take(p, ps[..n]);
      if !ok { return cfg, Some(BadRuleLine(n + 1)); }
    }
    assert ps[..|lines|] == ps;
    var ok := cfg.Consistent();
    if !ok { return cfg, Some(InconsistentRules); }
    cfg.classes := StableSort(cfg.classes);
    return cfg, None;
  }

  // loadConfig succeeds exactly on a well-formed file, and then holds its rules with the classes in search order.
  method LoadConfig(lines: seq<string>, modules: seq<string>) returns (cfg: Config, error: Option<LoadError>)
    ensures fresh(cfg) && cfg.modules == modules
    ensures error.None? <==> WellFormed(lines)
    ensures error.None? ==> cfg.classes == StableSort(ClassesOf(lines)) && cfg.allow == AllowOf(lines)
                            && cfg.bare == BareOf(lines) && cfg.areas == AreasOf(ClassesOf(lines))
    ensures error.Some? && error.value.BadRuleLine?
            ==> 0 < error.value.n <= |lines| && Parser()(lines[error.value.n - 1]).BadLine?
                && forall i :: 0 <= i < error.value.n - 1 ==> !Parser()(lines[i]).BadLine?
    ensures error == Some(InconsistentRules) ==> forall i :: 0 <= i < |lines| ==> !Parser()(lines[i]).BadLine?
  {
    cfg, error := LoadLines(lines, Parser(), modules);
  }
}
