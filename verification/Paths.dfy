// POSIX path operations as Python's os.path defines them, and the law that ties the relative path to the join.
module Paths {
  import opened Text

  // A path component that names something below its directory.
  predicate Segment(x: string) { x != "" && x != "." && x != ".." && '/' !in x }

  ghost predicate Clean(segs: seq<string>) { forall k :: 0 <= k < |segs| ==> Segment(segs[k]) }

  // ---------- normpath ----------

  function NormStep(done: seq<string>, c: string, rooted: bool): seq<string> {
    if c == "" || c == "." then done
    else if c != ".." || (!rooted && done == []) || (done != [] && done[|done| - 1] == "..") then done + [c]
    else if done != [] then done[..|done| - 1]
    else done
  }

  function Normalise(done: seq<string>, comps: seq<string>, rooted: bool): seq<string>
    decreases comps
  {
    if comps == [] then done else Normalise(NormStep(done, comps[0], rooted), comps[1..], rooted)
  }

  // One leading slash stays one, exactly two stay two, and more become one.
  function LeadingSlashes(p: string): string {
    if p == "" || p[0] != '/' then "" else if |p| >= 2 && p[1] == '/' && !(|p| >= 3 && p[2] == '/') then "//" else "/"
  }

  function OrDot(p: string): string { if p == "" then "." else p }

  function NormPath(p: string): string {
    if p == "" then "."
    else OrDot(LeadingSlashes(p) + Join(Normalise([], Split(p, '/'), p[0] == '/'), '/'))
  }

  // ---------- join, dirname, basename, relpath ----------

  function PathJoin(a: string, b: string): string {
    if b != "" && b[0] == '/' then b else if a == "" || a[|a| - 1] == '/' then a + b else a + "/" + b
  }

  function StripSlashes(p: string): string { if p != "" && p[|p| - 1] == '/' then StripSlashes(p[..|p| - 1]) else p }

  // Everything up to the last slash, without its trailing slashes unless it is all slashes.
  function LastSlash(p: string): (i: int)
    ensures -1 <= i < |p| && (i >= 0 ==> p[i] == '/')
  {
    if p == "" then -1 else if p[|p| - 1] == '/' then |p| - 1 else LastSlash(p[..|p| - 1])
  }

  function DirName(p: string): string {
    var head := p[..LastSlash(p) + 1];
    if StripSlashes(head) != "" then StripSlashes(head) else head
  }

  // Everything after the last slash.
  function BaseName(p: string): string {
    if p == "" || p[|p| - 1] == '/' then "" else BaseName(p[..|p| - 1]) + [p[|p| - 1]]
  }

  // The segments of abspath, for a working directory given by its segments.
  function Abs(cwd: seq<string>, p: string): seq<string> {
    if p != "" && p[0] == '/' then Normalise([], Split(p, '/'), true) else Normalise([], cwd + Split(p, '/'), true)
  }

  function Common(a: seq<string>, b: seq<string>): (n: nat)
    ensures n <= |a| && n <= |b| && a[..n] == b[..n]
  {
    if a == [] || b == [] || a[0] != b[0] then 0
    else
      assert a == [a[0]] + a[1..] && b == [b[0]] + b[1..];
      var m := Common(a[1..], b[1..]);
      assert a[..m + 1] == [a[0]] + a[1..][..m] && b[..m + 1] == [b[0]] + b[1..][..m];
      m + 1
  }

  function Ups(n: nat): seq<string> { seq(n, _ => "..") }

  function RelSegments(from: seq<string>, to: seq<string>): seq<string> {
    Ups(|from| - Common(from, to)) + to[Common(from, to)..]
  }

  function RelPath(cwd: seq<string>, path: string, start: string): string {
    OrDot(Join(RelSegments(Abs(cwd, start), Abs(cwd, path)), '/'))
  }

  // ---------- normalising clean and relative components ----------

  lemma {:induction false} NormaliseAppend(done: seq<string>, a: seq<string>, b: seq<string>, rooted: bool)
    ensures Normalise(done, a + b, rooted) == Normalise(Normalise(done, a, rooted), b, rooted)
    decreases a
  {
    if a == [] {
      assert a + b == b;
    } else {
      NormaliseAppend(NormStep(done, a[0], rooted), a[1..], b, rooted);
      assert (a + b)[1..] == a[1..] + b;
    }
  }

  lemma {:induction false} NormaliseClean(done: seq<string>, segs: seq<string>, rooted: bool)
    requires Clean(segs)
    ensures Normalise(done, segs, rooted) == done + segs
    decreases segs
  {
    if segs == [] {
    } else {
      assert Segment(segs[0]);
      NormaliseClean(done + [segs[0]], segs[1..], rooted);
      assert done + [segs[0]] + segs[1..] == done + segs;
    }
  }

  lemma {:induction false} NormaliseUps(done: seq<string>, n: nat, rooted: bool)
    requires Clean(done) && n <= |done|
    ensures Normalise(done, Ups(n), rooted) == done[..|done| - n]
    decreases n
  {
    if n == 0 {
      assert Ups(0) == [] && done[..|done|] == done;
    } else {
      assert Segment(done[|done| - 1]);
      NormaliseUps(done[..|done| - 1], n - 1, rooted);
      assert Ups(n)[1..] == Ups(n - 1);
    }
  }

  // Going up to the common ancestor and down again reaches the other path.
  lemma RelSegmentsLead(from: seq<string>, to: seq<string>)
    requires Clean(from) && Clean(to)
    ensures Normalise([], from + RelSegments(from, to), false) == to
  {
    var n := Common(from, to);
    NormaliseAppend([], from, RelSegments(from, to), false);
    NormaliseClean([], from, false);
    assert [] + from == from;
    NormaliseAppend(from, Ups(|from| - n), to[n..], false);
    NormaliseUps(from, |from| - n, false);
    NormaliseClean(from[..n], to[n..], false);
    assert from[..|from| - (|from| - n)] == from[..n] && to[..n] + to[n..] == to;
  }

  lemma {:induction false} CommonUnder(cwd: seq<string>, a: seq<string>, b: seq<string>)
    ensures Common(cwd + a, cwd + b) == |cwd| + Common(a, b)
  {
    if cwd == [] {
      assert cwd + a == a && cwd + b == b;
    } else {
      CommonUnder(cwd[1..], a, b);
      assert (cwd + a)[1..] == cwd[1..] + a && (cwd + b)[1..] == cwd[1..] + b;
    }
  }

  // Two paths below one directory are related to each other as they are from there.
  lemma RelSegmentsUnder(cwd: seq<string>, a: seq<string>, b: seq<string>)
    ensures RelSegments(cwd + a, cwd + b) == RelSegments(a, b)
  {
    CommonUnder(cwd, a, b);
  }

  // ---------- paths as text ----------

  // A path text that stands for a list of clean segments; the directory itself is the empty text or a dot.
  ghost predicate Names(p: string, segs: seq<string>) {
    Clean(segs) && (if segs == [] then p == "" || p == "." else p == Join(segs, '/'))
  }

  lemma CleanSplits(segs: seq<string>)
    requires Clean(segs) && segs != []
    ensures Split(Join(segs, '/'), '/') == segs
    ensures Join(segs, '/') != "" && Join(segs, '/')[0] == segs[0][0] != '/'
    ensures Join(segs, '/')[|Join(segs, '/')| - 1] != '/'
  {
    SplitOfJoin(segs, '/');
    JoinStarts(segs);
    JoinEnds(segs);
  }

  lemma JoinStarts(segs: seq<string>)
    requires segs != [] && segs[0] != "" && '/' !in segs[0]
    ensures Join(segs, '/') != "" && Join(segs, '/')[0] == segs[0][0] != '/'
  {}

  lemma {:induction false} JoinEnds(segs: seq<string>)
    requires segs != [] && Clean(segs)
    ensures Join(segs, '/') != "" && Join(segs, '/')[|Join(segs, '/')| - 1] != '/'
  {
    assert Segment(segs[0]);
    if |segs| > 1 { JoinEnds(segs[1..]); }
  }

  lemma AbsOfNamed(cwd: seq<string>, p: string, segs: seq<string>)
    requires Clean(cwd) && Names(p, segs)
    ensures Abs(cwd, p) == cwd + segs
  {
    if segs == [] {
      var comps := Split(p, '/');
      SplitOfPlain(p, '/');
      NormaliseAppend([], cwd, comps, true);
      NormaliseClean([], cwd, true);
      assert [] + cwd == cwd && cwd + [] == cwd;
      assert Normalise(cwd, comps, true) == Normalise(NormStep(cwd, comps[0], true), comps[1..], true);
    } else {
      CleanSplits(segs);
      NormaliseClean([], cwd + segs, true);
      assert [] + (cwd + segs) == cwd + segs;
    }
  }

  lemma RelPathOfNamed(cwd: seq<string>, path: string, to: seq<string>, start: string, from: seq<string>)
    requires Clean(cwd) && Names(path, to) && Names(start, from)
    ensures RelPath(cwd, path, start) == OrDot(Join(RelSegments(from, to), '/'))
  {
    AbsOfNamed(cwd, path, to);
    AbsOfNamed(cwd, start, from);
    RelSegmentsUnder(cwd, from, to);
  }

  // A joined path normalises to its components, normalised.
  lemma NormPathOfJoin(comps: seq<string>)
    requires comps != [] && comps[0] != "" && forall k :: 0 <= k < |comps| ==> '/' !in comps[k]
    ensures NormPath(Join(comps, '/')) == OrDot(Join(Normalise([], comps, false), '/'))
  {
    JoinStarts(comps);
    SplitOfJoin(comps, '/');
  }

  lemma NormPathOfNamed(segs: seq<string>)
    requires Clean(segs) && segs != []
    ensures NormPath(Join(segs, '/')) == Join(segs, '/')
  {
    assert Segment(segs[0]);
    forall k | 0 <= k < |segs| ensures '/' !in segs[k] { assert Segment(segs[k]); }
    NormPathOfJoin(segs);
    NormaliseClean([], segs, false);
    assert [] + segs == segs;
    JoinStarts(segs);
  }

  lemma RelSegmentsArePlain(from: seq<string>, to: seq<string>)
    requires Clean(to)
    ensures forall k :: 0 <= k < |RelSegments(from, to)|
              ==> RelSegments(from, to)[k] != "" && '/' !in RelSegments(from, to)[k]
  {
    var n := Common(from, to);
    forall k | 0 <= k < |RelSegments(from, to)|
      ensures RelSegments(from, to)[k] != "" && '/' !in RelSegments(from, to)[k]
    {
      if k >= |from| - n { assert Segment(to[n + (k - (|from| - n))]); }
    }
  }

  // Joining a directory with plain components is joining their lists.
  lemma PathJoinOfLists(from: seq<string>, rel: seq<string>)
    requires Clean(from) && rel != [] && rel[0] != "" && '/' !in rel[0]
    ensures PathJoin(Join(from, '/'), Join(rel, '/')) == Join(from + rel, '/')
  {
    JoinStarts(rel);
    if from == [] {
      assert from + rel == rel;
    } else {
      CleanSplits(from);
      JoinAppend(from, rel, '/');
    }
  }

  // The relative path from one directory to a path, joined to that directory and normalised, is that path; with a
  // slash appended it still is.
  lemma RelPathResolves(cwd: seq<string>, path: string, to: seq<string>, start: string, from: seq<string>)
    requires Clean(cwd) && Names(path, to) && Names(start, from)
    ensures NormPath(PathJoin(Join(from, '/'), RelPath(cwd, path, start))) == OrDot(Join(to, '/'))
    ensures NormPath(PathJoin(Join(from, '/'), RelPath(cwd, path, start) + "/")) == OrDot(Join(to, '/'))
  {
    RelPathOfNamed(cwd, path, to, start, from);
    var rel := RelSegments(from, to);
    RelSegmentsArePlain(from, to);
    RelSegmentsLead(from, to);
    if rel == [] {
      assert from + [] == from;
      SameDirectory(from, to);
    } else {
      JoinStarts(rel);
      RelResolves(from, rel);
    }
  }

  lemma RelResolves(from: seq<string>, rel: seq<string>)
    requires Clean(from) && rel != [] && forall k :: 0 <= k < |rel| ==> rel[k] != "" && '/' !in rel[k]
    ensures NormPath(PathJoin(Join(from, '/'), Join(rel, '/'))) == OrDot(Join(Normalise([], from + rel, false), '/'))
    ensures NormPath(PathJoin(Join(from, '/'), Join(rel, '/') + "/"))
            == OrDot(Join(Normalise([], from + rel, false), '/'))
  {
    forall k | 0 <= k < |from| ensures '/' !in from[k] && from[k] != "" { assert Segment(from[k]); }
    PathJoinOfLists(from, rel);
    NormPathOfJoin(from + rel);
    JoinAppend(rel, [""], '/');
    assert Join(rel + [""], '/') == Join(rel, '/') + "/";
    PathJoinOfLists(from, rel + [""]);
    assert from + (rel + [""]) == (from + rel) + [""];
    NormPathOfJoin(from + rel + [""]);
    TrailingSlash(from + rel);
  }

  lemma TrailingSlash(comps: seq<string>)
    ensures Normalise([], comps + [""], false) == Normalise([], comps, false)
  {
    NormaliseAppend([], comps, [""], false);
    assert [""][1..] == [];
  }

  lemma SameDirectory(from: seq<string>, to: seq<string>)
    requires Clean(from) && Normalise([], from, false) == to
    ensures NormPath(PathJoin(Join(from, '/'), ".")) == OrDot(Join(to, '/'))
    ensures NormPath(PathJoin(Join(from, '/'), "." + "/")) == OrDot(Join(to, '/'))
  {
    DotTexts();
    DotsVanish(from, ["."]);
    DotsVanish(from, [".", ""]);
  }

  lemma DotTexts()
    ensures Join(["."], '/') == "." && Join([".", ""], '/') == "." + "/"
  {
    assert [".", ""][1..] == [""] && Join([""], '/') == "";
  }

  lemma DotsVanish(from: seq<string>, dots: seq<string>)
    requires Clean(from) && (dots == ["."] || dots == [".", ""])
    ensures NormPath(PathJoin(Join(from, '/'), Join(dots, '/'))) == OrDot(Join(Normalise([], from, false), '/'))
  {
    forall k | 0 <= k < |from| ensures '/' !in from[k] && from[k] != "" { assert Segment(from[k]); }
    PathJoinOfLists(from, dots);
    NormPathOfJoin(from + dots);
    NormaliseAppend([], from, dots, false);
    NormaliseDots(Normalise([], from, false), dots);
  }

  lemma NormaliseDots(done: seq<string>, dots: seq<string>)
    requires dots == ["."] || dots == [".", ""]
    ensures Normalise(done, dots, false) == done
  {
    var rest := dots[1..];
    assert Normalise(done, dots, false) == Normalise(done, rest, false);
    if dots == [".", ""] {
      assert rest == [""] && rest[1..] == [];
    }
  }

  // ---------- directory and base name of a clean path ----------

  lemma {:induction false} LastSlashIn(a: string, b: string)
    requires '/' !in b
    ensures LastSlash(a + b) == LastSlash(a)
  {
    if b == "" {
      assert a + b == a;
    } else {
      assert (a + b)[|a + b| - 1] == b[|b| - 1] != '/';
      LastSlashIn(a, b[..|b| - 1]);
      assert (a + b)[..|a + b| - 1] == a + b[..|b| - 1];
    }
  }

  lemma {:induction false} BaseIn(a: string, b: string)
    requires '/' !in b
    ensures BaseName(a + b) == BaseName(a) + b
  {
    if b == "" {
      assert a + b == a;
    } else {
      var n := |b| - 1;
      BaseIn(a, b[..n]);
      assert (a + b)[..|a + b| - 1] == a + b[..n] && (a + b)[|a + b| - 1] == b[n] != '/';
      assert b == b[..n] + [b[n]];
      assert BaseName(a) + b[..n] + [b[n]] == BaseName(a) + (b[..n] + [b[n]]);
    }
  }

  lemma DirAndBase(segs: seq<string>)
    requires Clean(segs) && segs != []
    ensures DirName(Join(segs, '/')) == Join(segs[..|segs| - 1], '/')
    ensures BaseName(Join(segs, '/')) == segs[|segs| - 1]
  {
    assert Segment(segs[|segs| - 1]);
    if |segs| == 1 {
      DirOfOne(segs[0]);
    } else {
      JoinOfLast(segs, '/');
      JoinEnds(segs[..|segs| - 1]);
      DirOfSum(Join(segs[..|segs| - 1], '/'), segs[|segs| - 1]);
    }
  }

  lemma DirOfOne(base: string)
    requires '/' !in base
    ensures DirName(base) == "" && BaseName(base) == base
  {
    LastSlashIn("", base);
    BaseIn("", base);
    assert "" + base == base && base[..0] == "";
  }

  lemma DirOfSum(dir: string, base: string)
    requires '/' !in base && dir != "" && dir[|dir| - 1] != '/'
    ensures DirName(dir + ['/'] + base) == dir && BaseName(dir + ['/'] + base) == base
  {
    LastSlashIn(dir + ['/'], base);
    BaseIn(dir + ['/'], base);
    HeadOfSum(dir, base);
  }

  lemma HeadOfSum(dir: string, base: string)
    requires dir != "" && dir[|dir| - 1] != '/'
    ensures (dir + ['/'] + base)[..|dir| + 1] == dir + ['/'] && StripSlashes(dir + ['/']) == dir
    ensures BaseName(dir + ['/']) == "" && LastSlash(dir + ['/']) == |dir|
  {
    assert (dir + ['/'])[..|dir|] == dir;
  }

  // ---------- corners ----------

  // The path taken in common is the longest one.
  lemma {:induction false} CommonIsLongest(a: seq<string>, b: seq<string>)
    ensures var n := Common(a, b); n == |a| || n == |b| || a[n] != b[n]
  {
    if a == [] || b == [] || a[0] != b[0] {
    } else {
      CommonIsLongest(a[1..], b[1..]);
    }
  }

  ghost predicate AllNames(segs: seq<string>) {
    forall k :: 0 <= k < |segs| ==> segs[k] != "" && segs[k] != "." && segs[k] != ".."
  }

  lemma {:induction false} RootedIsNamed(done: seq<string>, comps: seq<string>)
    requires AllNames(done)
    ensures AllNames(Normalise(done, comps, true))
    decreases comps
  {
    if comps != [] { RootedIsNamed(NormStep(done, comps[0], true), comps[1..]); }
  }

  // An absolute path names directories only: no step up is left, not even above the root; and the working directory
  // does not matter to a path that is absolute already.
  lemma AbsIsNamed(cwd: seq<string>, p: string)
    ensures AllNames(Abs(cwd, p))
    ensures p != "" && p[0] == '/' ==> Abs(cwd, p) == Abs([], p)
  {
    RootedIsNamed([], Split(p, '/'));
    RootedIsNamed([], cwd + Split(p, '/'));
  }

  ghost function Slashes(n: nat): string { seq(n, i => '/') }

  // Two leading slashes stay, and any other number of them is one.
  lemma LeadingSlashesAre(n: nat, rest: string)
    requires rest == "" || rest[0] != '/'
    ensures LeadingSlashes(Slashes(n) + rest) == if n == 0 then "" else if n == 2 then "//" else "/"
  {
    if n == 0 { assert Slashes(n) + rest == rest; }
  }

  // Nothing and the directory itself are the dot.
  lemma NothingIsTheDot()
    ensures NormPath("") == "." && NormPath(".") == "."
  {
    SplitOfPlain(".", '/');
    assert Normalise([], ["."], false) == [];
  }

  // Steps up that nothing is left for stay, however many there are.
  lemma {:induction false} UpsStay(n: nat)
    ensures Normalise([], Ups(n), false) == Ups(n)
  {
    if n > 0 {
      UpsStay(n - 1);
      NormaliseAppend([], Ups(n - 1), [".."], false);
      assert Ups(n) == Ups(n - 1) + [".."];
      assert Normalise(Ups(n - 1), [".."], false) == NormStep(Ups(n - 1), "..", false);
    }
  }
}
