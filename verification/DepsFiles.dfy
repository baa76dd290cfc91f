// The tests the import gate makes on file and import paths, said by their texts.
module DepsFiles {
  import opened Text
  import opened Str
  import opened DepsConfig
  import opened DepsCheck

  // ---------- testdata ----------

  // The name stands in the path as a whole segment.
  ghost predicate Stands(path: string, a: string, name: string, b: string) {
    path == a + name + b && (a == "" || a[|a| - 1] == '/') && (b == "" || b[0] == '/')
  }

  // The directory is testdata, or lies in one, at any depth.
  lemma InTestdataIff(dir: string)
    ensures InTestdata(dir) <==> exists a, b :: Stands(dir, a, "testdata", b)
  {
    if InTestdata(dir) {
      JoinOfSplit(dir, '/');
      SegmentStands(Split(dir, '/'), "testdata");
    }
    if a, b :| Stands(dir, a, "testdata", b) { StandsAsSegment(a, "testdata", b); }
  }

  lemma {:induction false} SegmentStands(segs: seq<string>, name: string)
    requires name in segs
    ensures exists a, b :: Stands(Join(segs, '/'), a, name, b)
  {
    if |segs| == 1 {
      assert segs[0] == name && "" + name + "" == name;
      assert Stands(Join(segs, '/'), "", name, "");
    } else {
      var rest := Join(segs[1..], '/');
      if segs[0] == name {
        assert "" + name + (['/'] + rest) == name + ['/'] + rest;
        assert Stands(Join(segs, '/'), "", name, ['/'] + rest);
      } else {
        assert segs == [segs[0]] + segs[1..];
        SegmentStands(segs[1..], name);
        var a, b :| Stands(rest, a, name, b);
        assert segs[0] + ['/'] + (a + name + b) == segs[0] + ['/'] + a + name + b;
        assert Stands(Join(segs, '/'), segs[0] + ['/'] + a, name, b);
      }
    }
  }

  lemma {:induction false} StandsAsSegment(a: string, name: string, b: string)
    requires '/' !in name && (a == "" || a[|a| - 1] == '/') && (b == "" || b[0] == '/')
    ensures name in Split(a + name + b, '/')
  {
    FirstSegment(name, b);
    if a == "" {
      assert a + name + b == name + b;
    } else {
      var above := a[..|a| - 1];
      assert a + name + b == above + ['/'] + (name + b);
      SplitAtSeparator(above, '/', name + b);
    }
  }

  lemma {:induction false} FirstSegment(name: string, b: string)
    requires '/' !in name && (b == "" || b[0] == '/')
    ensures name in Split(name + b, '/')
  {
    SplitOfPlain(name, '/');
    if b == "" {
      assert name + b == name;
    } else {
      assert name + b == name + ['/'] + b[1..];
      SplitAtSeparator(name, '/', b[1..]);
    }
  }

  // ---------- the files of a bare area ----------

  lemma BareFileIff(base: string)
    ensures BareFileName(base) <==> base == "doc.go" || exists t :: base == t + "_test.go"
  {
    SuffixIff(base, "_test.go");
  }

  // ---------- import paths ----------

  // A path of another repository is shown below its name.
  lemma ShownIs(r: Rules, repo: string, rel: string)
    ensures Shown(r, r.self, rel) == rel
    ensures repo != r.self ==> Shown(r, repo, rel) == repo + ['/'] + rel
  {}

  // The count main prints: the imports that lie in some measured module.
  lemma {:induction false} InternalIsCardinality(modules: seq<string>, imports: seq<string>)
    ensures Internal(modules, imports) == |Inner(modules, imports)|
  {
    if imports == [] {
    } else {
      var n := |imports| - 1;
      InternalIsCardinality(modules, imports[..n]);
      InSomeIff(modules, imports[n]);
      OneMore(modules, imports);
    }
  }

  ghost function Inner(modules: seq<string>, imports: seq<string>): set<int> {
    set k | 0 <= k < |imports| && InSome(modules, imports[k])
  }

  lemma {:induction false} OneMore(modules: seq<string>, imports: seq<string>)
    requires imports != []
    ensures var n := |imports| - 1;
            |Inner(modules, imports)| == |Inner(modules, imports[..n])| + if InSome(modules, imports[n]) then 1 else 0
  {
    var n := |imports| - 1;
    assert Inner(modules, imports) == Inner(modules, imports[..n]) + if InSome(modules, imports[n]) then {n} else {};
  }

  ghost predicate InSome(modules: seq<string>, p: string) { exists m :: m in modules && Within(p, m) }

  lemma InSomeIff(modules: seq<string>, p: string)
    ensures RelOf(modules, p).Some? <==> InSome(modules, p)
  {
    var m := RelOfIsInside(modules, p);
  }
}
