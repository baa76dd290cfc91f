// The line tests of the masks, said byte by byte.
module ProseLines {
  import opened Utf8
  import opened ProseMask
  import opened Trimming
  import ProseBaseline

  // ---------- fence lines ----------

  ghost predicate BlankBytes(a: bytes) {
    forall i :: 0 <= i < |a| ==> a[i] == 9 || a[i] == 10 || a[i] == 12 || a[i] == 13 || a[i] == 32
  }

  ghost predicate FenceAs(l: bytes, a: bytes, rest: bytes) {
    BlankBytes(a) && (l == a + ([96, 96, 96] + rest) || l == a + ([126, 126, 126] + rest))
  }

  // A fence line: ASCII white space, three backticks or three tildes, and anything.
  lemma FenceLineIff(l: bytes)
    ensures FenceLine(l) <==> exists a, rest :: FenceAs(l, a, rest)
  {
    if FenceLine(l) { FenceIsText(l); }
    if a, rest :| FenceAs(l, a, rest) {
      if l == a + ([96, 96, 96] + rest) { SkipOf(a, [96, 96, 96] + rest); } else { SkipOf(a, [126, 126, 126] + rest); }
    }
  }

  lemma {:induction false} FenceIsText(l: bytes)
    requires FenceLine(l)
    ensures exists a, rest :: FenceAs(l, a, rest)
  {
    var a := SkipPart(l);
    var t := SkipBlanks(l);
    assert t == t[..3] + t[3..];
    assert FenceAs(l, a, t[3..]);
  }

  lemma {:induction false} SkipPart(l: bytes) returns (a: bytes)
    ensures BlankBytes(a) && l == a + SkipBlanks(l)
  {
    if l != [] && BlankByte(l[0]) {
      a := SkipPart(l[1..]);
      a := [l[0]] + a;
    } else {
      a := [];
    }
  }

  lemma {:induction false} SkipOf(a: bytes, t: bytes)
    requires BlankBytes(a) && t != [] && !BlankByte(t[0])
    ensures SkipBlanks(a + t) == t
  {
    if a == [] {
      assert a + t == t;
    } else {
      assert (a + t)[1..] == a[1..] + t;
      SkipOf(a[1..], t);
    }
  }

  ghost function Fences(ls: seq<bytes>): set<int> { set j | 0 <= j < |ls| && FenceLine(ls[j]) }

  // The parity that opens and closes fences is that of the number of fence lines.
  lemma {:induction false} FencesAreCounted(ls: seq<bytes>)
    ensures CountFences(ls) == |Fences(ls)|
  {
    if ls == [] {
    } else {
      FencesAreCounted(ls[..|ls| - 1]);
      OneFenceMore(ls);
    }
  }

  lemma OneFenceMore(ls: seq<bytes>)
    requires ls != []
    ensures var n := |ls| - 1; |Fences(ls)| == |Fences(ls[..n])| + if FenceLine(ls[n]) then 1 else 0
  {
    var n := |ls| - 1;
    assert Fences(ls) == Fences(ls[..n]) + if FenceLine(ls[n]) then {n} else {};
  }

  // ---------- comment lines ----------

  ghost predicate CommentAs(l: bytes, xs: seq<int>, rest: bytes) { White(xs) && l == Encode(xs) + ([35] + rest) }

  // A comment line of a shell script: white space of any kind, a hash, and anything.
  lemma CommentLineIff(l: bytes)
    ensures CommentLine(l) <==> exists xs, rest :: CommentAs(l, xs, rest)
  {
    if CommentLine(l) { CommentIsText(l); }
    if xs, rest :| CommentAs(l, xs, rest) {
      TrimLeftOf(xs, [35] + rest);
      ProseBaseline.TrimRightKeepsHead([35] + rest);
    }
  }

  lemma HashFirst(t: bytes, e: bytes)
    requires t != [] && t[0] == 35
    ensures t + e == [35] + (t[1..] + e)
  {}

  lemma {:induction false} CommentParts(l: bytes, xs: seq<int>, t: bytes, ys: seq<int>)
    requires Around(xs, t, ys, l) && t != [] && t[0] == 35
    ensures exists rest :: CommentAs(l, xs, rest)
  {
    HashFirst(t, Encode(ys));
    assert CommentAs(l, xs, t[1..] + Encode(ys));
  }

  lemma {:induction false} CommentIsText(l: bytes)
    requires CommentLine(l)
    ensures exists xs, rest :: CommentAs(l, xs, rest)
  {
    var xs, ys := TrimSpaceParts(l);
    CommentParts(l, xs, TrimSpace(l), ys);
  }
}
