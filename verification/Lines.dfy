// Lines of a byte string, and how byte offsets and line numbers correspond.
module Lines {
  import opened Text
  import opened Utf8

  function LinesOf(s: bytes): (ls: seq<bytes>)
    ensures |ls| >= 1
  { Split(s, NL) }

  // strings.Count(s[:off], "\n"): the zero-based line an offset lies on.
  function LineIndex(s: bytes, off: nat): nat
    requires off <= |s|
  { Count(s[..off], NL) }

  // The offset at which line k starts.
  function StartOf(ls: seq<bytes>, k: nat): nat
    requires k <= |ls|
  {
    if k == 0 then 0 else |ls[0]| + 1 + StartOf(ls[1..], k - 1)
  }

  // strings.LastIndexByte(s, '\n'), -1 when there is none.
  function LastNewline(s: bytes): (i: int)
    ensures -1 <= i < |s|
    ensures i >= 0 ==> s[i] == NL
    ensures forall j :: i < j < |s| ==> s[j] != NL
  {
    if s == [] then -1 else if s[|s| - 1] == NL then |s| - 1 else LastNewline(s[..|s| - 1])
  }

  // strings.IndexByte(s[off:], '\n') as an offset of s; the length of s when there is none.
  function NextNewline(s: bytes, off: nat): (i: nat)
    requires off <= |s|
    ensures off <= i <= |s| && (i < |s| ==> s[i] == NL) && forall j :: off <= j < i ==> s[j] != NL
    decreases |s| - off
  {
    if off == |s| || s[off] == NL then off else NextNewline(s, off + 1)
  }

  // The same length, and newlines at the same offsets.
  ghost predicate SameNewlines(a: bytes, b: bytes) {
    |a| == |b| && forall i :: 0 <= i < |a| ==> (a[i] == NL <==> b[i] == NL)
  }

  ghost predicate SameShape(a: seq<bytes>, b: seq<bytes>) {
    |a| == |b| && forall k :: 0 <= k < |a| ==> |a[k]| == |b[k]|
  }

  ghost predicate NewlineFree(ls: seq<bytes>) { forall l :: l in ls ==> NL !in l }

  lemma LinesAreNewlineFree(s: bytes)
    ensures NewlineFree(LinesOf(s)) && Join(LinesOf(s), NL) == s
    ensures |LinesOf(s)| == Count(s, NL) + 1
  {
    JoinOfSplit(s, NL);
  }

  // Lines of the same lengths join to texts with the same newlines.
  lemma {:induction false} JoinSameShape(a: seq<bytes>, b: seq<bytes>)
    requires SameShape(a, b) && NewlineFree(a) && NewlineFree(b)
    ensures SameNewlines(Join(a, NL), Join(b, NL))
  {
    if |a| == 0 {
    } else {
      assert a[0] in a && b[0] in b;
      assert forall i :: 0 <= i < |a[0]| ==> a[0][i] in a[0] && b[0][i] in b[0];
      if |a| > 1 {
        JoinSameShape(a[1..], b[1..]);
      }
    }
  }

  // Texts with the same newlines split into lines of the same lengths.
  lemma {:induction false} SplitSameShape(a: bytes, b: bytes)
    requires SameNewlines(a, b)
    ensures SameShape(LinesOf(a), LinesOf(b))
  {
    if a == [] {
    } else {
      assert a[0] == NL <==> b[0] == NL;
      SplitSameShape(a[1..], b[1..]);
    }
  }

  lemma {:induction false} SameShapeSameStart(a: seq<bytes>, b: seq<bytes>, k: nat)
    requires SameShape(a, b) && k <= |a|
    ensures StartOf(a, k) == StartOf(b, k)
  {
    if k == 0 {
    } else {
      SameShapeSameStart(a[1..], b[1..], k - 1);
    }
  }

  lemma {:induction false} SameNewlinesSameIndex(a: bytes, b: bytes, off: nat)
    requires SameNewlines(a, b) && off <= |a|
    ensures LineIndex(a, off) == LineIndex(b, off)
  {
    if off == 0 {
    } else {
      SameNewlinesSameIndex(a[1..], b[1..], off - 1);
      assert a[..off][1..] == a[1..][..off - 1] && b[..off][1..] == b[1..][..off - 1];
    }
  }

  // Where line k of a joined list sits: at its start offset, between newlines.
  lemma {:induction false} JoinAt(ls: seq<bytes>, k: nat)
    requires k < |ls|
    ensures Sits(Join(ls, NL), StartOf(ls, k), ls[k], k + 1 == |ls|)
  {
    if |ls| <= 1 {
    } else {
      var rest := Join(ls[1..], NL);
      if k > 0 {
        JoinAt(ls[1..], k - 1);
        SitsAfter(ls[0], rest, StartOf(ls[1..], k - 1), ls[k], k + 1 == |ls|);
      }
    }
  }

  // line occupies s from offset from, preceded by a newline or the start, followed by a newline or, when last, the end.
  ghost predicate Sits(s: bytes, from: nat, line: bytes, last: bool) {
    var to := from + |line|;
    && to <= |s| && s[from..to] == line
    && (last <==> to == |s|) && (!last ==> s[to] == NL)
    && (from > 0 ==> s[from - 1] == NL)
  }

  lemma SitsAfter(first: bytes, rest: bytes, from: nat, line: bytes, last: bool)
    requires Sits(rest, from, line, last)
    ensures Sits(first + [NL] + rest, |first| + 1 + from, line, last)
  {
    var s := first + [NL] + rest;
    assert s[|first| + 1..] == rest;
    assert s[|first| + 1 + from..|first| + 1 + from + |line|] == rest[from..from + |line|];
  }

  // Exactly k newlines precede any offset on line k.
  lemma {:induction false} NewlinesBefore(ls: seq<bytes>, k: nat, c: nat)
    requires NewlineFree(ls) && k < |ls| && c <= |ls[k]|
    ensures StartOf(ls, k) + c <= |Join(ls, NL)| && Count(Join(ls, NL)[..StartOf(ls, k) + c], NL) == k
  {
    JoinAt(ls, k);
    if k == 0 {
      FirstLine(ls, c);
    } else {
      assert ls[0] in ls && forall l :: l in ls[1..] ==> l in ls;
      NewlinesBefore(ls[1..], k - 1, c);
      OneLineMore(ls[0], Join(ls[1..], NL), StartOf(ls[1..], k - 1) + c);
    }
  }

  lemma FirstLine(ls: seq<bytes>, c: nat)
    requires NewlineFree(ls) && ls != [] && c <= |ls[0]|
    ensures c <= |Join(ls, NL)| && Count(Join(ls, NL)[..c], NL) == 0
  {
    assert ls[0] in ls;
    assert Join(ls, NL)[..c] == ls[0][..c];
    CountZero(ls[0][..c], NL);
  }

  lemma OneLineMore(first: bytes, rest: bytes, off: nat)
    requires NL !in first && off <= |rest|
    ensures Count((first + [NL] + rest)[..|first| + 1 + off], NL) == 1 + Count(rest[..off], NL)
  {
    assert (first + [NL] + rest)[..|first| + 1 + off] == first + ([NL] + rest[..off]);
    CountZero(first, NL);
    CountAppend(first, [NL] + rest[..off], NL);
    assert ([NL] + rest[..off])[1..] == rest[..off];
  }

  // Every offset of a joined list lies on some line.
  lemma {:induction false} LineOfOffset(ls: seq<bytes>, off: nat) returns (k: nat)
    requires ls != [] && off <= |Join(ls, NL)|
    ensures k < |ls| && StartOf(ls, k) <= off <= StartOf(ls, k) + |ls[k]|
  {
    if off <= |ls[0]| {
      k := 0;
    } else {
      k := LineOfOffset(ls[1..], off - |ls[0]| - 1);
      k := k + 1;
    }
  }

  // An offset lies on the line its newline count names, and on no other.
  lemma Locate(s: bytes, off: nat)
    requires off <= |s|
    ensures var k := LineIndex(s, off);
            k < |LinesOf(s)| && StartOf(LinesOf(s), k) <= off <= StartOf(LinesOf(s), k) + |LinesOf(s)[k]|
  {
    var ls := LinesOf(s);
    LinesAreNewlineFree(s);
    var k := LineOfOffset(ls, off);
    NewlinesBefore(ls, k, off - StartOf(ls, k));
  }
}
