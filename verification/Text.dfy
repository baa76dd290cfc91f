// The text operations every core shares: splitting at a one-element separator, joining, counting, and searching,
// over any element type (bytes for Go strings, characters for Python strings).
module Text {

  datatype Option<+T> = None | Some(value: T)

  // strings.Split and str.split with a one-element separator: always at least one field.
  function Split<T(==)>(s: seq<T>, sep: T): (fields: seq<seq<T>>)
    ensures |fields| >= 1
  {
    if s == [] then [[]]
    else
      var rest := Split(s[1..], sep);
      if s[0] == sep then [[]] + rest else [[s[0]] + rest[0]] + rest[1..]
  }

  // strings.Join and str.join with a one-element separator.
  function Join<T>(fields: seq<seq<T>>, sep: T): seq<T> {
    if fields == [] then []
    else if |fields| == 1 then fields[0]
    else fields[0] + [sep] + Join(fields[1..], sep)
  }

  function Count<T(==)>(s: seq<T>, x: T): nat {
    if s == [] then 0 else (if s[0] == x then 1 else 0) + Count(s[1..], x)
  }

  // The slice s[from:to], said element by element.
  function Cut<T>(s: seq<T>, from: nat, to: nat): (t: seq<T>)
    requires from <= to <= |s|
    ensures |t| == to - from && forall i :: 0 <= i < |t| ==> t[i] == s[from + i]
  {
    seq(to - from, i requires 0 <= i < to - from => s[from + i])
  }

  lemma CutIsSlice<T>(s: seq<T>, from: nat, to: nat)
    requires from <= to <= |s|
    ensures Cut(s, from, to) == s[from..to]
  {}

  // f of every element.
  function Map<A, B>(f: A -> B, s: seq<A>): (t: seq<B>)
    ensures |t| == |s| && forall i :: 0 <= i < |s| ==> t[i] == f(s[i])
  {
    seq(|s|, i requires 0 <= i < |s| => f(s[i]))
  }

  lemma MapLast<A, B>(f: A -> B, s: seq<A>)
    requires s != []
    ensures Map(f, s) == Map(f, s[..|s| - 1]) + [f(s[|s| - 1])]
  {}

  // strings.Contains.
  ghost predicate Occurs<T>(w: seq<T>, s: seq<T>) {
    exists i :: OccursAt(w, s, i)
  }

  ghost predicate OccursAt<T>(w: seq<T>, s: seq<T>, i: int) {
    0 <= i <= |s| - |w| && s[i..i + |w|] == w
  }

  lemma OccursAtByte<T>(w: seq<T>, s: seq<T>, i: int, j: nat)
    requires OccursAt(w, s, i) && j < |w|
    ensures w[j] == s[i + j]
  {
    assert s[i..i + |w|][j] == s[i + j];
  }

  // Every field of a split is free of the separator, and joining restores the text.
  lemma {:induction false} JoinOfSplit<T>(s: seq<T>, sep: T)
    ensures Join(Split(s, sep), sep) == s
    ensures forall f :: f in Split(s, sep) ==> sep !in f
    ensures |Split(s, sep)| == Count(s, sep) + 1
  {
    if s == [] {
    } else {
      JoinOfSplit(s[1..], sep);
      var rest := Split(s[1..], sep);
      assert s == [s[0]] + s[1..];
      if s[0] == sep {
        assert ([[]] + rest)[1..] == rest;
      } else {
        JoinPrefixed(s[0], rest, sep);
        forall f | f in Split(s, sep) ensures sep !in f {
          if f == [s[0]] + rest[0] { assert rest[0] in rest; } else { assert f in rest[1..]; }
        }
      }
    }
  }

  lemma JoinPrefixed<T>(x: T, rest: seq<seq<T>>, sep: T)
    requires rest != []
    ensures Join([[x] + rest[0]] + rest[1..], sep) == [x] + Join(rest, sep)
  {
    var all := [[x] + rest[0]] + rest[1..];
    assert all[1..] == rest[1..];
    if |rest| > 1 {
      assert [x] + rest[0] + [sep] + Join(rest[1..], sep) == [x] + (rest[0] + [sep] + Join(rest[1..], sep));
    }
  }

  lemma {:induction false} SplitOfPlain<T>(f: seq<T>, sep: T)
    requires sep !in f
    ensures Split(f, sep) == [f]
  {
    if f == [] {
    } else {
      SplitOfPlain(f[1..], sep);
      assert f == [f[0]] + f[1..];
    }
  }

  // Splitting distributes over a separator.
  lemma {:induction false} SplitAtSeparator<T>(a: seq<T>, sep: T, b: seq<T>)
    ensures Split(a + [sep] + b, sep) == Split(a, sep) + Split(b, sep)
  {
    var s := a + [sep] + b;
    if a == [] {
      assert s[1..] == b;
      assert Split(a, sep) == [[]];
    } else {
      SplitAtSeparator(a[1..], sep, b);
      assert s[0] == a[0] && s[1..] == a[1..] + [sep] + b;
      SplitHeadAppend(a, sep, s, Split(b, sep));
    }
  }

  lemma SplitHeadAppend<T>(a: seq<T>, sep: T, s: seq<T>, more: seq<seq<T>>)
    requires a != [] && s != [] && s[0] == a[0]
    requires Split(s[1..], sep) == Split(a[1..], sep) + more
    ensures Split(s, sep) == Split(a, sep) + more
  {
    var ra := Split(a[1..], sep);
    if a[0] == sep {
      Associate([[]], ra, more);
    } else {
      assert (ra + more)[0] == ra[0] && (ra + more)[1..] == ra[1..] + more;
      Associate([[a[0]] + ra[0]], ra[1..], more);
    }
  }

  lemma Associate<T>(a: seq<T>, b: seq<T>, c: seq<T>)
    ensures a + (b + c) == a + b + c
  {}

  lemma SplitOfThree<T>(a: seq<T>, b: seq<T>, c: seq<T>, sep: T)
    requires sep !in a && sep !in b && sep !in c
    ensures Split(a + [sep] + b + [sep] + c, sep) == [a, b, c]
  {
    SplitAtSeparator(a + [sep] + b, sep, c);
    SplitAtSeparator(a, sep, b);
    SplitOfPlain(a, sep);
    SplitOfPlain(b, sep);
    SplitOfPlain(c, sep);
  }

  // Joining separator-free fields and splitting again gives the fields back.
  lemma {:induction false} SplitOfJoin<T>(fields: seq<seq<T>>, sep: T)
    requires fields != []
    requires forall f :: f in fields ==> sep !in f
    ensures Split(Join(fields, sep), sep) == fields
  {
    SplitOfPlain(fields[0], sep);
    if |fields| <= 1 {
      assert fields == [fields[0]];
    } else {
      SplitOfJoin(fields[1..], sep);
      SplitAtSeparator(fields[0], sep, Join(fields[1..], sep));
      assert fields == [fields[0]] + fields[1..];
    }
  }

  // Lines, each ended by the separator.
  function Unlines<T>(ls: seq<seq<T>>, sep: T): seq<T> {
    if ls == [] then [] else Unlines(ls[..|ls| - 1], sep) + ls[|ls| - 1] + [sep]
  }

  lemma {:induction false} JoinLast<T>(done: seq<seq<T>>, line: seq<T>, sep: T)
    ensures Join(done + [[]], sep) + line + [sep] == Join(done + [line, []], sep)
  {
    if done == [] {
      assert done + [[]] == [[]] && done + [line, []] == [line, []];
      assert Join([line, []], sep) == line + [sep] + Join([line, []][1..], sep);
    } else {
      JoinLast(done[1..], line, sep);
      var a, b := done + [[]], done + [line, []];
      assert a[1..] == done[1..] + [[]] && b[1..] == done[1..] + [line, []];
      assert done[0] + [sep] + (Join(a[1..], sep) + line + [sep]) == done[0] + [sep] + Join(a[1..], sep) + line + [sep];
    }
  }

  lemma {:induction false} UnlinesIsJoin<T>(ls: seq<seq<T>>, sep: T)
    ensures Unlines(ls, sep) == Join(ls + [[]], sep)
  {
    if ls == [] {
      assert ls + [[]] == [[]];
    } else {
      var n := |ls| - 1;
      UnlinesIsJoin(ls[..n], sep);
      JoinLast(ls[..n], ls[n], sep);
      assert ls[..n] + [ls[n], []] == ls + [[]];
    }
  }

  // Splitting ended lines gives the lines and an empty last field.
  lemma SplitOfUnlines<T>(ls: seq<seq<T>>, sep: T)
    requires forall i :: 0 <= i < |ls| ==> sep !in ls[i]
    ensures Split(Unlines(ls, sep), sep) == ls + [[]]
  {
    EndedFields(ls, sep);
    SplitOfJoin(ls + [[]], sep);
    UnlinesIsJoin(ls, sep);
  }

  lemma EndedFields<T>(ls: seq<seq<T>>, sep: T)
    requires forall i :: 0 <= i < |ls| ==> sep !in ls[i]
    ensures forall f :: f in ls + [[]] ==> sep !in f
  {
    assert forall f :: f in ls ==> sep !in f;
  }

  // Joining keeps a separator between two non-empty lists of fields.
  lemma {:induction false} JoinAppend<T>(a: seq<seq<T>>, b: seq<seq<T>>, sep: T)
    requires a != [] && b != []
    ensures Join(a + b, sep) == Join(a, sep) + [sep] + Join(b, sep)
  {
    if |a| == 1 {
      assert (a + b)[1..] == b;
    } else {
      JoinAppend(a[1..], b, sep);
      assert (a + b)[1..] == a[1..] + b;
      assert a[0] + [sep] + (Join(a[1..], sep) + [sep] + Join(b, sep))
          == (a[0] + [sep] + Join(a[1..], sep)) + [sep] + Join(b, sep);
    }
  }

  // The last field of a joined list.
  lemma {:induction false} JoinOfLast<T>(fields: seq<seq<T>>, sep: T)
    requires |fields| > 1
    ensures Join(fields, sep) == Join(fields[..|fields| - 1], sep) + [sep] + fields[|fields| - 1]
  {
    var n := |fields| - 1;
    if n == 1 {
      assert fields[1..][0] == fields[1] && fields[..1][0] == fields[0];
    } else {
      JoinOfLast(fields[1..], sep);
      assert fields[1..][..n - 1] == fields[..n][1..];
      Associate(fields[0] + [sep], Join(fields[1..][..n - 1], sep) + [sep], fields[n]);
      Associate(fields[0] + [sep], Join(fields[1..][..n - 1], sep), [sep]);
    }
  }

  lemma {:induction false} CountAppend<T>(a: seq<T>, b: seq<T>, x: T)
    ensures Count(a + b, x) == Count(a, x) + Count(b, x)
  {
    if a == [] {
      assert a + b == b;
    } else {
      CountAppend(a[1..], b, x);
      assert (a + b)[1..] == a[1..] + b;
    }
  }

  lemma {:induction false} CountZero<T>(s: seq<T>, x: T)
    ensures Count(s, x) == 0 <==> x !in s
  {
    if s == [] {
    } else {
      CountZero(s[1..], x);
      assert s == [s[0]] + s[1..];
    }
  }

  lemma OccursInContext<T>(w: seq<T>, a: seq<T>, s: seq<T>, b: seq<T>)
    requires Occurs(w, s)
    ensures Occurs(w, a + s + b)
  {
    var i :| OccursAt(w, s, i);
    assert (a + s + b)[|a| + i..|a| + i + |w|] == s[i..i + |w|];
    assert OccursAt(w, a + s + b, |a| + i);
  }

  lemma {:induction false} UnlinesAppend<T>(a: seq<seq<T>>, b: seq<seq<T>>, sep: T)
    ensures Unlines(a + b, sep) == Unlines(a, sep) + Unlines(b, sep)
  {
    if b == [] {
      assert a + b == a;
    } else {
      var n := |b| - 1;
      UnlinesAppend(a, b[..n], sep);
      assert (a + b)[..|a| + n] == a + b[..n];
      assert Unlines(a, sep) + (Unlines(b[..n], sep) + b[n] + [sep])
          == Unlines(a, sep) + Unlines(b[..n], sep) + b[n] + [sep];
    }
  }
}
