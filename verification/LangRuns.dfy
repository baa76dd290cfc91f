// Running the language switch again: exactly when a later run gives what a first run would have given.
module LangRuns {
  import opened Text
  import opened LangText
  import opened LangLaid
  import opened LangAttribute

  // One run over a page: strip it, lay the switch, and set the language of a Korean page. None when the page has no
  // end of body, where the original stops.
  function Run(m: Marks, t: Lang, korean: bool, h: string, link: string): Option<string>
    requires Sized(m)
  {
    match Apply(m, h, link) case None => None case Some(r) => Some(if korean then SetLang(t, r) else r)
  }

  // A word in which no tag starts as ours does.
  ghost predicate Shy(w: string, tag: string)
    requires |tag| > 1
  {
    |w| > 1 && w[0] == '<' && forall i :: 0 <= i < |w| && w[i] == '<' ==> i + 1 < |w| && w[i + 1] != tag[1]
  }

  // The tag is none of the texts of the pass, and its value is one or two letters long.
  ghost predicate GoodLang(m: Marks, t: Lang) {
    && OneTag(t.tag) && IsLang(t.value) && |t.value| <= 2
    && Shy(m.open, t.tag) && Shy(m.close, t.tag) && Shy(m.style, t.tag) && Shy(m.body, t.tag)
  }

  // ---------- setting an attribute moves nothing else ----------

  lemma {:induction false} AttributeIsOneTag(t: Lang, x: string)
    requires OneTag(t.tag) && IsLang(x)
    ensures var r := Attribute(t, x);
            |r| > 1 && r[0] == '<' && r[1] == t.tag[1] && forall i :: 0 < i < |r| ==> r[i] != '<'
  {
    var r := Attribute(t, x);
    forall i | 0 < i < |r| ensures r[i] != '<' {
      if |t.tag| <= i < |t.tag| + |x| { assert r[i] == x[i - |t.tag|]; }
    }
  }

  // A word stands before the attribute, or after it.
  lemma {:induction false} NotInAttribute(t: Lang, x: string, w: string, u: string, v: string, i: nat)
    requires OneTag(t.tag) && IsLang(x) && Shy(w, t.tag) && At(u + (Attribute(t, x) + v), w, i)
    ensures i + |w| <= |u| || i >= |u| + |Attribute(t, x)|
  {
    var r := Attribute(t, x);
    AttributeLength(t, x);
    AttributeIsOneTag(t, x);
    if |u| <= i < |u| + |r| {
      CharOf(w, u, r, v, i, 0);
      CharOf(w, u, r, v, i, 1);
    } else if i < |u| < i + |w| {
      CharOf(w, u, r, v, i, |u| - i);
      CharOf(w, u, r, v, i, |u| - i + 1);
    }
  }

  lemma CharOf(w: string, u: string, r: string, v: string, i: nat, k: nat)
    requires At(u + (r + v), w, i) && k < |w| && |u| <= i + k < |u| + |r|
    ensures w[k] == r[i + k - |u|]
  {
    assert (u + (r + v))[i + k] == w[k];
  }

  // Where it stands when the attribute has another value.
  function Moved(u: string, x: string, y: string, i: nat): int { if i < |u| then i else i + |y| - |x| }

  lemma {:induction false} WordMoves(t: Lang, x: string, y: string, w: string, u: string, v: string, i: nat)
    requires OneTag(t.tag) && IsLang(x) && IsLang(y) && Shy(w, t.tag) && At(u + (Attribute(t, x) + v), w, i)
    ensures i + |w| <= |u| || i >= |u| + |Attribute(t, x)|
    ensures Moved(u, x, y, i) >= 0 && At(u + (Attribute(t, y) + v), w, Moved(u, x, y, i))
  {
    var r, q := Attribute(t, x), Attribute(t, y);
    NotInAttribute(t, x, w, u, v, i);
    AttributeLength(t, x);
    AttributeLength(t, y);
    if i < |u| {
      LeftOf(w, u, r + v, i);
      AtInLeft(w, u, q + v, i);
    } else {
      AtInRight(w, u, r + v, i);
      AtInRight(w, r, v, i - |u|);
      var n := i - |u| - |r|;
      AtInRight(w, q, v, n + |q|);
      AtInRight(w, u, q + v, n + |q| + |u|);
    }
  }

  lemma LeftOf(w: string, p: string, q: string, i: nat)
    requires At(p + q, w, i) && i + |w| <= |p|
    ensures At(p, w, i)
  {
    forall k | 0 <= k < |w| ensures p[i + k] == w[k] { assert (p + q)[i + k] == p[i + k]; }
  }

  lemma {:induction false} NoneMoves(t: Lang, x: string, y: string, w: string, u: string, v: string)
    requires OneTag(t.tag) && IsLang(x) && IsLang(y) && Shy(w, t.tag) && NoneIn(u + (Attribute(t, x) + v), w)
    ensures NoneIn(u + (Attribute(t, y) + v), w)
  {
    forall i: nat ensures !At(u + (Attribute(t, y) + v), w, i) {
      if At(u + (Attribute(t, y) + v), w, i) { WordMoves(t, y, x, w, u, v, i); }
    }
  }

  lemma {:induction false} UnclosedMoves(m: Marks, t: Lang, x: string, y: string, u: string, v: string)
    requires GoodLang(m, t) && IsLang(x) && IsLang(y) && UnclosedFrom(m, u + (Attribute(t, x) + v), 0)
    ensures UnclosedFrom(m, u + (Attribute(t, y) + v), 0)
  {
    var h := u + (Attribute(t, y) + v);
    forall i: nat, j: nat | i + |m.open| <= j && At(h, m.open, i) && At(h, m.close, j) ensures false {
      WordMoves(t, y, x, m.open, u, v, i);
      WordMoves(t, y, x, m.close, u, v, j);
    }
  }

  // Whether a page is settled does not depend on the value.
  lemma {:induction false} SettledMovesBefore(m: Marks, t: Lang, x: string, y: string, u: string, v: string, b: string)
    requires GoodLang(m, t) && IsLang(x) && IsLang(y) && Settled(m, u + (Attribute(t, x) + v), b)
    ensures Settled(m, u + (Attribute(t, y) + v), b)
  {
    NoneMoves(t, x, y, m.open, u, v);
    NoneMoves(t, x, y, m.style, u, v);
  }

  lemma {:induction false} SettledMovesAfter(m: Marks, t: Lang, x: string, y: string, a: string, u: string, v: string)
    requires GoodLang(m, t) && IsLang(x) && IsLang(y) && Settled(m, a, u + (Attribute(t, x) + v))
    ensures Settled(m, a, u + (Attribute(t, y) + v))
  {
    NoneMoves(t, x, y, m.style, u, v);
    UnclosedMoves(m, t, x, y, u, v);
  }

  // b starts with the first end of body of the page a + b.
  ghost predicate BodyAt(m: Marks, a: string, b: string) {
    At(a + b, m.body, |a|) && forall j :: 0 <= j < |a| ==> !At(a + b, m.body, j)
  }

  lemma {:induction false} BodyMovesBefore(m: Marks, t: Lang, x: string, y: string, u: string, v: string, b: string)
    requires GoodLang(m, t) && IsLang(x) && IsLang(y) && BodyAt(m, u + (Attribute(t, x) + v), b)
    ensures BodyAt(m, u + (Attribute(t, y) + v), b)
  {
    AttributeLength(t, x);
    AttributeLength(t, y);
    Inwards(u, Attribute(t, x), v, b);
    Inwards(u, Attribute(t, y), v, b);
    WordMoves(t, x, y, m.body, u, v + b, |u| + |Attribute(t, x)| + |v|);
    forall j | 0 <= j < |u| + |Attribute(t, y)| + |v| && At(u + (Attribute(t, y) + (v + b)), m.body, j) ensures false {
      WordMoves(t, y, x, m.body, u, v + b, j);
    }
  }

  lemma Inwards(u: string, r: string, v: string, b: string)
    ensures u + (r + v) + b == u + (r + (v + b)) && |u + (r + v)| == |u| + |r| + |v|
  {}

  lemma {:induction false} BodyMovesAfter(m: Marks, t: Lang, x: string, y: string, a: string, u: string, v: string)
    requires GoodLang(m, t) && IsLang(x) && IsLang(y) && BodyAt(m, a, u + (Attribute(t, x) + v))
    ensures BodyAt(m, a, u + (Attribute(t, y) + v)) && u != "" && u[0] == '<'
  {
    AttributeLength(t, x);
    AttributeLength(t, y);
    Associate(a, u, Attribute(t, x) + v);
    Associate(a, u, Attribute(t, y) + v);
    WordMoves(t, x, y, m.body, a + u, v, |a|);
    assert (a + u + (Attribute(t, x) + v))[|a| + 0] == m.body[0];
    assert (a + u)[|a|] == u[0];
    forall j | 0 <= j < |a| && At(a + u + (Attribute(t, y) + v), m.body, j) ensures false {
      WordMoves(t, y, x, m.body, a + u, v, j);
    }
  }

  // ---------- the page as one run leaves it ----------

  lemma {:induction false} LaidHasNoLang(m: Marks, t: Lang, mid: string)
    requires GoodMarks(m) && GoodLang(m, t) && '<' !in mid
    ensures NoLang(t, Laid(m, mid))
  {
    var l := Laid(m, mid);
    forall i: nat | i < |l| ensures !At(l, t.tag, i) {
      if At(l, t.tag, i) {
        assert l[i + 0] == t.tag[0] && l[i + 1] == t.tag[1];
        TagsOfLaid(m, t.tag, mid, i);
      }
    }
  }

  // Every tag in it starts otherwise.
  lemma TagsOfLaid(m: Marks, tag: string, mid: string, i: nat)
    requires |tag| > 1 && '<' !in mid && Shy(m.open, tag) && Shy(m.close, tag) && Shy(m.style, tag)
    requires i + 1 < |Laid(m, mid)| && Laid(m, mid)[i] == '<'
    ensures Laid(m, mid)[i + 1] != tag[1]
  {
    var l, n := Laid(m, mid), |m.style|;
    if i < n {
      assert l[i] == m.style[i] && l[i + 1] == m.style[i + 1];
    } else if i < n + |m.open| {
      assert l[i] == m.open[i - n] && l[i + 1] == m.open[i - n + 1];
    } else if i < n + |m.open| + |mid| {
      NoTagInMid(m, mid, i);
    } else {
      var k := i - n - |m.open| - |mid|;
      assert l[i] == m.close[k] && l[i + 1] == m.close[k + 1];
    }
  }

  lemma NoTagInMid(m: Marks, mid: string, i: nat)
    requires '<' !in mid && |m.style| + |m.open| <= i < |m.style| + |m.open| + |mid|
    ensures Laid(m, mid)[i] != '<'
  {
    assert Laid(m, mid)[i] == mid[i - |m.style| - |m.open|];
  }

  // With the language set, in the part before the laid text or the part after it, the page is again one that text is
  // laid in, and setting the language once more changes nothing.
  ghost predicate SetAround(t: Lang, a: string, b: string, a2: string, b2: string, l: string) {
    && SetLang(t, a + (l + b)) == a2 + (l + b2)
    && SetLang(t, a2 + (l + b2)) == a2 + (l + b2)
  }

  lemma {:induction false} SetBefore(t: Lang, u: string, x: string, v: string, b: string, l: string)
    requires OneTag(t.tag) && IsLang(t.value) && NoLang(t, u) && IsLang(x)
    ensures SetAround(t, u + (Attribute(t, x) + v), b, u + (Attribute(t, t.value) + v), b, l)
  {
    Inwards(u, Attribute(t, x), v, l + b);
    Inwards(u, Attribute(t, t.value), v, l + b);
    SetLangAt(t, u, x, v + (l + b));
    SetLangAt(t, u, t.value, v + (l + b));
  }

  lemma {:induction false} SetAfter(t: Lang, a: string, u: string, x: string, v: string, l: string)
    requires OneTag(t.tag) && IsLang(t.value) && IsLang(x) && NoLang(t, a) && NoLang(t, u) && NoLang(t, l)
    requires u != "" && u[0] == '<' && l != "" && l[0] == '<'
    ensures SetAround(t, a, u + (Attribute(t, x) + v), a, u + (Attribute(t, t.value) + v), l)
  {
    NoLangInSum(t, l, u);
    NoLangInSum(t, a, l + u);
    Outwards(a, l, u, Attribute(t, x) + v);
    Outwards(a, l, u, Attribute(t, t.value) + v);
    SetLangAt(t, a + (l + u), x, v);
    SetLangAt(t, a + (l + u), t.value, v);
  }

  lemma Outwards(a: string, l: string, u: string, q: string)
    ensures a + (l + (u + q)) == a + (l + u) + q
  {}

  lemma {:induction false} SetNowhere(t: Lang, a: string, b: string, l: string)
    requires OneTag(t.tag) && NoLang(t, a) && NoLang(t, b) && NoLang(t, l)
    requires b != "" && b[0] == '<' && l != "" && l[0] == '<'
    ensures SetAround(t, a, b, a, b, l)
  {
    NoLangInSum(t, l, b);
    NoLangInSum(t, a, l + b);
    NoLangStays(t, a + (l + b));
  }

  // Setting the language of a page keeps whether it is settled and where its body ends.
  lemma {:induction false} SetKeeps(m: Marks, t: Lang, a: string, b: string, l1: string, l2: string)
    returns (a2: string, b2: string)
    requires GoodLang(m, t) && BodyAt(m, a, b) && NoLang(t, l1) && NoLang(t, l2)
    requires l1 != "" && l1[0] == '<' && l2 != "" && l2[0] == '<'
    ensures SetAround(t, a, b, a2, b2, l1) && SetAround(t, a, b, a2, b2, l2)
    ensures BodyAt(m, a2, b2) && (Settled(m, a2, b2) <==> Settled(m, a, b))
  {
    if !NoLang(t, a) {
      var u, x, v := SplitAtLang(t, a);
      a2, b2 := u + (Attribute(t, t.value) + v), b;
      SetBefore(t, u, x, v, b, l1);
      SetBefore(t, u, x, v, b, l2);
      BodyMovesBefore(m, t, x, t.value, u, v, b);
      SettledEitherBefore(m, t, x, u, v, b);
    } else if !NoLang(t, b) {
      var u, x, v := SplitAtLang(t, b);
      a2, b2 := a, u + (Attribute(t, t.value) + v);
      BodyMovesAfter(m, t, x, t.value, a, u, v);
      SetAfter(t, a, u, x, v, l1);
      SetAfter(t, a, u, x, v, l2);
      SettledEitherAfter(m, t, x, a, u, v);
    } else {
      a2, b2 := a, b;
      BodyIsATag(m, a, b);
      SetNowhere(t, a, b, l1);
      SetNowhere(t, a, b, l2);
    }
  }

  lemma BodyIsATag(m: Marks, a: string, b: string)
    requires BodyAt(m, a, b) && m.body != "" && m.body[0] == '<'
    ensures b != "" && b[0] == '<'
  {
    assert (a + b)[|a| + 0] == m.body[0];
  }

  lemma {:induction false} SettledEitherBefore(m: Marks, t: Lang, x: string, u: string, v: string, b: string)
    requires GoodLang(m, t) && IsLang(x)
    ensures Settled(m, u + (Attribute(t, t.value) + v), b) <==> Settled(m, u + (Attribute(t, x) + v), b)
  {
    if Settled(m, u + (Attribute(t, x) + v), b) {
      SettledMovesBefore(m, t, x, t.value, u, v, b);
    } else if Settled(m, u + (Attribute(t, t.value) + v), b) {
      SettledMovesBefore(m, t, t.value, x, u, v, b);
    }
  }

  lemma {:induction false} SettledEitherAfter(m: Marks, t: Lang, x: string, a: string, u: string, v: string)
    requires GoodLang(m, t) && IsLang(x)
    ensures Settled(m, a, u + (Attribute(t, t.value) + v)) <==> Settled(m, a, u + (Attribute(t, x) + v))
  {
    if Settled(m, a, u + (Attribute(t, x) + v)) {
      SettledMovesAfter(m, t, x, t.value, a, u, v);
    } else if Settled(m, a, u + (Attribute(t, t.value) + v)) {
      SettledMovesAfter(m, t, t.value, x, a, u, v);
    }
  }

  // ---------- a later run ----------

  // Where the page's first end of body is, it is settled.
  ghost predicate SettledPage(m: Marks, g: string) {
    exists a, b :: g == a + b && BodyAt(m, a, b) && Settled(m, a, b)
  }

  lemma {:induction false} BodyIsOnce(m: Marks, a: string, b: string, c: string, d: string)
    requires a + b == c + d && BodyAt(m, a, b) && BodyAt(m, c, d)
    ensures a == c && b == d
  {
    BodyNotBefore(m, a, b, |c|);
    BodyNotBefore(m, c, d, |a|);
    SameSplit(a, b, c, d);
  }

  lemma BodyNotBefore(m: Marks, a: string, b: string, k: nat)
    requires BodyAt(m, a, b) && At(a + b, m.body, k)
    ensures k >= |a|
  {}

  lemma SameSplit(a: string, b: string, c: string, d: string)
    requires a + b == c + d && |a| == |c|
    ensures a == c && b == d
  {
    assert a == (a + b)[..|a|] && c == (c + d)[..|c|];
    assert b == (a + b)[|a|..] && d == (c + d)[|c|..];
  }

  lemma {:induction false} SplitAtBody(m: Marks, g: string, text: string) returns (a: string, b: string)
    requires m.body != "" && InsertBeforeBody(m, g, text).Some?
    ensures g == a + b && BodyAt(m, a, b) && InsertBeforeBody(m, g, text) == Some(a + (text + b))
  {
    var k := Find(g, m.body, 0);
    a, b := SplitAt(g, k);
    InsertIs(m, a, b, text);
  }

  lemma {:induction false} InsertIs(m: Marks, a: string, b: string, text: string)
    requires BodyAt(m, a, b) && m.body != ""
    ensures InsertBeforeBody(m, a + b, text) == Some(a + (text + b))
  {
    FindIs(a + b, m.body, 0, |a|);
    assert (a + b)[..|a|] == a && (a + b)[|a|..] == b;
    Associate(a, text, b);
  }

  lemma {:induction false} FindIs(s: string, w: string, i: nat, k: nat)
    requires i <= k < |s| && At(s, w, k) && forall j :: i <= j < k ==> !At(s, w, j)
    ensures Find(s, w, i) == k
  {}

  // What one run makes of a page, by what stripping leaves of it: the language set around the text it lays.
  lemma {:induction false} RunIs(m: Marks, t: Lang, korean: bool, h: string, link: string, a: string, b: string)
    requires GoodMarks(m) && Strip(m, h) == a + b && BodyAt(m, a, b)
    ensures Run(m, t, korean, h, link)
         == Some(if korean then SetLang(t, a + ((m.style + link) + b)) else a + ((m.style + link) + b))
  {
    InsertIs(m, a, b, m.style + link);
  }

  lemma {:induction false} SetLangGrows(t: Lang, h: string)
    requires OneTag(t.tag) && IsLang(t.value) && |t.value| <= 2
    ensures |SetLang(t, h)| <= |h| + 1
  {
    if NoLang(t, h) {
      NoLangStays(t, h);
    } else {
      var u, x, v := SplitAtLang(t, h);
      SetLangAt(t, u, x, v);
    }
  }

  // A run adds to what stripping leaves no more than the text it lays and one letter.
  lemma {:induction false} RunGrows(m: Marks, t: Lang, korean: bool, h: string, link: string)
    requires Sized(m) && OneTag(t.tag) && IsLang(t.value) && |t.value| <= 2 && Run(m, t, korean, h, link).Some?
    ensures |Run(m, t, korean, h, link).value| <= |Strip(m, h)| + |m.style| + |link| + 1
  {
    SetLangGrows(t, Apply(m, h, link).value);
  }

  // A run over the page that an earlier run has written, by what that run laid around: it finds the page again, or
  // less of it.
  lemma {:induction false} RunOverLaid(m: Marks, t: Lang, korean: bool, a: string, b: string, first: string,
                                       mid: string, second: string)
    requires GoodMarks(m) && GoodLang(m, t) && BodyAt(m, a, b) && '<' !in mid && first == m.open + mid + m.close
    requires korean ==> SetLang(t, a + ((m.style + second) + b)) == a + ((m.style + second) + b)
    ensures Run(m, t, korean, a + ((m.style + first) + b), second) == Some(a + ((m.style + second) + b))
            <==> Settled(m, a, b)
    ensures Settled(m, a, b) ==> Strip(m, a + ((m.style + first) + b)) == a + b
  {
    var h := a + ((m.style + first) + b);
    assert m.style + first == Laid(m, mid);
    LaidStands(m, mid, b);
    StripOfLaid(m, a, Laid(m, mid), b);
    if Settled(m, a, b) {
      RunIs(m, t, korean, h, second, a, b);
    } else if Run(m, t, korean, h, second).Some? {
      RunGrows(m, t, korean, h, second);
    }
  }

  // What the pass makes of a page with a body: the parts around the text it lays, whatever the text.
  lemma {:induction false} FirstRun(m: Marks, t: Lang, korean: bool, h: string, link: string, other: string)
    returns (a: string, b: string)
    requires GoodMarks(m) && GoodLang(m, t) && IsSwitchText(m, link) && IsSwitchText(m, other)
    requires Run(m, t, korean, h, link).Some?
    ensures Run(m, t, korean, h, link) == Some(a + ((m.style + link) + b))
    ensures Run(m, t, korean, h, other) == Some(a + ((m.style + other) + b))
    ensures korean ==> SetLang(t, a + ((m.style + other) + b)) == a + ((m.style + other) + b)
    ensures BodyAt(m, a, b) && (Settled(m, a, b) <==> SettledPage(m, Strip(m, h)))
  {
    var g := Strip(m, h);
    var u, v := SplitAtBody(m, g, m.style + link);
    SettledHere(m, u, v);
    RunIs(m, t, korean, h, link, u, v);
    RunIs(m, t, korean, h, other, u, v);
    a, b := u, v;
    if korean {
      LinkHasNoLang(m, t, link);
      LinkHasNoLang(m, t, other);
      a, b := SetKeeps(m, t, u, v, m.style + link, m.style + other);
    }
  }

  lemma {:induction false} SettledHere(m: Marks, a: string, b: string)
    requires BodyAt(m, a, b)
    ensures SettledPage(m, a + b) <==> Settled(m, a, b)
  {
    if SettledPage(m, a + b) {
      var c, d :| a + b == c + d && BodyAt(m, c, d) && Settled(m, c, d);
      BodyIsOnce(m, a, b, c, d);
    }
  }

  lemma {:induction false} LinkHasNoLang(m: Marks, t: Lang, link: string)
    requires GoodMarks(m) && GoodLang(m, t) && IsSwitchText(m, link)
    ensures NoLang(t, m.style + link) && m.style + link != "" && (m.style + link)[0] == '<'
  {
    var mid :| link == m.open + mid + m.close && '<' !in mid;
    assert m.style + link == Laid(m, mid);
    LaidHasNoLang(m, t, mid);
  }

  // A later run with the same or another link gives what it would have given at first if and only if stripping left a
  // settled page.
  lemma {:induction false} LaterRunReplacesIff(m: Marks, t: Lang, korean: bool, h: string, link: string, other: string)
    requires GoodMarks(m) && GoodLang(m, t) && IsSwitchText(m, link) && IsSwitchText(m, other)
    requires Run(m, t, korean, h, link).Some?
    ensures Run(m, t, korean, Run(m, t, korean, h, link).value, other) == Run(m, t, korean, h, other)
            <==> SettledPage(m, Strip(m, h))
  {
    var a, b := FirstRun(m, t, korean, h, link, other);
    var mid :| link == m.open + mid + m.close && '<' !in mid;
    RunOverLaid(m, t, korean, a, b, link, mid, other);
  }

  // Running the pass again changes nothing, exactly on the pages that stripping leaves settled.
  lemma {:induction false} SecondRunIff(m: Marks, t: Lang, korean: bool, h: string, link: string)
    requires GoodMarks(m) && GoodLang(m, t) && IsSwitchText(m, link) && Run(m, t, korean, h, link).Some?
    ensures Run(m, t, korean, Run(m, t, korean, h, link).value, link) == Run(m, t, korean, h, link)
            <==> SettledPage(m, Strip(m, h))
  {
    LaterRunReplacesIff(m, t, korean, h, link, link);
  }

  // Pages fresh from the generator are such pages, and a run over such a page leaves one.
  lemma {:induction false} RunsStaySettled(m: Marks, t: Lang, korean: bool, h: string, link: string)
    requires GoodMarks(m) && GoodLang(m, t) && IsSwitchText(m, link) && Run(m, t, korean, h, link).Some?
    ensures Fresh(m, h) ==> SettledPage(m, Strip(m, h))
    ensures SettledPage(m, Strip(m, h)) ==> SettledPage(m, Strip(m, Run(m, t, korean, h, link).value))
  {
    if Fresh(m, h) {
      FreshIsStripped(m, h);
      var a, b := SplitAtBody(m, h, m.style + link);
      FreshIsSettled(m, a, b);
      SettledHere(m, a, b);
    }
    var a, b := FirstRun(m, t, korean, h, link, link);
    var mid :| link == m.open + mid + m.close && '<' !in mid;
    RunOverLaid(m, t, korean, a, b, link, mid, link);
    SettledHere(m, a, b);
  }

  lemma {:induction false} FreshIsSettled(m: Marks, a: string, b: string)
    requires Fresh(m, a + b)
    ensures Settled(m, a, b)
  {
    forall i: nat ensures !At(a, m.open, i) && !At(a, m.style, i) {
      if At(a, m.open, i) { AtInLeft(m.open, a, b, i); }
      if At(a, m.style, i) { AtInLeft(m.style, a, b, i); }
    }
    forall i: nat ensures !At(b, m.open, i) && !At(b, m.style, i) {
      AtInRight(m.open, a, b, |a| + i);
      AtInRight(m.style, a, b, |a| + i);
    }
  }
}
