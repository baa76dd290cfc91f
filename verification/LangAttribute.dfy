// The language attribute a run over a Korean page sets.
module LangAttribute {
  import opened Text
  import opened LangText

  // The tag whose attribute a run over a Korean page sets: '<html lang="', and the value it gets.
  datatype Lang = Lang(tag: string, value: string)

  predicate LangChar(c: char) { 'a' <= c <= 'z' || 'A' <= c <= 'Z' || c == '-' }

  // The end of the letters and hyphens from i on.
  function LangEnd(h: string, i: nat): (j: nat)
    requires i <= |h|
    ensures i <= j <= |h| && (j < |h| ==> !LangChar(h[j])) && forall k :: i <= k < j ==> LangChar(h[k])
    decreases |h| - i
  {
    if i == |h| || !LangChar(h[i]) then i else LangEnd(h, i + 1)
  }

  // 'tag[a-zA-Z-]+"' matches at i.
  predicate LangAt(t: Lang, h: string, i: nat) {
    At(h, t.tag, i)
    && var j := LangEnd(h, i + |t.tag|); i + |t.tag| < j < |h| && h[j] == '"'
  }

  function FirstLang(t: Lang, h: string, i: nat): (k: nat)
    requires i <= |h|
    ensures i <= k <= |h| && (k < |h| ==> LangAt(t, h, k)) && forall j :: i <= j < k ==> !LangAt(t, h, j)
    decreases |h| - i
  {
    if i == |h| || LangAt(t, h, i) then i else FirstLang(t, h, i + 1)
  }

  // re.sub of the first match by the tag with our value.
  function SetLang(t: Lang, h: string): string {
    var p := FirstLang(t, h, 0);
    if p == |h| then h else h[..p] + (t.tag + t.value + ['"']) + Cut(h, LangEnd(h, p + |t.tag|) + 1, |h|)
  }

  // ---------- where the language is set ----------

  ghost predicate IsLang(x: string) { x != "" && forall i :: 0 <= i < |x| ==> LangChar(x[i]) }

  // An attribute as the match sees it.
  function Attribute(t: Lang, x: string): string { t.tag + x + ['"'] }

  ghost predicate NoLang(t: Lang, s: string) { forall i: nat :: i < |s| ==> !LangAt(t, s, i) }

  lemma {:induction false} LangEndIs(h: string, i: nat, j: nat)
    requires i <= j < |h| && !LangChar(h[j]) && forall k :: i <= k < j ==> LangChar(h[k])
    ensures LangEnd(h, i) == j
  {}

  lemma {:induction false} LangEndInRight(p: string, q: string, i: nat)
    requires i <= |q|
    ensures LangEnd(p + q, |p| + i) == |p| + LangEnd(q, i)
    decreases |q| - i
  {
    if i == |q| {
    } else {
      assert (p + q)[|p| + i] == q[i];
      LangEndInRight(p, q, i + 1);
    }
  }

  lemma {:induction false} LangInRight(t: Lang, p: string, q: string, i: nat)
    requires i < |q|
    ensures LangAt(t, p + q, |p| + i) <==> LangAt(t, q, i)
  {
    AtInRight(t.tag, p, q, |p| + i);
    if At(q, t.tag, i) { LangEndInRight(p, q, i + |t.tag|); }
  }

  // Before the start of a tag, a match ends.
  lemma {:induction false} LangInLeft(t: Lang, p: string, q: string, i: nat)
    requires OneTag(t.tag) && i < |p| && q != "" && q[0] == '<'
    ensures LangAt(t, p + q, i) <==> LangAt(t, p, i)
  {
    if At(p + q, t.tag, i) {
      TagDoesNotStraddle(t.tag, p, q, i);
      LangEndInLeft(p, q, i + |t.tag|);
    } else if At(p, t.tag, i) {
      AtInLeft(t.tag, p, q, i);
    }
  }

  lemma {:induction false} LangEndInLeft(p: string, q: string, i: nat)
    requires i <= |p| && q != "" && q[0] == '<'
    ensures LangEnd(p + q, i) == LangEnd(p, i)
    decreases |p| - i
  {
    if i == |p| {
      assert (p + q)[i] == '<';
    } else {
      assert (p + q)[i] == p[i];
      LangEndInLeft(p, q, i + 1);
    }
  }

  lemma {:induction false} NoLangInSum(t: Lang, p: string, q: string)
    requires OneTag(t.tag) && (q != "" ==> q[0] == '<')
    ensures NoLang(t, p + q) <==> NoLang(t, p) && NoLang(t, q)
  {
    if q == "" {
      assert p + q == p;
    } else {
      forall i: nat | i < |p| ensures LangAt(t, p + q, i) <==> LangAt(t, p, i) { LangInLeft(t, p, q, i); }
      forall i: nat | i < |q| ensures LangAt(t, p + q, |p| + i) <==> LangAt(t, q, i) { LangInRight(t, p, q, i); }
      if NoLang(t, p) && NoLang(t, q) {
        forall i: nat | i < |p + q| ensures !LangAt(t, p + q, i) {
          if i >= |p| { LangInRight(t, p, q, i - |p|); }
        }
      }
    }
  }

  lemma {:induction false} AttributeIsLang(t: Lang, x: string, v: string)
    requires OneTag(t.tag) && IsLang(x)
    ensures LangAt(t, Attribute(t, x) + v, 0) && LangEnd(Attribute(t, x) + v, |t.tag|) == |t.tag| + |x|
  {
    var h := Attribute(t, x) + v;
    var j := |t.tag| + |x|;
    assert h[j] == '"';
    forall k | |t.tag| <= k < j ensures LangChar(h[k]) { assert h[k] == x[k - |t.tag|]; }
    LangEndIs(h, |t.tag|, j);
  }

  lemma {:induction false} FirstLangAt(t: Lang, u: string, x: string, v: string)
    requires OneTag(t.tag) && IsLang(x) && NoLang(t, u)
    ensures var h := u + (Attribute(t, x) + v);
            |u| < |h| && FirstLang(t, h, 0) == |u| && LangEnd(h, |u| + |t.tag|) == |u| + |t.tag| + |x|
  {
    var q := Attribute(t, x) + v;
    AttributeIsLang(t, x, v);
    LangInRight(t, u, q, 0);
    forall j | 0 <= j < |u| ensures !LangAt(t, u + q, j) { LangInLeft(t, u, q, j); }
    FirstLangIs(t, u + q, 0, |u|);
    LangEndInRight(u, q, |t.tag|);
  }

  lemma {:induction false} SetLangFrom(t: Lang, h: string, p: nat, j: nat)
    requires p < |h| && FirstLang(t, h, 0) == p && LangEnd(h, p + |t.tag|) == j < |h|
    ensures SetLang(t, h) == h[..p] + Attribute(t, t.value) + Cut(h, j + 1, |h|)
  {}

  // The first match, wherever it is, gets the value.
  lemma {:induction false} SetLangAt(t: Lang, u: string, x: string, v: string)
    requires OneTag(t.tag) && IsLang(x) && NoLang(t, u)
    ensures SetLang(t, u + (Attribute(t, x) + v)) == u + (Attribute(t, t.value) + v)
  {
    FirstLangAt(t, u, x, v);
    AttributeLength(t, x);
    SetLangFrom(t, u + (Attribute(t, x) + v), |u|, |u| + |t.tag| + |x|);
    Around(u, Attribute(t, x), v);
    Associate(u, Attribute(t, t.value), v);
  }

  lemma AttributeLength(t: Lang, x: string)
    ensures |Attribute(t, x)| == |t.tag| + |x| + 1
  {}

  lemma Around(u: string, r: string, v: string)
    ensures (u + (r + v))[..|u|] == u && Cut(u + (r + v), |u| + |r|, |u + (r + v)|) == v
  {}

  lemma {:induction false} FirstLangIs(t: Lang, h: string, i: nat, p: nat)
    requires i <= p < |h| && LangAt(t, h, p) && forall j :: i <= j < p ==> !LangAt(t, h, j)
    ensures FirstLang(t, h, i) == p
  {}

  lemma {:induction false} NoLangStays(t: Lang, h: string)
    requires NoLang(t, h)
    ensures SetLang(t, h) == h
  {}

  // A text that has a match, split at its first.
  lemma {:induction false} SplitAtLang(t: Lang, s: string) returns (u: string, x: string, v: string)
    requires OneTag(t.tag) && !NoLang(t, s)
    ensures s == u + (Attribute(t, x) + v) && NoLang(t, u) && IsLang(x)
  {
    var q;
    u, q := SplitAtMatch(t, s);
    x, v := SplitMatch(t, q);
  }

  lemma {:induction false} SplitAtMatch(t: Lang, s: string) returns (u: string, q: string)
    requires OneTag(t.tag) && !NoLang(t, s)
    ensures s == u + q && NoLang(t, u) && q != "" && LangAt(t, q, 0)
  {
    var p := FirstLang(t, s, 0);
    u, q := SplitAt(s, p);
    LangInRight(t, u, q, 0);
    assert At(q, t.tag, 0);
    assert q[0] == t.tag[0];
    NoLangBefore(t, u, q);
  }

  lemma {:induction false} SplitMatch(t: Lang, q: string) returns (x: string, v: string)
    requires OneTag(t.tag) && LangAt(t, q, 0)
    ensures q == Attribute(t, x) + v && IsLang(x)
  {
    var tag, rest := SplitAt(q, |t.tag|);
    StartIs(tag, rest, t.tag);
    LangEndInRight(tag, rest, 0);
    var w;
    x, w := SplitAt(rest, LangEnd(rest, 0));
    StartsAre(x, w, rest);
    assert (tag + rest)[|tag| + |x|] == rest[|x|] == w[0];
    var quote;
    quote, v := SplitAt(w, 1);
    assert quote == ['"'];
    Regroup4(t.tag, x, quote, v);
  }

  lemma SplitAt(s: string, n: nat) returns (a: string, b: string)
    requires n <= |s|
    ensures s == a + b && |a| == n
  {
    a, b := s[..n], s[n..];
  }

  lemma StartIs(a: string, b: string, w: string)
    requires At(a + b, w, 0) && |a| == |w|
    ensures a == w
  {
    forall k | 0 <= k < |w| ensures a[k] == w[k] { assert (a + b)[0 + k] == w[k]; }
  }

  lemma StartsAre(x: string, w: string, rest: string)
    requires rest == x + w && forall k :: 0 <= k < |x| ==> LangChar(rest[k])
    ensures forall k :: 0 <= k < |x| ==> LangChar(x[k])
  {
    forall k | 0 <= k < |x| ensures LangChar(x[k]) { assert rest[k] == x[k]; }
  }

  lemma Regroup4(a: string, b: string, c: string, d: string)
    ensures a + (b + (c + d)) == a + b + c + d
  {}

  lemma {:induction false} NoLangBefore(t: Lang, u: string, q: string)
    requires OneTag(t.tag) && q != "" && q[0] == '<' && forall i: nat :: i < |u| ==> !LangAt(t, u + q, i)
    ensures NoLang(t, u)
  {
    forall i: nat | i < |u| ensures !LangAt(t, u, i) { LangInLeft(t, u, q, i); }
  }

  // The letters of a language: 26 small ones, 26 large ones, and the hyphen.
  lemma LangCharIff(c: char)
    ensures LangChar(c) <==> 97 <= c as int < 97 + 26 || 65 <= c as int < 65 + 26 || c as int == 45
  {}
}
