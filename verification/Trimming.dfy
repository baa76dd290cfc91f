// White space and trimming, for bytes and for characters: what is cut off both ends, and nothing more.
module Trimming {
  import opened Text
  import opened Utf8
  import Str

  // The 25 characters of Unicode's property White_Space.
  const WHITE_SPACE: set<int> :=
    {0x09, 0x0A, 0x0B, 0x0C, 0x0D, 0x20, 0x85, 0xA0, 0x1680, 0x2000, 0x2001, 0x2002, 0x2003, 0x2004, 0x2005, 0x2006,
     0x2007, 0x2008, 0x2009, 0x200A, 0x2028, 0x2029, 0x202F, 0x205F, 0x3000}

  lemma SpaceIff(r: int)
    ensures SpaceRune(r) <==> r in WHITE_SPACE
  {}

  lemma IsSpaceIff(c: char)
    ensures Str.IsSpace(c) <==> c as int in WHITE_SPACE
  {}

  // ---------- characters ----------

  ghost predicate Blanks(s: string) { forall i :: 0 <= i < |s| ==> s[i] as int in WHITE_SPACE }

  // The text has no white space at either end.
  ghost predicate Bare(t: string) {
    t == "" || (t[0] as int !in WHITE_SPACE && t[|t| - 1] as int !in WHITE_SPACE)
  }

  ghost predicate Surrounds(a: string, t: string, b: string, s: string) {
    Blanks(a) && Blanks(b) && s == a + (t + b)
  }

  // What remains of a text is bare, and nothing but white space was around it; no other text is that.
  lemma TrimIff(s: string, t: string)
    ensures Str.TrimSpace(s) == t <==> Bare(t) && exists a, b :: Surrounds(a, t, b, s)
  {
    var a, b := TrimParts(s);
    if t' :| Bare(t') && t' == t && exists a, b :: Surrounds(a, t, b, s) {
      var a, b :| Surrounds(a, t, b, s);
      TrimOf(a, t, b);
    }
  }

  lemma TrimParts(s: string) returns (a: string, b: string)
    ensures Bare(Str.TrimSpace(s)) && Surrounds(a, Str.TrimSpace(s), b, s)
  {
    a := TrimStartPart(s);
    var u := Str.TrimStart(s);
    b := TrimEndPart(u);
    if u != "" {
      IsSpaceIff(u[0]);
      Str.TrimEndKeepsHead(u);
    }
  }

  lemma {:induction false} TrimStartPart(s: string) returns (a: string)
    ensures Blanks(a) && s == a + Str.TrimStart(s)
    ensures Str.TrimStart(s) == "" || Str.TrimStart(s)[0] as int !in WHITE_SPACE
  {
    if s != "" { IsSpaceIff(s[0]); }
    if s != "" && Str.IsSpace(s[0]) {
      a := TrimStartPart(s[1..]);
      a := [s[0]] + a;
    } else {
      a := "";
    }
  }

  lemma {:induction false} TrimEndPart(s: string) returns (b: string)
    ensures Blanks(b) && s == Str.TrimEnd(s) + b
    ensures var t := Str.TrimEnd(s); t == "" || t[|t| - 1] as int !in WHITE_SPACE
  {
    if s != "" { IsSpaceIff(s[|s| - 1]); }
    if s != "" && Str.IsSpace(s[|s| - 1]) {
      b := TrimEndPart(s[..|s| - 1]);
      b := b + [s[|s| - 1]];
    } else {
      b := "";
    }
  }

  lemma {:induction false} TrimStartOf(a: string, t: string)
    requires Blanks(a) && (t == "" || t[0] as int !in WHITE_SPACE)
    ensures Str.TrimStart(a + t) == t
  {
    if a == "" {
      assert a + t == t;
      if t != "" { IsSpaceIff(t[0]); }
    } else {
      IsSpaceIff(a[0]);
      assert (a + t)[1..] == a[1..] + t;
      TrimStartOf(a[1..], t);
    }
  }

  lemma {:induction false} TrimEndOf(t: string, b: string)
    requires Blanks(b) && (t == "" || t[|t| - 1] as int !in WHITE_SPACE)
    ensures Str.TrimEnd(t + b) == t
  {
    if b == "" {
      assert t + b == t;
      if t != "" { IsSpaceIff(t[|t| - 1]); }
    } else {
      IsSpaceIff(b[|b| - 1]);
      assert (t + b)[..|t + b| - 1] == t + b[..|b| - 1];
      TrimEndOf(t, b[..|b| - 1]);
    }
  }

  lemma TrimOf(a: string, t: string, b: string)
    requires Blanks(a) && Blanks(b) && Bare(t)
    ensures Str.TrimSpace(a + (t + b)) == t
  {
    if t == "" {
      assert a + (t + b) == (a + b) + "";
      TrimStartOf(a + b, "");
    } else {
      TrimStartOf(a, t + b);
      TrimEndOf(t, b);
    }
  }

  // ---------- bytes ----------

  ghost predicate White(rs: seq<int>) { forall i :: 0 <= i < |rs| ==> rs[i] in WHITE_SPACE }

  ghost predicate StartsBare(t: bytes) { t == [] || Head(t) !in WHITE_SPACE }

  ghost predicate EndsWith(t: bytes, e: bytes) { |e| <= |t| && LastBytes(t, |e|) == e }

  ghost predicate EndsBare(t: bytes) { forall r :: r in WHITE_SPACE ==> !EndsWith(t, EncodeRune(r)) }

  ghost predicate Around(xs: seq<int>, t: bytes, ys: seq<int>, s: bytes) {
    White(xs) && White(ys) && s == Encode(xs) + (t + Encode(ys))
  }

  // What remains of a byte string, valid UTF-8 or not, begins and ends with no white-space rune, and encoded white
  // space and nothing else was around it; no other byte string is that.
  lemma TrimSpaceIff(s: bytes, t: bytes)
    ensures TrimSpace(s) == t <==> StartsBare(t) && EndsBare(t) && exists xs, ys :: Around(xs, t, ys, s)
  {
    var xs, ys := TrimSpaceParts(s);
    if StartsBare(t) && EndsBare(t) && exists xs, ys :: Around(xs, t, ys, s) {
      var xs, ys :| Around(xs, t, ys, s);
      TrimSpaceOf(xs, t, ys);
    }
  }

  lemma TrimSpaceParts(s: bytes) returns (xs: seq<int>, ys: seq<int>)
    ensures StartsBare(TrimSpace(s)) && EndsBare(TrimSpace(s)) && Around(xs, TrimSpace(s), ys, s)
  {
    xs := TrimLeftPart(s);
    var u := TrimLeft(s);
    ys := TrimRightPart(u);
    TrimRightPrefix(u);
    HeadOfPart(TrimRight(u), u);
  }

  // A cut head rune reads as the replacement rune, which is no white space.
  lemma HeadOfPart(t: bytes, u: bytes)
    requires t <= u && StartsBare(u)
    ensures StartsBare(t)
  {}

  lemma {:induction false} TrimLeftPart(s: bytes) returns (xs: seq<int>)
    ensures White(xs) && s == Encode(xs) + TrimLeft(s) && StartsBare(TrimLeft(s))
    decreases |s|
  {
    if s != [] { SpaceIff(Head(s)); }
    if s != [] && SpaceRune(Head(s)) {
      var r, rest := FirstSpace(s);
      var more := TrimLeftPart(rest);
      xs := [r] + more;
      EncodePrepend(r, more);
      Associate(EncodeRune(r), Encode(more), TrimLeft(rest));
    } else {
      xs := [];
      assert [] + s == s;
    }
  }

  lemma {:induction false} FirstSpace(s: bytes) returns (r: int, rest: bytes)
    requires s != [] && SpaceRune(Head(s))
    ensures r in WHITE_SPACE && s == EncodeRune(r) + rest && |rest| < |s| && TrimLeft(s) == TrimLeft(rest)
  {
    r, rest := Head(s), s[Step(s)..];
    SpaceIff(r);
    EncodeOfHead(s);
    assert s == s[..Width(s)] + rest;
  }

  lemma {:induction false} EncodeSnoc(rs: seq<int>, r: int)
    ensures Encode(rs + [r]) == Encode(rs) + EncodeRune(r)
  {
    if rs == [] {
      assert [] + [r] == [r] && [r][1..] == [];
      assert EncodeRune(r) + [] == EncodeRune(r) && [] + EncodeRune(r) == EncodeRune(r);
    } else {
      EncodeSnoc(rs[1..], r);
      assert (rs + [r])[1..] == rs[1..] + [r];
      Associate(EncodeRune(rs[0]), Encode(rs[1..]), EncodeRune(r));
    }
  }

  lemma {:induction false} OneMore(t: bytes, rs: seq<int>, r: int)
    ensures t + Encode(rs + [r]) == (t + Encode(rs)) + EncodeRune(r)
  {
    EncodeSnoc(rs, r);
    Associate(t, Encode(rs), EncodeRune(r));
  }

  lemma SpaceEndIff(t: bytes, n: nat)
    ensures SpaceEnd(t, n) <==> exists r :: r in WHITE_SPACE && |EncodeRune(r)| == n && EndsWith(t, EncodeRune(r))
  {
    if SpaceEnd(t, n) {
      var l := LastBytes(t, n);
      EncodeOfHead(l);
      SpaceIff(Head(l));
      assert l[..n] == l;
    }
    if r :| r in WHITE_SPACE && |EncodeRune(r)| == n && EndsWith(t, EncodeRune(r)) {
      SpaceIff(r);
      StartRune(r, EncodeRune(r));
    }
  }

  lemma SpaceWidthIff(t: bytes)
    ensures SpaceWidth(t) == 0 <==> EndsBare(t)
  {
    SpaceEndIff(t, 1);
    SpaceEndIff(t, 2);
    SpaceEndIff(t, 3);
    if SpaceWidth(t) == 0 {
      forall r | r in WHITE_SPACE ensures !EndsWith(t, EncodeRune(r)) {
        assert 1 <= |EncodeRune(r)| <= 3;
      }
    }
  }

  lemma {:induction false} TrimRightPart(s: bytes) returns (ys: seq<int>)
    ensures White(ys) && s == TrimRight(s) + Encode(ys) && EndsBare(TrimRight(s))
    decreases |s|
  {
    if SpaceWidth(s) == 0 {
      SpaceWidthIff(s);
      ys := [];
      assert s + [] == s;
    } else {
      var u, r := LastSpace(s);
      var more := TrimRightPart(u);
      ys := more + [r];
      WhiteMore(more, r);
      OneMore(TrimRight(u), more, r);
    }
  }

  lemma WhiteMore(rs: seq<int>, r: int)
    requires White(rs) && r in WHITE_SPACE
    ensures White(rs + [r])
  {}

  lemma {:induction false} LastSpace(s: bytes) returns (u: bytes, r: int)
    requires SpaceWidth(s) > 0
    ensures r in WHITE_SPACE && s == u + EncodeRune(r) && |u| < |s| && TrimRight(s) == TrimRight(u)
  {
    SpaceEndIff(s, SpaceWidth(s));
    r :| r in WHITE_SPACE && |EncodeRune(r)| == SpaceWidth(s) && EndsWith(s, EncodeRune(r));
    u := SplitEnd(s, EncodeRune(r));
    TrimRightStep(u, EncodeRune(r));
  }

  lemma SplitEnd(s: bytes, e: bytes) returns (u: bytes)
    requires EndsWith(s, e) && e != []
    ensures s == u + e && |u| < |s|
  {
    u := s[..|s| - |e|];
    assert s == u + e;
  }

  lemma {:induction false} TrimRightStep(u: bytes, e: bytes)
    requires e != [] && SpaceWidth(u + e) == |e|
    ensures TrimRight(u + e) == TrimRight(u)
  {
    assert (u + e)[..|u|] == u;
  }

  lemma {:induction false} TrimLeftOf(xs: seq<int>, t: bytes)
    requires White(xs) && StartsBare(t)
    ensures TrimLeft(Encode(xs) + t) == t
  {
    if xs == [] {
      assert [] + t == t;
      if t != [] { SpaceIff(Head(t)); }
    } else {
      var e, rest := EncodeRune(xs[0]), Encode(xs[1..]) + t;
      SpaceIff(xs[0]);
      Associate(e, Encode(xs[1..]), t);
      HeadOfEncoded(xs[0], rest);
      assert (e + rest)[|e|..] == rest;
      TrimLeftOf(xs[1..], t);
    }
  }

  lemma SpaceWidthOf(s: bytes, r: int)
    requires r in WHITE_SPACE
    ensures var e := EncodeRune(r); SpaceWidth(s + e) == |e| > 0
  {
    var e := EncodeRune(r);
    SpaceIff(r);
    StartRune(r, e);
    assert LastBytes(s + e, |e|) == e;
    forall n | 0 < n < |e| ensures !SpaceEnd(s + e, n) {
      StraddleIsTail(e, |e| - n);
      assert LastBytes(s + e, n) == e[|e| - n..];
    }
  }

  lemma {:induction false} TrimRightOf(t: bytes, ys: seq<int>)
    requires White(ys) && EndsBare(t)
    ensures TrimRight(t + Encode(ys)) == t
    decreases |ys|
  {
    if ys == [] {
      assert t + [] == t;
      SpaceWidthIff(t);
    } else {
      var more, r := ys[..|ys| - 1], ys[|ys| - 1];
      assert more + [r] == ys;
      OneMore(t, more, r);
      SpaceWidthOf(t + Encode(more), r);
      TrimRightStep(t + Encode(more), EncodeRune(r));
      TrimRightOf(t, more);
    }
  }

  // White space after it does not complete a cut head rune.
  lemma HeadBefore(t: bytes, b: bytes)
    requires t != [] && (b == [] || !Tail(b[0]))
    ensures Head(t + b) == Head(t)
  {}

  lemma WhiteStart(ys: seq<int>)
    requires White(ys)
    ensures Encode(ys) == [] || !Tail(Encode(ys)[0])
  {}

  lemma {:induction false} EncodeAppend(xs: seq<int>, ys: seq<int>)
    ensures Encode(xs + ys) == Encode(xs) + Encode(ys)
  {
    if xs == [] {
      assert [] + ys == ys && [] + Encode(ys) == Encode(ys);
    } else {
      EncodeAppend(xs[1..], ys);
      assert (xs + ys)[1..] == xs[1..] + ys;
      Associate(EncodeRune(xs[0]), Encode(xs[1..]), Encode(ys));
    }
  }

  lemma {:induction false} NothingButSpace(xs: seq<int>, ys: seq<int>)
    requires White(xs) && White(ys)
    ensures TrimSpace(Encode(xs) + Encode(ys)) == []
  {
    EncodeAppend(xs, ys);
    TrimLeftOf(xs + ys, []);
    assert Encode(xs + ys) + [] == Encode(xs + ys);
  }

  lemma {:induction false} TrimSpaceOf(xs: seq<int>, t: bytes, ys: seq<int>)
    requires White(xs) && White(ys) && StartsBare(t) && EndsBare(t)
    ensures TrimSpace(Encode(xs) + (t + Encode(ys))) == t
  {
    if t == [] {
      NothingButSpace(xs, ys);
      assert [] + Encode(ys) == Encode(ys);
    } else {
      WhiteStart(ys);
      HeadBefore(t, Encode(ys));
      TrimLeftOf(xs, t + Encode(ys));
      TrimRightOf(t, ys);
    }
  }
}
