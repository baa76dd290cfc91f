// The language switch laid over a built site: which pages get it, where it points, and what a second run does.
module LangSwitch {
  import opened Text
  import opened Paths
  import opened SiteLinks

  // ---------- twins ----------

  predicate IsKo(rel: string) { StartsWith(rel, "ko/") }

  function Twin(rel: string): string { if IsKo(rel) then rel[3..] else "ko/" + rel }

  predicate InArchitectures(rel: string) { StartsWith(rel, "architectures/") }

  predicate Skipped(rel: string) {
    rel == "index.html" || rel == "404.html" || rel == "ko/404.html" || InArchitectures(rel) || rel == "ko/index.html"
  }

  // The pages that get a switch: those whose twin was built; a twin of a Korean page is never itself Korean.
  predicate Linked(pages: set<string>, rel: string) {
    rel in pages && !Skipped(rel) && Twin(rel) in pages && !(IsKo(rel) && IsKo(Twin(rel)))
  }

  lemma TwinOfEnglish(rel: string)
    ensures IsKo("ko/" + rel) && ("ko/" + rel)[3..] == rel
    ensures !IsKo(rel) ==> Twin(Twin(rel)) == rel
  {
    assert |"ko/"| == 3;
    assert ("ko/" + rel)[..3] == "ko/";
  }

  lemma TwinOfKorean(rel: string)
    requires IsKo(rel)
    ensures "ko/" + rel[3..] == rel && |rel| >= 3
    ensures !IsKo(Twin(rel)) ==> Twin(Twin(rel)) == rel
  {
    assert |"ko/"| == 3;
    assert rel == rel[..3] + rel[3..] && rel[..3] == "ko/";
  }

  lemma KoNotArchitectures(rel: string)
    ensures IsKo(rel) ==> !InArchitectures(rel)
  {
    assert "ko/"[0] == 'k' && "architectures/"[0] == 'a' && |"ko/"| == 3 && |"architectures/"| == 14;
  }

  lemma RootPages()
    ensures "index.html"[0] == 'i' && "404.html"[0] == '4' && |"index.html"| == 10 && |"404.html"| == 8
    ensures "ko/404.html" == "ko/" + "404.html" && "ko/index.html" == "ko/" + "index.html"
    ensures !IsKo("index.html") && !IsKo("404.html")
  {
    assert |"ko/"| == 3 && "ko/"[0] == 'k';
  }

  lemma SameRest(a: string, b: string)
    ensures "ko/" + a == "ko/" + b <==> a == b
  {
    TwinOfEnglish(a);
    TwinOfEnglish(b);
  }

  lemma KoIsKo(rel: string)
    requires !IsKo(rel)
    ensures rel != "ko/" + "404.html" && rel != "ko/" + "index.html"
  {
    TwinOfEnglish("404.html");
    TwinOfEnglish("index.html");
  }

  lemma SkippedTwins(rel: string)
    ensures Skipped("ko/" + rel) <==> rel == "404.html" || rel == "index.html"
    ensures !IsKo(rel) ==> (Skipped(rel) <==> rel == "404.html" || rel == "index.html" || InArchitectures(rel))
  {
    RootPages();
    TwinOfEnglish(rel);
    KoNotArchitectures("ko/" + rel);
    SameRest(rel, "404.html");
    SameRest(rel, "index.html");
    if !IsKo(rel) { KoIsKo(rel); }
  }

  // The switch of a linked page leads to a built page whose twin it is; that page carries the switch back, except
  // that a page under architectures/ is skipped although its Korean twin is not.
  lemma SwitchIsMutualIff(pages: set<string>, rel: string)
    requires Linked(pages, rel)
    ensures Twin(rel) in pages && Twin(Twin(rel)) == rel && (IsKo(Twin(rel)) <==> !IsKo(rel))
    ensures Linked(pages, Twin(rel)) <==> !InArchitectures(Twin(rel))
  {
    if IsKo(rel) {
      TwinOfKorean(rel);
      SkippedTwins(rel[3..]);
    } else {
      TwinOfEnglish(rel);
      SkippedTwins(rel);
      KoNotArchitectures(Twin(rel));
    }
  }

  // For instance with only a page under architectures/ and its Korean twin: the Korean page points at the other, which
  // does not point back.
  lemma ArchitecturesAreOneWay(rest: string)
    ensures var (en, ko) := ("architectures/" + rest, "ko/" + ("architectures/" + rest));
            Linked({en, ko}, ko) && Twin(ko) == en && !Linked({en, ko}, en)
  {
    var en := "architectures/" + rest;
    assert en[..14] == "architectures/" && |"architectures/"| == 14;
    TwinOfEnglish(en);
    SkippedTwins(en);
    KoNotArchitectures(en);
    assert "404.html"[0] == '4' && "index.html"[0] == 'i' && en[0] == 'a';
  }

  // ---------- counting ----------

  function Links(pages: set<string>): string -> bool { r => Linked(pages, r) }

  function Korean(): string -> bool { r => IsKo(r) }

  function Select(pages: set<string>, linked: string -> bool, korean: string -> bool, flag: bool): set<string> {
    set r | r in pages && linked(r) && korean(r) == flag
  }

  function EnglishLinked(pages: set<string>): set<string> { Select(pages, Links(pages), Korean(), false) }

  function KoreanLinked(pages: set<string>): set<string> { Select(pages, Links(pages), Korean(), true) }

  // Korean pages that point at a page under architectures/, which never points back.
  function OneWay(pages: set<string>): set<string> { set r | r in KoreanLinked(pages) && InArchitectures(Twin(r)) }

  datatype Switch = Switch(page: string, href: string)

  function Href(cwd: seq<string>, rel: string): string {
    RelPath(cwd, OrDot(DirName(Twin(rel))), OrDot(DirName(rel))) + "/"
  }

  function PageSet(order: seq<string>): set<string> { set r | r in order }

  function SwitchesOf(order: seq<string>, linked: string -> bool, href: string -> string): seq<Switch> {
    if order == [] then []
    else
      var (before, rel) := (SwitchesOf(order[..|order| - 1], linked, href), order[|order| - 1]);
      if linked(rel) then before + [Switch(rel, href(rel))] else before
  }

  function CountOf(order: seq<string>, linked: string -> bool, korean: string -> bool, flag: bool): nat {
    if order == [] then 0
    else
      var rel := order[|order| - 1];
      CountOf(order[..|order| - 1], linked, korean, flag) + (if linked(rel) && korean(rel) == flag then 1 else 0)
  }

  ghost predicate Distinct(order: seq<string>) { forall i, j :: 0 <= i < j < |order| ==> order[i] != order[j] }

  lemma {:induction false} CountIsSize(order: seq<string>, linked: string -> bool, korean: string -> bool, flag: bool)
    requires Distinct(order)
    ensures CountOf(order, linked, korean, flag) == |Select(PageSet(order), linked, korean, flag)|
  {
    if order == [] {
    } else {
      var before, rel := order[..|order| - 1], order[|order| - 1];
      CountIsSize(before, linked, korean, flag);
      assert order == before + [rel] && rel !in before;
      SelectSnoc(before, rel, linked, korean, flag);
    }
  }

  lemma SelectSnoc(before: seq<string>, rel: string, linked: string -> bool, korean: string -> bool, flag: bool)
    requires rel !in before
    ensures |Select(PageSet(before + [rel]), linked, korean, flag)|
         == |Select(PageSet(before), linked, korean, flag)| + (if linked(rel) && korean(rel) == flag then 1 else 0)
  {
    var a, b := Select(PageSet(before), linked, korean, flag), Select(PageSet(before + [rel]), linked, korean, flag);
    if linked(rel) && korean(rel) == flag {
      assert b == a + {rel};
    } else {
      assert b == a;
    }
  }

  // The pass over the pages in order, for given tests and links.
  method Pass(order: seq<string>, linked: string -> bool, korean: string -> bool, href: string -> string)
    returns (made: seq<Switch>, enToKo: nat, koToEn: nat)
    ensures made == SwitchesOf(order, linked, href)
    ensures enToKo == CountOf(order, linked, korean, false) && koToEn == CountOf(order, linked, korean, true)
  {
    made, enToKo, koToEn := [], 0, 0;
    for i := 0 to |order|
      invariant made == SwitchesOf(order[..i], linked, href)
      invariant enToKo == CountOf(order[..i], linked, korean, false)
                && koToEn == CountOf(order[..i], linked, korean, true)
    {
      assert order[..i + 1][..i] == order[..i];
      var rel := order[i];
      if linked(rel) {
        made := made + [Switch(rel, href(rel))];
        if korean(rel) { koToEn := koToEn + 1; } else { enToKo := enToKo + 1; }
      }
    }
    assert order[..|order|] == order;
  }

  function HrefFrom(cwd: seq<string>): string -> string { r => Href(cwd, r) }

  // The pass over a site's pages: one switch a linked page, and two counters that balance up to the one-way pages.
  method AddSwitches(cwd: seq<string>, order: seq<string>) returns (made: seq<Switch>, enToKo: nat, koToEn: nat)
    requires Distinct(order)
    ensures made == SwitchesOf(order, Links(PageSet(order)), HrefFrom(cwd))
    ensures enToKo == |EnglishLinked(PageSet(order))| && koToEn == |KoreanLinked(PageSet(order))|
    ensures koToEn == enToKo + |OneWay(PageSet(order))|
  {
    var pages := PageSet(order);
    made, enToKo, koToEn := Pass(order, Links(pages), Korean(), HrefFrom(cwd));
    CountIsSize(order, Links(pages), Korean(), false);
    CountIsSize(order, Links(pages), Korean(), true);
    SwitchesBalance(pages);
  }

  lemma {:induction false} ImageSize(a: set<string>, b: set<string>)
    requires b == set r | r in a :: "ko/" + r
    ensures |b| == |a|
    decreases |a|
  {
    if a != {} {
      var x :| x in a;
      var a', b' := a - {x}, b - {"ko/" + x};
      forall r | r in a' ensures "ko/" + r != "ko/" + x {
        TwinOfEnglish(r);
        TwinOfEnglish(x);
      }
      assert b' == set r | r in a' :: "ko/" + r;
      ImageSize(a', b');
      assert "ko/" + x in b;
    }
  }

  // As many Korean pages point to English ones as the other way round, up to the one-way pages.
  lemma SwitchesBalance(pages: set<string>)
    ensures |KoreanLinked(pages)| == |EnglishLinked(pages)| + |OneWay(pages)|
  {
    var en, ko, one := EnglishLinked(pages), KoreanLinked(pages), OneWay(pages);
    var image := set r | r in en :: "ko/" + r;
    forall k ensures k in ko - one <==> k in image {
      if k in image {
        var r :| r in en && k == "ko/" + r;
        EnglishReaches(pages, r);
      }
      if k in ko - one { KoreanReaches(pages, k); }
    }
    assert ko - one == image;
    ImageSize(en, image);
    assert ko == (ko - one) + one;
  }

  lemma EnglishReaches(pages: set<string>, r: string)
    requires r in EnglishLinked(pages)
    ensures "ko/" + r in KoreanLinked(pages) && "ko/" + r !in OneWay(pages)
  {
    SwitchIsMutualIff(pages, r);
    KoNotArchitectures("ko/" + r);
    TwinOfEnglish(r);
  }

  lemma KoreanReaches(pages: set<string>, k: string)
    requires k in KoreanLinked(pages) && k !in OneWay(pages)
    ensures k[3..] in EnglishLinked(pages) && |k| >= 3 && k == "ko/" + k[3..]
  {
    TwinOfKorean(k);
    SwitchIsMutualIff(pages, k);
  }

  // ---------- where the switch points ----------

  function TwinSegments(segs: seq<string>): seq<string>
    requires segs != []
  {
    if segs[0] == "ko" && |segs| > 1 then segs[1..] else ["ko"] + segs
  }

  lemma {:induction false} TwinIsTwinSegments(segs: seq<string>)
    requires Clean(segs) && segs != []
    ensures Twin(Join(segs, '/')) == Join(TwinSegments(segs), '/') && Clean(TwinSegments(segs))
  {
    var p := Join(segs, '/');
    assert |"ko/"| == 3 && "ko/" == "ko" + ['/'];
    CleanSplits(segs);
    if IsKo(p) {
      assert p == "ko" + ['/'] + p[3..];
      SplitAtSeparator("ko", '/', p[3..]);
      SplitOfPlain("ko", '/');
    }
    if segs[0] == "ko" && |segs| > 1 {
      assert p[..3] == "ko/" && p[3..] == Join(segs[1..], '/');
    }
    if !IsKo(p) {
      assert (["ko"] + segs)[1..] == segs;
    }
  }

  lemma OrDotNames(p: string, segs: seq<string>)
    requires Clean(segs) && p == Join(segs, '/')
    ensures Names(OrDot(p), segs)
  {
    if segs != [] { CleanSplits(segs); }
  }

  lemma DirectoryLinkOpens(site: Site, to: seq<string>)
    requires Clean(to) && site.isDir(Join(to, '/'))
    ensures ToPage(site, OrDot(Join(to, '/'))) == Join(to + ["index.html"], '/')
  {
    DirectoryOpens(site, to);
    if to == [] {
      assert Join([""], '/') == "" && to + [""] == [""];
    } else {
      DirectoryPath(to);
      NormPathOfNamed(to);
      CleanSplits(to);
    }
  }

  lemma DirNames(p: string, segs: seq<string>)
    requires Clean(segs) && segs != [] && p == Join(segs, '/')
    ensures DirName(p) == Join(segs[..|segs| - 1], '/') && Names(OrDot(DirName(p)), segs[..|segs| - 1])
  {
    DirAndBase(segs);
    OrDotNames(DirName(p), segs[..|segs| - 1]);
  }

  // The two directories a switch is computed from.
  lemma HrefNames(cwd: seq<string>, segs: seq<string>)
    requires Clean(segs) && segs != []
    ensures var (rel, to) := (Join(segs, '/'), TwinSegments(segs));
            && DirName(rel) == Join(segs[..|segs| - 1], '/')
            && Names(OrDot(DirName(rel)), segs[..|segs| - 1])
            && Names(OrDot(DirName(Twin(rel))), to[..|to| - 1])
  {
    TwinIsTwinSegments(segs);
    DirNames(Join(segs, '/'), segs);
    DirNames(Twin(Join(segs, '/')), TwinSegments(segs));
  }

  lemma TwinPartsArePlain(segs: seq<string>, c: char)
    requires Clean(segs) && segs != [] && c !in Join(segs, '/') && (c == '#' || c == '?')
    ensures var to := TwinSegments(segs); c !in Join(to[..|to| - 1], '/')
  {
    var to := TwinSegments(segs);
    forall k | 0 <= k < |segs| ensures c !in segs[k] { PartIsPlain(segs, k, c); }
    assert c !in "ko";
    JoinIsPlain(to[..|to| - 1], c);
  }

  lemma HrefIsPlain(cwd: seq<string>, segs: seq<string>, c: char)
    requires Clean(cwd) && Clean(segs) && segs != [] && c !in Join(segs, '/') && (c == '#' || c == '?')
    ensures c !in Href(cwd, Join(segs, '/'))
  {
    var rel, to := Join(segs, '/'), TwinSegments(segs);
    HrefNames(cwd, segs);
    TwinPartsArePlain(segs, c);
    RelPathIsPlain(cwd, OrDot(DirName(Twin(rel))), to[..|to| - 1], OrDot(DirName(rel)), segs[..|segs| - 1], c);
  }

  lemma HrefIsRelative(cwd: seq<string>, segs: seq<string>)
    requires Clean(cwd) && Clean(segs) && segs != []
    ensures var h := Href(cwd, Join(segs, '/')); h != "" && !StartsWith(h, "/")
  {
    var rel, to := Join(segs, '/'), TwinSegments(segs);
    HrefNames(cwd, segs);
    RelPathOfNamed(cwd, OrDot(DirName(Twin(rel))), to[..|to| - 1], OrDot(DirName(rel)), segs[..|segs| - 1]);
    RelSegmentsArePlain(segs[..|segs| - 1], to[..|to| - 1]);
    var r := RelSegments(segs[..|segs| - 1], to[..|to| - 1]);
    if r != [] { JoinStarts(r); }
    assert "/"[0] == '/';
  }

  // The switch on a page leads to the index page of its twin's directory.
  lemma HrefOpensDirectory(site: Site, cwd: seq<string>, segs: seq<string>)
    requires Clean(cwd) && Clean(segs) && segs != [] && PlainText(Join(segs, '/'))
    requires var to := TwinSegments(segs); site.isDir(Join(to[..|to| - 1], '/'))
    ensures var to := TwinSegments(segs);
            TargetPage(site, Join(segs, '/'), Href(cwd, Join(segs, '/'))).page
              == Join(to[..|to| - 1] + ["index.html"], '/')
  {
    var rel, to := Join(segs, '/'), TwinSegments(segs);
    HrefNames(cwd, segs);
    RelPathResolves(cwd, OrDot(DirName(Twin(rel))), to[..|to| - 1], OrDot(DirName(rel)), segs[..|segs| - 1]);
    HrefIsPlain(cwd, segs, '#');
    HrefIsPlain(cwd, segs, '?');
    UntilAfter(Href(cwd, rel), '#', "");
    UntilAfter(Href(cwd, rel), '?', "");
    HrefIsRelative(cwd, segs);
    DirectoryLinkOpens(site, to[..|to| - 1]);
  }

  // The switch leads to the twin exactly when the page is an index page.
  lemma SwitchLeadsToTwinIff(site: Site, cwd: seq<string>, segs: seq<string>)
    requires Clean(cwd) && Clean(segs) && segs != [] && PlainText(Join(segs, '/'))
    requires var to := TwinSegments(segs); site.isDir(Join(to[..|to| - 1], '/'))
    ensures TargetPage(site, Join(segs, '/'), Href(cwd, Join(segs, '/'))).page == Twin(Join(segs, '/'))
       <==> segs[|segs| - 1] == "index.html"
  {
    var to := TwinSegments(segs);
    HrefOpensDirectory(site, cwd, segs);
    TwinIsTwinSegments(segs);
    TwinBase(segs);
    SameDirectorySameBase(to[..|to| - 1], "index.html", segs[|segs| - 1]);
  }

  lemma TwinBase(segs: seq<string>)
    requires segs != []
    ensures var to := TwinSegments(segs); to == to[..|to| - 1] + [segs[|segs| - 1]]
  {}

  lemma SameDirectorySameBase(dir: seq<string>, a: string, b: string)
    ensures Join(dir + [a], '/') == Join(dir + [b], '/') <==> a == b
  {
    JoinWithLast(dir, a);
    JoinWithLast(dir, b);
    assert (DirPart(dir) + a)[|DirPart(dir)|..] == a && (DirPart(dir) + b)[|DirPart(dir)|..] == b;
  }

  // For instance guide/page.html, whose Korean twin has an index page beside it.
  lemma PageMissesItsTwin(site: Site, cwd: seq<string>)
    requires Clean(cwd) && site.isDir(Join(["ko", "guide"], '/'))
    ensures var rel := Join(["guide", "page.html"], '/'); TargetPage(site, rel, Href(cwd, rel)).page != Twin(rel)
  {
    GuideIsAName();
    TwoSegments("guide", "page.html");
    GuideTwin();
    SwitchLeadsToTwinIff(site, cwd, ["guide", "page.html"]);
  }

  lemma GuideIsAName()
    ensures Segment("guide") && PlainText("guide") && Segment("page.html") && PlainText("page.html")
    ensures "page.html" != "index.html" && "guide" != "ko"
  {
    assert |"guide"| == 5 && |"ko"| == 2 && |"page.html"| == 9 && |"index.html"| == 10;
  }

  lemma GuideTwin()
    ensures var to := TwinSegments(["guide", "page.html"]); to[..|to| - 1] == ["ko", "guide"]
  {
    GuideIsAName();
  }

  // ---------- which pages, by name ----------

  // An English page gets a switch when its Korean page was built; the home page, the error page and the pages under
  // architectures never do.
  lemma EnglishLinkedIff(pages: set<string>, rel: string)
    requires !("ko/" <= rel)
    ensures Linked(pages, rel)
            <==> && rel in pages && "ko/" + rel in pages
                 && rel != "index.html" && rel != "404.html" && !("architectures/" <= rel)
  {
    RootPages();
    assert |"ko/"| == 3 && |"ko/index.html"| == 13 && |"ko/404.html"| == 11;
    assert "ko/index.html"[..3] == "ko/" && "ko/404.html"[..3] == "ko/";
  }

  // A Korean page gets one when its English page was built, and only its home page and its error page never do.
  lemma KoreanLinkedIff(pages: set<string>, rest: string)
    ensures Linked(pages, "ko/" + rest)
            <==> && "ko/" + rest in pages && rest in pages && !("ko/" <= rest)
                 && rest != "index.html" && rest != "404.html"
  {
    RootPages();
    TwinOfEnglish(rest);
    SameRest(rest, "index.html");
    SameRest(rest, "404.html");
    KoNotArchitectures("ko/" + rest);
  }

  // The switches made are those of the linked pages, in the order of the pages.
  lemma {:induction false} SwitchesAre(order: seq<string>, linked: string -> bool, href: string -> string, s: Switch)
    ensures s in SwitchesOf(order, linked, href) <==> s.page in order && linked(s.page) && s.href == href(s.page)
  {
    if order == [] {
    } else {
      var n := |order| - 1;
      SwitchesAre(order[..n], linked, href, s);
      assert order == order[..n] + [order[n]];
    }
  }

  lemma {:induction false} SwitchesInOrder(a: seq<string>, b: seq<string>, linked: string -> bool,
                                           href: string -> string)
    ensures SwitchesOf(a + b, linked, href) == SwitchesOf(a, linked, href) + SwitchesOf(b, linked, href)
  {
    if b == [] {
      assert a + b == a;
    } else {
      var n := |b| - 1;
      SwitchesInOrder(a, b[..n], linked, href);
      assert (a + b)[..|a + b| - 1] == a + b[..n] && (a + b)[|a + b| - 1] == b[n];
    }
  }
}
