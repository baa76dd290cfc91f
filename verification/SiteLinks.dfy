// The links the site assembler writes, and the link checker that resolves them.
module SiteLinks {
  import opened Text
  import opened Paths
  import Str

  // ---------- text helpers of the two programs ----------

  predicate StartsWith(s: string, p: string) { p <= s }

  predicate EndsWith(s: string, p: string) { Str.HasSuffix(s, p) }

  // str.partition: what stands before and after the first separator.
  function Until(s: string, c: char): string { if s == "" || s[0] == c then "" else [s[0]] + Until(s[1..], c) }

  function After(s: string, c: char): string { if s == "" then "" else if s[0] == c then s[1..] else After(s[1..], c) }

  lemma {:induction false} UntilAfter(a: string, c: char, b: string)
    requires c !in a
    ensures Until(a + [c] + b, c) == a && After(a + [c] + b, c) == b
    ensures Until(a, c) == a && After(a, c) == ""
  {
    if a == "" {
      assert (a + [c] + b)[1..] == b;
    } else {
      UntilAfter(a[1..], c, b);
      assert (a + [c] + b)[1..] == a[1..] + [c] + b && a == [a[0]] + a[1..];
    }
  }

  function StripLeft(s: string): string { if s != "" && s[0] == '/' then StripLeft(s[1..]) else s }

  // ---------- writing ----------

  datatype Key = Key(repo: string, path: string)

  // A link to a file on GitHub, as the link pattern reports it.
  datatype Github = Github(repo: string, kind: string, path: string, anchor: string)

  // What a rewrite works with: the page maps of the site being built and of its two language siblings, the site
  // prefix, the working directory, the address of the repositories' owner and the ref to link to, the word characters,
  // and what exists in the repositories.
  datatype Env = Env(pages: map<Key, string>, korean: map<Key, string>, english: map<Key, string>, prefix: string,
                     cwd: seq<string>, owner: string, ref: string, word: char -> bool,
                     isFile: Key -> bool, isDir: Key -> bool, present: Key -> bool)

  function WithAnchor(link: string, anchor: string): string { if anchor != "" then link + "#" + anchor else link }

  function PageOf(d: string): string { if EndsWith(d, "index.md") then d[..|d| - 8] else CutMd(d) + "/" }

  function CutMd(d: string): string { if |d| >= 3 then d[..|d| - 3] else "" }

  function KoLink(prefix: string, d: string, anchor: string): string { WithAnchor(prefix + "/ko/" + PageOf(d), anchor) }

  function EnLink(prefix: string, d: string, anchor: string): string { WithAnchor(prefix + "/" + PageOf(d), anchor) }

  // A link to a page of this site, else of the Korean site, else of the English one.
  function PageLink(env: Env, destSrc: string, key: Key, anchor: string): Option<string> {
    if key in env.pages then Some(WithAnchor(RelPath(env.cwd, env.pages[key], DirName(destSrc)), anchor))
    else if key in env.korean then Some(KoLink(env.prefix, env.korean[key], anchor))
    else if key in env.english then Some(EnLink(env.prefix, env.english[key], anchor))
    else None
  }

  predicate RepoName(word: char -> bool, repo: string) {
    StartsWith(repo, "pqcota") && forall i :: 6 <= i < |repo| ==> word(repo[i]) || repo[i] == '-'
  }

  predicate Ref(word: char -> bool, ref: string) {
    ref == "main" || (|ref| > 1 && ref[0] == 'v' && forall i :: 1 <= i < |ref| ==> word(ref[i]) || ref[i] == '.')
  }

  // The pattern of links to the owner's repositories: owner, repository, kind, ref, path and anchor.
  function GithubOf(env: Env, target: string): Option<Github> {
    if !StartsWith(target, env.owner) then None
    else
      var s := target[|env.owner|..];
      var a := After(s, '/');
      var b := After(a, '/');
      if '/' !in s || '/' !in a || '/' !in b then None
      else if !RepoName(env.word, Until(s, '/')) || !Kind(Until(a, '/')) || !Ref(env.word, Until(b, '/')) then None
      else Some(Github(Until(s, '/'), Until(a, '/'), Until(After(b, '/'), '#'), After(After(b, '/'), '#')))
  }

  predicate Kind(kind: string) { kind == "blob" || kind == "tree" }

  function GithubUrl(env: Env, g: Github): string {
    WithAnchor(env.owner + g.repo + "/" + g.kind + "/" + env.ref + "/" + g.path, g.anchor)
  }

  // The file of its repository that a relative link names.
  function Named(src: string, path: string): string {
    if path != "" then NormPath(PathJoin(DirName(src), path)) else src
  }

  predicate External(target: string) {
    StartsWith(target, "http:") || StartsWith(target, "https:") || StartsWith(target, "mailto:")
  }

  // The new target of one link, or none when the link is kept as it is.
  function Rewritten(env: Env, repo: string, src: string, destSrc: string, bang: bool, target: string): Option<string> {
    if StartsWith(target, "#") then None
    else match GithubOf(env, target) {
      case Some(g) =>
        var link := PageLink(env, destSrc, Key(g.repo, StripSlashes(g.path)), g.anchor);
        if link.Some? then link else Some(GithubUrl(env, g.(path := StripSlashes(g.path))))
      case None =>
        if External(target) then None
        else
          var tpath, anchor := Named(src, Until(target, '#')), After(target, '#');
          var key := Key(repo, tpath);
          if StartsWith(tpath, "..") then None
          else if bang && env.isFile(key) && !EndsWith(tpath, ".md") then
            Some(RelPath(env.cwd, "assets/" + repo + "/" + tpath, DirName(destSrc)))
          else
            var link := PageLink(env, destSrc, key, anchor);
            if link.Some? then link
            else if !env.present(key) then None
            else Some(GithubUrl(env, Github(repo, if env.isDir(key) then "tree" else "blob", tpath, anchor)))
    }
  }

  // Where a relative link leads: the file of its repository that it names.
  function Relative(repo: string, src: string, target: string): Key { Key(repo, Named(src, Until(target, '#'))) }

  predicate HasPage(env: Env, key: Key) { key in env.pages || key in env.korean || key in env.english }

  predicate IsImage(env: Env, bang: bool, key: Key) { bang && env.isFile(key) && !EndsWith(key.path, ".md") }

  // A link is kept exactly when it names an anchor of its own page; or it is external, and no link to a file of the
  // owner's; or it is relative and leaves its repository; or it is relative and names nothing that is there.
  lemma KeptIff(env: Env, repo: string, src: string, destSrc: string, bang: bool, target: string)
    ensures Rewritten(env, repo, src, destSrc, bang, target).None?
            <==> || (|target| >= 1 && target[0] == '#')
                 || (&& GithubOf(env, target).None?
                     && (|| "http:" <= target || "https:" <= target || "mailto:" <= target
                         || Leaves(Relative(repo, src, target).path)
                         || (var key := Relative(repo, src, target);
                             !HasPage(env, key) && !IsImage(env, bang, key) && !env.present(key))))
  {
    assert |"#"| == 1 && "#"[0] == '#' && |".."| == 2 && ".."[0] == '.' && ".."[1] == '.';
  }

  ghost predicate Leaves(path: string) { |path| >= 2 && path[0] == '.' && path[1] == '.' }

  // ---------- the fence ----------

  // str.isspace: the space characters of Go and the four separator controls.
  predicate IsBlank(c: char) { Str.IsSpace(c) || 0x1C <= c as int <= 0x1F }

  function TrimLeft(s: string): string { if s != "" && IsBlank(s[0]) then TrimLeft(s[1..]) else s }

  predicate IsFence(line: string) { StartsWith(TrimLeft(line), "```") }

  function FencesBefore(lines: seq<string>, k: nat): nat
    requires k <= |lines|
  {
    if k == 0 then 0 else FencesBefore(lines, k - 1) + (if IsFence(lines[k - 1]) then 1 else 0)
  }

  // A line whose links are rewritten: not a fence, and outside every fenced block.
  predicate Open(lines: seq<string>, k: nat)
    requires k < |lines|
  {
    !IsFence(lines[k]) && FencesBefore(lines, k) % 2 == 0
  }

  function NewLine(lines: seq<string>, k: nat, sub: string -> string): string
    requires k < |lines|
  {
    if Open(lines, k) then sub(lines[k]) else lines[k]
  }

  method RewriteLines(lines: seq<string>, sub: string -> string) returns (out: seq<string>)
    ensures |out| == |lines| && forall k :: 0 <= k < |lines| ==> out[k] == NewLine(lines, k, sub)
  {
    out := [];
    var fence := false;
    for i := 0 to |lines|
      invariant |out| == i && (fence <==> FencesBefore(lines, i) % 2 == 1)
      invariant forall k :: 0 <= k < i ==> out[k] == NewLine(lines, k, sub)
    {
      var isFence := IsFence(lines[i]);
      if isFence {
        fence := !fence;
        out := out + [lines[i]];
      } else if fence {
        out := out + [lines[i]];
      } else {
        out := out + [sub(lines[i])];
      }
    }
  }

  // The rewrite of a file, for a given rewrite of one line: open lines only, and every other line as it was.
  method Rewrite(text: string, sub: string -> string) returns (r: string)
    requires forall line :: '\n' !in line ==> '\n' !in sub(line)
    ensures |Split(r, '\n')| == |Split(text, '\n')|
    ensures forall k :: 0 <= k < |Split(text, '\n')| ==> Split(r, '\n')[k] == NewLine(Split(text, '\n'), k, sub)
  {
    var lines := Split(text, '\n');
    JoinOfSplit(text, '\n');
    var out := RewriteLines(lines, sub);
    forall f | f in out ensures '\n' !in f {
      var k :| 0 <= k < |out| && out[k] == f;
      assert out[k] == NewLine(lines, k, sub) && lines[k] in lines;
    }
    SplitOfJoin(out, '\n');
    r := Join(out, '\n');
  }

  // ---------- reading ----------

  // What the checker knows of the built site.
  datatype Site = Site(prefix: string, isDir: string -> bool, present: string -> bool)

  datatype Place = Place(page: string, fragment: string)

  // A site-root path without its prefix, normalised; the root itself is the empty path.
  function RootPath(prefix: string, path: string): string {
    var p := if prefix != "" && |prefix| <= |path| then path[|prefix|..] else path;
    if StripLeft(p) != "" then NormPath(StripLeft(p)) else ""
  }

  // A directory stands for its index page, and an extensionless path for the page beside it.
  function ToPage(site: Site, full: string): string {
    var f := if full == "." then "" else full;
    var page := if EndsWith(f, "/") || site.isDir(f) then PathJoin(f, "index.html") else f;
    if !EndsWith(page, ".html") && site.present(page + ".html") then page + ".html" else page
  }

  // The page and fragment a link on page frm leads to.
  function TargetPage(site: Site, frm: string, href: string): Place {
    var fragment := After(href, '#');
    var path := Until(Until(href, '#'), '?');
    if StartsWith(path, "/") then
      if site.prefix != "" && path != site.prefix && !StartsWith(path, site.prefix + "/") then
        Place("OUTSIDE-PREFIX:" + path, fragment)
      else Place(ToPage(site, RootPath(site.prefix, path)), fragment)
    else Place(ToPage(site, if path != "" then NormPath(PathJoin(DirName(frm), path)) else frm), fragment)
  }

  // ---------- relative links ----------

  // The characters a URL gives a meaning to, and those urlparse drops.
  const URL_MARKS := {'#', '?', '%', ';', '\t', '\n', '\r'}

  // Text that urlparse takes as it stands.
  ghost predicate PlainText(s: string) { forall c :: c in URL_MARKS ==> c !in s }

  // A fragment that urlparse takes as it stands.
  ghost predicate PlainAnchor(anchor: string) { '\t' !in anchor && '\n' !in anchor && '\r' !in anchor }

  lemma AnchorReads(link: string, anchor: string)
    requires '#' !in link
    ensures Until(WithAnchor(link, anchor), '#') == link && After(WithAnchor(link, anchor), '#') == anchor
  {
    UntilAfter(link, '#', anchor);
    assert link + "#" + anchor == link + ['#'] + anchor;
  }

  lemma {:induction false} JoinIsPlain(segs: seq<string>, c: char)
    requires c != '/' && forall k :: 0 <= k < |segs| ==> c !in segs[k]
    ensures c !in Join(segs, '/')
  {
    if |segs| > 1 { JoinIsPlain(segs[1..], c); }
  }

  lemma {:induction false} PartIsPlain(segs: seq<string>, k: nat, c: char)
    requires k < |segs| && c !in Join(segs, '/')
    ensures c !in segs[k]
  {
    if |segs| > 1 && k > 0 { PartIsPlain(segs[1..], k - 1, c); }
  }

  lemma RelPathIsPlain(cwd: seq<string>, path: string, to: seq<string>, start: string, from: seq<string>, c: char)
    requires Clean(cwd) && Names(path, to) && Names(start, from) && c != '/' && c != '.' && c !in path
    ensures c !in RelPath(cwd, path, start)
  {
    RelPathOfNamed(cwd, path, to, start, from);
    var rel := RelSegments(from, to);
    forall k | 0 <= k < |rel| ensures c !in rel[k] {
      var n := Common(from, to);
      if k >= |from| - n { PartIsPlain(to, n + (k - (|from| - n)), c); }
    }
    JoinIsPlain(rel, c);
  }

  lemma DirIsNamed(p: string, segs: seq<string>)
    requires Names(p, segs) && segs != []
    ensures Names(DirName(p), segs[..|segs| - 1]) && DirName(p) == Join(segs[..|segs| - 1], '/')
  {
    DirAndBase(segs);
  }

  // A link to a page of this site leads, from the page it is written on, to that page and anchor.
  lemma WrittenLinkLeads(env: Env, destSrc: string, srcSegs: seq<string>, key: Key, segs: seq<string>, anchor: string)
    requires Clean(env.cwd) && Names(destSrc, srcSegs) && srcSegs != []
    requires key in env.pages && Names(env.pages[key], segs) && segs != [] && '#' !in env.pages[key]
    ensures PageLink(env, destSrc, key, anchor).Some?
    ensures var link := PageLink(env, destSrc, key, anchor).value;
            && NormPath(PathJoin(DirName(destSrc), Until(link, '#'))) == env.pages[key]
            && After(link, '#') == anchor
  {
    DirIsNamed(destSrc, srcSegs);
    var rel := RelPath(env.cwd, env.pages[key], DirName(destSrc));
    RelPathIsPlain(env.cwd, env.pages[key], segs, DirName(destSrc), srcSegs[..|srcSegs| - 1], '#');
    RelPathResolves(env.cwd, env.pages[key], segs, DirName(destSrc), srcSegs[..|srcSegs| - 1]);
    AnchorReads(rel, anchor);
    assert Segment(segs[0]);
    JoinStarts(segs);
  }

  // Rewriting keeps where a relative link leads: the file it named in the repository is the page the new link opens.
  lemma RelativeLinksKeepTheirTarget(env: Env, repo: string, src: string, destSrc: string, srcSegs: seq<string>,
                                     bang: bool, target: string, segs: seq<string>)
    requires Clean(env.cwd) && Names(destSrc, srcSegs) && srcSegs != []
    requires !StartsWith(target, "#") && GithubOf(env, target).None? && !External(target)
    requires var key := Key(repo, Named(src, Until(target, '#')));
             && !StartsWith(key.path, "..") && !(bang && env.isFile(key) && !EndsWith(key.path, ".md"))
             && key in env.pages && Names(env.pages[key], segs) && segs != [] && '#' !in env.pages[key]
    ensures Rewritten(env, repo, src, destSrc, bang, target).Some?
    ensures var link := Rewritten(env, repo, src, destSrc, bang, target).value;
            && NormPath(PathJoin(DirName(destSrc), Until(link, '#')))
              == env.pages[Key(repo, Named(src, Until(target, '#')))]
            && After(link, '#') == After(target, '#')
  {
    WrittenLinkLeads(env, destSrc, srcSegs, Key(repo, Named(src, Until(target, '#'))), segs, After(target, '#'));
  }

  // ---------- links to the other language ----------

  // The built page of a destination: one directory a page, except that an index page is its directory's own.
  function BuiltSegments(segs: seq<string>): seq<string>
    requires segs != []
  {
    segs[..|segs| - 1] + (if segs[|segs| - 1] == "index.md" then [] else [CutMd(segs[|segs| - 1])])
  }

  function Built(lang: seq<string>, segs: seq<string>): string
    requires segs != []
  {
    Join(lang + BuiltSegments(segs) + ["index.html"], '/')
  }

  ghost predicate Destination(segs: seq<string>) {
    segs != [] && Clean(segs) && EndsWith(segs[|segs| - 1], ".md") && segs[|segs| - 1][0] != '.'
      && PlainText(Join(segs, '/'))
  }

  // The name of the page is index.md, or does not even end so.
  ghost predicate IndexIsWhole(base: string) { base == "index.md" || !EndsWith(base, "index.md") }

  // The last segment decides how a path ends.
  lemma EndsOfJoin(segs: seq<string>, suffix: string)
    requires segs != [] && '/' !in suffix
    ensures EndsWith(Join(segs, '/'), suffix) <==> EndsWith(segs[|segs| - 1], suffix)
  {
    if |segs| > 1 {
      JoinOfLast(segs, '/');
      EndsOfSum(Join(segs[..|segs| - 1], '/'), segs[|segs| - 1], suffix);
    }
  }

  lemma EndsOfSum(dir: string, base: string, suffix: string)
    requires '/' !in suffix
    ensures EndsWith(dir + ['/'] + base, suffix) <==> EndsWith(base, suffix)
  {
    var p := dir + ['/'] + base;
    if |suffix| <= |base| {
      forall i | 0 <= i < |suffix|
        ensures p[|p| - |suffix| + i] == suffix[i] <==> base[|base| - |suffix| + i] == suffix[i]
      {
        assert p[|p| - |suffix| + i] == base[|base| - |suffix| + i];
      }
    } else if |suffix| <= |p| {
      var at := |suffix| - |base| - 1;
      assert p[|p| - |suffix| + at] == '/' && suffix[at] != '/';
    }
  }

  function DirPart(dir: seq<string>): string { if dir == [] then "" else Join(dir, '/') + ['/'] }

  lemma JoinLastPart(segs: seq<string>)
    requires segs != []
    ensures Join(segs, '/') == DirPart(segs[..|segs| - 1]) + segs[|segs| - 1]
  {
    if |segs| > 1 { JoinOfLast(segs, '/'); }
  }

  lemma JoinWithLast(dir: seq<string>, last: string)
    ensures Join(dir + [last], '/') == DirPart(dir) + last
  {
    JoinLastPart(dir + [last]);
    assert (dir + [last])[..|dir|] == dir;
  }

  lemma IndexPage(segs: seq<string>, d: string)
    requires segs != [] && d == Join(segs, '/') && EndsWith(segs[|segs| - 1], "index.md")
    ensures |segs[|segs| - 1]| >= 8 && |d| >= 8 && PageOf(d) == d[..|d| - 8]
  {
    assert |"index.md"| == 8;
    EndsOfJoin(segs, "index.md");
  }

  // Cutting the last n characters of the last segment cuts them off the path.
  lemma CutsLast(segs: seq<string>, n: nat)
    requires segs != [] && n <= |segs[|segs| - 1]|
    ensures n <= |Join(segs, '/')|
    ensures Join(segs, '/')[..|Join(segs, '/')| - n]
         == DirPart(segs[..|segs| - 1]) + segs[|segs| - 1][..|segs[|segs| - 1]| - n]
  {
    JoinLastPart(segs);
    CutOfSum(DirPart(segs[..|segs| - 1]), segs[|segs| - 1], n);
  }

  lemma CutOfSum(a: string, b: string, n: nat)
    requires n <= |b|
    ensures (a + b)[..|a + b| - n] == a + b[..|b| - n]
  {}

  lemma CutInLast(segs: seq<string>, n: nat)
    requires segs != [] && n <= |segs[|segs| - 1]|
    ensures n <= |Join(segs, '/')|
    ensures Join(segs, '/')[..|Join(segs, '/')| - n]
         == Join(segs[..|segs| - 1] + [segs[|segs| - 1][..|segs[|segs| - 1]| - n]], '/')
  {
    CutsLast(segs, n);
    JoinWithLast(segs[..|segs| - 1], segs[|segs| - 1][..|segs[|segs| - 1]| - n]);
  }

  // The page part of a link: for a name that ends in index.md, the path without that ending.
  lemma PageOfIndex(segs: seq<string>)
    requires segs != [] && EndsWith(segs[|segs| - 1], "index.md")
    ensures PageOf(Join(segs, '/')) == Join(segs[..|segs| - 1] + [CutIndex(segs[|segs| - 1])], '/')
  {
    IndexPage(segs, Join(segs, '/'));
    IndexCut(segs, PageOf(Join(segs, '/')));
  }

  lemma IndexCut(segs: seq<string>, page: string)
    requires segs != [] && |segs[|segs| - 1]| >= 8 && |Join(segs, '/')| >= 8
    requires page == Join(segs, '/')[..|Join(segs, '/')| - 8]
    ensures page == Join(segs[..|segs| - 1] + [CutIndex(segs[|segs| - 1])], '/')
  {
    CutInLast(segs, 8);
  }

  // For any other name, the path without .md, as a directory.
  lemma PageOfOther(segs: seq<string>)
    requires segs != [] && |segs[|segs| - 1]| >= 3 && !EndsWith(segs[|segs| - 1], "index.md")
    ensures PageOf(Join(segs, '/')) == Join(segs[..|segs| - 1] + [CutMd(segs[|segs| - 1])] + [""], '/')
  {
    var stem := segs[..|segs| - 1] + [CutMd(segs[|segs| - 1])];
    EndsOfJoin(segs, "index.md");
    CutInLast(segs, 3);
    JoinWithLast(stem, "");
    assert Join(stem, '/') + ['/'] + "" == Join(stem, '/') + "/";
  }

  lemma PageOfWhole(segs: seq<string>)
    requires segs != [] && EndsWith(segs[|segs| - 1], ".md") && IndexIsWhole(segs[|segs| - 1])
    ensures PageOf(Join(segs, '/')) == Join(BuiltSegments(segs) + [""], '/')
  {
    if EndsWith(segs[|segs| - 1], "index.md") {
      PageOfIndex(segs);
      WholeIndexCut(segs);
    } else {
      EndsInMd(segs[|segs| - 1]);
      PageOfOther(segs);
      OtherBuilt(segs);
    }
  }

  lemma PageOfPartial(segs: seq<string>)
    requires segs != [] && !IndexIsWhole(segs[|segs| - 1])
    ensures PageOf(Join(segs, '/')) == Join(segs[..|segs| - 1] + [CutIndex(segs[|segs| - 1])], '/')
  {
    PageOfIndex(segs);
  }

  lemma EndsInMd(base: string)
    requires EndsWith(base, ".md")
    ensures |base| >= 3
  {
    assert |".md"| == 3;
  }

  lemma OtherBuilt(segs: seq<string>)
    requires segs != [] && !EndsWith(segs[|segs| - 1], "index.md")
    ensures segs[..|segs| - 1] + [CutMd(segs[|segs| - 1])] + [""] == BuiltSegments(segs) + [""]
    ensures segs[|segs| - 1] != "index.md"
  {
    assert EndsWith("index.md", "index.md");
  }

  lemma WholeIndexCut(segs: seq<string>)
    requires segs != [] && segs[|segs| - 1] == "index.md"
    ensures segs[..|segs| - 1] + [CutIndex(segs[|segs| - 1])] == BuiltSegments(segs) + [""]
  {
    assert |segs[|segs| - 1]| == 8;
    assert CutIndex(segs[|segs| - 1]) == "";
  }

  function CutIndex(base: string): string { if |base| >= 8 then base[..|base| - 8] else "" }

  lemma StripOne(p: string)
    requires p == "" || p[0] != '/'
    ensures StripLeft("/" + p) == p
  {
    assert ("/" + p)[1..] == p;
  }

  // A prefix is empty, or starts with one slash and ends in none, as both programs strip it.
  ghost predicate GoodPrefix(prefix: string) {
    PlainText(prefix) && (prefix != "" ==> prefix[0] == '/' && prefix[|prefix| - 1] != '/' && prefix[1] != '/')
  }

  // A site-root link below the prefix, without its prefix.
  lemma RootLinkReads(site: Site, frm: string, p: string, anchor: string)
    requires GoodPrefix(site.prefix) && PlainAnchor(anchor) && PlainText(p) && (p == "" || p[0] != '/')
    ensures TargetPage(site, frm, WithAnchor(site.prefix + "/" + p, anchor))
         == Place(ToPage(site, if p != "" then NormPath(p) else ""), anchor)
  {
    var path := site.prefix + "/" + p;
    AnchorReads(path, anchor);
    UntilAfter(path, '?', "");
    assert path[0] == '/';
    assert path[|site.prefix|..] == "/" + p;
    StripOne(p);
    assert site.prefix + "/" <= path;
  }

  // A directory path with a slash at its end leads to that directory's index page.
  lemma DirectoryOpens(site: Site, segs: seq<string>)
    requires Clean(segs) && site.isDir(Join(segs, '/'))
    ensures ToPage(site, if Join(segs + [""], '/') != "" then NormPath(Join(segs + [""], '/')) else "")
            == Join(segs + ["index.html"], '/')
  {
    assert |"index.html"| == 10 && "index.html"[5..] == ".html";
    if segs == [] {
      assert segs + [""] == [""] && segs + ["index.html"] == ["index.html"];
    } else {
      DirectoryPath(segs);
      CleanSplits(segs);
      NormPathOfNamed(segs);
      assert Segment(segs[0]);
      NotADot(segs);
      EndsOfJoin(segs + ["index.html"], ".html");
      JoinAppend(segs, ["index.html"], '/');
    }
  }

  lemma NotADot(segs: seq<string>)
    requires Clean(segs) && segs != []
    ensures Join(segs, '/') != "."
  {
    assert Segment(segs[0]);
    if |segs| > 1 {
      assert |Join(segs, '/')| >= |segs[0]| + 1;
      CleanSplits(segs);
      if Join(segs, '/') == "." { SplitOfPlain(".", '/'); }
    }
  }

  lemma DirectoryPath(segs: seq<string>)
    requires Clean(segs) && segs != []
    ensures Join(segs + [""], '/') == Join(segs, '/') + "/"
            && NormPath(Join(segs + [""], '/')) == NormPath(Join(segs, '/'))
  {
    forall k | 0 <= k < |segs| ensures '/' !in segs[k] && segs[k] != "" { assert Segment(segs[k]); }
    JoinAppend(segs, [""], '/');
    NormPathOfJoin(segs + [""]);
    NormPathOfJoin(segs);
    TrailingSlash(segs);
  }

  lemma CutIsSegment(base: string, n: nat)
    requires Segment(base) && base[0] != '.' && n < |base|
    ensures Segment(base[..|base| - n])
  {
    assert base[..|base| - n][0] == base[0];
  }

  lemma StemIsSegment(base: string)
    requires Segment(base) && base[0] != '.' && EndsWith(base, ".md")
    ensures Segment(CutMd(base)) && |base| > 3
  {
    assert |".md"| == 3 && ".md"[0] == '.';
    CutIsSegment(base, 3);
  }

  lemma BuiltIsClean(segs: seq<string>)
    requires Destination(segs)
    ensures Clean(BuiltSegments(segs))
  {
    var base := segs[|segs| - 1];
    assert Segment(base);
    StemIsSegment(base);
  }

  lemma PlainParts(lang: seq<string>, segs: seq<string>)
    requires Destination(segs) && (lang == [] || lang == ["ko"])
    ensures PlainText(DirPart(lang) + PageOf(Join(segs, '/')))
  {
    var d := Join(segs, '/');
    assert PlainText("/") && PlainText("index.md") && PlainText("");
    PlainLang(lang);
    assert forall c :: c !in d ==> c !in d[..|d| - (if |d| >= 8 then 8 else 0)];
    assert forall c :: c !in d ==> c !in CutMd(d);
  }

  lemma PlainLang(lang: seq<string>)
    requires lang == [] || lang == ["ko"]
    ensures PlainText(DirPart(lang)) && Clean(lang) && |lang| <= 1
  {
    if lang == ["ko"] { assert DirPart(lang) == "ko" + ['/']; }
  }

  lemma JoinUnder(lang: seq<string>, segs: seq<string>)
    requires segs != []
    ensures Join(lang + segs, '/') == DirPart(lang) + Join(segs, '/')
  {
    if lang == [] {
      assert lang + segs == segs;
    } else {
      JoinAppend(lang, segs, '/');
    }
  }

  // The link to a page of the Korean (lang is ko) or English site, as the two writers spell it.
  function LanguageLink(prefix: string, lang: seq<string>, d: string, anchor: string): string {
    if lang == [] then EnLink(prefix, d, anchor) else KoLink(prefix, d, anchor)
  }

  lemma LanguageLinkText(prefix: string, lang: seq<string>, d: string, anchor: string)
    requires lang == [] || lang == ["ko"]
    ensures LanguageLink(prefix, lang, d, anchor) == WithAnchor(prefix + "/" + (DirPart(lang) + PageOf(d)), anchor)
  {
    if lang == [] {
      assert "" + PageOf(d) == PageOf(d);
    } else {
      assert DirPart(lang) == "ko/" && "/ko/" == "/" + "ko/";
      assert prefix + "/ko/" + PageOf(d) == prefix + "/" + ("ko/" + PageOf(d));
    }
  }

  lemma WholeLinkReads(site: Site, frm: string, lang: seq<string>, segs: seq<string>, anchor: string)
    requires GoodPrefix(site.prefix) && PlainAnchor(anchor) && (lang == [] || lang == ["ko"]) && Destination(segs)
    requires IndexIsWhole(segs[|segs| - 1]) && site.isDir(Join(lang + BuiltSegments(segs), '/'))
    ensures TargetPage(site, frm, LanguageLink(site.prefix, lang, Join(segs, '/'), anchor))
            == Place(Built(lang, segs), anchor)
  {
    var built := lang + BuiltSegments(segs);
    LanguageLinkText(site.prefix, lang, Join(segs, '/'), anchor);
    PlainParts(lang, segs);
    WholePath(lang, segs);
    StartsClean(built);
    RootLinkReads(site, frm, Join(built + [""], '/'), anchor);
    DirectoryOpens(site, built);
  }

  // The path such a link is written with.
  lemma WholePath(lang: seq<string>, segs: seq<string>)
    requires (lang == [] || lang == ["ko"]) && Destination(segs) && IndexIsWhole(segs[|segs| - 1])
    ensures DirPart(lang) + PageOf(Join(segs, '/')) == Join(lang + BuiltSegments(segs) + [""], '/')
    ensures Clean(lang + BuiltSegments(segs))
  {
    PageOfWhole(segs);
    BuiltIsClean(segs);
    PlainLang(lang);
    JoinUnder(lang, BuiltSegments(segs) + [""]);
    Associate(lang, BuiltSegments(segs), [""]);
  }

  lemma StartsClean(segs: seq<string>)
    requires Clean(segs)
    ensures var p := Join(segs + [""], '/'); p == "" || p[0] != '/'
  {
    if segs == [] {
      assert segs + [""] == [""];
    } else {
      assert Segment(segs[0]);
      JoinStarts(segs + [""]);
    }
  }

  lemma PartialLinkMisses(site: Site, frm: string, lang: seq<string>, segs: seq<string>, anchor: string)
    requires GoodPrefix(site.prefix) && PlainAnchor(anchor) && (lang == [] || lang == ["ko"]) && Destination(segs)
    requires !IndexIsWhole(segs[|segs| - 1])
    ensures |TargetPage(site, frm, LanguageLink(site.prefix, lang, Join(segs, '/'), anchor)).page| < |Built(lang, segs)|
  {
    var cut := lang + segs[..|segs| - 1] + [CutIndex(segs[|segs| - 1])];
    LanguageLinkText(site.prefix, lang, Join(segs, '/'), anchor);
    PlainParts(lang, segs);
    PartialPath(lang, segs);
    RootLinkReads(site, frm, Join(cut, '/'), anchor);
    NormPathOfNamed(cut);
    ToPageIsShort(site, Join(cut, '/'));
    PartialIsShort(lang, segs);
  }

  // The path such a link is cut to.
  lemma PartialPath(lang: seq<string>, segs: seq<string>)
    requires (lang == [] || lang == ["ko"]) && Destination(segs) && !IndexIsWhole(segs[|segs| - 1])
    ensures var cut := lang + segs[..|segs| - 1] + [CutIndex(segs[|segs| - 1])];
            var f := Join(cut, '/');
            && Clean(cut) && f != "" && f[0] != '/' && f[|f| - 1] != '/'
            && DirPart(lang) + PageOf(Join(segs, '/')) == f
    ensures Segment(segs[|segs| - 1])
  {
    var dir, base := segs[..|segs| - 1], segs[|segs| - 1];
    assert Segment(base);
    PartialBase(base);
    PlainLang(lang);
    PageOfPartial(segs);
    JoinUnder(lang, dir + [CutIndex(base)]);
    assert lang + (dir + [CutIndex(base)]) == lang + dir + [CutIndex(base)];
    CleanSplits(lang + dir + [CutIndex(base)]);
  }

  lemma PartialBase(base: string)
    requires Segment(base) && base[0] != '.' && !IndexIsWhole(base)
    ensures Segment(CutIndex(base)) && |CutIndex(base)| == |base| - 8 && |CutMd(base)| == |base| - 3
  {
    assert |"index.md"| == 8;
    CutIsSegment(base, 8);
  }

  lemma ToPageIsShort(site: Site, f: string)
    requires f != "" && f[|f| - 1] != '/'
    ensures |ToPage(site, f)| <= |f| + 11
  {
    assert |"index.html"| == 10 && |".html"| == 5 && "index.html"[5..] == ".html" && "index.html"[0] == 'i';
    var page := f + "/" + "index.html";
    assert page[|page| - 5..] == ".html";
    assert |"/"| == 1 && "/"[0] == '/';
  }

  lemma PartialIsShort(lang: seq<string>, segs: seq<string>)
    requires segs != [] && Segment(segs[|segs| - 1]) && segs[|segs| - 1][0] != '.' && !IndexIsWhole(segs[|segs| - 1])
    ensures |Built(lang, segs)| == |Join(lang + segs[..|segs| - 1] + [CutIndex(segs[|segs| - 1])], '/')| + 16
  {
    var dir, base := lang + segs[..|segs| - 1], segs[|segs| - 1];
    PartialBase(base);
    JoinWithLast(dir, CutIndex(base));
    JoinWithLast(dir, CutMd(base));
    JoinWithLast(dir + [CutMd(base)], "index.html");
    assert lang + BuiltSegments(segs) == dir + [CutMd(base)];
    assert |"index.html"| == 10;
  }

  lemma DevelopersIsAName()
    ensures Segment("developers") && PlainText("developers")
  {}

  lemma MyIndexIsAName()
    ensures Segment("myindex.md") && PlainText("myindex.md") && "myindex.md"[0] != '.'
  {}

  lemma MyIndexEnds()
    ensures EndsWith("myindex.md", ".md") && !IndexIsWhole("myindex.md")
  {
    assert |"myindex.md"| == 10 && |"index.md"| == 8;
  }

  lemma TwoSegments(a: string, b: string)
    requires Segment(a) && Segment(b) && PlainText(a) && PlainText(b)
    ensures Clean([a, b]) && PlainText(Join([a, b], '/'))
  {
    forall c | c in URL_MARKS ensures c !in Join([a, b], '/') { JoinIsPlain([a, b], c); }
  }

  lemma MyIndexIsADestination()
    ensures Destination(["developers", "myindex.md"]) && !IndexIsWhole("myindex.md")
  {
    DevelopersIsAName();
    MyIndexIsAName();
    MyIndexEnds();
    TwoSegments("developers", "myindex.md");
  }

  // For instance the page developers/myindex.md is never reached, from any page, under any prefix.
  lemma MyIndexIsMissed(site: Site, frm: string, lang: seq<string>, anchor: string)
    requires GoodPrefix(site.prefix) && PlainAnchor(anchor) && (lang == [] || lang == ["ko"])
    ensures var segs := ["developers", "myindex.md"];
            TargetPage(site, frm, LanguageLink(site.prefix, lang, Join(segs, '/'), anchor)).page != Built(lang, segs)
  {
    MyIndexIsADestination();
    PartialLinkMisses(site, frm, lang, ["developers", "myindex.md"], anchor);
  }

  // A link to a page of the other language leads to that built page and anchor, from any page, exactly when the base
  // name of the page is index.md or does not end so: the writers cut index.md off any name that ends in it.
  lemma LanguageLinkResolvesIff(site: Site, frm: string, lang: seq<string>, segs: seq<string>, anchor: string)
    requires GoodPrefix(site.prefix) && PlainAnchor(anchor) && (lang == [] || lang == ["ko"]) && Destination(segs)
    requires site.isDir(Join(lang + BuiltSegments(segs), '/'))
    ensures TargetPage(site, frm, LanguageLink(site.prefix, lang, Join(segs, '/'), anchor))
            == Place(Built(lang, segs), anchor)
       <==> IndexIsWhole(segs[|segs| - 1])
  {
    if IndexIsWhole(segs[|segs| - 1]) {
      WholeLinkReads(site, frm, lang, segs, anchor);
    } else {
      PartialLinkMisses(site, frm, lang, segs, anchor);
    }
  }

  // A link to a page that only the other language has leads to that built page and anchor, from any page.
  lemma OtherLanguageLinkLeads(env: Env, site: Site, destSrc: string, frm: string, key: Key, lang: seq<string>,
                               segs: seq<string>, anchor: string)
    requires site.prefix == env.prefix && GoodPrefix(env.prefix) && PlainAnchor(anchor) && key !in env.pages
    requires (lang == ["ko"] && key in env.korean && env.korean[key] == Join(segs, '/'))
          || (lang == [] && key !in env.korean && key in env.english && env.english[key] == Join(segs, '/'))
    requires Destination(segs) && IndexIsWhole(segs[|segs| - 1]) && site.isDir(Join(lang + BuiltSegments(segs), '/'))
    ensures PageLink(env, destSrc, key, anchor).Some?
    ensures TargetPage(site, frm, PageLink(env, destSrc, key, anchor).value) == Place(Built(lang, segs), anchor)
  {
    assert PageLink(env, destSrc, key, anchor) == Some(LanguageLink(env.prefix, lang, Join(segs, '/'), anchor));
    WholeLinkReads(site, frm, lang, segs, anchor);
  }

  // ---------- links that stay on GitHub ----------

  ghost predicate NoSlash(s: string) { '/' !in s }

  // A written GitHub link reads back as the repository, kind, path and anchor it was written for.
  lemma GithubRoundTrip(env: Env, g: Github)
    requires RepoName(env.word, g.repo) && Kind(g.kind) && Ref(env.word, env.ref) && '#' !in g.path && !env.word('/')
    ensures GithubOf(env, GithubUrl(env, g)) == Some(g)
  {
    var tail := WithAnchor(g.path, g.anchor);
    var b := env.ref + ['/'] + tail;
    var a := g.kind + ['/'] + b;
    var s := g.repo + ['/'] + a;
    RepoHasNoSlash(env.word, g.repo);
    KindHasNoSlash(g.kind);
    RefHasNoSlash(env.word, env.ref);
    RegroupUrl(env.owner, g.repo, g.kind, env.ref, g.path, g.anchor);
    assert (env.owner + s)[..|env.owner|] == env.owner && (env.owner + s)[|env.owner|..] == s;
    UntilAfter(g.repo, '/', a);
    UntilAfter(g.kind, '/', b);
    UntilAfter(env.ref, '/', tail);
    AnchorReads(g.path, g.anchor);
  }

  lemma RegroupUrl(owner: string, repo: string, kind: string, ref: string, path: string, anchor: string)
    ensures WithAnchor(owner + repo + "/" + kind + "/" + ref + "/" + path, anchor)
         == owner + (repo + ['/'] + (kind + ['/'] + (ref + ['/'] + WithAnchor(path, anchor))))
  {
    assert "/" == ['/'];
    var tail := if anchor == "" then "" else "#" + anchor;
    assert WithAnchor(path, anchor) == path + tail;
    RegroupSlashes(owner, repo, kind, ref, path, tail);
  }

  lemma RegroupSlashes(a: string, b: string, c: string, d: string, e: string, f: string)
    ensures a + b + ['/'] + c + ['/'] + d + ['/'] + e + f == a + (b + ['/'] + (c + ['/'] + (d + ['/'] + (e + f))))
  {}

  lemma RepoHasNoSlash(word: char -> bool, repo: string)
    requires RepoName(word, repo) && !word('/')
    ensures NoSlash(repo)
  {
    assert |"pqcota"| == 6;
    forall i | 0 <= i < |repo| ensures repo[i] != '/' {
      if i < 6 { assert repo[i] == "pqcota"[i]; }
    }
  }

  lemma KindHasNoSlash(kind: string)
    requires Kind(kind)
    ensures NoSlash(kind)
  {}

  lemma RefHasNoSlash(word: char -> bool, ref: string)
    requires Ref(word, ref) && !word('/')
    ensures NoSlash(ref)
  {}

  // A GitHub link to a file that has no page is rewritten to the same file, at the given ref.
  lemma GithubLinksKeepTheirFile(env: Env, repo: string, src: string, destSrc: string, bang: bool, target: string)
    requires !StartsWith(target, "#") && GithubOf(env, target).Some? && Ref(env.word, env.ref) && !env.word('/')
    requires var g := GithubOf(env, target).value;
             PageLink(env, destSrc, Key(g.repo, StripSlashes(g.path)), g.anchor).None?
    ensures Rewritten(env, repo, src, destSrc, bang, target).Some?
    ensures var g := GithubOf(env, target).value;
            GithubOf(env, Rewritten(env, repo, src, destSrc, bang, target).value)
              == Some(g.(path := StripSlashes(g.path)))
  {
    var g := GithubOf(env, target).value;
    UntilStops(After(After(After(target[|env.owner|..], '/'), '/'), '/'), '#');
    StripKeeps(g.path, '#');
    GithubRoundTrip(env, g.(path := StripSlashes(g.path)));
  }

  lemma {:induction false} UntilStops(s: string, c: char)
    ensures c !in Until(s, c)
  {
    if s != "" && s[0] != c { UntilStops(s[1..], c); }
  }

  lemma {:induction false} StripKeeps(p: string, c: char)
    requires c !in p
    ensures c !in StripSlashes(p)
  {
    if p != "" && p[|p| - 1] == '/' { StripKeeps(p[..|p| - 1], c); }
  }

  // A relative link to a file that has no page and exists is rewritten to that file on GitHub, with its anchor.
  lemma RelativeLinksReachTheirFile(env: Env, repo: string, src: string, destSrc: string, bang: bool, target: string)
    requires !StartsWith(target, "#") && GithubOf(env, target).None? && !External(target)
    requires RepoName(env.word, repo) && Ref(env.word, env.ref) && !env.word('/')
    requires var key := Key(repo, Named(src, Until(target, '#')));
             && !StartsWith(key.path, "..") && !(bang && env.isFile(key) && !EndsWith(key.path, ".md"))
             && '#' !in key.path && env.present(key) && PageLink(env, destSrc, key, After(target, '#')).None?
    ensures Rewritten(env, repo, src, destSrc, bang, target).Some?
    ensures var key := Key(repo, Named(src, Until(target, '#')));
            GithubOf(env, Rewritten(env, repo, src, destSrc, bang, target).value)
              == Some(Github(repo, if env.isDir(key) then "tree" else "blob", key.path, After(target, '#')))
  {
    var key := Key(repo, Named(src, Until(target, '#')));
    GithubRoundTrip(env, Github(repo, if env.isDir(key) then "tree" else "blob", key.path, After(target, '#')));
  }

  // An image is shown from its copy: the new link leads from the page to the place the file is copied to.
  lemma ImagesKeepTheirFile(env: Env, repo: string, src: string, destSrc: string, srcSegs: seq<string>, target: string,
                            segs: seq<string>)
    requires Clean(env.cwd) && Names(destSrc, srcSegs) && srcSegs != [] && Segment(repo)
    requires !StartsWith(target, "#") && GithubOf(env, target).None? && !External(target)
    requires var path := Named(src, Until(target, '#'));
             && !StartsWith(path, "..") && env.isFile(Key(repo, path)) && !EndsWith(path, ".md")
             && Clean(segs) && segs != [] && path == Join(segs, '/')
    ensures Rewritten(env, repo, src, destSrc, true, target).Some?
    ensures NormPath(PathJoin(DirName(destSrc), Rewritten(env, repo, src, destSrc, true, target).value))
         == "assets/" + repo + "/" + Named(src, Until(target, '#'))
  {
    var copy := ["assets", repo] + segs;
    AssetPath(repo, segs);
    DirIsNamed(destSrc, srcSegs);
    assert Segment("assets");
    RelPathResolves(env.cwd, Join(copy, '/'), copy, DirName(destSrc), srcSegs[..|srcSegs| - 1]);
    JoinStarts(copy);
  }

  lemma AssetPath(repo: string, segs: seq<string>)
    requires segs != []
    ensures Join(["assets", repo] + segs, '/') == "assets/" + repo + "/" + Join(segs, '/')
  {
    JoinAppend(["assets", repo], segs, '/');
    assert Join(["assets", repo], '/') == "assets" + ['/'] + Join(["assets", repo][1..], '/');
    assert ["assets", repo][1..] == [repo] && "assets/" == "assets" + ['/'];
  }
}
