// The texts the site assembler and the link checker tell apart: repository links, fences, page names.
module SiteText {
  import opened Text
  import opened Paths
  import opened SiteLinks
  import opened Trimming
  import Str

  // ---------- links to the repositories ----------

  ghost predicate RepoText(env: Env, repo: string) {
    && exists rest :: repo == "pqcota" + rest && forall i :: 0 <= i < |rest| ==> env.word(rest[i]) || rest[i] == '-'
  }

  ghost predicate RefText(env: Env, ref: string) {
    || ref == "main"
    || exists rest ::
         ref == "v" + rest && rest != "" && forall i :: 0 <= i < |rest| ==> env.word(rest[i]) || rest[i] == '.'
  }

  lemma RepoIff(env: Env, repo: string)
    ensures RepoName(env.word, repo) <==> RepoText(env, repo)
  {
    assert |"pqcota"| == 6;
    if RepoName(env.word, repo) {
      assert repo == "pqcota" + repo[6..];
    }
  }

  lemma RefIff(env: Env, ref: string)
    ensures Ref(env.word, ref) <==> RefText(env, ref)
  {
    if ref != "main" && Ref(env.word, ref) {
      assert ref == "v" + ref[1..];
    }
  }

  // What stands before the first separator, and after it.
  lemma {:induction false} Parted(s: string, c: char)
    ensures c !in Until(s, c)
    ensures if c in s then s == Until(s, c) + ([c] + After(s, c)) else s == Until(s, c) && After(s, c) == ""
  {
    if s != "" && s[0] != c {
      Parted(s[1..], c);
      assert s == [s[0]] + s[1..];
    } else if s != "" {
      assert s == "" + ([c] + s[1..]);
    }
  }

  // The owner's address, repository, kind and ref, each ended by a slash, and the path with its anchor.
  ghost predicate GithubText(env: Env, target: string, g: Github, ref: string, tail: string) {
    && target == env.owner + (g.repo + (['/'] + (g.kind + (['/'] + (ref + (['/'] + tail))))))
    && '/' !in g.repo && '/' !in g.kind && '/' !in ref
    && RepoText(env, g.repo) && (g.kind == "blob" || g.kind == "tree") && RefText(env, ref)
    && '#' !in g.path && ((tail == g.path && g.anchor == "") || tail == g.path + ['#'] + g.anchor)
  }

  // A link is read as a link to a repository exactly when it is spelt like one.
  lemma GithubIff(env: Env, target: string, g: Github)
    ensures GithubOf(env, target) == Some(g) <==> exists ref, tail :: GithubText(env, target, g, ref, tail)
  {
    if GithubOf(env, target) == Some(g) { GithubIsText(env, target, g); }
    if ref, tail :| GithubText(env, target, g, ref, tail) { TextIsGithub(env, target, g, ref, tail); }
  }

  lemma {:induction false} GithubIsText(env: Env, target: string, g: Github)
    requires GithubOf(env, target) == Some(g)
    ensures exists ref, tail :: GithubText(env, target, g, ref, tail)
  {
    var s := target[|env.owner|..];
    var a := After(s, '/');
    var b := After(a, '/');
    assert target == env.owner + s;
    Parted(s, '/');
    Parted(a, '/');
    Parted(b, '/');
    Parted(After(b, '/'), '#');
    Assembled(env, target, g, s, a, b, Until(b, '/'), After(b, '/'));
  }

  lemma {:induction false} Assembled(env: Env, target: string, g: Github, s: string, a: string, b: string, ref: string,
                                     tail: string)
    requires target == env.owner + s && s == g.repo + (['/'] + a) && a == g.kind + (['/'] + b)
    requires b == ref + (['/'] + tail) && '/' !in g.repo && '/' !in g.kind && '/' !in ref && '#' !in g.path
    requires RepoName(env.word, g.repo) && Kind(g.kind) && Ref(env.word, ref)
    requires (tail == g.path && g.anchor == "") || tail == g.path + (['#'] + g.anchor)
    ensures GithubText(env, target, g, ref, tail)
  {
    RepoIff(env, g.repo);
    RefIff(env, ref);
    Associate(g.path, ['#'], g.anchor);
  }

  lemma {:induction false} PartsAt(a: string, c: char, b: string)
    requires c !in a
    ensures c in a + ([c] + b) && Until(a + ([c] + b), c) == a && After(a + ([c] + b), c) == b
  {
    Associate(a, [c], b);
    UntilAfter(a, c, b);
    assert (a + [c] + b)[|a|] == c;
  }

  lemma {:induction false} TextIsGithub(env: Env, target: string, g: Github, ref: string, tail: string)
    requires GithubText(env, target, g, ref, tail)
    ensures GithubOf(env, target) == Some(g)
  {
    var b := ref + (['/'] + tail);
    var a := g.kind + (['/'] + b);
    var s := g.repo + (['/'] + a);
    assert target[|env.owner|..] == s;
    PartsAt(g.repo, '/', a);
    PartsAt(g.kind, '/', b);
    PartsAt(ref, '/', tail);
    RepoIff(env, g.repo);
    RefIff(env, ref);
    UntilAfter(g.path, '#', g.anchor);
  }

  // A link written to a repository is spelt like one, at the given ref.
  lemma {:induction false} GithubUrlSays(env: Env, g: Github)
    requires RepoName(env.word, g.repo) && Kind(g.kind) && Ref(env.word, env.ref)
    requires '/' !in g.repo && '/' !in env.ref && '#' !in g.path
    ensures GithubText(env, GithubUrl(env, g), g, env.ref, if g.anchor == "" then g.path else g.path + ['#'] + g.anchor)
  {
    RepoIff(env, g.repo);
    RefIff(env, env.ref);
    UrlIs(env, g);
    assert '/' !in "blob" && '/' !in "tree";
  }

  lemma {:induction false} UrlIs(env: Env, g: Github)
    ensures var tail := if g.anchor == "" then g.path else g.path + ['#'] + g.anchor;
            GithubUrl(env, g) == env.owner + (g.repo + (['/'] + (g.kind + (['/'] + (env.ref + (['/'] + tail))))))
  {
    var stem := env.owner + g.repo + "/" + g.kind + "/" + env.ref + "/";
    RegroupUrl(env.owner, g.repo, g.kind, env.ref, if g.anchor == "" then g.path else g.path + ['#'] + g.anchor);
    RegroupTail(stem, g.path, g.anchor);
  }

  lemma RegroupTail(stem: string, path: string, anchor: string)
    ensures stem + path + "#" + anchor == stem + (path + ['#'] + anchor)
  {}

  lemma RegroupUrl(owner: string, repo: string, kind: string, ref: string, tail: string)
    ensures owner + repo + "/" + kind + "/" + ref + "/" + tail
            == owner + (repo + (['/'] + (kind + (['/'] + (ref + (['/'] + tail))))))
  {}

  // ---------- which links lead to pages ----------

  // The file a link to a repository names, without the slashes at its end.
  lemma {:induction false} StripSlashesIs(p: string, n: nat)
    requires p == "" || p[|p| - 1] != '/'
    ensures StripSlashes(p + Slashes(n)) == p
  {
    if n == 0 {
      assert p + Slashes(n) == p;
    } else {
      assert (p + Slashes(n))[..|p| + n - 1] == p + Slashes(n - 1);
      StripSlashesIs(p, n - 1);
    }
  }

  // A link to a repository whose file has a page becomes a link to that page, with its anchor.
  lemma RepositoryLinkIsPageLink(env: Env, repo: string, src: string, destSrc: string, bang: bool, target: string,
                                 g: Github, ref: string, tail: string, path: string, n: nat)
    requires GithubText(env, target, g, ref, tail) && (target == "" || target[0] != '#')
    requires g.path == path + Slashes(n) && (path == "" || path[|path| - 1] != '/') && HasPage(env, Key(g.repo, path))
    ensures Rewritten(env, repo, src, destSrc, bang, target) == PageLink(env, destSrc, Key(g.repo, path), g.anchor)
  {
    assert |"#"| == 1 && "#"[0] == '#';
    GithubIff(env, target, g);
    StripSlashesIs(path, n);
  }

  // So does a relative link to a file that has one, unless it shows an image.
  lemma RelativeLinkIsPageLink(env: Env, repo: string, src: string, destSrc: string, bang: bool, path: string,
                               anchor: string)
    requires '#' !in path && path != ""
    requires var target := if anchor == "" then path else path + ['#'] + anchor;
             GithubOf(env, target).None? && !External(target)
    requires var key := Key(repo, Named(src, path));
             HasPage(env, key) && !Leaves(key.path) && !IsImage(env, bang, key)
    ensures var target := if anchor == "" then path else path + ['#'] + anchor;
            Rewritten(env, repo, src, destSrc, bang, target)
            == PageLink(env, destSrc, Key(repo, Named(src, path)), anchor)
  {
    var target := if anchor == "" then path else path + ['#'] + anchor;
    UntilAfter(path, '#', anchor);
    assert path[0] in path && target[0] == path[0];
    assert |"#"| == 1 && "#"[0] == '#' && |".."| == 2 && ".."[0] == '.' && ".."[1] == '.';
  }

  // A page of this site comes first, then the Korean one and then the English one.
  lemma PageLinkIs(env: Env, destSrc: string, key: Key, anchor: string)
    ensures PageLink(env, destSrc, key, anchor).Some? <==> HasPage(env, key)
    ensures key !in env.pages && key in env.korean
            ==> PageLink(env, destSrc, key, anchor) == Some(KoLink(env.prefix, env.korean[key], anchor))
    ensures key !in env.pages && key !in env.korean && key in env.english
            ==> PageLink(env, destSrc, key, anchor) == Some(EnLink(env.prefix, env.english[key], anchor))
  {}

  // ---------- fences ----------

  lemma IsBlankIff(c: char)
    ensures IsBlank(c) <==> c as int in WHITE_SPACE || c as int in {0x1C, 0x1D, 0x1E, 0x1F}
  {
    IsSpaceIff(c);
  }

  ghost predicate BlankText(s: string) {
    forall i :: 0 <= i < |s| ==> s[i] as int in WHITE_SPACE || s[i] as int in {0x1C, 0x1D, 0x1E, 0x1F}
  }

  ghost predicate FenceText(line: string, a: string, rest: string) { BlankText(a) && line == a + ("```" + rest) }

  // A fence: white space, three backticks, and anything.
  lemma IsFenceIff(line: string)
    ensures IsFence(line) <==> exists a, rest :: FenceText(line, a, rest)
  {
    if IsFence(line) { FenceIsText(line); }
    if a, rest :| FenceText(line, a, rest) { LeftOf(a, rest); }
  }

  lemma {:induction false} FenceIsText(line: string)
    requires IsFence(line)
    ensures exists a, rest :: FenceText(line, a, rest)
  {
    var a := LeftPart(line);
    var t := TrimLeft(line);
    assert t == "```" + t[3..];
    assert FenceText(line, a, t[3..]);
  }

  lemma {:induction false} LeftPart(s: string) returns (a: string)
    ensures BlankText(a) && s == a + TrimLeft(s)
  {
    if s != "" { IsBlankIff(s[0]); }
    if s != "" && IsBlank(s[0]) {
      a := LeftPart(s[1..]);
      a := [s[0]] + a;
    } else {
      a := "";
    }
  }

  lemma {:induction false} LeftOf(a: string, rest: string)
    requires BlankText(a)
    ensures TrimLeft(a + ("```" + rest)) == "```" + rest
  {
    if a == "" {
      assert a + ("```" + rest) == "```" + rest && ("```" + rest)[0] == '`';
    } else {
      IsBlankIff(a[0]);
      assert (a + ("```" + rest))[1..] == a[1..] + ("```" + rest);
      LeftOf(a[1..], rest);
    }
  }

  ghost function Fences(lines: seq<string>, k: nat): set<int>
    requires k <= |lines|
  {
    set j | 0 <= j < k && IsFence(lines[j])
  }

  // A line is rewritten exactly when it is no fence and an even number of fences stands before it.
  lemma OpenIff(lines: seq<string>, k: nat, sub: string -> string)
    requires k < |lines|
    ensures NewLine(lines, k, sub)
            == if !IsFence(lines[k]) && |Fences(lines, k)| % 2 == 0 then sub(lines[k]) else lines[k]
  {
    FencesAreCounted(lines, k);
  }

  lemma {:induction false} FencesAreCounted(lines: seq<string>, k: nat)
    requires k <= |lines|
    ensures FencesBefore(lines, k) == |Fences(lines, k)|
  {
    if k > 0 {
      FencesAreCounted(lines, k - 1);
      FenceMore(lines, k - 1);
    }
  }

  lemma FenceMore(lines: seq<string>, k: nat)
    requires k < |lines|
    ensures |Fences(lines, k + 1)| == |Fences(lines, k)| + if IsFence(lines[k]) then 1 else 0
  {
    assert Fences(lines, k + 1) == Fences(lines, k) + if IsFence(lines[k]) then {k} else {};
  }

  // ---------- names of pages ----------

  // A page's address is its directory when it is an index page, and else its name without the ending, as a directory.
  lemma PageOfIs(stem: string)
    ensures PageOf(stem + "index.md") == stem
    ensures !Str.HasSuffix(stem + ".md", "index.md") ==> PageOf(stem + ".md") == stem + "/"
  {
    var d := stem + "index.md";
    assert |"index.md"| == 8 && |".md"| == 3;
    assert forall i :: 0 <= i < 8 ==> d[|d| - 8 + i] == "index.md"[i];
    assert d[..|d| - 8] == stem;
    var e := stem + ".md";
    assert e[..|e| - 3] == stem;
  }

  // A link to an anchor alone leads to its own page.
  lemma AnchorLeadsHome(site: Site, frm: string, anchor: string)
    ensures TargetPage(site, frm, "#" + anchor) == Place(ToPage(site, frm), anchor)
  {
    UntilAfter("", '#', anchor);
    assert "" + ['#'] + anchor == "#" + anchor;
  }

  // A page with its own ending is itself.
  lemma {:induction false} PageIsItself(site: Site, d: string)
    requires Str.HasSuffix(d, ".html") && !site.isDir(d)
    ensures ToPage(site, d) == d
  {
    assert |".html"| == 5 && ".html"[4] == 'l' && |"/"| == 1 && "/"[0] == '/';
    assert d[|d| - 5 + 4] == 'l';
    assert d != "." && !Str.HasSuffix(d, "/");
  }

  // A path that ends in a slash is that directory's index page.
  lemma {:induction false} SlashIsIndex(site: Site, d: string)
    requires d != ""
    ensures ToPage(site, d + "/") == d + "/index.html"
  {
    assert Str.HasSuffix(d + "/", "/") && d + "/" != ".";
    assert PathJoin(d + "/", "index.html") == d + "/" + "index.html";
    assert d + "/" + "index.html" == d + "/index.html";
    assert |".html"| == 5 && |"index.html"| == 10 && "index.html"[5..] == ".html";
  }

  // A site-root link that is not below the prefix is reported as such; without a prefix there is none.
  lemma OutsideIff(site: Site, frm: string, path: string)
    requires path != "" && path[0] == '/' && '#' !in path && '?' !in path
    ensures TargetPage(site, frm, path)
            == if site.prefix != "" && path != site.prefix && !(site.prefix + "/" <= path)
               then Place("OUTSIDE-PREFIX:" + path, "") else Place(ToPage(site, RootPath(site.prefix, path)), "")
  {
    UntilAfter(path, '#', "");
    UntilAfter(path, '?', "");
    assert "/" <= path;
  }

  // The prefix itself leads to the root of the site.
  lemma PrefixIsRoot(site: Site, frm: string)
    requires site.prefix != "" && site.prefix[0] == '/' && '#' !in site.prefix && '?' !in site.prefix
    ensures TargetPage(site, frm, site.prefix) == Place(ToPage(site, ""), "")
  {
    OutsideIff(site, frm, site.prefix);
    assert site.prefix[|site.prefix|..] == "";
  }

  // A link without a path names the file it stands in.
  lemma NoPathIsHere(src: string, path: string)
    ensures Named(src, "") == src
    ensures path != "" && path[0] != '/' && '/' !in src ==> Named(src, path) == NormPath(path)
  {
    if '/' !in src {
      NoSlash(src);
      assert "" + path == path;
    }
  }

  lemma {:induction false} NoSlash(p: string)
    requires '/' !in p
    ensures LastSlash(p) == -1
  {
    if p != "" {
      assert p[|p| - 1] in p;
      NoSlash(p[..|p| - 1]);
    }
  }

  // A path without an ending is the page beside it, when there is one and no directory of that name.
  lemma {:induction false} PageStandsBeside(site: Site, d: string)
    requires d != "" && d[|d| - 1] != '/' && d != "." && !site.isDir(d)
    requires !Str.HasSuffix(d, ".html")
    ensures ToPage(site, d) == if site.present(d + ".html") then d + ".html" else d
  {
    assert |"/"| == 1 && "/"[0] == '/';
  }
}
