// Heading anchors: the slug the document checker computes, and the lookup that slugs the link's anchor again.
module DocSlug {
  import opened Text
  import Str

  // Lower-casing of one character, and the Unicode classes L and N.
  datatype Unicode = Unicode(lower: char -> char, word: char -> bool)

  // What the slug needs of them: lower-casing twice is lower-casing once, a lower-case hyphen is a hyphen, and the
  // characters the slug treats specially are neither letters nor numbers.
  ghost predicate Sound(u: Unicode) {
    && (forall c :: LowerTwice(u, c))
    && u.lower('-') == '-'
    && (forall c :: WordIsPlain(u, c))
  }

  predicate LowerTwice(u: Unicode, c: char) { u.lower(u.lower(c)) == u.lower(c) }

  predicate WordIsPlain(u: Unicode, c: char) { u.word(c) ==> !Str.IsSpace(c) && !Markup(c) && c != '[' && c != '-' }

  predicate Markup(c: char) { c == '`' || c == '*' || c == '_' || c == '~' }

  // \s of the regular expressions: ASCII white space only.
  predicate RegexSpace(c: char) { c == ' ' || c == '\t' || c == '\n' || c == '\r' || c as int == 12 }

  predicate Kept(u: Unicode, c: char) { u.word(c) || c == '_' || c == '-' || RegexSpace(c) }

  function Lower(u: Unicode, s: string): (t: string) { seq(|s|, i requires 0 <= i < |s| => u.lower(s[i])) }

  // Each link '[text](target)' becomes its text; a bracket that starts no link stays. The ends are where the text ends
  // and where the link ends.
  function LinkEnd(t: string, i: nat): (ends: Option<(nat, nat)>)
    requires i < |t| && t[i] == '['
    ensures ends.Some? ==> i < ends.value.0 < ends.value.1 <= |t|
  {
    var close := Str.IndexFrom(t, ']', i + 1);
    if close + 1 >= |t| || t[close + 1] != '(' then None
    else
      var paren := Str.IndexFrom(t, ')', close + 2);
      if paren == |t| then None else Some((close, paren + 1))
  }

  // The text from position i on without its links.
  function DropLinks(t: string, i: nat): string
    requires i <= |t|
    decreases |t| - i
  {
    if i == |t| then ""
    else if t[i] == '[' && LinkEnd(t, i).Some? then
      var ends := LinkEnd(t, i).value;
      Cut(t, i + 1, ends.0) + DropLinks(t, ends.1)
    else [t[i]] + DropLinks(t, i + 1)
  }

  // A link opens at a; its text ends at the first closing bracket, b, and its target at the first parenthesis, c.
  ghost predicate LinkAt(t: string, a: nat, b: nat, c: nat) {
    && a < b && b + 1 < c < |t|
    && t[a] == '[' && t[b] == ']' && t[b + 1] == '(' && t[c] == ')'
    && (forall k :: a < k < b ==> t[k] != ']') && (forall k :: b + 1 < k < c ==> t[k] != ')')
  }

  // A link becomes its text wherever it stands; the text before it is untouched and the text after it is read on.
  lemma {:induction false} LinkBecomesItsText(t: string, i: nat, a: nat, b: nat, c: nat)
    requires i <= a && LinkAt(t, a, b, c) && forall k :: i <= k < a ==> t[k] != '['
    ensures DropLinks(t, i) == Cut(t, i, a) + (Cut(t, a + 1, b) + DropLinks(t, c + 1))
    decreases a - i
  {
    if i == a {
      LinkIsDropped(t, a, b, c);
      assert Cut(t, i, a) == [];
    } else {
      LinkBecomesItsText(t, i + 1, a, b, c);
      CutFirst(t, i, a);
      Associate([t[i]], Cut(t, i + 1, a), Cut(t, a + 1, b) + DropLinks(t, c + 1));
    }
  }

  lemma LinkIsDropped(t: string, a: nat, b: nat, c: nat)
    requires LinkAt(t, a, b, c)
    ensures DropLinks(t, a) == Cut(t, a + 1, b) + DropLinks(t, c + 1)
  {
    LinkEnds(t, a, b, c);
  }

  lemma LinkEnds(t: string, a: nat, b: nat, c: nat)
    requires LinkAt(t, a, b, c)
    ensures LinkEnd(t, a) == Some((b, c + 1))
  {
    Str.IndexFromFirst(t, ']', a + 1, b);
    Str.IndexFromFirst(t, ')', b + 2, c);
  }

  lemma CutFirst(t: string, i: nat, j: nat)
    requires i < j <= |t|
    ensures Cut(t, i, j) == [t[i]] + Cut(t, i + 1, j)
  {}

  function Filter(t: string, keep: char -> bool): string {
    if t == "" then "" else (if keep(t[0]) then [t[0]] else []) + Filter(t[1..], keep)
  }

  function NotMarkup(): char -> bool { c => !Markup(c) }

  function KeptBy(u: Unicode): char -> bool { c => Kept(u, c) }

  function Hyphens(t: string): string { seq(|t|, i requires 0 <= i < |t| => if RegexSpace(t[i]) then '-' else t[i]) }

  function Slug(u: Unicode, text: string): string {
    var t := Lower(u, Str.TrimSpace(text));
    Str.TrimChar(Hyphens(Filter(Filter(DropLinks(t, 0), NotMarkup()), KeptBy(u))), '-')
  }

  // ---------- what a slug is made of ----------

  // A slug character: a hyphen, or a letter or number that is its own lower case.
  predicate SlugChar(u: Unicode, c: char) { c == '-' || (u.word(c) && u.lower(c) == c) }

  ghost predicate SlugText(u: Unicode, s: string) {
    && (forall i :: 0 <= i < |s| ==> SlugChar(u, s[i]))
    && (s != "" ==> s[0] != '-' && s[|s| - 1] != '-')
  }

  // Every character of a filtered text is a kept character of the text.
  lemma {:induction false} FilterKeeps(t: string, keep: char -> bool)
    ensures forall i :: 0 <= i < |Filter(t, keep)| ==> keep(Filter(t, keep)[i]) && Filter(t, keep)[i] in t
  {
    if t == "" {
    } else {
      FilterKeeps(t[1..], keep);
      assert t == [t[0]] + t[1..];
    }
  }

  lemma {:induction false} DropLinksKeeps(t: string, i: nat)
    requires i <= |t|
    ensures forall k :: 0 <= k < |DropLinks(t, i)| ==> DropLinks(t, i)[k] in t
    decreases |t| - i
  {
    if i == |t| {
    } else if t[i] == '[' && LinkEnd(t, i).Some? {
      DropLinksKeeps(t, LinkEnd(t, i).value.1);
    } else {
      DropLinksKeeps(t, i + 1);
    }
  }

  // Trimming keeps only characters that were there, and none of the trimmed kind at either end.
  lemma TrimCharEnds(s: string, c: char)
    ensures var t := Str.TrimChar(s, c);
            (t != "" ==> t[0] != c && t[|t| - 1] != c) && forall i :: 0 <= i < |t| ==> t[i] in s
  {
    TrimmedEnds(s, Str.TrimLeftChar(s, c), Str.TrimChar(s, c), c);
  }

  lemma TrimmedEnds(s: string, l: string, t: string, c: char)
    requires t <= l && (t == "" || t[|t| - 1] != c) && |l| <= |s| && l == s[|s| - |l|..] && (l == "" || l[0] != c)
    ensures (t != "" ==> t[0] != c && t[|t| - 1] != c) && forall i :: 0 <= i < |t| ==> t[i] in s
  {
    PartOf(t, l, s);
    if t != "" { assert l[0] == t[0]; }
  }

  lemma PartOf(t: string, l: string, s: string)
    requires t <= l && |l| <= |s| && l == s[|s| - |l|..]
    ensures forall i :: 0 <= i < |t| ==> t[i] in s
  {
    forall i | 0 <= i < |t| ensures t[i] in s {
      assert t[i] == l[i] == s[|s| - |l| + i];
    }
  }

  // The result is lower-case letters and numbers joined by hyphens, whatever the heading.
  lemma SlugIsSlugText(u: Unicode, text: string)
    requires Sound(u)
    ensures SlugText(u, Slug(u, text))
  {
    var t := Lower(u, Str.TrimSpace(text));
    var bare := Filter(DropLinks(t, 0), NotMarkup());
    var kept := Filter(bare, KeptBy(u));
    DropLinksKeeps(t, 0);
    FilterKeeps(DropLinks(t, 0), NotMarkup());
    FilterKeeps(bare, KeptBy(u));
    var hyphens := Hyphens(kept);
    forall i | 0 <= i < |kept| ensures SlugChar(u, hyphens[i]) {
      assert kept[i] in bare;
      assert kept[i] in t;
      assert NotMarkup()(kept[i]);
      var k :| 0 <= k < |t| && t[k] == kept[i];
      assert t[k] == u.lower(Str.TrimSpace(text)[k]);
      assert LowerTwice(u, Str.TrimSpace(text)[k]);
    }
    TrimCharEnds(hyphens, '-');
  }

  // ---------- slugs are fixed ----------

  lemma {:induction false} FilterAll(t: string, keep: char -> bool)
    requires forall i :: 0 <= i < |t| ==> keep(t[i])
    ensures Filter(t, keep) == t
  {
    if t == "" {
    } else {
      FilterAll(t[1..], keep);
      assert t == [t[0]] + t[1..];
    }
  }

  lemma {:induction false} NoLinks(t: string, i: nat)
    requires i <= |t| && forall k :: 0 <= k < |t| ==> t[k] != '['
    ensures DropLinks(t, i) == Cut(t, i, |t|)
    decreases |t| - i
  {
    if i == |t| {
    } else {
      NoLinks(t, i + 1);
      CutFirst(t, i, |t|);
    }
  }

  lemma NothingToTrim(s: string)
    requires s != "" ==> !Str.IsSpace(s[0]) && !Str.IsSpace(s[|s| - 1])
    ensures Str.TrimSpace(s) == s
  {}

  lemma SlugCharFacts(u: Unicode, c: char)
    requires Sound(u) && SlugChar(u, c)
    ensures !Str.IsSpace(c) && !Markup(c) && c != '[' && Kept(u, c) && !RegexSpace(c) && u.lower(c) == c
  {
    assert WordIsPlain(u, c);
  }

  lemma SlugOfSlugText(u: Unicode, s: string)
    requires Sound(u) && SlugText(u, s)
    ensures Slug(u, s) == s
  {
    forall i | 0 <= i < |s|
      ensures !Str.IsSpace(s[i]) && !Markup(s[i]) && s[i] != '[' && Kept(u, s[i]) && !RegexSpace(s[i])
              && u.lower(s[i]) == s[i]
    {
      SlugCharFacts(u, s[i]);
    }
    NothingToTrim(s);
    assert Lower(u, s) == s;
    NoLinks(s, 0);
    assert Cut(s, 0, |s|) == s;
    FilterAll(s, NotMarkup());
    FilterAll(s, KeptBy(u));
    assert Hyphens(s) == s;
  }

  // The slug of a slug is itself: slugging the anchor of a link again loses nothing.
  lemma SlugIsIdempotent(u: Unicode, text: string)
    requires Sound(u)
    ensures Slug(u, Slug(u, text)) == Slug(u, text)
  {
    SlugIsSlugText(u, text);
    SlugOfSlugText(u, Slug(u, text));
  }

  // The texts a slug leaves alone are exactly the lower-case ones joined by hyphens.
  lemma FixedIff(u: Unicode, s: string)
    requires Sound(u)
    ensures Slug(u, s) == s <==> SlugText(u, s)
  {
    SlugIsSlugText(u, s);
    if SlugText(u, s) { SlugOfSlugText(u, s); }
  }

  // ---------- the anchors of a document ----------

  function SlugBy(u: Unicode): string -> string { t => Slug(u, t) }

  function SlugSet(slug: string -> string, headings: seq<string>): set<string> {
    set k | 0 <= k < |headings| :: slug(headings[k])
  }

  // A document's anchors: the slugs of its headings and the anchors it writes itself.
  function AnchorSet(slug: string -> string, headings: seq<string>, explicit: seq<string>): set<string> {
    SlugSet(slug, headings) + set x | x in explicit
  }

  method Anchors(slug: string -> string, headings: seq<string>, explicit: seq<string>) returns (anchors: set<string>)
    ensures anchors == AnchorSet(slug, headings, explicit)
  {
    anchors := {};
    for k := 0 to |headings|
      invariant anchors == set j | 0 <= j < k :: slug(headings[j])
    {
      anchors := anchors + {slug(headings[k])};
    }
    for k := 0 to |explicit|
      invariant anchors == SlugSet(slug, headings) + set x | x in explicit[..k]
    {
      anchors := anchors + {explicit[k]};
    }
    assert explicit[..|explicit|] == explicit;
  }

  // The lookup of a link's anchor.
  predicate Found(slug: string -> string, anchors: set<string>, anchor: string) { slug(anchor) in anchors }

  // A link to the anchor of any heading always passes.
  lemma HeadingAnchorPasses(u: Unicode, headings: seq<string>, explicit: seq<string>, k: nat)
    requires Sound(u) && k < |headings|
    ensures Found(SlugBy(u), AnchorSet(SlugBy(u), headings, explicit), Slug(u, headings[k]))
  {
    SlugIsIdempotent(u, headings[k]);
    InSlugSet(SlugBy(u), headings, k);
  }

  lemma InSlugSet(slug: string -> string, headings: seq<string>, k: nat)
    requires k < |headings|
    ensures slug(headings[k]) in SlugSet(slug, headings)
  {}

  // A document that writes the anchor x itself, and a link to x passes, whatever else the document holds.
  ghost predicate AlwaysPasses(slug: string -> string, x: string) {
    forall headings: seq<string>, explicit: seq<string> ::
      x in explicit ==> Found(slug, AnchorSet(slug, headings, explicit), x)
  }

  lemma PassesIffFixed(slug: string -> string, x: string)
    ensures AlwaysPasses(slug, x) <==> slug(x) == x
    ensures slug(x) != x ==> !Found(slug, AnchorSet(slug, [], [x]), x)
  {
    assert AnchorSet(slug, [], [x]) == {x};
    assert AlwaysPasses(slug, x) ==> Found(slug, AnchorSet(slug, [], [x]), x);
  }

  // A link to an anchor the document writes itself passes, whatever else the document holds, exactly when that
  // anchor is spelt as a slug.
  lemma ExplicitAnchorPassesIff(u: Unicode, x: string)
    requires Sound(u)
    ensures AlwaysPasses(SlugBy(u), x) <==> SlugText(u, x)
  {
    FixedIff(u, x);
    PassesIffFixed(SlugBy(u), x);
  }

  lemma UnderscoreIsNoSlug(u: Unicode, s: string, i: nat)
    requires Sound(u) && i < |s| && s[i] == '_'
    ensures !SlugText(u, s)
  {
    assert WordIsPlain(u, '_');
    assert !SlugChar(u, s[i]);
  }

  // For instance any anchor with an underscore, which the lookup removes: in a document that holds nothing else, the
  // link to it fails.
  lemma UnderscoreAnchorFails(u: Unicode, x: string, i: nat)
    requires Sound(u) && i < |x| && x[i] == '_'
    ensures !Found(SlugBy(u), AnchorSet(SlugBy(u), [], [x]), x)
  {
    FixedIff(u, x);
    UnderscoreIsNoSlug(u, x, i);
    PassesIffFixed(SlugBy(u), x);
  }
}
