// The slug of a heading without links, character by character.
module DocSlugText {
  import opened Text
  import opened DocSlug
  import Str

  // What one character becomes: a letter or number its lower case, ASCII white space and a hyphen a hyphen, and
  // anything else nothing.
  ghost function Image(u: Unicode, c: char): string {
    var l := u.lower(c);
    if u.word(l) then [l]
    else if l == '-' || l as int == 9 || l as int == 10 || l as int == 12 || l as int == 13 || l as int == 32 then "-"
    else ""
  }

  ghost function Images(u: Unicode, t: string): string {
    if t == "" then "" else Image(u, t[0]) + Images(u, t[1..])
  }

  ghost predicate Letter(u: Unicode, c: char) { u.word(c) && u.word(u.lower(c)) }

  // A heading that starts and ends with a letter or number and has no bracket: every character becomes its image, so
  // that each space between two words is one hyphen, and punctuation and markup leave nothing.
  lemma SlugIsPointwise(u: Unicode, t: string)
    requires Sound(u) && t != "" && Letter(u, t[0]) && Letter(u, t[|t| - 1]) && '[' !in Lower(u, t)
    ensures Slug(u, t) == Images(u, t)
  {
    assert WordIsPlain(u, t[0]) && WordIsPlain(u, t[|t| - 1]);
    assert Str.TrimSpace(t) == t;
    NoLinks(Lower(u, t), 0);
    assert Cut(Lower(u, t), 0, |t|) == Lower(u, t);
    FiltersAreImages(u, t);
    EndsAreLetters(u, t);
    NothingToTrim(Images(u, t));
  }

  lemma {:induction false} NoLinks(t: string, i: nat)
    requires i <= |t| && '[' !in t
    ensures DropLinks(t, i) == Cut(t, i, |t|)
    decreases |t| - i
  {
    if i < |t| {
      assert t[i] in t;
      NoLinks(t, i + 1);
      CutFirst(t, i, |t|);
    }
  }

  lemma HyphensAppend(a: string, b: string)
    ensures Hyphens(a + b) == Hyphens(a) + Hyphens(b)
  {}

  ghost function Cleaned(u: Unicode, l: string): string { Filter(Filter(l, NotMarkup()), KeptBy(u)) }

  lemma {:induction false} FilterAppendOne(c: char, s: string, keep: char -> bool)
    ensures Filter([c] + s, keep) == (if keep(c) then [c] else []) + Filter(s, keep)
  {
    assert ([c] + s)[1..] == s;
  }

  lemma {:induction false} CleanedStep(u: Unicode, c: char, l: string)
    ensures Cleaned(u, [c] + l) == (if !Markup(c) && Kept(u, c) then [c] else []) + Cleaned(u, l)
  {
    FilterAppendOne(c, l, NotMarkup());
    var rest := Filter(l, NotMarkup());
    FilterAppendOne(c, rest, KeptBy(u));
    assert [] + rest == rest;
  }

  lemma {:induction false} FiltersAreImages(u: Unicode, t: string)
    requires Sound(u)
    ensures Hyphens(Cleaned(u, Lower(u, t))) == Images(u, t)
  {
    if t == "" {
    } else {
      var c, rest := u.lower(t[0]), Lower(u, t[1..]);
      assert Lower(u, t) == [c] + rest;
      CleanedStep(u, c, rest);
      FiltersAreImages(u, t[1..]);
      assert WordIsPlain(u, c);
      HyphensAppend(if !Markup(c) && Kept(u, c) then [c] else [], Cleaned(u, rest));
      assert Hyphens(if !Markup(c) && Kept(u, c) then [c] else []) == Image(u, t[0]);
    }
  }

  lemma {:induction false} ImagesLast(u: Unicode, t: string, c: char)
    ensures Images(u, t + [c]) == Images(u, t) + Image(u, c)
  {
    if t == "" {
      assert [c][1..] == [];
    } else {
      assert (t + [c])[1..] == t[1..] + [c];
      ImagesLast(u, t[1..], c);
      Associate(Image(u, t[0]), Images(u, t[1..]), Image(u, c));
    }
  }

  lemma EndsAreLetters(u: Unicode, t: string)
    requires Sound(u) && t != "" && Letter(u, t[0]) && Letter(u, t[|t| - 1])
    ensures var s := Images(u, t); s != "" && s[0] != '-' && s[|s| - 1] != '-'
  {
    assert t == t[..|t| - 1] + [t[|t| - 1]];
    ImagesLast(u, t[..|t| - 1], t[|t| - 1]);
    assert WordIsPlain(u, u.lower(t[0])) && WordIsPlain(u, u.lower(t[|t| - 1]));
  }

  lemma NothingToTrim(s: string)
    requires s != "" && s[0] != '-' && s[|s| - 1] != '-'
    ensures Str.TrimChar(s, '-') == s
  {}
}
