// checkprose's hideOverlap: every word of a list replaced, in order, by as many "◌" as the word has runes.
module ProseOverlap {
  import opened Text
  import opened Utf8
  import opened Lines

  // strings.ReplaceAll with a non-empty old string: leftmost occurrence first, none overlapping.
  function ReplaceAll(s: bytes, w: bytes, r: bytes): bytes
    requires w != []
  {
    if |s| < |w| then s
    else if s[..|w|] == w then r + ReplaceAll(s[|w|..], w, r)
    else [s[0]] + ReplaceAll(s[1..], w, r)
  }

  // strings.Repeat("◌", n)
  function Rings(n: nat): (r: bytes)
    ensures |r| == 3 * n
  { if n == 0 then [] else RING + Rings(n - 1) }

  // One turn of the loop. Replacing the empty word by the empty string changes nothing.
  function HideOne(s: bytes, w: bytes): bytes {
    if w == [] then s else ReplaceAll(s, w, Rings(|Runes(w)|))
  }

  function Hide(s: bytes, words: seq<bytes>): bytes {
    if words == [] then s else HideOne(Hide(s, words[..|words| - 1]), words[|words| - 1])
  }

  method HideOverlap(s: bytes, words: seq<bytes>) returns (r: bytes)
    ensures r == Hide(s, words)
  {
    r := s;
    for i := 0 to |words|
      invariant r == Hide(s, words[..i])
    {
      assert words[..i + 1][..i] == words[..i];
      r := HideOne(r, words[i]);
    }
    assert words[..|words|] == words;
  }

  // A word as the list file can hold it: non-empty, well-formed, and neither a newline nor a "◌" in it.
  ghost predicate Plain(w: bytes) { w != [] && Valid(w) && NL !in w && !Occurs(RING, w) }

  ghost predicate AllPlain(words: seq<bytes>) { forall k :: 0 <= k < |words| ==> Plain(words[k]) }

  ghost predicate WordsHoldNoNewline(words: seq<bytes>) { forall k :: 0 <= k < |words| ==> NL !in words[k] }

  // ---------- no listed word is left ----------

  // No "◌" can start inside t: each lead byte E2 is followed by two more bytes, not those of "◌".
  ghost predicate RingFree(t: bytes) {
    forall j :: 0 <= j < |t| && t[j] == 0xE2 ==> j + 2 < |t| && t[j..j + 3] != RING
  }

  lemma {:induction false} ValidLeads(w: bytes)
    requires Valid(w)
    ensures forall j :: 0 <= j < |w| && w[j] == 0xE2 ==> j + 2 < |w|
    ensures w != [] ==> !Tail(w[0])
  {
    if w == [] {
    } else {
      var n := Width(w);
      ValidLeads(w[n..]);
      forall j | 0 <= j < |w| && w[j] == 0xE2 ensures j + 2 < |w| {
        if j >= n {
          assert w[n..][j - n] == 0xE2;
        } else if j > 0 {
          StraddleIsTail(w, j);
          assert false;
        }
      }
    }
  }

  lemma PlainIsRingFree(w: bytes)
    requires Plain(w)
    ensures RingFree(w) && !Tail(w[0])
  {
    ValidLeads(w);
    forall j | 0 <= j < |w| && w[j] == 0xE2 ensures w[j..j + 3] != RING {
      assert OccursAt(RING, w, j) <==> w[j..j + 3] == RING;
    }
  }

  lemma {:induction false} RingsAt(n: nat, i: nat)
    requires i < 3 * n
    ensures Rings(n)[i] == RING[i % 3]
    ensures i % 3 == 0 ==> i + 3 <= 3 * n && Rings(n)[i..i + 3] == RING
  {
    if i >= 3 {
      RingsAt(n - 1, i - 3);
      assert i % 3 == (i - 3) % 3;
      if i % 3 == 0 {
        assert Rings(n)[i..i + 3] == Rings(n - 1)[i - 3..i];
      }
    } else {
      assert Rings(n)[..3] == RING;
      assert Rings(n)[i] == Rings(n)[..3][i];
    }
  }

  // Nothing ring-free starts with a byte that opens a "◌" block.
  lemma RingBlockIsNotFree(p: bytes, n: nat, t: bytes)
    requires n > 0 && p != [] && p <= Rings(n) + t
    ensures !RingFree(p)
  {
    assert (Rings(n) + t)[..3] == RING;
    assert p[0] == (Rings(n) + t)[..3][0];
    if |p| >= 3 {
      assert p[0..3] == (Rings(n) + t)[..3];
    }
  }

  // A ring-free prefix of the replaced string was a prefix before.
  lemma {:induction false} PrefixStays(s: bytes, w: bytes, n: nat, p: bytes)
    requires w != [] && n > 0
    requires RingFree(p) && p <= ReplaceAll(s, w, Rings(n))
    ensures p <= s
  {
    if p != [] && |s| >= |w| {
      if s[..|w|] == w {
        RingBlockIsNotFree(p, n, ReplaceAll(s[|w|..], w, Rings(n)));
        assert false;
      } else {
        forall j | 0 <= j < |p[1..]| && p[1..][j] == 0xE2
          ensures j + 2 < |p[1..]| && p[1..][j..j + 3] != RING
        {
          assert p[j + 1] == 0xE2 && p[1..][j..j + 3] == p[j + 1..j + 4];
        }
        PrefixStays(s[1..], w, n, p[1..]);
      }
    }
  }

  lemma SuffixOccurs(v: bytes, s: bytes, k: nat)
    requires k <= |s|
    ensures Occurs(v, s[k..]) ==> Occurs(v, s)
  {
    if Occurs(v, s[k..]) {
      var i :| OccursAt(v, s[k..], i);
      assert s[k + i..k + i + |v|] == s[k..][i..i + |v|];
      assert OccursAt(v, s, k + i);
    }
  }

  lemma OccursAfter(v: bytes, x: bytes, t: bytes, i: int)
    requires i >= |x|
    ensures OccursAt(v, x + t, i) ==> OccursAt(v, t, i - |x|)
  {
    if OccursAt(v, x + t, i) {
      assert t[i - |x|..i - |x| + |v|] == (x + t)[i..i + |v|];
    }
  }

  lemma NoneInJoined(v: bytes, x: bytes, t: bytes)
    requires !Occurs(v, t)
    requires forall i :: 0 <= i < |x| ==> !OccursAt(v, x + t, i)
    ensures !Occurs(v, x + t)
  {
    forall i ensures !OccursAt(v, x + t, i) {
      if i >= |x| {
        OccursAfter(v, x, t, i);
      }
    }
  }

  // What a word that starts inside a run of "◌" begins with.
  lemma StartInRings(v: bytes, n: nat, t: bytes, i: nat)
    requires v != [] && i < 3 * n && OccursAt(v, Rings(n) + t, i)
    ensures Tail(v[0]) || !RingFree(v)
  {
    var out := Rings(n) + t;
    RingsAt(n, i);
    assert v[0] == out[i];
    if i % 3 == 0 && |v| >= 3 {
      assert v[0..3] == out[i..i + 3] == Rings(n)[i..i + 3];
    }
  }

  // No plain word starts inside a run of "◌".
  lemma NoneInRings(v: bytes, n: nat, t: bytes)
    requires Plain(v)
    ensures forall i :: 0 <= i < 3 * n ==> !OccursAt(v, Rings(n) + t, i)
  {
    forall i | 0 <= i < 3 * n ensures !OccursAt(v, Rings(n) + t, i) {
      if OccursAt(v, Rings(n) + t, i) {
        StartInRings(v, n, t, i);
        PlainIsRingFree(v);
      }
    }
  }

  // Replacing w creates no occurrence of a plain word v, and leaves none of w itself.
  lemma {:induction false} ReplaceCreatesNone(s: bytes, w: bytes, n: nat, v: bytes)
    requires w != [] && n > 0 && Plain(v)
    requires v == w || !Occurs(v, s)
    ensures !Occurs(v, ReplaceAll(s, w, Rings(n)))
  {
    if |s| >= |w| {
      if s[..|w|] == w {
        SuffixOccurs(v, s, |w|);
        ReplaceCreatesNone(s[|w|..], w, n, v);
        var t := ReplaceAll(s[|w|..], w, Rings(n));
        NoneInRings(v, n, t);
        NoneInJoined(v, Rings(n), t);
      } else {
        SuffixOccurs(v, s, 1);
        ReplaceCreatesNone(s[1..], w, n, v);
        var t := ReplaceAll(s[1..], w, Rings(n));
        if OccursAt(v, [s[0]] + t, 0) {
          PlainIsRingFree(v);
          PrefixStays(s, w, n, v);
          assert OccursAt(v, s, 0);
        }
        NoneInJoined(v, [s[0]], t);
      }
    }
  }

  lemma RuneCountPositive(w: bytes)
    requires w != []
    ensures |Runes(w)| > 0
  {
  }

  // After the whole list, no plain word of it occurs anywhere, not even one joined by a later replacement.
  lemma {:induction false} HideLeavesNoWord(s: bytes, words: seq<bytes>, k: nat)
    requires k < |words| && Plain(words[k])
    ensures !Occurs(words[k], Hide(s, words))
  {
    var last := |words| - 1;
    if words[last] != [] {
      RuneCountPositive(words[last]);
    }
    if k < last {
      HideLeavesNoWord(s, words[..last], k);
      if words[last] != [] {
        ReplaceCreatesNone(Hide(s, words[..last]), words[last], |Runes(words[last])|, words[k]);
      }
    } else {
      ReplaceCreatesNone(Hide(s, words[..last]), words[k], |Runes(words[k])|, words[k]);
    }
  }

  // ---------- lines stay lines ----------

  lemma {:induction false} RingsNewlineFree(n: nat)
    ensures NL !in Rings(n)
  {
    if n > 0 { RingsNewlineFree(n - 1); }
  }

  lemma {:induction false} ReplaceAcrossNewline(a: bytes, b: bytes, w: bytes, r: bytes)
    requires w != [] && NL !in w
    ensures ReplaceAll(a + [NL] + b, w, r) == ReplaceAll(a, w, r) + [NL] + ReplaceAll(b, w, r)
  {
    var s := a + [NL] + b;
    if w <= a {
      ReplaceAcrossNewline(a[|w|..], b, w, r);
      HitAcrossNewline(a, b, w, r);
    } else {
      if w <= s { WordAcrossNewline(a, b, w); }
      ReplaceMiss(s, w, r);
      if a == [] {
        assert s[1..] == b;
      } else {
        assert s[1..] == a[1..] + [NL] + b;
        ReplaceAcrossNewline(a[1..], b, w, r);
        ReplaceMiss(a, w, r);
      }
    }
  }

  lemma HitAcrossNewline(a: bytes, b: bytes, w: bytes, r: bytes)
    requires w != [] && w <= a
    requires ReplaceAll(a[|w|..] + [NL] + b, w, r) == ReplaceAll(a[|w|..], w, r) + [NL] + ReplaceAll(b, w, r)
    ensures ReplaceAll(a + [NL] + b, w, r) == ReplaceAll(a, w, r) + [NL] + ReplaceAll(b, w, r)
  {
    var s := a + [NL] + b;
    assert s[|w|..] == a[|w|..] + [NL] + b;
    assert ReplaceAll(s, w, r) == r + (ReplaceAll(a[|w|..], w, r) + [NL] + ReplaceAll(b, w, r));
  }

  lemma WordAcrossNewline(a: bytes, b: bytes, w: bytes)
    requires w <= a + [NL] + b
    ensures w <= a || NL in w
  {
    if |w| > |a| {
      assert w[|a|] == (a + [NL] + b)[|a|] == NL;
    } else {
      assert w == (a + [NL] + b)[..|w|] == a[..|w|];
    }
  }

  lemma ReplaceMiss(a: bytes, w: bytes, r: bytes)
    requires w != [] && a != [] && !(w <= a)
    ensures ReplaceAll(a, w, r) == [a[0]] + ReplaceAll(a[1..], w, r)
  {
  }

  // The loop works line by line: hiding the text hides each of its lines.
  ghost function HideLines(ls: seq<bytes>, words: seq<bytes>): (hs: seq<bytes>)
    ensures |hs| == |ls|
  { seq(|ls|, k requires 0 <= k < |ls| => Hide(ls[k], words)) }

  lemma {:induction false} HideNewlineFree(l: bytes, words: seq<bytes>)
    requires NL !in l
    ensures NL !in Hide(l, words)
  {
    if words == [] {
    } else {
      HideNewlineFree(l, words[..|words| - 1]);
      var w := words[|words| - 1];
      if w != [] {
        ReplaceNewlineFree(Hide(l, words[..|words| - 1]), w, Rings(|Runes(w)|));
      }
    }
  }

  lemma {:induction false} ReplaceNewlineFree(l: bytes, w: bytes, r: bytes)
    requires NL !in l && w != [] && (exists n :: r == Rings(n))
    ensures NL !in ReplaceAll(l, w, r)
  {
    var n :| r == Rings(n);
    RingsNewlineFree(n);
    if |l| >= |w| {
      ReplaceNewlineFree(if l[..|w|] == w then l[|w|..] else l[1..], w, r);
    }
  }

  lemma {:induction false} HideAcrossNewline(a: bytes, b: bytes, words: seq<bytes>)
    requires WordsHoldNoNewline(words)
    ensures Hide(a + [NL] + b, words) == Hide(a, words) + [NL] + Hide(b, words)
  {
    if words == [] {
    } else {
      var before, w := words[..|words| - 1], words[|words| - 1];
      HideAcrossNewline(a, b, before);
      if w != [] {
        ReplaceAcrossNewline(Hide(a, before), Hide(b, before), w, Rings(|Runes(w)|));
      }
    }
  }

  lemma {:induction false} HideOfJoin(ls: seq<bytes>, words: seq<bytes>)
    requires ls != [] && WordsHoldNoNewline(words)
    ensures Hide(Join(ls, NL), words) == Join(HideLines(ls, words), NL)
  {
    if |ls| <= 1 {
    } else {
      HideOfJoin(ls[1..], words);
      HideAcrossNewline(ls[0], Join(ls[1..], NL), words);
      assert HideLines(ls, words)[1..] == HideLines(ls[1..], words);
    }
  }

  // Line numbers never move, whatever the byte counts do.
  lemma HideKeepsLines(s: bytes, words: seq<bytes>)
    requires WordsHoldNoNewline(words)
    ensures LinesOf(Hide(s, words)) == HideLines(LinesOf(s), words)
  {
    var ls := LinesOf(s);
    LinesAreNewlineFree(s);
    HideOfJoin(ls, words);
    forall h | h in HideLines(ls, words) ensures NL !in h {
      var k :| 0 <= k < |ls| && h == Hide(ls[k], words);
      assert ls[k] in ls;
      HideNewlineFree(ls[k], words);
    }
    SplitOfJoin(HideLines(ls, words), NL);
  }

  // ---------- lengths ----------

  // How many times ReplaceAll replaces.
  function Replacements(s: bytes, w: bytes): nat
    requires w != []
  {
    if |s| < |w| then 0
    else if s[..|w|] == w then 1 + Replacements(s[|w|..], w)
    else Replacements(s[1..], w)
  }

  // The bytes one word adds: three per rune, less its own.
  function Growth(w: bytes): int { 3 * |Runes(w)| - |w| }

  // The bytes the whole list adds to s, word by word.
  function TotalGrowth(s: bytes, words: seq<bytes>): int {
    if words == [] then 0
    else
      var before, w := words[..|words| - 1], words[|words| - 1];
      TotalGrowth(s, before) + if w == [] then 0 else Replacements(Hide(s, before), w) * Growth(w)
  }

  lemma {:induction false} ReplaceLength(s: bytes, w: bytes, r: bytes)
    requires w != []
    ensures |ReplaceAll(s, w, r)| == |s| + Replacements(s, w) * (|r| - |w|)
  {
    if |s| >= |w| {
      if s[..|w|] == w {
        ReplaceLength(s[|w|..], w, r);
        OneMoreTimes(Replacements(s[|w|..], w), |r| - |w|);
      } else {
        ReplaceLength(s[1..], w, r);
      }
    }
  }

  lemma OneMoreTimes(n: nat, d: int)
    ensures (1 + n) * d == d + n * d
  {}

  // The output differs in length by exactly the growth of the replaced occurrences.
  lemma {:induction false} HideLength(s: bytes, words: seq<bytes>)
    ensures |Hide(s, words)| == |s| + TotalGrowth(s, words)
  {
    if words == [] {
    } else {
      var before, w := words[..|words| - 1], words[|words| - 1];
      HideLength(s, before);
      if w != [] {
        ReplaceLength(Hide(s, before), w, Rings(|Runes(w)|));
      }
    }
  }

  lemma {:induction false} ReplaceAbsent(s: bytes, w: bytes, r: bytes)
    requires w != [] && !Occurs(w, s)
    ensures ReplaceAll(s, w, r) == s
  {
    if |s| >= |w| {
      assert !OccursAt(w, s, 0);
      SuffixOccurs(w, s, 1);
      ReplaceAbsent(s[1..], w, r);
    }
  }

  // Word k can never be replaced: an earlier word inside it is gone by the time its turn comes.
  ghost predicate Shadowed(words: seq<bytes>, k: nat)
    requires k < |words|
  { exists j :: 0 <= j < k && Occurs(words[j], words[k]) }

  // Every word of the list either takes three bytes a rune or is never replaced.
  ghost predicate Level(words: seq<bytes>) {
    forall k :: 0 <= k < |words| && !Shadowed(words, k) ==> Growth(words[k]) == 0
  }

  lemma LevelPrefix(words: seq<bytes>)
    requires words != [] && AllPlain(words) && Level(words)
    ensures AllPlain(words[..|words| - 1]) && Level(words[..|words| - 1])
  {
    var before := words[..|words| - 1];
    forall k | 0 <= k < |before| && !Shadowed(before, k) ensures Growth(before[k]) == 0 {
      ShadowInPrefix(words, k);
    }
  }

  lemma ShadowInPrefix(words: seq<bytes>, k: nat)
    requires k < |words| - 1
    ensures Shadowed(words, k) ==> Shadowed(words[..|words| - 1], k)
  {
    if j :| 0 <= j < k && Occurs(words[j], words[k]) {
      assert Occurs(words[..|words| - 1][j], words[..|words| - 1][k]);
    }
  }

  lemma NeutralStep(h: bytes, w: bytes, n: nat)
    requires w != [] && (3 * n == |w| || !Occurs(w, h))
    ensures |ReplaceAll(h, w, Rings(n))| == |h|
  {
    if 3 * n == |w| {
      ReplaceLength(h, w, Rings(n));
      assert |Rings(n)| - |w| == 0;
    } else {
      ReplaceAbsent(h, w, Rings(n));
    }
  }

  lemma {:induction false} LevelKeepsLength(s: bytes, words: seq<bytes>)
    requires AllPlain(words) && Level(words)
    ensures |Hide(s, words)| == |s|
  {
    if words == [] {
    } else {
      var last := |words| - 1;
      var h := Hide(s, words[..last]);
      LevelPrefix(words);
      LevelKeepsLength(s, words[..last]);
      if Shadowed(words, last) && Occurs(words[last], h) {
        var j :| 0 <= j < last && Occurs(words[j], words[last]);
        OccursTransitive(words[j], words[last], h);
        HideLeavesNoWord(s, words[..last], j);
        assert false;
      }
      NeutralStep(h, words[last], |Runes(words[last])|);
    }
  }

  lemma OccursTransitive(v: bytes, w: bytes, s: bytes)
    requires Occurs(v, w) && Occurs(w, s)
    ensures Occurs(v, s)
  {
    var i :| OccursAt(v, w, i);
    var k :| OccursAt(w, s, k);
    assert s == s[..k] + w + s[k + |w|..];
    OccursInContext(v, s[..k], w, s[k + |w|..]);
  }

  lemma {:induction false} HideAbsent(s: bytes, words: seq<bytes>)
    requires forall k :: 0 <= k < |words| ==> words[k] != [] && !Occurs(words[k], s)
    ensures Hide(s, words) == s
  {
    if words == [] {
    } else {
      HideAbsent(s, words[..|words| - 1]);
      ReplaceAbsent(s, words[|words| - 1], Rings(|Runes(words[|words| - 1])|));
    }
  }

  lemma {:induction false} HideAppend(s: bytes, a: seq<bytes>, b: seq<bytes>)
    ensures Hide(s, a + b) == Hide(Hide(s, a), b)
  {
    if b == [] {
      assert a + b == a;
    } else {
      HideAppend(s, a, b[..|b| - 1]);
      assert (a + b)[..|a + b| - 1] == a + b[..|b| - 1];
    }
  }

  // When only word k occurs, before and after, hiding is the one replacement.
  lemma HideOnly(text: bytes, words: seq<bytes>, k: nat, hidden: bytes)
    requires k < |words| && forall j :: 0 <= j < |words| ==> words[j] != []
    requires forall j :: 0 <= j < k ==> !Occurs(words[j], text)
    requires forall j :: k < j < |words| ==> !Occurs(words[j], hidden)
    requires ReplaceAll(text, words[k], Rings(|Runes(words[k])|)) == hidden
    ensures Hide(text, words) == hidden
  {
    var before, w, after := words[..k], words[k], words[k + 1..];
    assert words == (before + [w]) + after;
    HideAppend(text, before + [w], after);
    HideAbsent(text, before);
    assert (before + [w])[..k] == before;
    assert Hide(text, before + [w]) == HideOne(text, w) == hidden;
    HideAbsent(hidden, after);
  }

  // A word hidden on its own becomes its rings.
  lemma HideItself(words: seq<bytes>, k: nat)
    requires AllPlain(words) && k < |words| && !Shadowed(words, k)
    ensures Hide(words[k], words) == Rings(|Runes(words[k])|)
  {
    var w, n := words[k], |Runes(words[k])|;
    assert ReplaceAll(w, w, Rings(n)) == Rings(n) + ReplaceAll([], w, Rings(n)) == Rings(n);
    forall j | k < j < |words| ensures !Occurs(words[j], Rings(n)) {
      NoneInRings(words[j], n, []);
      assert Rings(n) + [] == Rings(n);
    }
    HideOnly(w, words, k, Rings(n));
  }

  // Hiding keeps every text's length exactly when the list is level.
  lemma HideKeepsLengthIffLevel(words: seq<bytes>)
    requires AllPlain(words)
    ensures (forall s: bytes :: |Hide(s, words)| == |s|) <==> Level(words)
  {
    if Level(words) {
      forall s: bytes ensures |Hide(s, words)| == |s| { LevelKeepsLength(s, words); }
    } else {
      var k :| 0 <= k < |words| && !Shadowed(words, k) && Growth(words[k]) != 0;
      HideItself(words, k);
      assert |Hide(words[k], words)| != |words[k]|;
    }
  }

  // With a level list no byte moves: newlines stay where they were.
  lemma LevelKeepsNewlines(s: bytes, words: seq<bytes>)
    requires AllPlain(words) && Level(words)
    ensures SameNewlines(s, Hide(s, words))
  {
    var ls := LinesOf(s);
    HideKeepsLines(s, words);
    forall k | 0 <= k < |ls| ensures |HideLines(ls, words)[k]| == |ls[k]| {
      LevelKeepsLength(ls[k], words);
    }
    LinesAreNewlineFree(s);
    LinesAreNewlineFree(Hide(s, words));
    JoinSameShape(ls, HideLines(ls, words));
  }
}
