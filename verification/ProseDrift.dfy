// What a word list that moves bytes does to match, and which lists move none that matter.
module ProseDrift {
  import opened Text
  import opened Utf8
  import opened Lines
  import opened ProseMask
  import opened ProseOverlap
  import opened ProseMatch

  // The bytes the list adds to the first k lines.
  function Drift(ls: seq<bytes>, words: seq<bytes>, k: nat): int
    requires k <= |ls|
  {
    if k == 0 then 0 else TotalGrowth(ls[0], words) + Drift(ls[1..], words, k - 1)
  }

  lemma {:induction false} HiddenStart(ls: seq<bytes>, words: seq<bytes>, k: nat)
    requires k <= |ls|
    ensures StartOf(HideLines(ls, words), k) == StartOf(ls, k) + Drift(ls, words, k)
  {
    if k == 0 {
    } else {
      HiddenStart(ls[1..], words, k - 1);
      HideLength(ls[0], words);
      assert HideLines(ls, words)[1..] == HideLines(ls[1..], words);
    }
  }

  // Line numbers are right for every list: column c of line k of the hidden text is on line k, which is line k of the
  // masked text with its words hidden.
  lemma HiddenLineNumbers(masked: bytes, words: seq<bytes>, k: nat, c: nat)
    requires WordsHoldNoNewline(words)
    requires k < |LinesOf(masked)| && c <= |Hide(LinesOf(masked)[k], words)|
    ensures var off := StartOf(LinesOf(masked), k) + Drift(LinesOf(masked), words, k) + c;
            && 0 <= off <= |Hide(masked, words)| && LineIndex(Hide(masked, words), off) == k
            && LineAt(Hide(masked, words), off) == Hide(LinesOf(masked)[k], words)
  {
    var s, ls := Hide(masked, words), LinesOf(masked);
    HideKeepsLines(masked, words);
    HiddenStart(ls, words, k);
    OnLine(s, k, c);
  }

  // The offset of column c of line k of the hidden text.
  function HiddenOffset(masked: bytes, words: seq<bytes>, k: nat, c: nat): int
    requires k <= |LinesOf(masked)|
  {
    StartOf(LinesOf(masked), k) + Drift(LinesOf(masked), words, k) + c
  }

  // The drifted offset lies on line k of the original exactly when drift plus column stays inside that line.
  lemma DriftedOffset(orig: bytes, masked: bytes, words: seq<bytes>, k: nat, c: nat)
    requires SameNewlines(orig, masked) && k < |LinesOf(masked)| && HiddenOffset(masked, words, k, c) >= 0
    ensures |LinesOf(orig)| == |LinesOf(masked)|
    ensures var off := HiddenOffset(masked, words, k, c);
            (off <= |orig| && LineIndex(orig, off) == k)
            <==> 0 <= Drift(LinesOf(masked), words, k) + c <= |LinesOf(orig)[k]|
  {
    SplitSameShape(orig, masked);
    SameShapeSameStart(LinesOf(orig), LinesOf(masked), k);
    OffsetOnLine(orig, k, Drift(LinesOf(masked), words, k) + c);
  }

  lemma OffsetOnLine(orig: bytes, k: nat, d: int)
    requires k < |LinesOf(orig)| && StartOf(LinesOf(orig), k) + d >= 0
    ensures var off := StartOf(LinesOf(orig), k) + d;
            (off <= |orig| && LineIndex(orig, off) == k) <==> 0 <= d <= |LinesOf(orig)[k]|
  {
    if 0 <= d <= |LinesOf(orig)[k]| {
      OnLine(orig, k, d);
    } else if StartOf(LinesOf(orig), k) + d <= |orig| {
      Locate(orig, StartOf(LinesOf(orig), k) + d);
    }
  }

  // What o must be for a match on line k of the hidden text: its offset off is column d of line k of the original,
  // whose lines are ls, and lies on line at of it.
  ghost predicate IsDrifted(v: View, o: Outcome, file: bytes, name: bytes, hangul: bool, ls: seq<bytes>, len: nat,
                            k: nat, off: nat, d: int, at: nat)
  {
    && k < |ls|
    && (o.Skip? <==> !hangul)
    && (o.Panic? <==> hangul && off > len)
    && (o.Report? ==>
          && o.hit == Hit(name, file, k + 1, v.show(Line(ls, at)))
          && (at == k <==> 0 <= d <= |ls[k]|))
  }

  lemma OutcomeOnLine(v: View, file: bytes, name: bytes, hangul: bool, ls: seq<bytes>, len: nat, k: nat, off: nat,
                      d: int, at: nat)
    requires k < |ls| && ((off <= len && at == k) <==> 0 <= d <= |ls[k]|)
    ensures IsDrifted(v, OutcomeOn(file, name, hangul, k, if off <= len then Some(v.show(Line(ls, at))) else None),
                      file, name, hangul, ls, len, k, off, d, at)
  {}

  // The line of an offset, and no line past the end.
  function LineOf(s: bytes, off: nat): nat { if off <= |s| then LineIndex(s, off) else |LinesOf(s)| }

  // What becomes of a match at column c of line k, for every list without newlines: it counts when its hidden line has
  // Hangul; it panics exactly when the drifted offset is past the end of the original; a report names line k, and its
  // text is cut from the original's line at the drifted offset, which is line k exactly while drift plus column stays
  // inside it.
  lemma DriftedOutcome(v: View, file: bytes, orig: bytes, masked: bytes, words: seq<bytes>, name: bytes, k: nat, c: nat)
    requires SameNewlines(orig, masked) && WordsHoldNoNewline(words)
    requires k < |LinesOf(masked)| && c <= |Hide(LinesOf(masked)[k], words)|
    ensures 0 <= HiddenOffset(masked, words, k, c) <= |Hide(masked, words)|
    ensures var off := HiddenOffset(masked, words, k, c);
            IsDrifted(v, OutcomeAt(v, file, orig, Hide(masked, words), name, off), file, name,
                      v.counts(Hide(LinesOf(masked)[k], words)), LinesOf(orig), |orig|, k, off,
                      Drift(LinesOf(masked), words, k) + c, LineOf(orig, off))
  {
    var off := HiddenOffset(masked, words, k, c);
    HiddenLineNumbers(masked, words, k, c);
    DriftedOffset(orig, masked, words, k, c);
    OutcomeFromLine(v, file, orig, Hide(masked, words), name, off, k, Hide(LinesOf(masked)[k], words));
    OutcomeOnLine(v, file, name, v.counts(Hide(LinesOf(masked)[k], words)), LinesOf(orig), |orig|, k, off,
                  Drift(LinesOf(masked), words, k) + c, LineOf(orig, off));
  }

  lemma OutcomeFromLine(v: View, file: bytes, orig: bytes, s: bytes, name: bytes, off: nat, k: nat, line: bytes)
    requires off <= |s| && LineIndex(s, off) == k && LineAt(s, off) == line
    ensures OutcomeAt(v, file, orig, s, name, off)
         == OutcomeOn(file, name, v.counts(line), k,
                      if off <= |orig| then Some(v.show(Line(LinesOf(orig), LineOf(orig, off)))) else None)
  {
    ExcerptIsOfItsLine(v, orig, off);
  }

  // ---------- the whole of match ----------

  // Match m of rule n becomes o.
  ghost predicate Becomes(v: View, file: bytes, orig: bytes, s: bytes, rules: seq<Rule>, n: nat, m: nat, o: Outcome)
    requires Finders(rules)
  {
    n < |rules| && m < |rules[n].find(s)| && o == OutcomeAt(v, file, orig, s, rules[n].name, rules[n].find(s)[m].0)
  }

  ghost predicate InPart(parts: seq<seq<Outcome>>, n: nat, m: nat, o: Outcome) {
    n < |parts| && m < |parts[n]| && o == parts[n][m]
  }

  lemma {:induction false} InFlat(parts: seq<seq<Outcome>>, k: nat, o: Outcome)
    requires k <= |parts|
    ensures o in Flat(parts, k) <==> exists n: nat, m: nat :: n < k && InPart(parts, n, m, o)
  {
    if k == 0 {
    } else {
      InFlat(parts, k - 1, o);
      InOne(parts, k - 1, o);
    }
  }

  lemma InOne(parts: seq<seq<Outcome>>, n: nat, o: Outcome)
    requires n < |parts|
    ensures o in parts[n] <==> exists m: nat :: InPart(parts, n, m, o)
  {
    if o in parts[n] {
      var m :| 0 <= m < |parts[n]| && parts[n][m] == o;
      assert InPart(parts, n, m, o);
    }
  }

  lemma InOutcomes(v: View, file: bytes, orig: bytes, s: bytes, rules: seq<Rule>, o: Outcome)
    requires Finders(rules)
    ensures o in AllOutcomes(v, file, orig, s, rules, |rules|)
       <==> exists n: nat, m: nat :: Becomes(v, file, orig, s, rules, n, m, o)
  {
    var parts := RuleParts(v, file, orig, s, rules);
    InFlat(parts, |rules|, o);
    forall n: nat, m: nat ensures InPart(parts, n, m, o) <==> Becomes(v, file, orig, s, rules, n, m, o) {
      PartIs(v, file, orig, s, rules, n, m, o);
    }
  }

  lemma PartIs(v: View, file: bytes, orig: bytes, s: bytes, rules: seq<Rule>, n: nat, m: nat, o: Outcome)
    requires Finders(rules)
    ensures InPart(RuleParts(v, file, orig, s, rules), n, m, o) <==> Becomes(v, file, orig, s, rules, n, m, o)
  {}

  lemma {:induction false} InCollected(outcomes: seq<Outcome>, h: Hit)
    requires Collect(outcomes).Some?
    ensures h in Collect(outcomes).value <==> Report(h) in outcomes
  {
    if outcomes == [] {
    } else {
      var before, last := outcomes[..|outcomes| - 1], outcomes[|outcomes| - 1];
      InCollected(before, h);
      assert outcomes == before + [last];
    }
  }

  // match panics exactly when one of its matches does, and otherwise its hits are exactly the reported matches.
  lemma MatchIsExact(v: View, file: bytes, orig: bytes, s: bytes, rules: seq<Rule>, h: Hit)
    requires Finders(rules)
    ensures var out := Collect(AllOutcomes(v, file, orig, s, rules, |rules|));
            && (out.None? <==> exists n: nat, m: nat :: Becomes(v, file, orig, s, rules, n, m, Panic))
            && (out.Some? ==>
                  (h in out.value <==> exists n: nat, m: nat :: Becomes(v, file, orig, s, rules, n, m, Report(h))))
  {
    var outcomes := AllOutcomes(v, file, orig, s, rules, |rules|);
    CollectNone(outcomes);
    InOutcomes(v, file, orig, s, rules, Panic);
    assert (exists i :: 0 <= i < |outcomes| && outcomes[i].Panic?) <==> Panic in outcomes;
    InOutcomes(v, file, orig, s, rules, Report(h));
    if Collect(outcomes).Some? { InCollected(outcomes, h); }
  }

  // The hidden text has a Hangul syllable on the line a hit names.
  ghost predicate OnHangulLine(h: Hit, s: bytes) {
    1 <= h.line <= |LinesOf(s)| && HoldsSyllable(Runes(LinesOf(s)[h.line - 1]))
  }

  lemma ReportIsOnHangulLine(file: bytes, orig: bytes, s: bytes, name: bytes, off: nat, h: Hit)
    requires off <= |s| && OutcomeAt(Prose(), file, orig, s, name, off) == Report(h)
    ensures OnHangulLine(h, s)
  {
    LineAtIsItsLine(s, off);
    HasHangulIff(LineAt(s, off));
  }

  // A line without a Hangul syllable after hiding is never reported, whatever the rules find on it.
  lemma HitsAreOnHangulLines(file: bytes, orig: bytes, s: bytes, rules: seq<Rule>, hits: seq<Hit>)
    requires Finders(rules) && Collect(AllOutcomes(Prose(), file, orig, s, rules, |rules|)) == Some(hits)
    ensures forall h :: h in hits ==> OnHangulLine(h, s)
  {
    forall h | h in hits ensures OnHangulLine(h, s) {
      MatchIsExact(Prose(), file, orig, s, rules, h);
      var n: nat, m: nat :| Becomes(Prose(), file, orig, s, rules, n, m, Report(h));
      ReportIsOnHangulLine(file, orig, s, rules[n].name, rules[n].find(s)[m].0, h);
    }
  }

  // scan's Markdown branch: mask, then match against the original. Whatever the list, the matches are judged over the
  // hidden mask; with a level list the hits are exactly the faithful ones.
  method ScanMarkdown(file: bytes, b: bytes, rules: seq<Rule>, words: seq<bytes>) returns (out: Option<seq<Hit>>)
    requires Finders(rules)
    ensures SameNewlines(b, MarkdownMasked(b))
    ensures out == Collect(AllOutcomes(Prose(), file, b, Hide(MarkdownMasked(b), words), rules, |rules|))
    ensures out.Some? ==> forall h :: h in out.value ==> OnHangulLine(h, Hide(MarkdownMasked(b), words))
    ensures AllPlain(words) && Level(words) ==> FaithfulOn(Prose(), file, b, Hide(MarkdownMasked(b), words), rules)
  {
    var masked := MaskMarkdown(b);
    MarkdownMaskIsPointwise(b);
    out := Match(Prose(), file, b, masked, rules, words);
    if out.Some? {
      HitsAreOnHangulLines(file, b, Hide(masked, words), rules, out.value);
    }
    if AllPlain(words) && Level(words) {
      MatchIsFaithful(Prose(), file, b, masked, rules, words);
    }
  }

  // ---------- which lists keep match faithful ----------

  // match reports exactly the faithful hits of the hidden text s.
  ghost predicate FaithfulOn(v: View, file: bytes, orig: bytes, s: bytes, rules: seq<Rule>)
    requires Finders(rules)
  {
    Collect(AllOutcomes(v, file, orig, s, rules, |rules|))
      == Some(Reports(FaithfulOutcomes(v, file, orig, s, rules, |rules|)))
  }

  ghost predicate Faithful(v: View, file: bytes, orig: bytes, masked: bytes, rules: seq<Rule>, words: seq<bytes>)
    requires Finders(rules)
  {
    FaithfulOn(v, file, orig, Hide(masked, words), rules)
  }

  // Whatever the file, its mask and the rules.
  ghost predicate AlwaysFaithful(v: View, words: seq<bytes>) {
    forall file, orig, masked, rules :: Finders(rules) && SameNewlines(orig, masked) ==>
      Faithful(v, file, orig, masked, rules, words)
  }

  // A syllable that no word of the list holds.
  ghost predicate Unlisted(r: int, words: seq<bytes>) {
    Syllable(r) && forall j :: 0 <= j < |words| ==> !Occurs(EncodeRune(r), words[j])
  }

  lemma SyllableBytes(r: int)
    requires Syllable(r)
    ensures var g := EncodeRune(r);
            |g| == 3 && 0xEA <= g[0] <= 0xED && Tail(g[1]) && Tail(g[2]) && NL !in g && HasHangul(g) && Shorten(g) == g
  {
    var g := EncodeRune(r);
    HeadOfEncoded(r, []);
    assert g + [] == g && g[3..] == [];
    assert Runes(g) == [r] + Runes([]);
    assert !SpaceEnd(g, 1) && !SpaceEnd(g, 2) && !SpaceEnd(g, 3);
  }

  // A plain word inside a syllable is that syllable.
  lemma WordInSyllable(w: bytes, r: int)
    requires Plain(w) && Syllable(r) && Occurs(w, EncodeRune(r))
    ensures w == EncodeRune(r)
  {
    var g := EncodeRune(r);
    SyllableBytes(r);
    var i :| OccursAt(w, g, i);
    PlainIsRingFree(w);
    OccursAtByte(w, g, i, 0);
    assert i == 0 && w == g[..|w|];
    assert Width(w) > 0;
  }

  // A syllable outside every word is never hidden.
  lemma SyllableStays(words: seq<bytes>, r: int)
    requires AllPlain(words) && Unlisted(r, words)
    ensures Hide(EncodeRune(r), words) == EncodeRune(r)
  {
    var g := EncodeRune(r);
    forall j | 0 <= j < |words| ensures !Occurs(words[j], g) {
      assert OccursAt(g, g, 0);
      if Occurs(words[j], g) { WordInSyllable(words[j], r); }
    }
    HideAbsent(g, words);
  }

  // m lines of a word, then the syllable: what the witness files hold.
  function Repeated(w: bytes, m: nat): seq<bytes> { seq(m, _ => w) }

  function Witness(w: bytes, m: nat, g: bytes): bytes { Join(Repeated(w, m) + [g], NL) }

  lemma WitnessLines(w: bytes, m: nat, g: bytes)
    requires NL !in w && NL !in g
    ensures LinesOf(Witness(w, m, g)) == Repeated(w, m) + [g]
  {
    SplitOfJoin(Repeated(w, m) + [g], NL);
  }

  lemma {:induction false} RepeatedStart(w: bytes, m: nat, g: bytes)
    ensures StartOf(Repeated(w, m) + [g], m) == m * (|w| + 1)
  {
    if m == 0 {
    } else {
      RepeatedStart(w, m - 1, g);
      assert (Repeated(w, m) + [g])[1..] == Repeated(w, m - 1) + [g];
      OneMoreTimes(m - 1, |w| + 1);
    }
  }

  lemma WitnessHides(words: seq<bytes>, w: bytes, n: nat, m: nat, g: bytes)
    requires WordsHoldNoNewline(words) && NL !in w && NL !in g && Hide(w, words) == Rings(n) && Hide(g, words) == g
    ensures LinesOf(Hide(Witness(w, m, g), words)) == Repeated(Rings(n), m) + [g]
  {
    WitnessLines(w, m, g);
    HideKeepsLines(Witness(w, m, g), words);
    assert HideLines(Repeated(w, m) + [g], words) == Repeated(Rings(n), m) + [g];
  }

  // A finder that reports one place.
  function FindAt(off: nat): bytes -> seq<Span> { s => if off <= |s| then [(off, off)] else [] }

  // The last line of such a text.
  lemma LastLine(s: bytes, line: bytes, m: nat, g: bytes)
    requires LinesOf(s) == Repeated(line, m) + [g]
    ensures var off := m * (|line| + 1);
            off <= |s| && LineIndex(s, off) == m && LineAt(s, off) == g && LinesOf(s)[m] == g
  {
    RepeatedStart(line, m, g);
    OnLine(s, m, 0);
  }

  // The one match of the witness: at the last line g, on line m of the hidden text.
  lemma WitnessMatch(words: seq<bytes>, w: bytes, n: nat, m: nat, g: bytes, s: bytes, off: nat)
    requires WordsHoldNoNewline(words) && NL !in w && NL !in g && Hide(w, words) == Rings(n) && Hide(g, words) == g
    requires s == Hide(Witness(w, m, g), words) && off == m * (3 * n + 1)
    ensures off <= |s| && LineIndex(s, off) == m && LineAt(s, off) == g
    ensures |LinesOf(s)| == m + 1 && LinesOf(s)[m] == g
  {
    WitnessHides(words, w, n, m, g);
    LastLine(s, Rings(n), m, g);
  }

  // A word that is replaced, and a line that is not.
  ghost predicate Replaced(words: seq<bytes>, w: bytes, n: nat, g: bytes) {
    WordsHoldNoNewline(words) && NL !in w && NL !in g && Hide(w, words) == Rings(n) && Hide(g, words) == g
  }

  lemma UnshadowedIsReplaced(words: seq<bytes>, k: nat, r: int)
    requires AllPlain(words) && k < |words| && !Shadowed(words, k) && Unlisted(r, words)
    ensures Replaced(words, words[k], |Runes(words[k])|, EncodeRune(r))
  {
    HideItself(words, k);
    SyllableStays(words, r);
    SyllableBytes(r);
    assert Plain(words[k]);
  }

  lemma SingleOutcome(v: View, file: bytes, orig: bytes, s: bytes, off: nat)
    requires off <= |s|
    ensures Finders([Rule([], FindAt(off))])
    ensures AllOutcomes(v, file, orig, s, [Rule([], FindAt(off))], 1) == [OutcomeAt(v, file, orig, s, [], off)]
    ensures FaithfulOutcomes(v, file, orig, s, [Rule([], FindAt(off))], 1) == [FaithfulAt(v, file, orig, s, [], off)]
  {
    var rules := [Rule([], FindAt(off))];
    assert Finder(rules[0].find);
    var parts := RuleParts(v, file, orig, s, rules);
    assert Flat(parts, 1) == Flat(parts, 0) + parts[0] == parts[0];
    var ideal := FaithfulParts(v, file, orig, s, rules);
    assert Flat(ideal, 1) == Flat(ideal, 0) + ideal[0] == ideal[0];
  }

  lemma CollectSingle(o: Outcome)
    ensures o.Panic? ==> Collect([o]).None?
    ensures o.Report? ==> Collect([o]) == Some([o.hit]) && Reports([o]) == [o.hit]
  {
    assert [o][..0] == [];
    if o.Report? { assert [] + [o.hit] == [o.hit]; }
  }

  // One match whose outcome is not the faithful report makes the whole call unfaithful.
  lemma OneMatchDecides(v: View, orig: bytes, s: bytes, off: nat)
    requires off <= |s| && FaithfulAt(v, [], orig, s, [], off).Report?
    requires var o := OutcomeAt(v, [], orig, s, [], off);
             o.Panic? || (o.Report? && o != FaithfulAt(v, [], orig, s, [], off))
    ensures Finders([Rule([], FindAt(off))]) && !FaithfulOn(v, [], orig, s, [Rule([], FindAt(off))])
  {
    SingleOutcome(v, [], orig, s, off);
    CollectSingle(OutcomeAt(v, [], orig, s, [], off));
    CollectSingle(FaithfulAt(v, [], orig, s, [], off));
  }

  lemma NotFaithful(v: View, orig: bytes, words: seq<bytes>, s: bytes, off: nat)
    requires s == Hide(orig, words) && off <= |s| && FaithfulAt(v, [], orig, s, [], off).Report?
    requires var o := OutcomeAt(v, [], orig, s, [], off);
             o.Panic? || (o.Report? && o != FaithfulAt(v, [], orig, s, [], off))
    ensures !AlwaysFaithful(v, words)
  {
    OneMatchDecides(v, orig, s, off);
    OneCallDecides(v, [], orig, [Rule([], FindAt(off))], words);
  }

  lemma OneCallDecides(v: View, file: bytes, orig: bytes, rules: seq<Rule>, words: seq<bytes>)
    requires Finders(rules) && !FaithfulOn(v, file, orig, Hide(orig, words), rules)
    ensures !AlwaysFaithful(v, words)
  {
    assert SameNewlines(orig, orig);
    assert !Faithful(v, file, orig, orig, rules, words);
  }

  // A growing word on four lines of its own pushes the last line past the end of the original.
  lemma GrowingIsNotFaithful(v: View, words: seq<bytes>, w: bytes, n: nat, g: bytes)
    requires Replaced(words, w, n, g) && 3 * n > |w| && |g| == 3 && v.counts(g)
    ensures !AlwaysFaithful(v, words)
  {
    var orig, off := Witness(w, 4, g), 4 * (3 * n + 1);
    var s := Hide(orig, words);
    WitnessMatch(words, w, n, 4, g, s, off);
    WitnessLength(w, 4, g);
    WitnessLines(w, 4, g);
    IdealAs(v, orig, s, off, 4);
    NotFaithful(v, orig, words, s, off);
  }

  lemma WitnessLength(w: bytes, m: nat, g: bytes)
    requires NL !in w && NL !in g
    ensures |Witness(w, m, g)| == m * (|w| + 1) + |g|
  {
    var ls := Repeated(w, m) + [g];
    RepeatedStart(w, m, g);
    JoinAt(ls, m);
  }

  // A shrinking word on a line of its own pulls the last line onto its own line, whose text is then shown.
  lemma ShrinkingIsNotFaithful(v: View, words: seq<bytes>, w: bytes, n: nat, g: bytes)
    requires Replaced(words, w, n, g) && 3 * n < |w| && v.counts(g) && v.show(w) != v.show(g)
    ensures !AlwaysFaithful(v, words)
  {
    var orig, off := Witness(w, 1, g), 3 * n + 1;
    var s := Hide(orig, words);
    WitnessMatch(words, w, n, 1, g, s, off);
    WitnessLines(w, 1, g);
    ShownTexts(v, orig, s, w, g, off);
    NotFaithful(v, orig, words, s, off);
  }

  // On the second line of the hidden text, and still on the first of the original.
  lemma ShownTexts(v: View, orig: bytes, s: bytes, w: bytes, g: bytes, off: nat)
    requires LinesOf(orig) == Repeated(w, 1) + [g] && off <= |w| && off <= |s|
    requires LineIndex(s, off) == 1 && LineAt(s, off) == g && |LinesOf(s)| == 2 && LinesOf(s)[1] == g && v.counts(g)
    requires v.show(w) != v.show(g)
    ensures FaithfulAt(v, [], orig, s, [], off).Report?
    ensures OutcomeAt(v, [], orig, s, [], off).Report?
            && OutcomeAt(v, [], orig, s, [], off) != FaithfulAt(v, [], orig, s, [], off)
  {
    FirstLine(orig, w, g, off);
    ReportedAs(v, orig, s, off, w);
    IdealAs(v, orig, s, off, 1);
  }

  lemma FirstLine(orig: bytes, w: bytes, g: bytes, off: nat)
    requires LinesOf(orig) == Repeated(w, 1) + [g] && off <= |w|
    ensures off <= |orig| && LineAt(orig, off) == w && |LinesOf(orig)| == 2 && LinesOf(orig)[1] == g
  {
    assert LinesOf(orig)[0] == w;
    OnLine(orig, 0, off);
  }

  lemma IdealAs(v: View, orig: bytes, s: bytes, off: nat, k: nat)
    requires off <= |s| && LineIndex(s, off) == k && k < |LinesOf(s)| && v.counts(LinesOf(s)[k]) && k < |LinesOf(orig)|
    ensures FaithfulAt(v, [], orig, s, [], off) == Report(Hit([], [], k + 1, v.show(LinesOf(orig)[k])))
  {
    var text := v.show(LinesOf(orig)[k]);
    assert FaithfulAt(v, [], orig, s, [], off) == OutcomeOn([], [], true, k, Some(text));
  }

  lemma ReportedAs(v: View, orig: bytes, s: bytes, off: nat, line: bytes)
    requires off <= |s| && off <= |orig| && LineAt(orig, off) == line && v.counts(LineAt(s, off))
    ensures OutcomeAt(v, [], orig, s, [], off) == Report(Hit([], [], 1 + LineIndex(s, off), v.show(line)))
  {}

  // The shown text of a word without the syllable is not that syllable.
  lemma ShownWordIsNot(w: bytes, r: int)
    requires Plain(w) && Syllable(r) && !Occurs(EncodeRune(r), w)
    ensures Shorten(w) != EncodeRune(r)
  {
    var g := EncodeRune(r);
    SyllableBytes(r);
    ShortenIsAnExcerpt(w);
    if |Runes(TrimSpace(w))| > 80 {
      EndsInEllipsis(w, g);
    }
  }

  lemma EndsInEllipsis(w: bytes, g: bytes)
    requires |Runes(TrimSpace(w))| > 80 && |g| == 3
    ensures Shorten(w) != g
  {
    var rs := Runes(TrimSpace(w));
    assert rs[..80][0] == rs[0];
    assert |EncodeRune(rs[0])| > 0;
    assert |Encode(rs[..80])| > 0;
  }

  // For a plain list that leaves some syllable out of every word, match is faithful for every file, mask and rules if
  // and only if the list is level.
  lemma FaithfulIffLevel(words: seq<bytes>, r: int)
    requires AllPlain(words) && Unlisted(r, words)
    ensures AlwaysFaithful(Prose(), words) <==> Level(words)
  {
    if Level(words) {
      LevelIsFaithful(Prose(), words);
    } else {
      var k :| 0 <= k < |words| && !Shadowed(words, k) && Growth(words[k]) != 0;
      UnlevelIsNotFaithful(words, k, r);
    }
  }

  lemma LevelIsFaithful(v: View, words: seq<bytes>)
    requires AllPlain(words) && Level(words)
    ensures AlwaysFaithful(v, words)
  {
    forall file, orig, masked, rules | Finders(rules) && SameNewlines(orig, masked)
      ensures Faithful(v, file, orig, masked, rules, words)
    {
      MatchIsFaithful(v, file, orig, masked, rules, words);
    }
  }

  lemma UnlevelIsNotFaithful(words: seq<bytes>, k: nat, r: int)
    requires AllPlain(words) && Unlisted(r, words) && k < |words| && !Shadowed(words, k) && Growth(words[k]) != 0
    ensures !AlwaysFaithful(Prose(), words)
  {
    var w, n, g := words[k], |Runes(words[k])|, EncodeRune(r);
    UnshadowedIsReplaced(words, k, r);
    ProseShows(g, r);
    if Growth(w) > 0 {
      GrowingIsNotFaithful(Prose(), words, w, n, g);
    } else {
      assert Plain(w);
      ShownWordIsNot(w, r);
      ProseShowsLine(w);
      ShrinkingIsNotFaithful(Prose(), words, w, n, g);
    }
  }

  lemma ProseShowsLine(line: bytes)
    ensures Prose().show(line) == Shorten(line) && Prose().counts(line) == HasHangul(line)
  {}

  lemma ProseShows(g: bytes, r: int)
    requires Syllable(r) && g == EncodeRune(r)
    ensures |g| == 3 && Prose().counts(g) && Prose().show(g) == g
  {
    SyllableBytes(r);
    ProseShowsLine(g);
  }
}
