// checkprose's match: where a hit is, on which line it is reported, and which text is shown for it.
module ProseMatch {
  import opened Text
  import opened Utf8
  import opened Lines
  import opened ProseMask
  import opened ProseOverlap

  // A rule's pattern is its finder: FindAllStringIndex.
  datatype Rule = Rule(name: bytes, find: bytes -> seq<Span>)

  datatype Hit = Hit(rule: bytes, file: bytes, line: nat, text: bytes)

  function LineAt(s: bytes, off: nat): bytes
    requires off <= |s|
  {
    Cut(s, LastNewline(s[..off]) + 1, NextNewline(s, off))
  }

  // What excerpt makes of a line: trimmed, and cut after 80 runes.
  function Shorten(line: bytes): bytes {
    var t := TrimSpace(line);
    var r := Runes(t);
    if |r| > 80 then Encode(r[..80]) + ELLIPSIS else t
  }

  // Which lines count, and how a line is shown. What match does with its matches is the same for every such view.
  datatype View = View(counts: bytes -> bool, show: bytes -> bytes)

  // checkprose's own: lines with Hangul, shortened.
  function Prose(): View { View(line => HasHangul(line), line => Shorten(line)) }

  // None when the offset lies past the end: the slice expression panics.
  function Excerpt(v: View, s: bytes, off: nat): Option<bytes> {
    if off > |s| then None else Some(v.show(LineAt(s, off)))
  }

  ghost predicate Finders(rules: seq<Rule>) { forall n :: 0 <= n < |rules| ==> Finder(rules[n].find) }

  // What becomes of one match: passed over (no Hangul on its line), reported, or a panic while cutting its text.
  datatype Outcome = Skip | Report(hit: Hit) | Panic

  function OutcomeAt(v: View, file: bytes, orig: bytes, s: bytes, name: bytes, off: nat): Outcome
    requires off <= |s|
  {
    OutcomeOn(file, name, v.counts(LineAt(s, off)), LineIndex(s, off), Excerpt(v, orig, off))
  }

  function OutcomeOn(file: bytes, name: bytes, hangul: bool, k: nat, excerpt: Option<bytes>): Outcome {
    if !hangul then Skip
    else match excerpt case None => Panic case Some(text) => Report(Hit(name, file, 1 + k, text))
  }

  function Collect(outcomes: seq<Outcome>): Option<seq<Hit>> {
    if outcomes == [] then Some([])
    else
      match Collect(outcomes[..|outcomes| - 1])
      case None => None
      case Some(hits) =>
        match outcomes[|outcomes| - 1]
        case Skip => Some(hits)
        case Report(h) => Some(hits + [h])
        case Panic => None
  }

  function RuleOutcomes(v: View, file: bytes, orig: bytes, s: bytes, name: bytes, locs: seq<Span>): seq<Outcome>
    requires SpansWithin(locs, |s|)
  {
    seq(|locs|, m requires 0 <= m < |locs| => OutcomeAt(v, file, orig, s, name, locs[m].0))
  }

  function RuleParts(v: View, file: bytes, orig: bytes, s: bytes, rules: seq<Rule>): seq<seq<Outcome>>
    requires Finders(rules)
  {
    seq(|rules|, n requires 0 <= n < |rules| => RuleOutcomes(v, file, orig, s, rules[n].name, rules[n].find(s)))
  }

  function Flat(parts: seq<seq<Outcome>>, n: nat): seq<Outcome>
    requires n <= |parts|
  {
    if n == 0 then [] else Flat(parts, n - 1) + parts[n - 1]
  }

  // The outcomes of the first n rules, in the order of rules and matches.
  function AllOutcomes(v: View, file: bytes, orig: bytes, s: bytes, rules: seq<Rule>, n: nat): seq<Outcome>
    requires Finders(rules) && n <= |rules|
  {
    Flat(RuleParts(v, file, orig, s, rules), n)
  }

  method MatchRule(v: View, file: bytes, orig: bytes, s: bytes, rule: Rule, before: seq<Hit>, ghost seen: seq<Outcome>)
    returns (out: Option<seq<Hit>>)
    requires Finder(rule.find) && Collect(seen) == Some(before)
    ensures out == Collect(seen + RuleOutcomes(v, file, orig, s, rule.name, rule.find(s)))
  {
    var locs := rule.find(s);
    var hits := before;
    ghost var outcomes := RuleOutcomes(v, file, orig, s, rule.name, locs);
    ghost var done := seen;
    for m := 0 to |locs|
      invariant done == seen + outcomes[..m] && Collect(done) == Some(hits)
    {
      var o := OutcomeAt(v, file, orig, s, rule.name, locs[m].0);
      assert outcomes[m] == o;
      CollectOne(done, o, hits);
      TakeOneMore(seen, outcomes, m);
      done := done + [o];
      match o
      case Skip =>
      case Report(h) => hits := hits + [h];
      case Panic =>
        CollectPanic(done, outcomes[m + 1..]);
        return None;
    }
    assert done == seen + outcomes;
    return Some(hits);
  }

  lemma CollectOne(seen: seq<Outcome>, o: Outcome, hits: seq<Hit>)
    requires Collect(seen) == Some(hits)
    ensures Collect(seen + [o]) == match o case Skip => Some(hits) case Report(h) => Some(hits + [h]) case Panic => None
  {
    assert (seen + [o])[..|seen|] == seen;
  }

  lemma TakeOneMore(seen: seq<Outcome>, outcomes: seq<Outcome>, m: nat)
    requires m < |outcomes|
    ensures seen + outcomes[..m] + [outcomes[m]] == seen + outcomes[..m + 1]
    ensures seen + outcomes[..m + 1] + outcomes[m + 1..] == seen + outcomes
  {
    assert outcomes[..m] + [outcomes[m]] == outcomes[..m + 1];
    assert outcomes[..m + 1] + outcomes[m + 1..] == outcomes;
  }

  method Match(v: View, file: bytes, orig: bytes, masked: bytes, rules: seq<Rule>, words: seq<bytes>)
    returns (out: Option<seq<Hit>>)
    requires Finders(rules)
    ensures out == Collect(AllOutcomes(v, file, orig, Hide(masked, words), rules, |rules|))
  {
    var s := HideOverlap(masked, words);
    var hits := [];
    for n := 0 to |rules|
      invariant Collect(AllOutcomes(v, file, orig, s, rules, n)) == Some(hits)
    {
      var more := MatchRule(v, file, orig, s, rules[n], hits, AllOutcomes(v, file, orig, s, rules, n));
      if more.None? {
        PanicStops(v, file, orig, s, rules, n + 1);
        return None;
      }
      hits := more.value;
    }
    return Some(hits);
  }

  // A panic anywhere is a panic of the whole call.
  lemma {:induction false} CollectPanic(a: seq<Outcome>, b: seq<Outcome>)
    requires Collect(a).None?
    ensures Collect(a + b).None?
  {
    if b == [] {
      assert a + b == a;
    } else {
      CollectPanic(a, b[..|b| - 1]);
      assert (a + b)[..|a + b| - 1] == a + b[..|b| - 1];
    }
  }

  lemma {:induction false} CollectNone(outcomes: seq<Outcome>)
    ensures Collect(outcomes).None? <==> exists i :: 0 <= i < |outcomes| && outcomes[i].Panic?
  {
    if outcomes == [] {
    } else {
      var n := |outcomes| - 1;
      CollectNone(outcomes[..n]);
      assert forall i :: 0 <= i < n ==> outcomes[..n][i] == outcomes[i];
    }
  }

  lemma {:induction false} FlatGrows(parts: seq<seq<Outcome>>, n: nat, m: nat)
    requires n <= m <= |parts|
    ensures Flat(parts, n) <= Flat(parts, m)
  {
    if n < m { FlatGrows(parts, n, m - 1); }
  }

  lemma PanicStops(v: View, file: bytes, orig: bytes, s: bytes, rules: seq<Rule>, n: nat)
    requires Finders(rules) && n <= |rules| && Collect(AllOutcomes(v, file, orig, s, rules, n)).None?
    ensures Collect(AllOutcomes(v, file, orig, s, rules, |rules|)).None?
  {
    var some, all := AllOutcomes(v, file, orig, s, rules, n), AllOutcomes(v, file, orig, s, rules, |rules|);
    CollectNone(some);
    CollectNone(all);
    FlatGrows(RuleParts(v, file, orig, s, rules), n, |rules|);
    var i :| 0 <= i < |some| && some[i].Panic?;
    assert all[i] == some[i];
  }

  // ---------- the line of an offset ----------

  lemma LastNewlineIs(t: bytes, i: int)
    requires -1 <= i < |t| && (i >= 0 ==> t[i] == NL) && forall j :: i < j < |t| ==> t[j] != NL
    ensures LastNewline(t) == i
  {
  }

  // The code's slice between newlines is the line the offset's newline count names.
  lemma LineAtIsItsLine(s: bytes, off: nat)
    requires off <= |s|
    ensures LineIndex(s, off) < |LinesOf(s)| && LineAt(s, off) == LinesOf(s)[LineIndex(s, off)]
  {
    var ls, k := LinesOf(s), LineIndex(s, off);
    Locate(s, off);
    LinesAreNewlineFree(s);
    JoinAt(ls, k);
    LineAtBetween(s, off, StartOf(ls, k), ls[k], k + 1 == |ls|);
  }

  lemma LineAtBetween(s: bytes, off: nat, from: nat, line: bytes, last: bool)
    requires Sits(s, from, line, last) && from <= off <= from + |line| && NL !in line
    ensures LineAt(s, off) == line
  {
    var to := from + |line|;
    forall j | from <= j < to ensures s[j] != NL {
      assert s[j] == s[from..to][j - from] == line[j - from];
      assert line[j - from] in line;
    }
    LastBefore(s, off, from);
    assert NextNewline(s, off) == to;
    CutIsSlice(s, from, to);
  }

  lemma LastBefore(s: bytes, off: nat, from: nat)
    requires from <= off <= |s| && (from > 0 ==> s[from - 1] == NL) && forall j :: from <= j < off ==> s[j] != NL
    ensures LastNewline(s[..off]) == from - 1
  {
    LastNewlineIs(s[..off], from - 1);
  }

  // ---------- faithfulness ----------

  function Line(ls: seq<bytes>, k: nat): bytes { if k < |ls| then ls[k] else [] }

  // What a match on line k of the hidden text must become: it counts when that line has Hangul, and is reported with
  // the number and the text of line k of the original.
  function FaithfulAt(v: View, file: bytes, orig: bytes, s: bytes, name: bytes, off: nat): (o: Outcome)
    requires off <= |s|
    ensures !o.Panic?
  {
    var k := LineIndex(s, off);
    OutcomeOn(file, name, v.counts(Line(LinesOf(s), k)), k, Some(v.show(Line(LinesOf(orig), k))))
  }

  lemma OutcomeIsFaithful(v: View, file: bytes, orig: bytes, s: bytes, name: bytes, off: nat)
    requires SameNewlines(orig, s) && off <= |s|
    ensures OutcomeAt(v, file, orig, s, name, off) == FaithfulAt(v, file, orig, s, name, off)
  {
    SameNewlinesSameIndex(orig, s, off);
    LineAtIsItsLine(orig, off);
    LineAtIsItsLine(s, off);
  }

  ghost function FaithfulRule(v: View, file: bytes, orig: bytes, s: bytes, name: bytes, locs: seq<Span>): seq<Outcome>
    requires SpansWithin(locs, |s|)
  {
    seq(|locs|, m requires 0 <= m < |locs| => FaithfulAt(v, file, orig, s, name, locs[m].0))
  }

  ghost function FaithfulParts(v: View, file: bytes, orig: bytes, s: bytes, rules: seq<Rule>): seq<seq<Outcome>>
    requires Finders(rules)
  {
    seq(|rules|, n requires 0 <= n < |rules| => FaithfulRule(v, file, orig, s, rules[n].name, rules[n].find(s)))
  }

  ghost function FaithfulOutcomes(v: View, file: bytes, orig: bytes, s: bytes, rules: seq<Rule>, n: nat): seq<Outcome>
    requires Finders(rules) && n <= |rules|
  {
    Flat(FaithfulParts(v, file, orig, s, rules), n)
  }

  function Reports(outcomes: seq<Outcome>): seq<Hit> {
    if outcomes == [] then []
    else
      var n := |outcomes| - 1;
      if outcomes[n].Report? then Reports(outcomes[..n]) + [outcomes[n].hit] else Reports(outcomes[..n])
  }

  ghost predicate NoPanic(outcomes: seq<Outcome>) { forall i :: 0 <= i < |outcomes| ==> !outcomes[i].Panic? }

  lemma {:induction false} CollectReports(outcomes: seq<Outcome>)
    requires NoPanic(outcomes)
    ensures Collect(outcomes) == Some(Reports(outcomes))
  {
    if outcomes == [] {
    } else {
      CollectReports(outcomes[..|outcomes| - 1]);
    }
  }

  lemma RuleIsFaithful(v: View, file: bytes, orig: bytes, s: bytes, name: bytes, locs: seq<Span>)
    requires SpansWithin(locs, |s|) && SameNewlines(orig, s)
    ensures RuleOutcomes(v, file, orig, s, name, locs) == FaithfulRule(v, file, orig, s, name, locs)
    ensures NoPanic(RuleOutcomes(v, file, orig, s, name, locs))
  {
    forall m | 0 <= m < |locs|
      ensures RuleOutcomes(v, file, orig, s, name, locs)[m] == FaithfulAt(v, file, orig, s, name, locs[m].0)
    {
      OutcomeIsFaithful(v, file, orig, s, name, locs[m].0);
    }
  }

  lemma OutcomesAreFaithful(v: View, file: bytes, orig: bytes, s: bytes, rules: seq<Rule>, n: nat)
    requires Finders(rules) && SameNewlines(orig, s) && n <= |rules|
    ensures AllOutcomes(v, file, orig, s, rules, n) == FaithfulOutcomes(v, file, orig, s, rules, n)
    ensures NoPanic(AllOutcomes(v, file, orig, s, rules, n))
  {
    var parts := RuleParts(v, file, orig, s, rules);
    forall k | 0 <= k < |rules| ensures parts[k] == FaithfulParts(v, file, orig, s, rules)[k] && NoPanic(parts[k]) {
      RuleIsFaithful(v, file, orig, s, rules[k].name, rules[k].find(s));
    }
    assert parts == FaithfulParts(v, file, orig, s, rules);
    NoPanicInFlat(parts, n);
  }

  lemma {:induction false} NoPanicInFlat(parts: seq<seq<Outcome>>, n: nat)
    requires n <= |parts| && forall k :: 0 <= k < |parts| ==> NoPanic(parts[k])
    ensures NoPanic(Flat(parts, n))
  {
    if n > 0 { NoPanicInFlat(parts, n - 1); }
  }

  // The whole pipeline: with a level word list, match never panics, and its hits are exactly the faithful ones.
  lemma MatchIsFaithful(v: View, file: bytes, orig: bytes, masked: bytes, rules: seq<Rule>, words: seq<bytes>)
    requires Finders(rules) && SameNewlines(orig, masked)
    requires AllPlain(words) && Level(words)
    ensures SameNewlines(orig, Hide(masked, words))
    ensures Collect(AllOutcomes(v, file, orig, Hide(masked, words), rules, |rules|))
            == Some(Reports(FaithfulOutcomes(v, file, orig, Hide(masked, words), rules, |rules|)))
  {
    var s := Hide(masked, words);
    LevelKeepsNewlines(masked, words);
    OutcomesAreFaithful(v, file, orig, s, rules, |rules|);
    CollectReports(AllOutcomes(v, file, orig, s, rules, |rules|));
  }

  // The shown text of a line is the trimmed line, or, above 80 runes, its first 80 and an ellipsis: the part of the
  // trimmed line that holds those runes, with every malformed byte replaced. A well-formed part stays as it is.
  lemma ShortenIsAnExcerpt(line: bytes)
    ensures Occurs(TrimSpace(line), line)
    ensures |Runes(TrimSpace(line))| <= 80 ==> Shorten(line) == TrimSpace(line)
    ensures |Runes(TrimSpace(line))| > 80 ==>
              exists part ::
                part <= TrimSpace(line) && Runes(part) == Runes(TrimSpace(line))[..80]
                  && Shorten(line) == Repaired(part) + ELLIPSIS && Runes(Repaired(part)) == Runes(part)
                  && (Repaired(part) == part <==> Valid(part)) && (Valid(line) ==> Valid(part))
  {
    TrimSpacePart(line);
    var t := TrimSpace(line);
    if |Runes(t)| > 80 {
      var part := FirstRunes(t, 80);
      RunesAreScalar(t);
      RunesOfEncoded(Runes(t)[..80]);
      RepairedIff(part);
      assert part <= t && Runes(part) == Runes(t)[..80] && Shorten(line) == Repaired(part) + ELLIPSIS;
    }
  }

  // Column c of line k.
  lemma OnLine(s: bytes, k: nat, c: nat)
    requires k < |LinesOf(s)| && c <= |LinesOf(s)[k]|
    ensures var off := StartOf(LinesOf(s), k) + c;
            off <= |s| && LineIndex(s, off) == k && LineAt(s, off) == LinesOf(s)[k]
  {
    LinesAreNewlineFree(s);
    NewlinesBefore(LinesOf(s), k, c);
    LineAtIsItsLine(s, StartOf(LinesOf(s), k) + c);
  }

  // An excerpt inside the text is the shortened line its offset lies on; past the end it panics.
  lemma ExcerptIsOfItsLine(v: View, orig: bytes, off: nat)
    ensures Excerpt(v, orig, off)
            == if off <= |orig| then Some(v.show(Line(LinesOf(orig), LineIndex(orig, off)))) else None
  {
    if off <= |orig| {
      LineAtIsItsLine(orig, off);
    }
  }
}
