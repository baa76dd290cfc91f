// One-pass scanners over a document's lines: empty sections, and the skeleton two translations must share.
module DocSections {
  import Str

  // ---------- lines ----------

  predicate Blank(line: string) { Str.TrimSpace(line) == "" }

  predicate Fence(line: string) { Str.HasPrefix(Str.TrimSpace(line), "```") }

  function Hashes(line: string): (n: nat)
    ensures n <= |line|
  {
    if line != "" && line[0] == '#' then 1 + Hashes(line[1..]) else 0
  }

  // The level of a heading: one to six marks and a space; anything else is no heading.
  function Level(line: string): nat {
    var n := Hashes(line);
    if n == 0 || n > 6 || n == |line| || line[n] != ' ' then 0 else n
  }

  lemma {:induction false} HashesAreFirst(line: string)
    ensures forall i :: 0 <= i < Hashes(line) ==> line[i] == '#'
    ensures Hashes(line) < |line| ==> line[Hashes(line)] != '#'
  {
    if line != "" && line[0] == '#' { HashesAreFirst(line[1..]); }
  }

  // A line is a heading of level n exactly when it starts with n marks, one to six, and then a space.
  lemma LevelMeans(line: string, n: nat)
    requires n > 0
    ensures Level(line) == n <==> n <= 6 && n < |line| && line[n] == ' ' && forall i :: 0 <= i < n ==> line[i] == '#'
  {
    HashesAreFirst(line);
  }

  // ---------- empty sections ----------

  // The tests a scan makes, so that the scan itself is about positions only.
  datatype Tests = Tests(blank: string -> bool, fence: string -> bool, level: string -> nat)

  function Markdown(): Tests { Tests(s => Blank(s), s => Fence(s), s => Level(s)) }

  predicate InFence(t: Tests, ls: seq<string>, i: nat)
    requires i <= |ls|
  {
    i > 0 && (InFence(t, ls, i - 1) != t.fence(ls[i - 1]))
  }

  // A heading that counts: outside fences, and no fence itself.
  predicate Heading(t: Tests, ls: seq<string>, i: nat) {
    i < |ls| && !t.fence(ls[i]) && !InFence(t, ls, i) && t.level(ls[i]) > 0
  }

  // The next heading from j on, or the end.
  function NextHeading(t: Tests, ls: seq<string>, j: nat): (n: nat)
    requires j <= |ls|
    ensures j <= n <= |ls| && (n < |ls| ==> Heading(t, ls, n)) && forall k :: j <= k < n ==> !Heading(t, ls, k)
    decreases |ls| - j
  {
    if j == |ls| || Heading(t, ls, j) then j else NextHeading(t, ls, j + 1)
  }

  predicate BlankBetween(t: Tests, ls: seq<string>, i: nat, j: nat)
    requires j <= |ls|
  {
    forall k :: i < k < j ==> t.blank(ls[k])
  }

  // A section with nothing in it: only blank lines up to the next heading, which is not a deeper one, or to the end.
  predicate EmptySection(t: Tests, ls: seq<string>, i: nat) {
    && Heading(t, ls, i)
    && var j := NextHeading(t, ls, i + 1);
       BlankBetween(t, ls, i, j) && (j == |ls| || t.level(ls[j]) <= t.level(ls[i]))
  }

  function EmptySections(t: Tests, ls: seq<string>, n: nat): seq<nat>
    requires n <= |ls|
  {
    if n == 0 then []
    else if EmptySection(t, ls, n - 1) then EmptySections(t, ls, n - 1) + [n - 1]
    else EmptySections(t, ls, n - 1)
  }

  // The one pass: it decides about a heading when it meets the next one, or the end.
  method FindEmptySections(t: Tests, ls: seq<string>) returns (out: seq<nat>)
    ensures out == EmptySections(t, ls, |ls|)
  {
    out := [];
    var head, headLv := -1, 0;
    var inFence := false;
    for n := 0 to |ls|
      invariant inFence == InFence(t, ls, n)
      invariant -1 <= head < n && (forall k :: head < k < n ==> !Heading(t, ls, k))
      invariant head >= 0 ==> Heading(t, ls, head) && headLv == t.level(ls[head])
      invariant out == EmptySections(t, ls, if head < 0 then 0 else head)
    {
      var line := ls[n];
      if t.fence(line) {
        inFence := !inFence;
      } else if !inFence && t.level(line) != 0 {
        out := Flush(t, ls, out, head, headLv, n, t.level(line));
        head, headLv := n, t.level(line);
      }
    }
    out := Flush(t, ls, out, head, headLv, |ls|, 0);
  }

  method Flush(t: Tests, ls: seq<string>, before: seq<nat>, head: int, headLv: nat, end: nat, nextLv: nat)
    returns (out: seq<nat>)
    requires -1 <= head < end <= |ls| || (head == -1 && end == 0)
    requires forall k :: head < k < end ==> !Heading(t, ls, k)
    requires head >= 0 ==> Heading(t, ls, head) && headLv == t.level(ls[head])
    requires end < |ls| ==> Heading(t, ls, end) && nextLv == t.level(ls[end])
    requires end == |ls| ==> nextLv == 0
    requires before == EmptySections(t, ls, if head < 0 then 0 else head)
    ensures out == EmptySections(t, ls, end)
  {
    NoHeadingsBetween(t, ls, head + 1, end);
    if head < 0 { return before; }
    NextIs(t, ls, head + 1, end);
    assert EmptySection(t, ls, head) <==> BlankBetween(t, ls, head, end) && (end == |ls| || nextLv <= headLv);
    if nextLv > headLv && nextLv != 0 { return before; }
    for i := head + 1 to end
      invariant BlankBetween(t, ls, head, i)
    {
      if !t.blank(ls[i]) { return before; }
    }
    out := before + [head];
  }

  lemma {:induction false} NoHeadingsBetween(t: Tests, ls: seq<string>, a: nat, b: nat)
    requires a <= b <= |ls| && forall k :: a <= k < b ==> !Heading(t, ls, k)
    ensures EmptySections(t, ls, b) == EmptySections(t, ls, a)
    decreases b
  {
    if a < b { NoHeadingsBetween(t, ls, a, b - 1); }
  }

  lemma NextIs(t: Tests, ls: seq<string>, a: nat, b: nat)
    requires a <= b <= |ls| && (forall k :: a <= k < b ==> !Heading(t, ls, k)) && (b < |ls| ==> Heading(t, ls, b))
    ensures NextHeading(t, ls, a) == b
  {}

  // A heading is reported exactly when its section is empty; once, and in the order of the document.
  lemma {:induction false} ReportedIffEmpty(t: Tests, ls: seq<string>, n: nat)
    requires n <= |ls|
    ensures forall i: nat :: i in EmptySections(t, ls, n) <==> i < n && EmptySection(t, ls, i)
    ensures forall a, b :: 0 <= a < b < |EmptySections(t, ls, n)|
              ==> EmptySections(t, ls, n)[a] < EmptySections(t, ls, n)[b]
  {
    if n == 0 {
    } else {
      ReportedIffEmpty(t, ls, n - 1);
      var before := EmptySections(t, ls, n - 1);
      forall a | 0 <= a < |before| ensures before[a] < n - 1 { assert before[a] in before; }
    }
  }

  // ---------- for Markdown lines ----------

  // A fenced block in a section is content: its fence lines are not blank.
  lemma FenceIsNotBlank(line: string)
    ensures Fence(line) ==> !Blank(line)
  {
    assert |"```"| == 3;
  }

  lemma MarksAreNoSpace(line: string)
    requires line != "" && line[0] == '#'
    ensures !Blank(line) && !Fence(line)
  {
    assert Str.TrimStart(line) == line;
    Str.TrimEndKeepsHead(line);
    assert "```"[0] == '`';
  }

  // A heading is neither blank nor a fence.
  lemma HeadingIsContent(line: string)
    ensures Level(line) > 0 ==> !Blank(line) && !Fence(line)
  {
    if Level(line) > 0 {
      HashesAreFirst(line);
      MarksAreNoSpace(line);
    }
  }

  // After an unfenced line that is no fence, blank lines keep the text unfenced.
  lemma {:induction false} BlanksStayOut(ls: seq<string>, i: nat, j: nat)
    requires i < j <= |ls| && !InFence(Markdown(), ls, i) && !Fence(ls[i]) && forall k :: i < k < j ==> Blank(ls[k])
    ensures !InFence(Markdown(), ls, j)
  {
    if j == i + 1 {
    } else {
      BlanksStayOut(ls, i, j - 1);
      FenceIsNotBlank(ls[j - 1]);
    }
  }

  // Blank lines only from line i on, then the end or a heading that is not deeper.
  ghost predicate NothingFollows(ls: seq<string>, i: nat) {
    i < |ls| && exists j: nat :: EndsEmpty(ls, i, j)
  }

  ghost predicate EndsEmpty(ls: seq<string>, i: nat, j: nat)
    requires i < |ls|
  {
    && i < j <= |ls| && (forall k :: i < k < j ==> Blank(ls[k]))
    && (j == |ls| || 0 < Level(ls[j]) <= Level(ls[i]))
  }

  lemma EmptyMeans(ls: seq<string>, i: nat)
    requires Heading(Markdown(), ls, i)
    ensures EmptySection(Markdown(), ls, i) ==> EndsEmpty(ls, i, NextHeading(Markdown(), ls, i + 1))
  {}

  lemma NothingMeansEmpty(ls: seq<string>, i: nat, j: nat)
    requires Heading(Markdown(), ls, i) && EndsEmpty(ls, i, j)
    ensures EmptySection(Markdown(), ls, i)
  {
    BlanksStayOut(ls, i, j);
    forall k | i + 1 <= k < j ensures !Heading(Markdown(), ls, k) { HeadingIsContent(ls[k]); }
    if j < |ls| { HeadingIsContent(ls[j]); }
    NextIs(Markdown(), ls, i + 1, j);
  }

  // What the check reports for a document: exactly the headings outside fences that nothing but blank lines follows, up
  // to the end or to a heading that is not deeper. Whether a fence lies in between needs no mention: its lines are not
  // blank.
  lemma MarkdownReportedIff(ls: seq<string>, i: nat)
    ensures i in EmptySections(Markdown(), ls, |ls|)
       <==> i < |ls| && Level(ls[i]) > 0 && !InFence(Markdown(), ls, i) && NothingFollows(ls, i)
  {
    ReportedIffEmpty(Markdown(), ls, |ls|);
    if i < |ls| && Level(ls[i]) > 0 && !InFence(Markdown(), ls, i) {
      HeadingIsContent(ls[i]);
      EmptyMeans(ls, i);
      if j: nat :| EndsEmpty(ls, i, j) { NothingMeansEmpty(ls, i, j); }
    }
  }

  method EmptySectionsOf(ls: seq<string>) returns (out: seq<nat>)
    ensures forall i: nat ::
              i in out <==> i < |ls| && Level(ls[i]) > 0 && !InFence(Markdown(), ls, i) && NothingFollows(ls, i)
    ensures forall a, b :: 0 <= a < b < |out| ==> out[a] < out[b]
  {
    out := FindEmptySections(Markdown(), ls);
    ReportedIffEmpty(Markdown(), ls, |ls|);
    forall i: nat
      ensures i in out <==> i < |ls| && Level(ls[i]) > 0 && !InFence(Markdown(), ls, i) && NothingFollows(ls, i)
    {
      MarkdownReportedIff(ls, i);
    }
  }

  // ---------- the skeleton ----------

  datatype Kind = FenceLine | SectionLine | SubLine | ItemLine | OtherLine

  function KindOf(line: string): Kind {
    if Str.HasPrefix(line, "```") then FenceLine
    else if Str.HasPrefix(line, "## ") then SectionLine
    else if Str.HasPrefix(line, "### ") then SubLine
    else if Str.HasPrefix(line, "- ") then ItemLine
    else OtherLine
  }

  datatype Section = Section(title: string, subs: nat, items: nat)

  predicate Fenced(kinds: seq<Kind>, i: nat)
    requires i <= |kinds|
  {
    i > 0 && (Fenced(kinds, i - 1) != kinds[i - 1].FenceLine?)
  }

  predicate Counts(kinds: seq<Kind>, i: nat, kind: Kind) { i < |kinds| && kinds[i] == kind && !Fenced(kinds, i) }

  // The section line i belongs to: how many sections start before it.
  function SectionOf(kinds: seq<Kind>, i: nat): nat
    requires i <= |kinds|
  {
    if i == 0 then 0 else SectionOf(kinds, i - 1) + (if Counts(kinds, i - 1, SectionLine) then 1 else 0)
  }

  // How many unfenced lines of a kind section k has among the first n lines.
  function CountIn(kinds: seq<Kind>, n: nat, k: nat, kind: Kind): nat
    requires n <= |kinds|
  {
    if n == 0 then 0
    else CountIn(kinds, n - 1, k, kind) + (if Counts(kinds, n - 1, kind) && SectionOf(kinds, n - 1) == k then 1 else 0)
  }

  function KindsOf(ls: seq<string>): seq<Kind> { seq(|ls|, i requires 0 <= i < |ls| => KindOf(ls[i])) }

  // Section k starts at line i, and title is the rest of that line.
  ghost predicate TitleAt(kinds: seq<Kind>, ls: seq<string>, i: nat, k: nat, title: string)
    requires |kinds| == |ls|
  {
    && Counts(kinds, i, SectionLine) && SectionOf(kinds, i) + 1 == k
    && |ls[i]| >= 3 && title == Str.TrimSpace(ls[i][3..])
  }

  ghost predicate Titled(kinds: seq<Kind>, ls: seq<string>, k: nat, title: string)
    requires |kinds| == |ls|
  {
    exists i: nat :: TitleAt(kinds, ls, i, k, title)
  }

  lemma TitleFits(line: string)
    requires KindOf(line) == SectionLine
    ensures |line| >= 3
  {
    assert |"## "| == 3;
  }

  // The counted sections of the first n lines.
  ghost predicate CountedIn(kinds: seq<Kind>, ls: seq<string>, n: nat, out: seq<Section>)
    requires |kinds| == |ls| && n <= |kinds|
  {
    && |out| == 1 + SectionOf(kinds, n)
    && (forall k :: 0 <= k < |out| ==> out[k].subs == CountIn(kinds, n, k, SubLine))
    && (forall k :: 0 <= k < |out| ==> out[k].items == CountIn(kinds, n, k, ItemLine))
    && out[0].title == "" && (forall k :: 0 < k < |out| ==> Titled(kinds, ls, k, out[k].title))
  }

  // One section for the text before the first section heading and one for each heading, with its title and the
  // sub-headings and top-level items in it, fenced lines not counted.
  method Skeleton(ls: seq<string>) returns (out: seq<Section>)
    ensures CountedIn(KindsOf(ls), ls, |ls|, out)
  {
    ghost var kinds := KindsOf(ls);
    out := [Section("", 0, 0)];
    var fence := false;
    for n := 0 to |ls|
      invariant fence == Fenced(kinds, n)
      invariant CountedIn(kinds, ls, n, out)
    {
      var kind := KindOf(ls[n]);
      assert kinds[n] == kind;
      var last := |out| - 1;
      if kind.FenceLine? {
        NothingCounts(kinds, ls, n, out);
        fence := !fence;
      } else if !fence {
        match kind {
          case SectionLine =>
            TitleFits(ls[n]);
            SectionStarts(kinds, ls, n, out);
            out := out + [Section(Str.TrimSpace(ls[n][3..]), 0, 0)];
          case SubLine =>
            SubCounts(kinds, ls, n, out);
            out := out[last := out[last].(subs := out[last].subs + 1)];
          case ItemLine =>
            ItemCounts(kinds, ls, n, out);
            out := out[last := out[last].(items := out[last].items + 1)];
          case OtherLine => NothingCounts(kinds, ls, n, out);
        }
      } else {
        NothingCounts(kinds, ls, n, out);
      }
    }
  }

  lemma SubCounts(kinds: seq<Kind>, ls: seq<string>, n: nat, out: seq<Section>)
    requires |kinds| == |ls| && n < |kinds| && CountedIn(kinds, ls, n, out) && Counts(kinds, n, SubLine)
    ensures var last := |out| - 1; CountedIn(kinds, ls, n + 1, out[last := out[last].(subs := out[last].subs + 1)])
  {}

  lemma ItemCounts(kinds: seq<Kind>, ls: seq<string>, n: nat, out: seq<Section>)
    requires |kinds| == |ls| && n < |kinds| && CountedIn(kinds, ls, n, out) && Counts(kinds, n, ItemLine)
    ensures var last := |out| - 1; CountedIn(kinds, ls, n + 1, out[last := out[last].(items := out[last].items + 1)])
  {}

  lemma NothingCounts(kinds: seq<Kind>, ls: seq<string>, n: nat, out: seq<Section>)
    requires |kinds| == |ls| && n < |kinds| && CountedIn(kinds, ls, n, out)
    requires kinds[n].FenceLine? || kinds[n].OtherLine? || Fenced(kinds, n)
    ensures CountedIn(kinds, ls, n + 1, out)
  {}

  lemma SectionStarts(kinds: seq<Kind>, ls: seq<string>, n: nat, out: seq<Section>)
    requires |kinds| == |ls| && n < |kinds| && CountedIn(kinds, ls, n, out)
    requires Counts(kinds, n, SectionLine) && |ls[n]| >= 3
    ensures CountedIn(kinds, ls, n + 1, out + [Section(Str.TrimSpace(ls[n][3..]), 0, 0)])
  {
    NoneYet(kinds, n, |out|, SubLine);
    NoneYet(kinds, n, |out|, ItemLine);
    assert TitleAt(kinds, ls, n, |out|, Str.TrimSpace(ls[n][3..]));
  }

  lemma {:induction false} NoneYet(kinds: seq<Kind>, n: nat, k: nat, kind: Kind)
    requires n <= |kinds| && k > SectionOf(kinds, n)
    ensures CountIn(kinds, n, k, kind) == 0
  {
    if n > 0 { NoneYet(kinds, n - 1, k, kind); }
  }

  // ---------- the comparison ----------

  datatype Difference = SectionCount | SubCount(k: nat) | ItemCount(k: nat)

  // The differences reported for two skeletons.
  method CompareSkeletons(a: seq<Section>, b: seq<Section>) returns (miss: seq<Difference>)
    ensures miss == []
            <==> |a| == |b| && forall k :: 0 <= k < |a| ==> a[k].subs == b[k].subs && a[k].items == b[k].items
    ensures |a| != |b| ==> miss == [SectionCount]
    ensures |a| == |b| ==> SectionCount !in miss
    ensures |a| == |b| ==> forall k: nat :: (SubCount(k) in miss <==> k < |a| && a[k].subs != b[k].subs)
                                         && (ItemCount(k) in miss <==> k < |a| && a[k].items != b[k].items)
  {
    if |a| != |b| { return [SectionCount]; }
    miss := [];
    for i := 0 to |a|
      invariant miss == [] <==> forall k :: 0 <= k < i ==> a[k].subs == b[k].subs && a[k].items == b[k].items
      invariant SectionCount !in miss
      invariant forall k: nat :: (SubCount(k) in miss <==> k < i && a[k].subs != b[k].subs)
                              && (ItemCount(k) in miss <==> k < i && a[k].items != b[k].items)
    {
      if a[i].subs != b[i].subs { miss := miss + [SubCount(i)]; }
      if a[i].items != b[i].items { miss := miss + [ItemCount(i)]; }
    }
  }

  // Two documents have the same skeleton, said of their lines.
  ghost predicate SameSkeleton(a: seq<Kind>, b: seq<Kind>) {
    && SectionOf(a, |a|) == SectionOf(b, |b|)
    && forall k :: 0 <= k <= SectionOf(a, |a|) ==> SameCounts(a, b, k)
  }

  ghost predicate SameCounts(a: seq<Kind>, b: seq<Kind>, k: nat) {
    CountIn(a, |a|, k, SubLine) == CountIn(b, |b|, k, SubLine)
      && CountIn(a, |a|, k, ItemLine) == CountIn(b, |b|, k, ItemLine)
  }

  // The check of a document against its translation is silent exactly when their skeletons agree section by section.
  method CheckParity(en: seq<string>, ko: seq<string>) returns (miss: seq<Difference>)
    ensures miss == [] <==> SameSkeleton(KindsOf(en), KindsOf(ko))
  {
    var a := Skeleton(en);
    var b := Skeleton(ko);
    miss := CompareSkeletons(a, b);
    ghost var ka, kb := KindsOf(en), KindsOf(ko);
    if miss == [] {
      forall k | 0 <= k <= SectionOf(ka, |ka|) ensures SameCounts(ka, kb, k) {
        assert a[k].subs == b[k].subs && a[k].items == b[k].items;
      }
    } else if |a| == |b| {
      var k :| 0 <= k < |a| && !(a[k].subs == b[k].subs && a[k].items == b[k].items);
      assert !SameCounts(ka, kb, k);
    }
  }

  // ---------- nothing is lost between sections ----------

  function Total(kinds: seq<Kind>, n: nat, kind: Kind): nat
    requires n <= |kinds|
  {
    if n == 0 then 0 else Total(kinds, n - 1, kind) + (if Counts(kinds, n - 1, kind) then 1 else 0)
  }

  function SumOver(kinds: seq<Kind>, n: nat, sections: nat, kind: Kind): nat
    requires n <= |kinds|
  {
    if sections == 0 then 0 else SumOver(kinds, n, sections - 1, kind) + CountIn(kinds, n, sections - 1, kind)
  }

  lemma {:induction false} SumStep(kinds: seq<Kind>, n: nat, sections: nat, kind: Kind)
    requires 0 < n <= |kinds|
    ensures SumOver(kinds, n, sections, kind)
         == SumOver(kinds, n - 1, sections, kind)
            + (if Counts(kinds, n - 1, kind) && SectionOf(kinds, n - 1) < sections then 1 else 0)
    decreases sections
  {
    if sections > 0 { SumStep(kinds, n, sections - 1, kind); }
  }

  lemma {:induction false} SumOfNone(kinds: seq<Kind>, sections: nat, kind: Kind)
    ensures SumOver(kinds, 0, sections, kind) == 0
    decreases sections
  {
    if sections > 0 { SumOfNone(kinds, sections - 1, kind); }
  }

  // The counts of the sections add up to the unfenced lines of that kind in the whole document.
  lemma {:induction false} SectionsAddUp(kinds: seq<Kind>, n: nat, sections: nat, kind: Kind)
    requires n <= |kinds| && SectionOf(kinds, n) < sections
    ensures SumOver(kinds, n, sections, kind) == Total(kinds, n, kind)
    decreases n
  {
    if n == 0 {
      SumOfNone(kinds, sections, kind);
    } else {
      SectionsAddUp(kinds, n - 1, sections, kind);
      SumStep(kinds, n, sections, kind);
    }
  }

  lemma {:induction false} SameSums(a: seq<Kind>, b: seq<Kind>, sections: nat, kind: Kind)
    requires kind == SubLine || kind == ItemLine
    requires forall k :: 0 <= k < sections ==> SameCounts(a, b, k)
    ensures SumOver(a, |a|, sections, kind) == SumOver(b, |b|, sections, kind)
    decreases sections
  {
    if sections == 0 {
    } else {
      SameSums(a, b, sections - 1, kind);
      assert SameCounts(a, b, sections - 1);
    }
  }

  // Documents with the same skeleton have as many sub-headings and as many items in all.
  lemma SameSkeletonSameTotals(a: seq<Kind>, b: seq<Kind>, kind: Kind)
    requires SameSkeleton(a, b) && (kind == SubLine || kind == ItemLine)
    ensures Total(a, |a|, kind) == Total(b, |b|, kind)
  {
    var sections := SectionOf(a, |a|) + 1;
    SameSums(a, b, sections, kind);
    SectionsAddUp(a, |a|, sections, kind);
    SectionsAddUp(b, |b|, sections, kind);
  }

  // ---------- one side gains a line ----------

  // The lines with one more, of a kind that is no fence, at position p.
  function Inserted(kinds: seq<Kind>, p: nat, kind: Kind): seq<Kind>
    requires p <= |kinds|
  {
    kinds[..p] + [kind] + kinds[p..]
  }

  lemma {:induction false} FenceUnmoved(kinds: seq<Kind>, p: nat, kind: Kind, i: nat)
    requires p <= |kinds| && i <= |kinds| && !kind.FenceLine?
    ensures i <= p ==> Fenced(Inserted(kinds, p, kind), i) == Fenced(kinds, i)
    ensures i >= p ==> Fenced(Inserted(kinds, p, kind), i + 1) == Fenced(kinds, i)
    decreases i
  {
    var more := Inserted(kinds, p, kind);
    if i > 0 { FenceUnmoved(kinds, p, kind, i - 1); }
    if i == p { assert more[p] == kind; }
    if i > p { assert more[i] == kinds[i - 1]; }
    if 0 < i <= p { assert more[i - 1] == kinds[i - 1]; }
  }

  lemma {:induction false} TotalGrows(kinds: seq<Kind>, p: nat, kind: Kind, i: nat)
    requires p <= |kinds| && i <= |kinds| && !kind.FenceLine? && !Fenced(kinds, p)
    ensures i <= p ==> Total(Inserted(kinds, p, kind), i, kind) == Total(kinds, i, kind)
    ensures i >= p ==> Total(Inserted(kinds, p, kind), i + 1, kind) == Total(kinds, i, kind) + 1
    decreases i
  {
    var more := Inserted(kinds, p, kind);
    if i > 0 {
      TotalGrows(kinds, p, kind, i - 1);
      FenceUnmoved(kinds, p, kind, i - 1);
    }
    FenceUnmoved(kinds, p, kind, p);
    if i == p { assert more[p] == kind; }
    if i > p { assert more[i] == kinds[i - 1]; }
    if 0 < i <= p { assert more[i - 1] == kinds[i - 1]; }
  }

  // Of two documents with the same skeleton, adding one unfenced item or sub-heading to one, anywhere, is caught.
  lemma AddedLineIsCaught(a: seq<Kind>, b: seq<Kind>, p: nat, kind: Kind)
    requires SameSkeleton(a, b) && p <= |b| && !Fenced(b, p) && (kind == SubLine || kind == ItemLine)
    ensures !SameSkeleton(a, Inserted(b, p, kind))
  {
    SameSkeletonSameTotals(a, b, kind);
    TotalGrows(b, p, kind, |b|);
    if SameSkeleton(a, Inserted(b, p, kind)) { SameSkeletonSameTotals(a, Inserted(b, p, kind), kind); }
  }
}
