// The line tests of the two document scans, said character by character, and what they make of a changed document.
module DocLines {
  import opened DocSections
  import opened Trimming
  import Str

  // ---------- blank lines and fences ----------

  lemma BlankIff(line: string)
    ensures Blank(line) <==> Blanks(line)
  {
    if Blank(line) { var a, b := TrimParts(line); }
    if Blanks(line) {
      assert line + ("" + "") == line;
      TrimOf(line, "", "");
    }
  }

  // White space, three backticks, and anything.
  ghost predicate FenceText(line: string) { exists a, rest :: FenceAs(line, a, rest) }

  ghost predicate FenceAs(line: string, a: string, rest: string) { Blanks(a) && line == a + ("```" + rest) }

  lemma FenceIff(line: string)
    ensures Fence(line) <==> FenceText(line)
  {
    if Fence(line) {
      var a, b := TrimParts(line);
      var t := Str.TrimSpace(line);
      assert line == a + ("```" + (t[3..] + b));
      assert FenceAs(line, a, t[3..] + b);
    }
    if a, rest :| FenceAs(line, a, rest) {
      TrimStartOf(a, "```" + rest);
      TicksStay(rest);
    }
  }

  lemma TicksStay(rest: string)
    ensures Str.HasPrefix(Str.TrimEnd("```" + rest), "```")
  {
    var s := "```" + rest;
    var b := TrimEndPart(s);
    var t := Str.TrimEnd(s);
    assert |"```"| == 3 && s[0] == '`' && s[1] == '`' && s[2] == '`';
    TickAfter(s, t, b);
    assert t[..3] == "```";
  }

  lemma TickAfter(s: string, t: string, b: string)
    requires s == t + b && |s| >= 3 && s[0] == '`' && s[1] == '`' && s[2] == '`'
    ensures |t| < 3 ==> b != "" && b[0] == '`'
  {
    if |t| < 3 { assert s[|t|] == b[0]; }
  }

  // A line is fenced off when an odd number of fence lines stands before it.
  lemma {:induction false} InFenceIff(t: Tests, ls: seq<string>, i: nat)
    requires i <= |ls|
    ensures InFence(t, ls, i) <==> |FencesBefore(t, ls, i)| % 2 == 1
  {
    if i > 0 {
      InFenceIff(t, ls, i - 1);
      FencesStep(t, ls, i - 1);
    }
  }

  ghost function FencesBefore(t: Tests, ls: seq<string>, i: nat): set<int>
    requires i <= |ls|
  {
    set j | 0 <= j < i && t.fence(ls[j])
  }

  lemma FencesStep(t: Tests, ls: seq<string>, i: nat)
    requires i < |ls|
    ensures |FencesBefore(t, ls, i + 1)| == |FencesBefore(t, ls, i)| + if t.fence(ls[i]) then 1 else 0
  {
    assert FencesBefore(t, ls, i + 1) == FencesBefore(t, ls, i) + if t.fence(ls[i]) then {i} else {};
  }

  // ---------- the kinds of the skeleton ----------

  // Sections and sub-headings are the headings of level two and three; an item starts with a hyphen and a space, and a
  // fence with three backticks, all at the very start of the line.
  lemma KindIff(line: string)
    ensures KindOf(line) == FenceLine <==> |line| >= 3 && line[0] == '`' && line[1] == '`' && line[2] == '`'
    ensures KindOf(line) == SectionLine <==> Level(line) == 2
    ensures KindOf(line) == SubLine <==> Level(line) == 3
    ensures KindOf(line) == ItemLine <==> |line| >= 2 && line[0] == '-' && line[1] == ' '
  {
    LevelMeans(line, 2);
    LevelMeans(line, 3);
    StartsWithTicks(line);
    StartsWithMarks(line);
    StartsWithHyphen(line);
  }

  lemma StartsWithTicks(line: string)
    ensures Str.HasPrefix(line, "```") <==> |line| >= 3 && line[0] == '`' && line[1] == '`' && line[2] == '`'
  {}

  lemma StartsWithMarks(line: string)
    ensures Str.HasPrefix(line, "## ") <==> |line| >= 3 && line[0] == '#' && line[1] == '#' && line[2] == ' '
    ensures Str.HasPrefix(line, "### ")
            <==> |line| >= 4 && line[0] == '#' && line[1] == '#' && line[2] == '#' && line[3] == ' '
  {}

  lemma StartsWithHyphen(line: string)
    ensures Str.HasPrefix(line, "- ") <==> |line| >= 2 && line[0] == '-' && line[1] == ' '
  {}

  ghost function FenceLines(kinds: seq<Kind>, i: nat): set<int>
    requires i <= |kinds|
  {
    set j | 0 <= j < i && kinds[j] == FenceLine
  }

  lemma {:induction false} FencedIff(kinds: seq<Kind>, i: nat)
    requires i <= |kinds|
    ensures Fenced(kinds, i) <==> |FenceLines(kinds, i)| % 2 == 1
  {
    if i > 0 {
      FencedIff(kinds, i - 1);
      FenceLinesStep(kinds, i - 1);
    }
  }

  lemma FenceLinesStep(kinds: seq<Kind>, i: nat)
    requires i < |kinds|
    ensures |FenceLines(kinds, i + 1)| == |FenceLines(kinds, i)| + if kinds[i] == FenceLine then 1 else 0
  {
    assert FenceLines(kinds, i + 1) == FenceLines(kinds, i) + if kinds[i] == FenceLine then {i} else {};
  }

  // The unfenced lines of a kind among the first n.
  ghost function Counted(kinds: seq<Kind>, n: nat, kind: Kind): set<int>
    requires n <= |kinds|
  {
    set j: nat | 0 <= j < n && Counts(kinds, j, kind)
  }

  // A line belongs to the section whose number is that of the section headings before it.
  lemma {:induction false} SectionOfIs(kinds: seq<Kind>, n: nat)
    requires n <= |kinds|
    ensures SectionOf(kinds, n) == |Counted(kinds, n, SectionLine)|
  {
    if n > 0 {
      SectionOfIs(kinds, n - 1);
      CountedStep(kinds, n - 1, SectionLine);
    }
  }

  lemma CountedStep(kinds: seq<Kind>, n: nat, kind: Kind)
    requires n < |kinds|
    ensures |Counted(kinds, n + 1, kind)| == |Counted(kinds, n, kind)| + if Counts(kinds, n, kind) then 1 else 0
  {
    assert Counted(kinds, n + 1, kind) == Counted(kinds, n, kind) + if Counts(kinds, n, kind) then {n as int} else {};
  }

  ghost predicate InSection(kinds: seq<Kind>, j: nat, k: nat, kind: Kind) {
    Counts(kinds, j, kind) && SectionOf(kinds, j) == k
  }

  ghost function CountedOf(kinds: seq<Kind>, n: nat, k: nat, kind: Kind): set<int>
    requires n <= |kinds|
  {
    set j: nat | 0 <= j < n && InSection(kinds, j, k, kind)
  }

  // What the skeleton counts: the unfenced lines of that kind in the section.
  lemma {:induction false} CountInIs(kinds: seq<Kind>, n: nat, k: nat, kind: Kind)
    requires n <= |kinds|
    ensures CountIn(kinds, n, k, kind) == |CountedOf(kinds, n, k, kind)|
  {
    if n > 0 {
      CountInIs(kinds, n - 1, k, kind);
      CountedOfStep(kinds, n - 1, k, kind);
    }
  }

  lemma {:induction false} CountedOfStep(kinds: seq<Kind>, n: nat, k: nat, kind: Kind)
    requires n < |kinds|
    ensures |CountedOf(kinds, n + 1, k, kind)|
         == |CountedOf(kinds, n, k, kind)| + if InSection(kinds, n, k, kind) then 1 else 0
  {
    assert CountedOf(kinds, n + 1, k, kind)
        == CountedOf(kinds, n, k, kind) + if InSection(kinds, n, k, kind) then {n as int} else {};
  }

  // ---------- one side gains a line ----------

  // Of a document and its translation with the same skeleton, a line put into one of them is caught when it stands
  // outside fences and starts with three marks and a space or with a hyphen and a space.
  lemma AddedTextIsCaught(en: seq<string>, ko: seq<string>, p: nat, line: string)
    requires SameSkeleton(KindsOf(en), KindsOf(ko)) && p <= |ko|
    requires |FenceLines(KindsOf(ko), p)| % 2 == 0
    requires Level(line) == 3 || (|line| >= 2 && line[0] == '-' && line[1] == ' ')
    ensures !SameSkeleton(KindsOf(en), KindsOf(ko[..p] + [line] + ko[p..]))
  {
    KindIff(line);
    var kinds := KindsOf(ko);
    FencedIff(kinds, p);
    AddedLineIsCaught(KindsOf(en), kinds, p, KindOf(line));
    assert KindsOf(ko[..p] + [line] + ko[p..]) == Inserted(kinds, p, KindOf(line));
  }
}
