// checkprose's masks: what the prose gate covers before it measures. Every mask overwrites bytes and moves none.
module ProseMask {
  import opened Text
  import opened Utf8
  import opened Lines

  const TICK: byte := 96
  const TILDE: byte := 126
  const HASH: byte := 35
  const FILL: byte := 120

  // blank and fill: as many spaces, or filler letters, as there were bytes.
  function Blank(s: bytes): bytes { seq(|s|, i => SPACE) }

  function Fill(s: bytes): bytes { seq(|s|, i => FILL) }

  // ---------- Markdown ----------

  // \s of the fence pattern, on a line (so without the newline itself).
  predicate BlankByte(b: byte) { b == 9 || b == 10 || b == 12 || b == 13 || b == 32 }

  function SkipBlanks(l: bytes): bytes {
    if l != [] && BlankByte(l[0]) then SkipBlanks(l[1..]) else l
  }

  // The fence pattern on one line: blanks, then three backticks or three tildes.
  predicate FenceLine(l: bytes) {
    var t := SkipBlanks(l);
    |t| >= 3 && (t[..3] == [TICK, TICK, TICK] || t[..3] == [TILDE, TILDE, TILDE])
  }

  function CountFences(ls: seq<bytes>): nat {
    if ls == [] then 0 else CountFences(ls[..|ls| - 1]) + if FenceLine(ls[|ls| - 1]) then 1 else 0
  }

  function FirstTick(l: bytes): (i: int)
    ensures -1 <= i < |l|
    ensures i >= 0 ==> l[i] == TICK && TICK !in l[..i]
    ensures i < 0 ==> TICK !in l
  {
    if l == [] then -1 else if l[0] == TICK then 0
    else var i := FirstTick(l[1..]); if i < 0 then -1 else i + 1
  }

  // The inline-code pattern replaced by filler, leftmost match first, as the regexp library scans a line.
  function FillSpans(l: bytes): bytes {
    if l == [] then []
    else if l[0] != TICK then [l[0]] + FillSpans(l[1..])
    else
      var j := FirstTick(l[1..]);
      if j < 0 then l else Fill(l[..j + 2]) + FillSpans(l[j + 2..])
  }

  // Byte c lies in a paired backtick span: an odd number of backticks precede it and another follows, or it is a
  // backtick that has a partner.
  ghost predicate Paired(l: bytes, c: nat)
    requires c < |l|
  {
    var before, total := Count(l[..c], TICK), Count(l, TICK);
    if l[c] == TICK then before % 2 == 1 || before + 1 < total else before % 2 == 1 && before < total
  }

  // Line k is blanked: it is a fence line, or an odd number of fence lines precede it.
  ghost predicate Fenced(ls: seq<bytes>, k: nat)
    requires k < |ls|
  { FenceLine(ls[k]) || CountFences(ls[..k]) % 2 == 1 }

  // What byte c of line k must become.
  ghost function MarkdownByte(ls: seq<bytes>, k: nat, c: nat): byte
    requires k < |ls| && c < |ls[k]|
  {
    if Fenced(ls, k) then SPACE else if Paired(ls[k], c) then FILL else ls[k][c]
  }

  ghost function MarkdownLine(ls: seq<bytes>, k: nat): bytes
    requires k < |ls|
  { if Fenced(ls, k) then Blank(ls[k]) else FillSpans(ls[k]) }

  ghost function MarkdownLines(ls: seq<bytes>): (ms: seq<bytes>)
    ensures |ms| == |ls|
  { seq(|ls|, k requires 0 <= k < |ls| => MarkdownLine(ls, k)) }

  ghost function MarkdownMasked(b: bytes): bytes { Join(MarkdownLines(LinesOf(b)), NL) }

  method MaskMarkdown(b: bytes) returns (r: bytes)
    ensures r == MarkdownMasked(b)
  {
    var lines := LinesOf(b);
    ghost var ls := lines;
    var inFence := false;
    for i := 0 to |lines|
      invariant |lines| == |ls|
      invariant inFence <==> CountFences(ls[..i]) % 2 == 1
      invariant forall k :: 0 <= k < i ==> lines[k] == MarkdownLine(ls, k)
      invariant forall k :: i <= k < |ls| ==> lines[k] == ls[k]
    {
      var l := lines[i];
      assert ls[..i + 1][..i] == ls[..i];
      if FenceLine(l) {
        inFence := !inFence;
        lines := lines[i := Blank(l)];
      } else if inFence {
        lines := lines[i := Blank(l)];
      } else {
        lines := lines[i := FillSpans(l)];
      }
    }
    assert lines == MarkdownLines(ls);
    r := Join(lines, NL);
  }

  ghost predicate FilledRight(l: bytes) {
    |FillSpans(l)| == |l| && forall c :: 0 <= c < |l| ==> FillSpans(l)[c] == if Paired(l, c) then FILL else l[c]
  }

  lemma {:induction false} FillSpansAt(l: bytes)
    ensures FilledRight(l)
  {
    if l == [] {
    } else if l[0] != TICK {
      FillSpansAt(l[1..]);
      FilledPlain(l);
    } else {
      var j := FirstTick(l[1..]);
      if j < 0 {
        LoneTick(l);
      } else {
        FillSpansAt(l[j + 2..]);
        FilledSpan(l, j);
      }
    }
  }

  lemma FilledPlain(l: bytes)
    requires l != [] && l[0] != TICK && FilledRight(l[1..])
    ensures FilledRight(l)
  {
    PlainFirst(l);
    forall c | 0 <= c < |l| ensures FillSpans(l)[c] == if Paired(l, c) then FILL else l[c] {
      if c > 0 { assert FillSpans(l)[c] == FillSpans(l[1..])[c - 1]; }
    }
  }

  lemma FilledSpan(l: bytes, j: nat)
    requires l != [] && l[0] == TICK && FirstTick(l[1..]) == j && FilledRight(l[j + 2..])
    ensures FilledRight(l)
  {
    SpanCounts(l, j);
    var span := Fill(l[..j + 2]);
    assert FillSpans(l) == span + FillSpans(l[j + 2..]);
    forall c | j + 2 <= c < |l| ensures FillSpans(l)[c] == if Paired(l, c) then FILL else l[c] {
      assert FillSpans(l)[c] == FillSpans(l[j + 2..])[c - j - 2];
    }
  }

  // A leading byte that is no backtick shifts nothing.
  lemma PlainFirst(l: bytes)
    requires l != [] && l[0] != TICK
    ensures !Paired(l, 0) && forall c :: 0 < c < |l| ==> (Paired(l, c) <==> Paired(l[1..], c - 1))
  {
    forall c | 0 < c < |l| ensures Count(l[..c], TICK) == Count(l[1..][..c - 1], TICK) {
      assert l[..c][1..] == l[1..][..c - 1];
    }
  }

  // A leading backtick that no other follows pairs nothing.
  lemma LoneTick(l: bytes)
    requires l != [] && l[0] == TICK && TICK !in l[1..]
    ensures forall c :: 0 <= c < |l| ==> !Paired(l, c)
  {
    CountZero(l[1..], TICK);
    forall c | 0 <= c < |l| ensures !Paired(l, c) {
      if c > 0 {
        assert l[..c][1..] == l[1..][..c - 1];
        CountZero(l[1..][..c - 1], TICK);
      }
    }
  }

  // A leading span of j bytes between two backticks shifts every later backtick count by two.
  lemma SpanCounts(l: bytes, j: nat)
    requires j + 2 <= |l| && l[0] == TICK && l[j + 1] == TICK && TICK !in l[1..][..j]
    ensures forall c :: 0 <= c < j + 2 ==> Paired(l, c)
    ensures forall c :: j + 2 <= c < |l| ==> (Paired(l, c) <==> Paired(l[j + 2..], c - j - 2))
  {
    var mid, rest := l[1..][..j], l[j + 2..];
    var span := [TICK] + mid + [TICK];
    assert l == span + rest;
    CountZero(mid, TICK);
    CountAppend([TICK] + mid, [TICK], TICK);
    assert Count(span, TICK) == 2;
    CountAppend(span, rest, TICK);
    forall c | 0 <= c < j + 2 ensures Paired(l, c) {
      if c > 0 {
        assert l[..c] == [TICK] + mid[..c - 1];
        CountZero(mid[..c - 1], TICK);
        assert c <= j ==> l[c] == mid[c - 1] && mid[c - 1] in mid;
      }
    }
    forall c | j + 2 <= c < |l| ensures Paired(l, c) <==> Paired(rest, c - j - 2) {
      assert l[..c] == span + rest[..c - j - 2];
      CountAppend(span, rest[..c - j - 2], TICK);
    }
  }

  lemma MarkdownLinesNewlineFree(ls: seq<bytes>)
    requires NewlineFree(ls)
    ensures NewlineFree(MarkdownLines(ls)) && SameShape(ls, MarkdownLines(ls))
  {
    forall k | 0 <= k < |ls| ensures |MarkdownLine(ls, k)| == |ls[k]| && NL !in MarkdownLine(ls, k) {
      FillSpansAt(ls[k]);
      assert ls[k] in ls;
    }
  }

  // The mask equals its declarative specification, byte by byte, and moves neither bytes nor newlines.
  lemma MarkdownMaskIsPointwise(b: bytes)
    ensures SameNewlines(b, MarkdownMasked(b))
    ensures SameShape(LinesOf(b), LinesOf(MarkdownMasked(b)))
    ensures forall k, c :: 0 <= k < |LinesOf(b)| && 0 <= c < |LinesOf(b)[k]|
              ==> LinesOf(MarkdownMasked(b))[k][c] == MarkdownByte(LinesOf(b), k, c)
  {
    var ls := LinesOf(b);
    LinesAreNewlineFree(b);
    MarkdownLinesNewlineFree(ls);
    SplitOfJoin(MarkdownLines(ls), NL);
    JoinSameShape(ls, MarkdownLines(ls));
    forall k, c | 0 <= k < |ls| && 0 <= c < |ls[k]| ensures MarkdownLine(ls, k)[c] == MarkdownByte(ls, k, c) {
      FillSpansAt(ls[k]);
    }
  }

  lemma {:induction false} FillSpansTicks(l: bytes)
    ensures Count(FillSpans(l), TICK) <= 1
  {
    if l == [] {
    } else if l[0] != TICK {
      FillSpansTicks(l[1..]);
    } else {
      var j := FirstTick(l[1..]);
      if j < 0 {
        CountZero(l[1..], TICK);
      } else {
        FillSpansTicks(l[j + 2..]);
        CountAppend(Fill(l[..j + 2]), FillSpans(l[j + 2..]), TICK);
        CountZero(Fill(l[..j + 2]), TICK);
      }
    }
  }

  // With at most one backtick there is nothing to fill.
  lemma {:induction false} FillSpansFixed(l: bytes)
    requires Count(l, TICK) <= 1
    ensures FillSpans(l) == l
  {
    if l == [] {
    } else if l[0] != TICK {
      FillSpansFixed(l[1..]);
    } else {
      CountZero(l[1..], TICK);
    }
  }

  lemma {:induction false} FillSpansFence(l: bytes)
    ensures FenceLine(FillSpans(l)) ==> FenceLine(l)
  {
    var m := FillSpans(l);
    FillSpansAt(l);
    if l != [] && BlankByte(l[0]) {
      FillSpansFence(l[1..]);
      assert m[1..] == FillSpans(l[1..]);
    } else if FenceLine(m) {
      assert SkipBlanks(m) == m by {
        assert m != [] ==> m[0] == l[0] || m[0] == FILL;
      }
      if m[..3] == [TICK, TICK, TICK] {
        ThreeTicks(m);
        FillSpansTicks(l);
        assert false;
      } else {
        assert m[0] == m[..3][0] && m[1] == m[..3][1] && m[2] == m[..3][2];
        assert l[..3] == [l[0], l[1], l[2]];
      }
    }
  }

  lemma ThreeTicks(m: bytes)
    requires |m| >= 3 && m[..3] == [TICK, TICK, TICK]
    ensures Count(m, TICK) >= 3
  {
    assert m == m[..3] + m[3..];
    CountAppend(m[..3], m[3..], TICK);
    assert m[..3][1..] == [TICK, TICK];
  }

  lemma {:induction false} BlankIsNoFence(l: bytes)
    ensures !FenceLine(Blank(l)) && FillSpans(Blank(l)) == Blank(l)
  {
    if l == [] {
    } else {
      BlankIsNoFence(l[1..]);
      assert Blank(l)[1..] == Blank(l[1..]);
    }
  }

  lemma {:induction false} NoFenceCount(ls: seq<bytes>)
    requires forall k :: 0 <= k < |ls| ==> !FenceLine(ls[k])
    ensures CountFences(ls) == 0
  {
    if ls == [] {
    } else {
      NoFenceCount(ls[..|ls| - 1]);
    }
  }

  // Masking a masked document changes nothing.
  lemma MarkdownMaskIdempotent(b: bytes)
    ensures MarkdownMasked(MarkdownMasked(b)) == MarkdownMasked(b)
  {
    var ls := LinesOf(b);
    var ms := MarkdownLines(ls);
    LinesAreNewlineFree(b);
    MarkdownLinesNewlineFree(ls);
    SplitOfJoin(ms, NL);
    forall k | 0 <= k < |ms| ensures !FenceLine(ms[k]) && FillSpans(ms[k]) == ms[k] {
      BlankIsNoFence(ls[k]);
      FillSpansFence(ls[k]);
      FillSpansTicks(ls[k]);
      FillSpansFixed(FillSpans(ls[k]));
    }
    forall k | 0 <= k < |ms| ensures MarkdownLine(ms, k) == ms[k] {
      NoFenceCount(ms[..k]);
    }
    assert MarkdownLines(ms) == ms;
  }

  // ---------- shell ----------

  predicate CommentLine(l: bytes) { [HASH] <= TrimSpace(l) }

  ghost function ShellLines(ls: seq<bytes>): (ms: seq<bytes>)
    ensures |ms| == |ls|
  { seq(|ls|, k requires 0 <= k < |ls| => if CommentLine(ls[k]) then Blank(ls[k]) else ls[k]) }

  method MaskShell(b: bytes) returns (r: bytes)
    ensures LinesOf(r) == ShellLines(LinesOf(b)) && SameNewlines(b, r)
  {
    var lines := LinesOf(b);
    ghost var ls := lines;
    for i := 0 to |lines|
      invariant |lines| == |ls|
      invariant forall k :: 0 <= k < i ==> lines[k] == ShellLines(ls)[k]
      invariant forall k :: i <= k < |ls| ==> lines[k] == ls[k]
    {
      if CommentLine(lines[i]) {
        lines := lines[i := Blank(lines[i])];
      }
    }
    assert lines == ShellLines(ls);
    LinesAreNewlineFree(b);
    forall k | 0 <= k < |ls| ensures NL !in ShellLines(ls)[k] {
      assert ls[k] in ls;
    }
    SplitOfJoin(lines, NL);
    JoinSameShape(ls, lines);
    r := Join(lines, NL);
  }

  // ---------- HTML and Go ----------

  type Span = (nat, nat)

  ghost predicate InSpans(spans: seq<Span>, i: int) {
    exists n :: 0 <= n < |spans| && spans[n].0 <= i < spans[n].1
  }

  ghost predicate SpansWithin(spans: seq<Span>, len: nat) {
    forall n :: 0 <= n < |spans| ==> spans[n].0 <= spans[n].1 <= len
  }

  // A pattern finder returns the spans of its matches.
  ghost predicate Finder(find: bytes -> seq<Span>) {
    forall s :: SpansWithin(find(s), |s|)
  }

  // fillKeepNewlines applied in place to a[from..to].
  method FillKeepNewlines(a: array<byte>, from: nat, to: nat)
    requires from <= to <= a.Length
    modifies a
    ensures forall i :: 0 <= i < a.Length
              ==> a[i] == if from <= i < to && old(a[i]) != NL then FILL else old(a[i])
  {
    for i := from to to
      invariant forall j :: 0 <= j < a.Length
                  ==> a[j] == if from <= j < i && old(a[j]) != NL then FILL else old(a[j])
    {
      if a[i] != NL {
        a[i] := FILL;
      }
    }
  }

  // ReplaceAllStringFunc(s, fillKeepNewlines) over the finder's matches.
  method FillMatches(s: bytes, spans: seq<Span>) returns (r: bytes)
    requires SpansWithin(spans, |s|)
    ensures |r| == |s|
    ensures forall i :: 0 <= i < |s| ==> r[i] == if InSpans(spans, i) && s[i] != NL then FILL else s[i]
  {
    var a := new byte[|s|](i requires 0 <= i < |s| => s[i]);
    for n := 0 to |spans|
      invariant forall i :: 0 <= i < |s| ==> a[i] == if InSpans(spans[..n], i) && s[i] != NL then FILL else s[i]
    {
      label before: FillKeepNewlines(a, spans[n].0, spans[n].1);
      forall i | 0 <= i < |s|
        ensures InSpans(spans[..n + 1], i) <==> InSpans(spans[..n], i) || spans[n].0 <= i < spans[n].1
      {
        InSpansStep(spans, n, i);
      }
    }
    assert spans[..|spans|] == spans;
    r := a[..];
  }

  lemma InSpansStep(spans: seq<Span>, n: nat, i: int)
    requires n < |spans|
    ensures InSpans(spans[..n + 1], i) <==> InSpans(spans[..n], i) || spans[n].0 <= i < spans[n].1
  {
    if InSpans(spans[..n], i) {
      var m :| 0 <= m < n && spans[..n][m].0 <= i < spans[..n][m].1;
      assert spans[..n + 1][m] == spans[..n][m];
    }
    if spans[n].0 <= i < spans[n].1 {
      assert spans[..n + 1][n] == spans[n];
    }
    if InSpans(spans[..n + 1], i) {
      var m :| 0 <= m < n + 1 && spans[..n + 1][m].0 <= i < spans[..n + 1][m].1;
      if m < n { assert spans[..n][m] == spans[..n + 1][m]; }
    }
  }

  // mid is b with its blocks filled, and r is b with its blocks and the comments of mid filled.
  ghost predicate HtmlMasked(b: bytes, blocks: seq<Span>, mid: bytes, comments: seq<Span>, r: bytes) {
    && |mid| == |b| == |r|
    && (forall i :: 0 <= i < |b| ==> mid[i] == if b[i] != NL && InSpans(blocks, i) then FILL else b[i])
    && (forall i :: 0 <= i < |b|
          ==> r[i] == if b[i] != NL && (InSpans(blocks, i) || InSpans(comments, i)) then FILL else b[i])
  }

  // Code blocks first, then the comments of what is left.
  method MaskHtml(b: bytes, blocks: bytes -> seq<Span>, comments: bytes -> seq<Span>) returns (r: bytes)
    requires Finder(blocks) && Finder(comments)
    ensures SameNewlines(b, r)
    ensures exists mid :: HtmlMasked(b, blocks(b), mid, comments(mid), r)
  {
    var mid := FillMatches(b, blocks(b));
    r := FillMatches(mid, comments(mid));
    assert HtmlMasked(b, blocks(b), mid, comments(mid), r);
  }

  // keepNewlines, then the bytes of each string literal that holds Hangul copied back from the original.
  method MaskGo(b: bytes, literals: seq<Span>) returns (r: bytes)
    requires SpansWithin(literals, |b|)
    ensures SameNewlines(b, r)
    ensures forall i :: 0 <= i < |b| ==> r[i] == if b[i] == NL || InHangulLiteral(b, literals, i) then b[i] else SPACE
  {
    var out := new byte[|b|](i requires 0 <= i < |b| => if b[i] != NL then SPACE else b[i]);
    for n := 0 to |literals|
      invariant forall i :: 0 <= i < |b|
                  ==> out[i] == if b[i] == NL || InHangulLiteral(b, literals[..n], i) then b[i] else SPACE
    {
      var (from, to) := literals[n];
      if HasHangul(b[from..to]) {
        forall i | from <= i < to {
          out[i] := b[i];
        }
      }
      forall i | 0 <= i < |b|
        ensures InHangulLiteral(b, literals[..n + 1], i)
                <==> InHangulLiteral(b, literals[..n], i) || (from <= i < to && HasHangul(b[from..to]))
      {
        HangulLiteralStep(b, literals, n, i);
      }
    }
    assert literals[..|literals|] == literals;
    r := out[..];
  }

  ghost predicate InHangulLiteral(b: bytes, literals: seq<Span>, i: int)
    requires SpansWithin(literals, |b|)
  {
    exists n :: 0 <= n < |literals| && literals[n].0 <= i < literals[n].1 && HasHangul(b[literals[n].0..literals[n].1])
  }

  lemma HangulLiteralStep(b: bytes, literals: seq<Span>, n: nat, i: int)
    requires SpansWithin(literals, |b|) && n < |literals|
    ensures InHangulLiteral(b, literals[..n + 1], i)
            <==> (InHangulLiteral(b, literals[..n], i)
                  || (literals[n].0 <= i < literals[n].1 && HasHangul(b[literals[n].0..literals[n].1])))
  {
    var now, was := literals[..n + 1], literals[..n];
    forall m | 0 <= m < n ensures now[m] == was[m] { }
    assert now[n] == literals[n];
  }
}
