// checkprose's baseline: counting hits, printing and reading the baseline file, comparing, and the gate's decision.
module ProseBaseline {
  import opened Text
  import opened Utf8
  import opened Lines
  import opened Numbers
  import opened ProseMatch

  const TAB: byte := 9
  const HASH: byte := 35
  const MAX_INT := 0x7FFF_FFFF_FFFF_FFFF

  datatype Key = Key(rule: bytes, file: bytes)

  // A grown or shrunk entry: what the baseline says and what was counted.
  datatype Change = Change(key: Key, base: int, now: int)

  function Get(m: map<Key, int>, k: Key): int { if k in m then m[k] else 0 }

  ghost predicate Agree(a: map<Key, int>, b: map<Key, int>) { forall k :: Get(a, k) == Get(b, k) }

  // ---------- tally ----------

  function CountHits(hits: seq<Hit>, k: Key): nat {
    if hits == [] then 0
    else CountHits(hits[..|hits| - 1], k) + if KeyOf(hits[|hits| - 1]) == k then 1 else 0
  }

  function KeyOf(h: Hit): Key { Key(h.rule, h.file) }

  // The map counts every key that has hits, exactly.
  ghost predicate Tallies(hits: seq<Hit>, counts: map<Key, int>) {
    && (forall k :: Get(counts, k) == CountHits(hits, k))
    && (forall k :: k in counts ==> counts[k] > 0)
  }

  method Tally(hits: seq<Hit>) returns (counts: map<Key, int>)
    ensures Tallies(hits, counts)
    ensures Total(counts) == |hits|
  {
    counts := map[];
    for i := 0 to |hits|
      invariant Tallies(hits[..i], counts) && Total(counts) == i
    {
      var k := KeyOf(hits[i]);
      assert hits[..i + 1][..i] == hits[..i];
      TotalSplit(counts, k);
      ghost var was := counts;
      counts := counts[k := Get(counts, k) + 1];
      TotalSplit(counts, k);
      assert counts - {k} == was - {k};
    }
    assert hits[..|hits|] == hits;
  }

  // ---------- totals ----------

  ghost function Total(m: map<Key, int>): int {
    if m == map[] then 0
    else
      var k :| k in m;
      assert |m - {k}| < |m| by { assert (m - {k}).Keys == m.Keys - {k}; }
      m[k] + Total(m - {k})
  }

  // The total does not depend on the order in which keys are taken out.
  lemma {:induction false} TotalSplit(m: map<Key, int>, k: Key)
    ensures Total(m) == Get(m, k) + Total(m - {k})
    decreases |m|
  {
    if k !in m {
      assert m - {k} == m;
    } else {
      var j :| j in m && Total(m) == m[j] + Total(m - {j});
      if j != k {
        assert (m - {j}).Keys == m.Keys - {j};
        TotalSplit(m - {j}, k);
        TotalSplit(m - {k}, j) by { assert (m - {k}).Keys == m.Keys - {k}; }
        assert m - {j} - {k} == m - {k} - {j};
      }
    }
  }

  function SumOver(m: map<Key, int>, ks: seq<Key>): int {
    if ks == [] then 0 else Get(m, ks[0]) + SumOver(m, ks[1..])
  }

  lemma {:induction false} SumOverAll(m: map<Key, int>, ks: seq<Key>)
    requires Distinct(ks) && forall k :: k in m ==> k in ks
    ensures SumOver(m, ks) == Total(m)
  {
    if ks == [] {
      assert m == map[];
    } else {
      var k := ks[0];
      TotalSplit(m, k);
      forall j | j in m - {k} ensures j in ks[1..] {
        assert j in ks && j != k;
      }
      SumOverAll(m - {k}, ks[1..]);
      SumOverWithout(m, k, ks[1..]);
    }
  }

  lemma {:induction false} SumOverWithout(m: map<Key, int>, k: Key, ks: seq<Key>)
    requires k !in ks
    ensures SumOver(m - {k}, ks) == SumOver(m, ks)
  {
    if ks == [] {
    } else {
      SumOverWithout(m, k, ks[1..]);
    }
  }

  // ---------- key order ----------

  ghost predicate Distinct<T>(ks: seq<T>) { forall i, j :: 0 <= i < j < |ks| ==> ks[i] != ks[j] }

  // Go's string order.
  predicate Less(a: bytes, b: bytes) {
    b != [] && (a == [] || a[0] < b[0] || (a[0] == b[0] && Less(a[1..], b[1..])))
  }

  // By file, then by rule.
  predicate Before(a: Key, b: Key) {
    Less(a.file, b.file) || (a.file == b.file && Less(a.rule, b.rule))
  }

  lemma {:induction false} LessTotal(a: bytes, b: bytes)
    ensures Less(a, b) || a == b || Less(b, a)
    ensures !(Less(a, b) && Less(b, a)) && !Less(a, a)
  {
    if a != [] && b != [] {
      LessTotal(a[1..], b[1..]);
      assert a == [a[0]] + a[1..] && b == [b[0]] + b[1..];
    }
    if a == [] {
    } else {
      LessTotal(a[1..], []); LessIrreflexive(a);
    }
  }

  lemma {:induction false} LessIrreflexive(a: bytes)
    ensures !Less(a, a)
  {
    if a == [] {
    } else {
      LessIrreflexive(a[1..]);
    }
  }

  lemma {:induction false} LessTransitive(a: bytes, b: bytes, c: bytes)
    requires Less(a, b) && Less(b, c)
    ensures Less(a, c)
  {
    if a != [] && a[0] == b[0] == c[0] {
      LessTransitive(a[1..], b[1..], c[1..]);
    }
  }

  lemma BeforeTotal(a: Key, b: Key)
    ensures Before(a, b) || a == b || Before(b, a)
    ensures !(Before(a, b) && Before(b, a)) && !Before(a, a)
  {
    LessTotal(a.file, b.file);
    LessTotal(a.rule, b.rule);
    LessIrreflexive(a.file);
    LessIrreflexive(a.rule);
  }

  lemma BeforeTransitive(a: Key, b: Key, c: Key)
    requires Before(a, b) && Before(b, c)
    ensures Before(a, c)
  {
    if Less(a.file, b.file) && Less(b.file, c.file) {
      LessTransitive(a.file, b.file, c.file);
    }
    if Less(a.rule, b.rule) && Less(b.rule, c.rule) {
      LessTransitive(a.rule, b.rule, c.rule);
    }
  }

  ghost predicate Sorted(ks: seq<Key>) { forall i, j :: 0 <= i < j < |ks| ==> Before(ks[i], ks[j]) }

  // The keys of a map in order: the map's iteration order does not matter once they are sorted.
  method SortedKeys(keys: set<Key>) returns (ks: seq<Key>)
    ensures Sorted(ks) && Distinct(ks) && (forall k :: k in ks <==> k in keys)
  {
    ks := [];
    var left := keys;
    while left != {}
      invariant left <= keys && Sorted(ks) && Distinct(ks)
      invariant forall k :: k in ks <==> k in keys && k !in left
      decreases |left|
    {
      var k :| k in left;
      ks := Insert(ks, k);
      left := left - {k};
    }
  }

  method Insert(ks: seq<Key>, k: Key) returns (r: seq<Key>)
    requires Sorted(ks) && k !in ks
    ensures Sorted(r) && Distinct(r) && forall j :: j in r <==> j == k || j in ks
  {
    var i := 0;
    while i < |ks| && Before(ks[i], k)
      invariant 0 <= i <= |ks|
      invariant forall j :: 0 <= j < i ==> Before(ks[j], k)
    {
      i := i + 1;
    }
    r := ks[..i] + [k] + ks[i..];
    forall j | i <= j < |ks| ensures Before(k, ks[j]) {
      BeforeTotal(k, ks[i]);
      if j > i {
        BeforeTransitive(k, ks[i], ks[j]);
      }
    }
    forall a, b | 0 <= a < b < |r| ensures Before(r[a], r[b]) && r[a] != r[b] {
      BeforeTotal(r[a], r[b]);
    }
    forall j ensures j in r <==> j == k || j in ks {
      assert ks == ks[..i] + ks[i..];
    }
  }

  // ---------- the file ----------

  // %d and strconv.Atoi on bytes; Atoi refuses what does not fit in 64 bits.
  function Decimal(n: int): bytes {
    if n < 0 then [45] + Figures(Digits(-n)) else Figures(Digits(n))
  }

  function FigureOf(d: digit): byte { 48 + d }

  function Figures(ds: seq<digit>): bytes { seq(|ds|, i requires 0 <= i < |ds| => FigureOf(ds[i])) }

  function Unsigned(b: bytes): Option<int> {
    if b == [] || exists i :: 0 <= i < |b| && !(48 <= b[i] <= 57) then None
    else Some(ValueOf(seq(|b|, i requires 0 <= i < |b| => b[i] - 48)))
  }

  function Atoi(b: bytes): Option<int> {
    var v := if b != [] && b[0] == 45 then Negated(Unsigned(b[1..]))
             else if b != [] && b[0] == 43 then Unsigned(b[1..]) else Unsigned(b);
    if v.Some? && -MAX_INT - 1 <= v.value <= MAX_INT then v else None
  }

  function EntryLine(k: Key, n: int): bytes { Decimal(n) + [TAB] + k.rule + [TAB] + k.file }

  function Entries(counts: map<Key, int>, ks: seq<Key>): bytes {
    if ks == [] then []
    else
      var k := ks[|ks| - 1];
      Entries(counts, ks[..|ks| - 1]) + EntryLine(k, Get(counts, k)) + [NL]
  }

  // head1 and head2 are the two comment lines; the second quotes the directory, so it holds no newline.
  function BaselineText(head1: bytes, head2: bytes, counts: map<Key, int>, ks: seq<Key>): bytes {
    head1 + [NL] + head2 + [NL] + Entries(counts, ks)
  }

  ghost predicate Comment(l: bytes) { l != [] && l[0] == HASH && NL !in l }

  method WriteBaseline(head1: bytes, head2: bytes, counts: map<Key, int>) returns (text: bytes, ghost ks: seq<Key>)
    ensures Sorted(ks) && Distinct(ks) && forall k :: k in ks <==> k in counts
    ensures text == BaselineText(head1, head2, counts, ks)
  {
    var sorted := SortedKeys(counts.Keys);
    text := WriteEntries(head1 + [NL] + head2 + [NL], counts, sorted);
    ks := sorted;
  }

  method WriteEntries(before: bytes, counts: map<Key, int>, ks: seq<Key>) returns (text: bytes)
    ensures text == before + Entries(counts, ks)
  {
    text := before;
    for i := 0 to |ks|
      invariant text == before + Entries(counts, ks[..i])
    {
      EntriesGrow(before, counts, ks, i);
      text := text + (EntryLine(ks[i], Get(counts, ks[i])) + [NL]);
    }
    assert ks[..|ks|] == ks;
  }

  lemma EntriesGrow(before: bytes, counts: map<Key, int>, ks: seq<Key>, i: nat)
    requires i < |ks|
    ensures before + Entries(counts, ks[..i + 1])
         == before + Entries(counts, ks[..i]) + (EntryLine(ks[i], Get(counts, ks[i])) + [NL])
  {
    var line := EntryLine(ks[i], Get(counts, ks[i]));
    assert ks[..i + 1][..i] == ks[..i];
    Associate(Entries(counts, ks[..i]), line, [NL]);
    Associate(before, Entries(counts, ks[..i]), line + [NL]);
  }

  datatype Parsed = Passed | Entry(key: Key, count: int) | Malformed

  function ParseLine(line: bytes): Parsed {
    var t := TrimSpace(line);
    if t == [] || t[0] == HASH then Passed
    else
      var f := Split(line, TAB);
      if |f| != 3 then Malformed
      else match Atoi(f[0]) case None => Malformed case Some(n) => Entry(Key(f[1], f[2]), n)
  }

  function ParseLines(ls: seq<bytes>): Option<map<Key, int>> {
    if ls == [] then Some(map[])
    else
      match ParseLines(ls[..|ls| - 1])
      case None => None
      case Some(m) =>
        match ParseLine(ls[|ls| - 1])
        case Passed => Some(m)
        case Entry(k, n) => Some(m[k := n])
        case Malformed => None
  }

  lemma ParseNext(ls: seq<bytes>, i: nat)
    requires i < |ls| && ParseLines(ls[..i]).Some?
    ensures var m := ParseLines(ls[..i]).value;
            ParseLines(ls[..i + 1]) == match ParseLine(ls[i])
              case Passed => Some(m)
              case Entry(k, n) => Some(m[k := n])
              case Malformed => None
  {
    assert ls[..i + 1][..i] == ls[..i];
  }

  method ReadBaseline(text: bytes) returns (out: Option<map<Key, int>>)
    ensures out == ParseLines(LinesOf(text))
  {
    var lines := LinesOf(text);
    var m: map<Key, int> := map[];
    for i := 0 to |lines|
      invariant ParseLines(lines[..i]) == Some(m)
    {
      ParseNext(lines, i);
      var p := ParseLine(lines[i]);
      if p.Malformed? {
        MalformedStops(lines, i + 1);
        return None;
      }
      if p.Entry? {
        m := m[p.key := p.count];
      }
    }
    assert lines[..|lines|] == lines;
    return Some(m);
  }

  lemma {:induction false} MalformedStops(ls: seq<bytes>, n: nat)
    requires n <= |ls| && ParseLines(ls[..n]).None?
    ensures ParseLines(ls).None?
    decreases |ls|
  {
    if n >= |ls| {
      assert ls[..n] == ls;
    } else {
      assert ls[..|ls| - 1][..n] == ls[..n];
      MalformedStops(ls[..|ls| - 1], n);
    }
  }

  // ---------- round trip ----------

  lemma FiguresRoundTrip(n: nat)
    ensures Unsigned(Figures(Digits(n))) == Some(n)
    ensures forall i :: 0 <= i < |Figures(Digits(n))| ==> 48 <= Figures(Digits(n))[i] <= 57
  {
    var ds := Digits(n);
    var b := Figures(ds);
    assert seq(|b|, i requires 0 <= i < |b| => b[i] - 48) == ds;
    ValueOfDigits(n);
  }

  lemma DecimalRoundTrip(n: int)
    requires -MAX_INT - 1 <= n <= MAX_INT
    ensures Decimal(n) != [] && Atoi(Decimal(n)) == Some(n)
    ensures 45 <= Decimal(n)[0] <= 57 && TAB !in Decimal(n) && NL !in Decimal(n)
  {
    if n < 0 {
      FiguresRoundTrip(-n);
      SignedReads(Figures(Digits(-n)), -n);
    } else {
      FiguresRoundTrip(n);
      PlainReads(Figures(Digits(n)), n);
    }
  }

  lemma SignedReads(f: bytes, v: int)
    requires Unsigned(f) == Some(v) && 0 <= v <= MAX_INT + 1
    ensures Atoi([45] + f) == Some(-v)
  {
    assert ([45] + f)[1..] == f;
  }

  lemma PlainReads(f: bytes, v: int)
    requires Unsigned(f) == Some(v) && 0 <= v <= MAX_INT
    ensures f != [] && 48 <= f[0] <= 57 && Atoi(f) == Some(v)
  {}

  // Trimming keeps a first byte that is no white space.
  lemma {:induction false} TrimRightKeepsHead(l: bytes)
    requires l != [] && l[0] < 0x80 && !SpaceRune(l[0])
    ensures TrimRight(l) != [] && TrimRight(l)[0] == l[0]
  {
    var n := if SpaceEnd(l, 1) then 1 else if SpaceEnd(l, 2) then 2 else if SpaceEnd(l, 3) then 3 else 0;
    assert l[0..] == l;
    if n == 0 {
    } else {
      TrimRightKeepsHead(l[..|l| - n]);
    }
  }

  lemma TrimKeepsHead(l: bytes)
    requires l != [] && l[0] < 0x80 && !SpaceRune(l[0])
    ensures TrimSpace(l) != [] && TrimSpace(l)[0] == l[0]
  {
    TrimRightKeepsHead(l);
  }

  lemma EntryRoundTrip(k: Key, n: int)
    requires -MAX_INT - 1 <= n <= MAX_INT
    requires TAB !in k.rule && TAB !in k.file && NL !in k.rule && NL !in k.file
    ensures ParseLine(EntryLine(k, n)) == Entry(k, n) && NL !in EntryLine(k, n)
  {
    DecimalRoundTrip(n);
    TrimKeepsHead(EntryLine(k, n));
    SplitOfThree(Decimal(n), k.rule, k.file, TAB);
  }

  // Names that survive the file's separators, and counts that fit in Go's int.
  ghost predicate Printable(counts: map<Key, int>) {
    forall k :: k in counts ==> TAB !in k.rule && TAB !in k.file && NL !in k.rule && NL !in k.file
                                && -MAX_INT - 1 <= counts[k] <= MAX_INT
  }

  ghost function EntryLines(counts: map<Key, int>, ks: seq<Key>): seq<bytes> {
    seq(|ks|, i requires 0 <= i < |ks| => EntryLine(ks[i], Get(counts, ks[i])))
  }

  lemma EntryLinesStep(counts: map<Key, int>, ks: seq<Key>)
    requires ks != []
    ensures var n := |ks| - 1;
            EntryLines(counts, ks) == EntryLines(counts, ks[..n]) + [EntryLine(ks[n], Get(counts, ks[n]))]
  {
  }

  lemma {:induction false} LinesOfEntries(before: seq<bytes>, head: bytes, counts: map<Key, int>, ks: seq<Key>)
    requires Printable(counts) && forall i :: 0 <= i < |ks| ==> ks[i] in counts
    requires LinesOf(head) == before + [[]]
    ensures LinesOf(head + Entries(counts, ks)) == before + EntryLines(counts, ks) + [[]]
  {
    if ks == [] {
      assert head + [] == head && before + [] == before;
    } else {
      var n := |ks| - 1;
      LinesOfEntries(before, head, counts, ks[..n]);
      EntryRoundTrip(ks[n], counts[ks[n]]);
      EntryLinesStep(counts, ks);
      AppendOne(before, EntryLines(counts, ks[..n]), head, Entries(counts, ks[..n]), EntryLine(ks[n], counts[ks[n]]));
    }
  }

  lemma AppendOne(before: seq<bytes>, done: seq<bytes>, head: bytes, s: bytes, line: bytes)
    requires LinesOf(head + s) == before + done + [[]] && NL !in line
    ensures LinesOf(head + (s + line + [NL])) == before + (done + [line]) + [[]]
  {
    AppendLine(before + done, head + s, line);
    assert head + (s + line + [NL]) == head + s + line + [NL];
    assert before + (done + [line]) == before + done + [line];
  }

  // Appending a line to a text that ends in a newline.
  lemma AppendLine(done: seq<bytes>, s: bytes, line: bytes)
    requires LinesOf(s) == done + [[]] && NL !in line
    ensures LinesOf(s + line + [NL]) == done + [line] + [[]]
  {
    JoinOfSplit(s, NL);
    assert s == Join(done + [[]], NL);
    var all := done + [line, []];
    forall l | l in all ensures NL !in l {
      if l in done { assert l in done + [[]]; }
    }
    JoinLast(done, line, NL);
    SplitOfJoin(all, NL);
    assert all == done + [line] + [[]];
  }

  lemma ParseSnoc(ls: seq<bytes>, l: bytes, m: map<Key, int>)
    requires ParseLines(ls) == Some(m) && !ParseLine(l).Malformed?
    ensures ParseLines(ls + [l]) == Some(if ParseLine(l).Passed? then m else m[ParseLine(l).key := ParseLine(l).count])
  {
    assert (ls + [l])[..|ls|] == ls;
  }

  ghost function Listed(counts: map<Key, int>, ks: seq<Key>): map<Key, int> { map k | k in ks :: Get(counts, k) }

  lemma ListedStep(counts: map<Key, int>, ks: seq<Key>)
    requires ks != []
    ensures var n := |ks| - 1; Listed(counts, ks) == Listed(counts, ks[..n])[ks[n] := Get(counts, ks[n])]
  {
    assert forall k :: k in ks <==> k in ks[..|ks| - 1] || k == ks[|ks| - 1];
  }

  lemma ParseStep(before: seq<bytes>, done: seq<bytes>, l: bytes, m: map<Key, int>, k: Key, n: int)
    requires ParseLines(before + done) == Some(m) && ParseLine(l) == Entry(k, n)
    ensures ParseLines(before + (done + [l])) == Some(m[k := n])
  {
    ParseSnoc(before + done, l, m);
    assert before + (done + [l]) == before + done + [l];
  }

  lemma {:induction false} ParseOfEntries(before: seq<bytes>, counts: map<Key, int>, ks: seq<Key>)
    requires Printable(counts) && forall i :: 0 <= i < |ks| ==> ks[i] in counts
    requires ParseLines(before) == Some(map[])
    ensures ParseLines(before + EntryLines(counts, ks)) == Some(Listed(counts, ks))
  {
    if ks == [] {
      assert before + EntryLines(counts, ks) == before;
    } else {
      var n := |ks| - 1;
      var k, c := ks[n], counts[ks[n]];
      ParseOfEntries(before, counts, ks[..n]);
      EntryLinesStep(counts, ks);
      ListedStep(counts, ks);
      EntryRoundTrip(k, c);
      ParseStep(before, EntryLines(counts, ks[..n]), EntryLine(k, c), Listed(counts, ks[..n]), k, c);
    }
  }

  lemma LinesOfHeaders(head1: bytes, head2: bytes)
    requires NL !in head1 && NL !in head2
    ensures LinesOf(head1 + [NL] + head2 + [NL]) == [head1, head2] + [[]]
  {
    SplitOfThree(head1, head2, [], NL);
    assert head1 + [NL] + head2 + [NL] + [] == head1 + [NL] + head2 + [NL];
  }

  lemma HeadersPass(head1: bytes, head2: bytes)
    requires Comment(head1) && Comment(head2)
    ensures ParseLines([head1, head2]) == Some(map[])
  {
    TrimKeepsHead(head1);
    TrimKeepsHead(head2);
    assert [head1, head2][..1] == [head1];
    assert ParseLines([head1][..0]) == Some(map[]);
  }

  // What is printed is read back, whatever the order of the keys and whatever the comment lines say.
  lemma BaselineRoundTrip(head1: bytes, head2: bytes, counts: map<Key, int>, ks: seq<Key>)
    requires Comment(head1) && Comment(head2) && Printable(counts)
    requires forall k :: k in ks <==> k in counts
    ensures ParseLines(LinesOf(BaselineText(head1, head2, counts, ks))) == Some(counts)
  {
    var head := head1 + [NL] + head2 + [NL];
    var heads := [head1, head2];
    LinesOfHeaders(head1, head2);
    LinesOfEntries(heads, head, counts, ks);
    HeadersPass(head1, head2);
    ParseOfEntries(heads, counts, ks);
    ParseSnoc(heads + EntryLines(counts, ks), [], Listed(counts, ks));
    assert Listed(counts, ks) == counts;
  }

  // ---------- compare ----------

  function ChangeOf(base: map<Key, int>, now: map<Key, int>, k: Key): Change { Change(k, Get(base, k), Get(now, k)) }

  predicate Moves(c: Change, up: bool) { if up then c.now > c.base else c.now < c.base }

  // The keys, in order, whose count moved that way.
  function Moved(base: map<Key, int>, now: map<Key, int>, ks: seq<Key>, up: bool): seq<Change> {
    if ks == [] then []
    else
      var c := ChangeOf(base, now, ks[|ks| - 1]);
      var rest := Moved(base, now, ks[..|ks| - 1], up);
      if Moves(c, up) then rest + [c] else rest
  }

  function Risen(base: map<Key, int>, now: map<Key, int>, ks: seq<Key>): seq<Change> { Moved(base, now, ks, true) }

  function Fallen(base: map<Key, int>, now: map<Key, int>, ks: seq<Key>): seq<Change> { Moved(base, now, ks, false) }

  method Compare(base: map<Key, int>, now: map<Key, int>)
    returns (grown: seq<Change>, shrunk: seq<Change>, ghost ks: seq<Key>)
    ensures Sorted(ks) && Distinct(ks) && forall k :: k in ks <==> k in base || k in now
    ensures grown == Risen(base, now, ks) && shrunk == Fallen(base, now, ks)
    ensures grown == [] && shrunk == [] <==> Agree(base, now)
  {
    var keys := SortedKeys(base.Keys + now.Keys);
    grown, shrunk := [], [];
    for i := 0 to |keys|
      invariant grown == Risen(base, now, keys[..i]) && shrunk == Fallen(base, now, keys[..i])
    {
      assert keys[..i + 1][..i] == keys[..i];
      var k := keys[i];
      var b, n := Get(base, k), Get(now, k);
      if n > b {
        grown := grown + [Change(k, b, n)];
      } else if n < b {
        shrunk := shrunk + [Change(k, b, n)];
      }
    }
    assert keys[..|keys|] == keys;
    ks := keys;
    CompareDecides(base, now, ks);
  }

  function Deltas(cs: seq<Change>): int {
    if cs == [] then 0 else Deltas(cs[..|cs| - 1]) + cs[|cs| - 1].now - cs[|cs| - 1].base
  }

  // Which keys are listed: each in exactly one list, exactly when its counts differ in that direction, in key order.
  lemma ListsAreExact(base: map<Key, int>, now: map<Key, int>, ks: seq<Key>)
    requires Sorted(ks)
    ensures forall c :: c in Risen(base, now, ks)
              <==> c.key in ks && c == Change(c.key, Get(base, c.key), Get(now, c.key)) && c.now > c.base
    ensures forall c :: c in Fallen(base, now, ks)
              <==> c.key in ks && c == Change(c.key, Get(base, c.key), Get(now, c.key)) && c.now < c.base
    ensures InKeyOrder(Risen(base, now, ks)) && InKeyOrder(Fallen(base, now, ks))
  {
    forall c
      ensures c in Risen(base, now, ks)
              <==> c.key in ks && c == Change(c.key, Get(base, c.key), Get(now, c.key)) && c.now > c.base
    {
      MovedIsExact(base, now, ks, true, c);
    }
    forall c
      ensures c in Fallen(base, now, ks)
              <==> c.key in ks && c == Change(c.key, Get(base, c.key), Get(now, c.key)) && c.now < c.base
    {
      MovedIsExact(base, now, ks, false, c);
    }
    MovedInOrder(base, now, ks, true);
    MovedInOrder(base, now, ks, false);
  }

  lemma {:induction false} MovedIsExact(base: map<Key, int>, now: map<Key, int>, ks: seq<Key>, up: bool, c: Change)
    ensures c in Moved(base, now, ks, up) <==> c.key in ks && c == ChangeOf(base, now, c.key) && Moves(c, up)
  {
    if ks == [] {
    } else {
      var n := |ks| - 1;
      MovedIsExact(base, now, ks[..n], up, c);
      assert c.key in ks <==> c.key in ks[..n] || c.key == ks[n];
    }
  }

  lemma {:induction false} MovedInOrder(base: map<Key, int>, now: map<Key, int>, ks: seq<Key>, up: bool)
    requires Sorted(ks)
    ensures InKeyOrder(Moved(base, now, ks, up))
  {
    if ks == [] {
    } else {
      var n := |ks| - 1;
      MovedInOrder(base, now, ks[..n], up);
      forall i | 0 <= i < |Moved(base, now, ks[..n], up)|
        ensures Before(Moved(base, now, ks[..n], up)[i].key, ks[n])
      {
        MovedIsExact(base, now, ks[..n], up, Moved(base, now, ks[..n], up)[i]);
      }
    }
  }

  ghost predicate InKeyOrder(cs: seq<Change>) { forall i, j :: 0 <= i < j < |cs| ==> Before(cs[i].key, cs[j].key) }

  // Both lists are empty exactly when the baseline and the counts agree on every key, absent ones counting as zero.
  lemma CompareDecides(base: map<Key, int>, now: map<Key, int>, ks: seq<Key>)
    requires forall k :: k in ks <==> k in base || k in now
    ensures Risen(base, now, ks) == [] && Fallen(base, now, ks) == [] <==> Agree(base, now)
  {
    var risen, fallen := Risen(base, now, ks), Fallen(base, now, ks);
    if risen == [] && fallen == [] {
      forall k ensures Get(base, k) == Get(now, k) {
        MovedIsExact(base, now, ks, true, ChangeOf(base, now, k));
        MovedIsExact(base, now, ks, false, ChangeOf(base, now, k));
      }
    } else if risen != [] {
      MovedIsExact(base, now, ks, true, risen[0]);
    } else {
      MovedIsExact(base, now, ks, false, fallen[0]);
    }
  }

  // Nothing is lost: the total now less the total of the baseline is what rose less what fell.
  lemma CompareConserves(base: map<Key, int>, now: map<Key, int>, ks: seq<Key>)
    requires Distinct(ks) && forall k :: k in ks <==> k in base || k in now
    ensures Total(now) - Total(base) == Deltas(Risen(base, now, ks)) + Deltas(Fallen(base, now, ks))
  {
    SumOverAll(now, ks);
    SumOverAll(base, ks);
    DeltasAddUp(base, now, ks);
  }

  lemma {:induction false} SumOverSnoc(m: map<Key, int>, ks: seq<Key>, k: Key)
    ensures SumOver(m, ks + [k]) == SumOver(m, ks) + Get(m, k)
  {
    if ks == [] {
      assert [] + [k] == [k] && [k][1..] == ks;
    } else {
      SumOverSnoc(m, ks[1..], k);
      assert (ks + [k])[1..] == ks[1..] + [k];
    }
  }

  lemma {:induction false} DeltasAddUp(base: map<Key, int>, now: map<Key, int>, ks: seq<Key>)
    ensures SumOver(now, ks) - SumOver(base, ks) == Deltas(Risen(base, now, ks)) + Deltas(Fallen(base, now, ks))
  {
    if ks == [] {
    } else {
      var n := |ks| - 1;
      DeltasAddUp(base, now, ks[..n]);
      SumOverSnoc(now, ks[..n], ks[n]);
      SumOverSnoc(base, ks[..n], ks[n]);
      assert ks == ks[..n] + [ks[n]];
    }
  }

  // ---------- the gate ----------

  function Ascii(s: string): bytes { seq(|s|, i requires 0 <= i < |s| => AsciiByte(s[i])) }

  function AsciiByte(c: char): byte { if c as int < 128 then c as int else 63 }

  const BASELINE_FLAG: bytes := Ascii("-baseline")

  // rerun: how to repeat the command, naming a directory other than the default, quoted.
  function Rerun(dir: bytes, quote: bytes -> bytes, flag: bytes): bytes {
    Ascii("rerun the same command with: ")
    + if dir != [] && dir != Ascii("tools/checkprose") then Ascii("-dir ") + quote(dir) + [SPACE] + flag else flag
  }

  function Head1(): bytes { Ascii("# checkprose baseline. ") + Ascii("count<TAB>rule<TAB>file") }

  function Head2(dir: bytes, quote: bytes -> bytes): bytes {
    Ascii("# To rewrite, ") + Rerun(dir, quote, BASELINE_FLAG)
  }

  // strconv.Quote escapes newlines.
  ghost predicate Quotes(quote: bytes -> bytes) { forall d :: NL !in quote(d) }

  lemma AsciiNewlineFree(s: string)
    requires '\n' !in s
    ensures NL !in Ascii(s)
  {
    assert forall i :: 0 <= i < |s| ==> s[i] in s;
  }

  lemma Head1IsComment()
    ensures Comment(Head1())
  {
    AsciiNewlineFree("# checkprose baseline. ");
    AsciiNewlineFree("count<TAB>rule<TAB>file");
    assert "# checkprose baseline. "[0] == '#';
    StartsComment(Ascii("# checkprose baseline. "), Ascii("count<TAB>rule<TAB>file"));
  }

  lemma RerunHasNoNewline(dir: bytes, quote: bytes -> bytes, flag: bytes)
    requires Quotes(quote) && NL !in flag
    ensures NL !in Rerun(dir, quote, flag)
  {
    AsciiNewlineFree("rerun the same command with: ");
    AsciiNewlineFree("-dir ");
  }

  lemma StartsComment(a: bytes, b: bytes)
    requires Comment(a) && NL !in b
    ensures Comment(a + b)
  {}

  lemma HeadsAreComments(dir: bytes, quote: bytes -> bytes)
    requires Quotes(quote)
    ensures Comment(Head1()) && Comment(Head2(dir, quote))
  {
    Head1IsComment();
    AsciiNewlineFree("# To rewrite, ");
    AsciiNewlineFree("-baseline");
    RerunHasNoNewline(dir, quote, BASELINE_FLAG);
    assert "# To rewrite, "[0] == '#';
    StartsComment(Ascii("# To rewrite, "), Rerun(dir, quote, BASELINE_FLAG));
  }

  // The exit code of a gate run.
  ghost predicate Passes(file: Option<bytes>, counts: map<Key, int>) {
    file.Some? && ParseLines(LinesOf(file.value)).Some? && Agree(ParseLines(LinesOf(file.value)).value, counts)
  }

  // The decision part of run: with write, the new baseline and code 0; otherwise code 0 exactly when the baseline can
  // be read and agrees with the hits.
  method Run(write: bool, dir: bytes, quote: bytes -> bytes, hits: seq<Hit>, file: Option<bytes>)
    returns (code: int, newFile: Option<bytes>)
    ensures write ==> code == 0 && newFile.Some?
                      && exists counts, ks ::
                        Tallies(hits, counts) && Sorted(ks) && (forall k :: k in ks <==> k in counts)
                           && newFile.value == BaselineText(Head1(), Head2(dir, quote), counts, ks)
    ensures !write ==> newFile.None? && (code == 0 || code == 1)
                       && forall counts :: Tallies(hits, counts) ==> (code == 0 <==> Passes(file, counts))
  {
    var counts := Tally(hits);
    if write {
      var text, ks := WriteBaseline(Head1(), Head2(dir, quote), counts);
      return 0, Some(text);
    }
    newFile := None;
    forall other | Tallies(hits, other) ensures Agree(counts, other) { }
    if file.None? { return 1, None; }
    var base := ReadBaseline(file.value);
    if base.None? { return 1, None; }
    var grown, shrunk, ks := Compare(base.value, counts);
    code := if grown != [] then 1 else if shrunk != [] then 1 else 0;
  }

  // The fixpoint: what a -baseline run writes for some hits lets a later gate run pass exactly when that run counts the
  // same for every rule and file.
  lemma BaselineIsAFixpoint(dir: bytes, quote: bytes -> bytes, counts: map<Key, int>, ks: seq<Key>,
                            later: map<Key, int>)
    requires Quotes(quote) && Printable(counts) && forall k :: k in ks <==> k in counts
    ensures Passes(Some(BaselineText(Head1(), Head2(dir, quote), counts, ks)), later) <==> Agree(counts, later)
  {
    HeadsAreComments(dir, quote);
    BaselineRoundTrip(Head1(), Head2(dir, quote), counts, ks);
  }
}
