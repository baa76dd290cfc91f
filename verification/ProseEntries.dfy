// What a baseline file says: which lines are passed over, which are entries and which are refused, and the counts read
// from a file. Bytes are written out: 9 a tab, 35 a hash, 43 and 45 the signs, 48 to 57 the figures.
module ProseEntries {
  import opened Text
  import opened Utf8
  import opened Numbers
  import opened ProseMatch
  import opened ProseBaseline
  import opened Trimming

  // ---------- one line ----------

  // White space, and then a comment or nothing.
  ghost predicate Silent(line: bytes) { exists xs, rest :: SilentAs(line, xs, rest) }

  ghost predicate SilentAs(line: bytes, xs: seq<int>, rest: bytes) {
    White(xs) && line == Encode(xs) + rest && (rest == [] || rest[0] == 35)
  }

  lemma PassedIff(line: bytes)
    ensures ParseLine(line).Passed? <==> Silent(line)
  {
    if ParseLine(line).Passed? { PassedIsSilent(line); }
    if xs, rest :| SilentAs(line, xs, rest) { SilentIsPassed(xs, rest); }
  }

  lemma {:induction false} PassedIsSilent(line: bytes)
    requires TrimSpace(line) == [] || TrimSpace(line)[0] == 35
    ensures Silent(line)
  {
    var xs, ys := TrimSpaceParts(line);
    var t := TrimSpace(line);
    if t == [] {
      EncodeAppend(xs, ys);
      assert [] + Encode(ys) == Encode(ys) && Encode(xs + ys) + [] == Encode(xs + ys);
      assert SilentAs(line, xs + ys, []);
    } else {
      assert SilentAs(line, xs, t + Encode(ys));
    }
  }

  lemma {:induction false} SilentIsPassed(xs: seq<int>, rest: bytes)
    requires White(xs) && (rest == [] || rest[0] == 35)
    ensures var t := TrimSpace(Encode(xs) + rest); t == [] || t[0] == 35
  {
    TrimLeftOf(xs, rest);
    if rest != [] { TrimRightKeepsHead(rest); }
  }

  // A decimal number of 64 bits, with a sign or without.
  ghost predicate Numeral(b: bytes, n: int) { exists sign, figures :: NumeralAs(b, n, sign, figures) }

  ghost predicate NumeralAs(b: bytes, n: int, sign: bytes, figures: bytes) {
    && b == sign + figures && (sign == [] || sign == [43] || sign == [45])
    && figures != [] && (forall i :: 0 <= i < |figures| ==> 48 <= figures[i] <= 57)
    && n == (if sign == [45] then -Amount(figures) else Amount(figures))
    && -0x8000_0000_0000_0000 <= n < 0x8000_0000_0000_0000
  }

  ghost function Amount(figures: bytes): int {
    if figures == [] then 0 else 10 * Amount(figures[..|figures| - 1]) + figures[|figures| - 1] as int - 48
  }

  lemma {:induction false} AmountIs(f: bytes)
    requires forall i :: 0 <= i < |f| ==> 48 <= f[i] <= 57
    ensures ValueOf(seq(|f|, i requires 0 <= i < |f| => f[i] - 48)) == Amount(f)
  {
    if f == [] {
    } else {
      var ds: seq<digit> := seq(|f|, i requires 0 <= i < |f| => f[i] - 48);
      var g := f[..|f| - 1];
      AmountIs(g);
      assert ds[..|ds| - 1] == seq(|g|, i requires 0 <= i < |g| => g[i] - 48);
    }
  }

  lemma UnsignedIff(f: bytes, n: int)
    ensures Unsigned(f) == Some(n)
            <==> f != [] && (forall i :: 0 <= i < |f| ==> 48 <= f[i] <= 57) && n == Amount(f)
  {
    if forall i :: 0 <= i < |f| ==> 48 <= f[i] <= 57 { AmountIs(f); }
  }

  lemma AtoiIff(b: bytes, n: int)
    ensures Atoi(b) == Some(n) <==> Numeral(b, n)
  {
    if Atoi(b) == Some(n) { AtoiIsNumeral(b, n); }
    if sign, figures :| NumeralAs(b, n, sign, figures) { NumeralIsAtoi(sign, figures, n); }
  }

  lemma {:induction false} AtoiIsNumeral(b: bytes, n: int)
    requires Atoi(b) == Some(n)
    ensures Numeral(b, n)
  {
    if b != [] && (b[0] == 45 || b[0] == 43) {
      SignFirst(b);
      UnsignedIff(b[1..], if b[0] == 45 then -n else n);
      assert NumeralAs(b, n, [b[0]], b[1..]);
    } else {
      UnsignedIff(b, n);
      assert [] + b == b;
      assert NumeralAs(b, n, [], b);
    }
  }

  lemma SignFirst(b: bytes)
    requires b != []
    ensures b == [b[0]] + b[1..]
  {}

  lemma {:induction false} NumeralIsAtoi(sign: bytes, figures: bytes, n: int)
    requires NumeralAs(sign + figures, n, sign, figures)
    ensures Atoi(sign + figures) == Some(n)
  {
    UnsignedIff(figures, Amount(figures));
    if sign == [] {
      assert sign + figures == figures;
    } else {
      assert (sign + figures)[1..] == figures;
    }
  }

  // Three fields between tabs: a number, the rule and the file.
  ghost predicate Says(line: bytes, k: Key, n: int) { exists a :: SaysAs(line, k, n, a) }

  ghost predicate SaysAs(line: bytes, k: Key, n: int, a: bytes) {
    && line == a + [9] + k.rule + [9] + k.file && 9 !in a && 9 !in k.rule && 9 !in k.file
    && Numeral(a, n)
  }

  // Every other line that is not passed over is refused.
  lemma EntryIff(line: bytes, k: Key, n: int)
    ensures ParseLine(line) == Entry(k, n) <==> !Silent(line) && Says(line, k, n)
  {
    PassedIff(line);
    var f := Split(line, 9);
    JoinOfSplit(line, 9);
    if |f| == 3 {
      AtoiIff(f[0], n);
      JoinOfThree(f, 9);
      if ParseLine(line) == Entry(k, n) { assert SaysAs(line, k, n, f[0]); }
    }
    if a :| SaysAs(line, k, n, a) {
      SplitOfThree(a, k.rule, k.file, 9);
      AtoiIff(a, n);
    }
  }

  lemma JoinOfThree<T>(f: seq<seq<T>>, sep: T)
    requires |f| == 3
    ensures Join(f, sep) == f[0] + [sep] + f[1] + [sep] + f[2]
  {
    assert Join(f[2..], sep) == f[2];
    assert f[1..][1..] == f[2..] && Join(f[1..], sep) == f[1] + [sep] + f[2];
    Associate(f[0] + [sep], f[1] + [sep], f[2]);
    Associate(f[0] + [sep], f[1], [sep]);
  }

  // ---------- the file ----------

  ghost predicate IsAbout(line: bytes, k: Key) { ParseLine(line).Entry? && ParseLine(line).key == k }

  // Line i is an entry, and the last one about its key.
  ghost predicate LastEntry(ls: seq<bytes>, i: int, k: Key, n: int) {
    0 <= i < |ls| && ParseLine(ls[i]) == Entry(k, n) && forall j :: i < j < |ls| ==> !IsAbout(ls[j], k)
  }

  ghost predicate Told(ls: seq<bytes>, k: Key, n: int) { exists i :: LastEntry(ls, i, k, n) }

  // The counts hold a number for a key exactly when the last entry about it says so.
  ghost predicate ReadAs(ls: seq<bytes>, m: map<Key, int>) {
    forall k, n :: Told(ls, k, n) <==> k in m && m[k] == n
  }

  // A file is refused exactly when one of its lines is.
  lemma {:induction false} ReadIff(ls: seq<bytes>)
    ensures ParseLines(ls).None? <==> exists i :: 0 <= i < |ls| && ParseLine(ls[i]).Malformed?
    ensures ParseLines(ls).Some? ==> ReadAs(ls, ParseLines(ls).value)
  {
    if ls == [] {
    } else {
      var before, line := ls[..|ls| - 1], ls[|ls| - 1];
      ReadIff(before);
      assert ls == before + [line];
      if i :| 0 <= i < |ls| && ParseLine(ls[i]).Malformed? && i < |before| { assert before[i] == ls[i]; }
      if ParseLines(ls).Some? {
        ReadStep(before, line, ParseLines(before).value);
      }
    }
  }

  lemma {:induction false} ReadStep(before: seq<bytes>, line: bytes, m: map<Key, int>)
    requires ReadAs(before, m)
    ensures ParseLine(line).Passed? ==> ReadAs(before + [line], m)
    ensures ParseLine(line).Entry? ==> ReadAs(before + [line], m[ParseLine(line).key := ParseLine(line).count])
  {
    forall k, n
      ensures Told(before + [line], k, n)
              <==> if IsAbout(line, k) then ParseLine(line).count == n else Told(before, k, n)
    {
      ToldStep(before, line, k, n);
    }
  }

  lemma {:induction false} ToldStep(before: seq<bytes>, line: bytes, k: Key, n: int)
    ensures Told(before + [line], k, n)
            <==> if IsAbout(line, k) then ParseLine(line).count == n else Told(before, k, n)
  {
    var ls := before + [line];
    assert ls[|before|] == line && forall i :: 0 <= i < |before| ==> ls[i] == before[i];
    if IsAbout(line, k) && ParseLine(line).count == n { assert LastEntry(ls, |before|, k, n); }
    if i :| LastEntry(ls, i, k, n) {
      if !IsAbout(line, k) { assert LastEntry(before, i, k, n); }
    }
    if i :| LastEntry(before, i, k, n) {
      if !IsAbout(line, k) { assert LastEntry(ls, i, k, n); }
    }
  }

  // ---------- the count of a key ----------

  ghost function HitsOf(hits: seq<Hit>, k: Key): set<int> {
    set i | 0 <= i < |hits| && hits[i].rule == k.rule && hits[i].file == k.file
  }

  // The count of a key is the number of its hits.
  lemma {:induction false} CountIsCardinality(hits: seq<Hit>, k: Key)
    ensures CountHits(hits, k) == |HitsOf(hits, k)|
  {
    if hits == [] {
    } else {
      CountIsCardinality(hits[..|hits| - 1], k);
      OneHitMore(hits, k);
    }
  }

  lemma {:induction false} OneHitMore(hits: seq<Hit>, k: Key)
    requires hits != []
    ensures var n := |hits| - 1; |HitsOf(hits, k)| == |HitsOf(hits[..n], k)| + if KeyOf(hits[n]) == k then 1 else 0
  {
    var n := |hits| - 1;
    assert HitsOf(hits, k) == HitsOf(hits[..n], k) + if KeyOf(hits[n]) == k then {n} else {};
  }

  // ---------- what is printed ----------

  // Zero is one figure, without a sign.
  lemma ZeroPrints()
    ensures Decimal(0) == [48]
  {}

  lemma AsciiAppend(a: string, b: string)
    ensures Ascii(a + b) == Ascii(a) + Ascii(b)
  {}

  // The second line of the file says how to rewrite it, and names the directory, quoted, when it is not the default.
  lemma RerunNames(dir: bytes, quote: bytes -> bytes)
    ensures dir == [] || dir == Ascii("tools/checkprose")
            ==> Rerun(dir, quote, BASELINE_FLAG) == Ascii("rerun the same command with: -baseline")
    ensures dir != [] && dir != Ascii("tools/checkprose")
            ==> Rerun(dir, quote, BASELINE_FLAG)
                == Ascii("rerun the same command with: -dir ") + (quote(dir) + Ascii(" -baseline"))
  {
    var says := "rerun the same command with: ";
    AsciiAppend(says, "-baseline");
    AsciiAppend(says, "-dir ");
    AsciiAppend(" ", "-baseline");
    assert says + "-baseline" == "rerun the same command with: -baseline";
    assert says + "-dir " == "rerun the same command with: -dir " && " " + "-baseline" == " -baseline";
    assert Ascii(" ") == [SPACE];
    if dir != [] && dir != Ascii("tools/checkprose") {
      var q := quote(dir);
      Associate(Ascii(says), Ascii("-dir "), q + (Ascii(" ") + BASELINE_FLAG));
      Associate(Ascii("-dir "), q, [SPACE] + BASELINE_FLAG);
      Associate(Ascii("-dir ") + q, [SPACE], BASELINE_FLAG);
    }
  }
}
