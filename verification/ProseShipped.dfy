// The overlap list that ships with checkprose, and what its spaced words do to byte counts.
module ProseShipped {
  import opened Text
  import opened Utf8
  import opened Lines
  import opened ProseOverlap
  import opened ProseMatch
  import opened ProseDrift

  // The seven words of the list, by code point.
  function Listed(k: nat): seq<int> {
    if k == 0 then [0xD5F7, 0xAC08]
    else if k == 1 then [0xD5DB, 0xAC08]
    else if k == 2 then [0xB9DD, 0xAC00, 0xC9D1, 0xB2C8, 0xB2E4]
    else if k == 3 then [0xBABB, 0x20, 0xBC15]
    else if k == 4 then [0xC21C, 0xD658, 0xC744, 0x20, 0xB04A, 0xB294, 0xB2E4]
    else if k == 5 then [0xD0A4, 0x20, 0xC7AC, 0xB8CC]
    else [0xAC70, 0xC9D3, 0xB9D0]
  }

  const SHIPPED: seq<bytes> := seq(7, k requires 0 <= k < 7 => Encode(Listed(k)))

  predicate SpacedHangul(rs: seq<int>) { rs != [] && forall i :: 0 <= i < |rs| ==> Syllable(rs[i]) || rs[i] == 0x20 }

  lemma {:induction false} HangulBytes(rs: seq<int>)
    requires forall i :: 0 <= i < |rs| ==> Syllable(rs[i]) || rs[i] == 0x20
    ensures 0xE2 !in Encode(rs) && NL !in Encode(rs)
    ensures |Encode(rs)| == 3 * |rs| - 2 * Count(rs, 0x20)
  {
    if rs == [] {
    } else {
      HangulBytes(rs[1..]);
      var e := EncodeRune(rs[0]);
      assert Syllable(rs[0]) ==> |e| == 3 && 0xEA <= e[0] <= 0xED && Tail(e[1]) && Tail(e[2]);
      assert Encode(rs) == e + Encode(rs[1..]);
    }
  }

  // A word of Hangul syllables and spaces is plain, and grows by two bytes for every space in it.
  lemma HangulWordGrows(rs: seq<int>)
    requires SpacedHangul(rs)
    ensures Plain(Encode(rs)) && Growth(Encode(rs)) == 2 * Count(rs, 0x20)
  {
    HangulBytes(rs);
    RunesOfEncoded(rs);
    forall i ensures !OccursAt(RING, Encode(rs), i) {
      if OccursAt(RING, Encode(rs), i) {
        OccursAtByte(RING, Encode(rs), i, 0);
      }
    }
  }

  lemma ShippedIsPlain()
    ensures AllPlain(SHIPPED) && |SHIPPED| == 7
    ensures forall k :: 0 <= k < 7 ==> Growth(SHIPPED[k]) == 2 * Count(Listed(k), 0x20)
  {
    forall k | 0 <= k < 7 ensures Plain(SHIPPED[k]) && Growth(SHIPPED[k]) == 2 * Count(Listed(k), 0x20) {
      ListedIsHangul(k);
      HangulWordGrows(Listed(k));
    }
  }

  lemma HeadBytes(rs: seq<int>)
    requires SpacedHangul(rs) && Syllable(rs[0])
    ensures |Encode(rs)| >= 3 && Encode(rs)[0] == 0xE0 + rs[0] / 4096 && Encode(rs)[1] == 0x80 + rs[0] / 64 % 64
  {
  }

  lemma EncodeThree(a: int, b: int, c: int)
    ensures Encode([a, b, c]) == EncodeRune(a) + EncodeRune(b) + EncodeRune(c)
  {
    assert [a, b, c][1..] == [b, c] && [b, c][1..] == [c] && [c][1..] == [];
    assert Encode([c]) == EncodeRune(c) + [];
  }

  lemma FourthWord()
    ensures SHIPPED[3] == [0xEB, 0xAA, 0xBB, 0x20, 0xEB, 0xB0, 0x95]
    ensures Count(Listed(3), 0x20) == 1
  {
    EncodeThree(0xBABB, 0x20, 0xBC15);
    assert Listed(3) == [0xBABB] + [0x20] + [0xBC15];
    CountAppend([0xBABB] + [0x20], [0xBC15], 0x20);
    CountAppend([0xBABB], [0x20], 0x20);
  }

  // A word whose first two bytes appear nowhere in a row does not occur.
  lemma AbsentByHead(w: bytes, s: bytes)
    requires |w| >= 2 && forall i :: 0 <= i < |s| - 1 ==> s[i] != w[0] || s[i + 1] != w[1]
    ensures !Occurs(w, s)
  {
    forall i ensures !OccursAt(w, s, i) {
      if OccursAt(w, s, i) {
        OccursAtByte(w, s, i, 0);
        OccursAtByte(w, s, i, 1);
      }
    }
  }

  lemma FourthNotShadowed()
    ensures |SHIPPED| == 7 && !Shadowed(SHIPPED, 3)
  {
    FourthWord();
    forall j | 0 <= j < 3 ensures !Occurs(SHIPPED[j], SHIPPED[3]) {
      ListedIsHangul(j);
      HeadBytes(Listed(j));
      AbsentByHead(SHIPPED[j], SHIPPED[3]);
    }
  }

  // The shipped list is not level: its fourth word is never shadowed and grows, so hiding moves the bytes after it.
  lemma ShippedListMovesBytes()
    ensures AllPlain(SHIPPED) && !Level(SHIPPED)
    ensures exists s: bytes :: |Hide(s, SHIPPED)| != |s|
  {
    ShippedIsPlain();
    FourthWord();
    FourthNotShadowed();
    HideKeepsLengthIffLevel(SHIPPED);
  }

  lemma UnlistedByRunes(rs: seq<int>, r: int)
    requires SpacedHangul(rs) && Syllable(r) && r !in rs
    ensures !Occurs(EncodeRune(r), Encode(rs))
  {
    if i :| OccursAt(EncodeRune(r), Encode(rs), i) { RuneInEncoded(r, rs, i); }
  }

  // The syllable U+AC01 is in none of the words.
  lemma OneUnlisted()
    ensures Unlisted(0xAC01, SHIPPED)
  {
    forall j | 0 <= j < |SHIPPED| ensures !Occurs(EncodeRune(0xAC01), SHIPPED[j]) {
      ListedIsHangul(j);
      UnlistedByRunes(Listed(j), 0xAC01);
    }
  }

  lemma ListedIsHangul(k: nat)
    ensures SpacedHangul(Listed(k)) && 0xAC01 !in Listed(k)
  {}

  // So match is not faithful with the shipped list: for some file, mask and rules its answer is not the matches of the
  // hidden text with the numbers and texts of their lines.
  lemma ShippedListIsNotFaithful()
    ensures !AlwaysFaithful(Prose(), SHIPPED)
  {
    ShippedListMovesBytes();
    OneUnlisted();
    FaithfulIffLevel(SHIPPED, 0xAC01);
  }

  // ---------- a line whose hit cannot be shown ----------

  // The fourth word twice, then one syllable.
  const GA: bytes := [0xEA, 0xB0, 0x80]

  function Twice(w: bytes): bytes { w + (w + GA) }

  lemma ReplaceTwice(w: bytes, r: bytes)
    requires |w| > 3
    ensures ReplaceAll(Twice(w), w, r) == Twice(r)
  {
    assert Twice(w)[..|w|] == w && Twice(w)[|w|..] == w + GA;
    assert (w + GA)[..|w|] == w && (w + GA)[|w|..] == GA;
    assert ReplaceAll(w + GA, w, r) == r + GA;
  }

  lemma {:induction false} HangulAfterRings(n: nat)
    ensures HasHangul(Rings(n) + GA)
  {
    var s := Rings(n) + GA;
    if n == 0 {
      assert s == GA && Head(s) == 0xAC00;
    } else {
      HangulAfterRings(n - 1);
      assert Head(s) == 0x25CC && s[3..] == Rings(n - 1) + GA;
    }
  }

  lemma HeadNotInTwice(v: bytes)
    requires |v| >= 2 && (v[0] == 0xED || (v[0] == 0xEB && v[1] == 0xA7))
    ensures !Occurs(v, Twice([0xEB, 0xAA, 0xBB, 0x20, 0xEB, 0xB0, 0x95]))
  {
    var w: bytes := [0xEB, 0xAA, 0xBB, 0x20, 0xEB, 0xB0, 0x95];
    var t := Twice(w);
    assert t == [0xEB, 0xAA, 0xBB, 0x20, 0xEB, 0xB0, 0x95, 0xEB, 0xAA, 0xBB, 0x20, 0xEB, 0xB0, 0x95, 0xEA, 0xB0, 0x80];
    AbsentByHead(v, t);
  }

  lemma EarlierAbsent(k: nat)
    requires k < 3
    ensures !Occurs(SHIPPED[k], Twice(SHIPPED[3]))
  {
    FourthWord();
    ListedIsHangul(k);
    HeadBytes(Listed(k));
    HeadNotInTwice(SHIPPED[k]);
  }

  lemma LaterAbsent(k: nat)
    requires 4 <= k < 7
    ensures !Occurs(SHIPPED[k], Twice(Rings(3)))
  {
    var h := Twice(Rings(3));
    forall i | 0 <= i < 9 ensures Rings(3)[i] == RING[i % 3] { RingsAt(3, i); }
    ListedIsHangul(k);
    HeadBytes(Listed(k));
    assert forall i :: 0 <= i < 18 ==> h[i] <= 0xE2;
    AbsentByHead(SHIPPED[k], h);
  }

  lemma TwiceHides()
    ensures Hide(Twice(SHIPPED[3]), SHIPPED) == Twice(Rings(3))
  {
    ShippedIsPlain();
    FourthWord();
    ReplaceTwice(SHIPPED[3], Rings(3));
    RunesOfEncoded(Listed(3));
    forall k | 0 <= k < 3 ensures !Occurs(SHIPPED[k], Twice(SHIPPED[3])) { EarlierAbsent(k); }
    forall k | 3 < k < 7 ensures !Occurs(SHIPPED[k], Twice(Rings(3))) { LaterAbsent(k); }
    HideOnly(Twice(SHIPPED[3]), SHIPPED, 3, Twice(Rings(3)));
  }

  // With the shipped list, the syllable at the end of this line is at byte 18 once hidden, and the original has 17
  // bytes: a rule that finds it makes match panic.
  lemma ShippedListCanPanic(file: bytes, name: bytes)
    ensures |Twice(SHIPPED[3])| == 17 && |Hide(Twice(SHIPPED[3]), SHIPPED)| == 21
    ensures Hide(Twice(SHIPPED[3]), SHIPPED)[18..21] == GA
    ensures OutcomeAt(Prose(), file, Twice(SHIPPED[3]), Hide(Twice(SHIPPED[3]), SHIPPED), name, 18) == Panic
  {
    var h := Twice(Rings(3));
    TwiceHides();
    FourthWord();
    WholeLine(h);
    ProseShowsLine(LineAt(h, 18));
  }

  lemma WholeLine(h: bytes)
    requires h == Twice(Rings(3))
    ensures |h| == 21 && h[18..21] == GA && LineAt(h, 18) == h && HasHangul(LineAt(h, 18))
  {
    assert h == Rings(3) + Rings(3) + GA && Rings(6) == Rings(3) + Rings(3);
    HangulAfterRings(6);
    RingsNewlineFree(6);
    LastNewlineIs(h[..18], -1);
    assert NextNewline(h, 18) == 21;
  }
}
