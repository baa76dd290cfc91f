// Go strings as byte sequences, with UTF-8 decoding as section 3 of RFC 3629 defines it and as Go's range loop and
// []rune conversion apply it: a byte that starts no well-formed sequence is one replacement rune.
module Utf8 {
  import opened Text

  type byte = b: int | 0 <= b < 256
  type bytes = seq<byte>

  const NL: byte := 10
  const SPACE: byte := 32
  const REPLACEMENT := 0xFFFD
  // "◌" (U+25CC) and "…" (U+2026).
  const RING: bytes := [0xE2, 0x97, 0x8C]
  const ELLIPSIS: bytes := [0xE2, 0x80, 0xA6]

  predicate Tail(b: byte) { 0x80 <= b <= 0xBF }

  // The width of the well-formed sequence at the head of s, or 0 when there is none.
  function Width(s: bytes): (n: nat)
    ensures n <= 4 && n <= |s|
  {
    if |s| >= 1 && s[0] < 0x80 then 1
    else if |s| >= 2 && 0xC2 <= s[0] <= 0xDF && Tail(s[1]) then 2
    else if |s| >= 3 && 0xE0 <= s[0] <= 0xEF && Tail(s[1]) && Tail(s[2])
            && (s[0] == 0xE0 ==> s[1] >= 0xA0) && (s[0] == 0xED ==> s[1] <= 0x9F) then 3
    else if |s| >= 4 && 0xF0 <= s[0] <= 0xF4 && Tail(s[1]) && Tail(s[2]) && Tail(s[3])
            && (s[0] == 0xF0 ==> s[1] >= 0x90) && (s[0] == 0xF4 ==> s[1] <= 0x8F) then 4
    else 0
  }

  // The bytes the head rune takes: a malformed byte takes one.
  function Step(s: bytes): (n: nat)
    requires s != []
    ensures 1 <= n <= |s|
  {
    if Width(s) == 0 then 1 else Width(s)
  }

  function Head(s: bytes): int
    requires s != []
  {
    match Width(s)
    case 1 => s[0]
    case 2 => (s[0] - 0xC0) * 64 + (s[1] - 0x80)
    case 3 => (s[0] - 0xE0) * 4096 + (s[1] - 0x80) * 64 + (s[2] - 0x80)
    case 4 => (s[0] - 0xF0) * 262144 + (s[1] - 0x80) * 4096 + (s[2] - 0x80) * 64 + (s[3] - 0x80)
    case _ => REPLACEMENT
  }

  // []rune(s)
  function Runes(s: bytes): seq<int> {
    if s == [] then [] else [Head(s)] + Runes(s[Step(s)..])
  }

  // utf8.ValidString
  predicate Valid(s: bytes) {
    s == [] || (Width(s) > 0 && Valid(s[Width(s)..]))
  }

  predicate Scalar(r: int) { 0 <= r <= 0x10FFFF && !(0xD800 <= r <= 0xDFFF) }

  // The encoding of one rune; anything that is no scalar value is encoded as the replacement rune.
  function EncodeRune(r: int): (e: bytes)
  {
    if !Scalar(r) then [0xEF, 0xBF, 0xBD]
    else if r < 0x80 then [r]
    else if r < 0x800 then [0xC0 + r / 64, 0x80 + r % 64]
    else if r < 0x10000 then [0xE0 + r / 4096, 0x80 + r / 64 % 64, 0x80 + r % 64]
    else [0xF0 + r / 262144, 0x80 + r / 4096 % 64, 0x80 + r / 64 % 64, 0x80 + r % 64]
  }

  // string([]rune)
  function Encode(rs: seq<int>): bytes {
    if rs == [] then [] else EncodeRune(rs[0]) + Encode(rs[1..])
  }

  // The base-64 digits of a rune are the payloads of its bytes.
  lemma Payloads(a: int, b: int, c: int, d: int)
    requires 0 <= b < 64 && 0 <= c < 64 && 0 <= d < 64
    ensures var r := a * 262144 + b * 4096 + c * 64 + d;
            r / 262144 == a && r / 4096 == a * 64 + b && r / 64 == a * 4096 + b * 64 + c
            && r / 4096 % 64 == b && r / 64 % 64 == c && r % 64 == d
  {
  }

  lemma EncodeOfHead(s: bytes)
    requires s != [] && Width(s) > 0
    ensures EncodeRune(Head(s)) == s[..Width(s)]
  {
    match Width(s)
    case 1 => assert s[..1] == [s[0]];
    case 2 => EncodeOfTwo(s);
    case 3 => EncodeOfThree(s);
    case _ => EncodeOfFour(s);
  }

  lemma EncodeOfTwo(s: bytes)
    requires s != [] && Width(s) == 2
    ensures EncodeRune(Head(s)) == s[..2]
  {
    Payloads(0, 0, s[0] - 0xC0, s[1] - 0x80);
    assert s[..2] == [s[0], s[1]];
  }

  lemma EncodeOfThree(s: bytes)
    requires s != [] && Width(s) == 3
    ensures EncodeRune(Head(s)) == s[..3]
  {
    Payloads(0, s[0] - 0xE0, s[1] - 0x80, s[2] - 0x80);
    assert s[..3] == [s[0], s[1], s[2]];
  }

  lemma EncodeOfFour(s: bytes)
    requires s != [] && Width(s) == 4
    ensures EncodeRune(Head(s)) == s[..4]
  {
    Payloads(s[0] - 0xF0, s[1] - 0x80, s[2] - 0x80, s[3] - 0x80);
    assert s[..4] == [s[0], s[1], s[2], s[3]];
  }

  lemma HeadIsScalar(s: bytes)
    requires s != []
    ensures Scalar(Head(s))
  {
    match Width(s)
    case 0 =>
    case 1 =>
    case 2 => Payloads(0, 0, s[0] - 0xC0, s[1] - 0x80);
    case 3 => Payloads(0, s[0] - 0xE0, s[1] - 0x80, s[2] - 0x80);
    case _ => Payloads(s[0] - 0xF0, s[1] - 0x80, s[2] - 0x80, s[3] - 0x80);
  }

  lemma {:induction false} RunesAreScalar(s: bytes)
    ensures forall i :: 0 <= i < |Runes(s)| ==> Scalar(Runes(s)[i])
  {
    if s == [] {
    } else {
      HeadIsScalar(s);
      RunesAreScalar(s[Step(s)..]);
    }
  }

  // The text with every malformed byte replaced by the encoded replacement rune.
  function Repaired(s: bytes): bytes {
    if s == [] then []
    else (if Width(s) == 0 then EncodeRune(REPLACEMENT) else s[..Width(s)]) + Repaired(s[Step(s)..])
  }

  // A well-formed string is its own repair; any other gets longer.
  lemma {:induction false} RepairedIff(s: bytes)
    ensures |Repaired(s)| >= |s| && (Repaired(s) == s <==> Valid(s))
  {
    if s == [] {
    } else {
      RepairedIff(s[Step(s)..]);
      assert s == s[..Step(s)] + s[Step(s)..];
    }
  }

  // Cutting a string leaves the width of its head, or leaves it malformed.
  lemma WidthOfPrefix(p: bytes, s: bytes)
    requires p <= s
    ensures Width(p) == if Width(s) <= |p| then Width(s) else 0
  {}

  // Decoding a string and encoding its first n runes again gives the repair of a prefix, the one with those runes.
  lemma {:induction false} FirstRunes(s: bytes, n: nat) returns (part: bytes)
    requires n <= |Runes(s)|
    ensures part <= s && Runes(part) == Runes(s)[..n] && (Valid(s) ==> Valid(part))
    ensures Encode(Runes(s)[..n]) == Repaired(part)
  {
    if n == 0 {
      part := [];
    } else {
      var w := Step(s);
      var rest := FirstRunes(s[w..], n - 1);
      part := s[..w] + rest;
      OneRuneMore(s, w, rest);
      FirstIsHead(s, n);
    }
  }

  lemma {:induction false} OneRuneMore(s: bytes, w: nat, rest: bytes)
    requires s != [] && w == Step(s) && rest <= s[w..]
    ensures var part := s[..w] + rest;
            && part <= s && Runes(part) == [Head(s)] + Runes(rest)
            && (Valid(s) && Valid(rest) ==> Valid(part))
            && Repaired(part) == EncodeRune(Head(s)) + Repaired(rest)
  {
    var part := s[..w] + rest;
    assert s == s[..w] + s[w..];
    WidthOfPrefix(part, s);
    assert part[w..] == rest && part[..w] == s[..w];
    if Width(s) > 0 { EncodeOfHead(s); }
  }

  lemma {:induction false} FirstIsHead(s: bytes, n: nat)
    requires 0 < n <= |Runes(s)|
    ensures Runes(s)[..n] == [Head(s)] + Runes(s[Step(s)..])[..n - 1]
    ensures Encode(Runes(s)[..n]) == EncodeRune(Head(s)) + Encode(Runes(s[Step(s)..])[..n - 1])
  {
    var tail := Runes(s[Step(s)..]);
    assert Runes(s)[..n] == [Head(s)] + tail[..n - 1];
    assert ([Head(s)] + tail[..n - 1])[1..] == tail[..n - 1];
  }

  lemma Base64(r: int)
    requires 0 <= r <= 0x10FFFF
    ensures r == r / 64 * 64 + r % 64
    ensures r / 64 == r / 4096 * 64 + r / 64 % 64
    ensures r / 4096 == r / 262144 * 64 + r / 4096 % 64
    ensures r / 262144 <= 4
  {
  }

  // Encoding a scalar value and decoding it again gives it back, whatever follows.
  lemma HeadOfEncoded(r: int, t: bytes)
    requires Scalar(r)
    ensures var e := EncodeRune(r); Width(e + t) == |e| && Head(e + t) == r
  {
    Base64(r);
    if 0x800 <= r < 0x10000 {
      HeadOfThree(r, r / 4096, r / 64 % 64, r % 64, t);
    } else if r >= 0x10000 {
      HeadOfFour(r, r / 262144, r / 4096 % 64, r / 64 % 64, r % 64, t);
    }
  }

  lemma HeadOfThree(r: int, a: int, b: int, c: int, t: bytes)
    requires 0x800 <= r < 0x10000 && Scalar(r)
    requires r == a * 4096 + b * 64 + c && 0 <= a < 16 && 0 <= b < 64 && 0 <= c < 64
    ensures var s := [0xE0 + a, 0x80 + b, 0x80 + c] + t; Width(s) == 3 && Head(s) == r
  {
    var s := [0xE0 + a, 0x80 + b, 0x80 + c] + t;
    assert s[0] == 0xE0 + a && s[1] == 0x80 + b && s[2] == 0x80 + c;
  }

  lemma HeadOfFour(r: int, a: int, b: int, c: int, d: int, t: bytes)
    requires 0x10000 <= r <= 0x10FFFF
    requires r == a * 262144 + b * 4096 + c * 64 + d && 0 <= a <= 4 && 0 <= b < 64 && 0 <= c < 64 && 0 <= d < 64
    ensures var s := [0xF0 + a, 0x80 + b, 0x80 + c, 0x80 + d] + t; Width(s) == 4 && Head(s) == r
  {
    var s := [0xF0 + a, 0x80 + b, 0x80 + c, 0x80 + d] + t;
    assert s[0] == 0xF0 + a && s[1] == 0x80 + b && s[2] == 0x80 + c && s[3] == 0x80 + d;
  }

  lemma {:induction false} RunesOfEncoded(rs: seq<int>)
    requires forall i :: 0 <= i < |rs| ==> Scalar(rs[i])
    ensures Valid(Encode(rs)) && Runes(Encode(rs)) == rs
  {
    if rs == [] {
    } else {
      RunesOfEncoded(rs[1..]);
      HeadOfEncoded(rs[0], Encode(rs[1..]));
      assert Encode(rs)[|EncodeRune(rs[0])|..] == Encode(rs[1..]);
    }
  }

  // Inside a well-formed sequence, every byte after the first is a continuation byte, and no sequence starts at one.
  lemma StraddleIsTail(s: bytes, i: nat)
    requires 0 < i < Width(s)
    ensures Tail(s[i]) && Width(s[i..]) == 0
  {
  }

  // A text that starts with a rune's bytes starts with that rune.
  lemma StartRune(r: int, s: bytes)
    requires Scalar(r) && EncodeRune(r) <= s
    ensures Width(s) == |EncodeRune(r)| > 0 && Head(s) == r
  {
    var e := EncodeRune(r);
    HeadOfEncoded(r, s[|e|..]);
    assert s == e + s[|e|..];
  }

  // A rune's bytes do not occur inside the head rune.
  lemma NoRuneInside(r: int, s: bytes, i: nat)
    requires Scalar(r) && OccursAt(EncodeRune(r), s, i) && i > 0
    ensures i >= Width(s)
  {
    StartRune(r, s[i..]);
    if i < Width(s) { StraddleIsTail(s, i); }
  }

  // A rune's bytes occur in an encoded text only where the text has that rune.
  lemma {:induction false} RuneInEncoded(r: int, rs: seq<int>, i: nat)
    requires Scalar(r) && (forall k :: 0 <= k < |rs| ==> Scalar(rs[k])) && OccursAt(EncodeRune(r), Encode(rs), i)
    ensures r in rs
  {
    StartRune(r, EncodeRune(r));
    if rs == [] {
    } else {
      var head, rest := EncodeRune(rs[0]), Encode(rs[1..]);
      HeadOfEncoded(rs[0], rest);
      if i == 0 {
        StartRune(r, Encode(rs));
      } else {
        NoRuneInside(r, Encode(rs), i);
        OccursLater(EncodeRune(r), head, rest, i);
        RuneInEncoded(r, rs[1..], i - |head|);
      }
    }
  }

  lemma OccursLater(w: bytes, a: bytes, b: bytes, i: nat)
    requires OccursAt(w, a + b, i) && i >= |a|
    ensures OccursAt(w, b, i - |a|)
  {
    assert (a + b)[i..i + |w|] == b[i - |a|..i - |a| + |w|];
  }

  // A valid string that ends in a well-formed sequence is valid without it.
  lemma {:induction false} ValidWithoutLast(a: bytes, b: bytes)
    requires Valid(a + b) && b != [] && Width(b) == |b|
    ensures Valid(a)
  {
    if a == [] {
    } else {
      var s := a + b;
      var w := Width(s);
      if w <= |a| {
        assert s[w..] == a[w..] + b;
        ValidWithoutLast(a[w..], b);
        assert forall i :: 0 <= i < w ==> s[i] == a[i];
      } else {
        // The head rune would straddle into b, which cannot start with a continuation byte.
        StraddleIsTail(s, |a|);
        assert false;
      }
    }
  }

  // unicode.IsSpace
  predicate SpaceRune(r: int) {
    9 <= r <= 13 || r == 0x20 || r == 0x85 || r == 0xA0 || r == 0x1680 || 0x2000 <= r <= 0x200A
    || r == 0x2028 || r == 0x2029 || r == 0x202F || r == 0x205F || r == 0x3000
  }

  function TrimLeft(s: bytes): bytes {
    if s != [] && SpaceRune(Head(s)) then TrimLeft(s[Step(s)..]) else s
  }

  function LastBytes(s: bytes, n: nat): bytes
    requires n <= |s|
  {
    Cut(s, |s| - n, |s|)
  }

  // Whether the last n bytes are one white-space rune.
  predicate SpaceEnd(s: bytes, n: nat) {
    0 < n <= |s| && Width(LastBytes(s, n)) == n && SpaceRune(Head(LastBytes(s, n)))
  }

  function TrimRight(s: bytes): bytes {
    if SpaceEnd(s, 1) then TrimRight(s[..|s| - 1])
    else if SpaceEnd(s, 2) then TrimRight(s[..|s| - 2])
    else if SpaceEnd(s, 3) then TrimRight(s[..|s| - 3])
    else s
  }

  // strings.TrimSpace
  function TrimSpace(s: bytes): bytes { TrimRight(TrimLeft(s)) }

  lemma {:induction false} TrimLeftSuffix(s: bytes)
    ensures |TrimLeft(s)| <= |s| && TrimLeft(s) == s[|s| - |TrimLeft(s)|..]
    ensures Valid(s) ==> Valid(TrimLeft(s))
  {
    if s != [] && SpaceRune(Head(s)) {
      TrimLeftSuffix(s[Step(s)..]);
    }
  }

  function SpaceWidth(s: bytes): (n: nat)
    ensures n <= |s| && (n > 0 ==> SpaceEnd(s, n)) && TrimRight(s) == if n == 0 then s else TrimRight(s[..|s| - n])
  {
    if SpaceEnd(s, 1) then 1 else if SpaceEnd(s, 2) then 2 else if SpaceEnd(s, 3) then 3 else 0
  }

  lemma {:induction false} TrimRightPrefix(s: bytes)
    ensures TrimRight(s) <= s
    ensures Valid(s) ==> Valid(TrimRight(s))
  {
    var n := SpaceWidth(s);
    if n == 0 {
    } else {
      TrimRightPrefix(s[..|s| - n]);
      assert s == s[..|s| - n] + s[|s| - n..];
      if Valid(s) { ValidWithoutLast(s[..|s| - n], s[|s| - n..]); }
    }
  }

  // Trimming keeps a contiguous part of the string, and validity.
  lemma TrimSpacePart(s: bytes)
    ensures Occurs(TrimSpace(s), s)
    ensures Valid(s) ==> Valid(TrimSpace(s))
  {
    TrimLeftSuffix(s);
    TrimRightPrefix(TrimLeft(s));
    PartOccurs(TrimSpace(s), TrimLeft(s), s, |s| - |TrimLeft(s)|);
  }

  lemma PartOccurs(w: bytes, t: bytes, s: bytes, at: nat)
    requires at <= |s| && t == s[at..] && w <= t
    ensures Occurs(w, s)
  {
    assert s[at..at + |w|] == t[..|w|];
    assert OccursAt(w, s, at);
  }

  // checkprose's hasHangul: some rune is a Hangul syllable.
  predicate AnyHangul(rs: seq<int>) {
    rs != [] && (0xAC00 <= rs[0] <= 0xD7A3 || AnyHangul(rs[1..]))
  }

  predicate HasHangul(s: bytes) { AnyHangul(Runes(s)) }

  // The Hangul syllables of Unicode, U+AC00 to U+D7A3.
  predicate Syllable(r: int) { 0xAC00 <= r <= 0xD7A3 }

  ghost predicate HoldsSyllable(rs: seq<int>) { exists i :: 0 <= i < |rs| && Syllable(rs[i]) }

  lemma {:induction false} AnyHangulIff(rs: seq<int>)
    ensures AnyHangul(rs) <==> HoldsSyllable(rs)
  {
    if rs == [] {
    } else {
      AnyHangulIff(rs[1..]);
      if i :| 0 <= i < |rs| && Syllable(rs[i]) {
        if i > 0 { assert rs[1..][i - 1] == rs[i]; }
      }
      if HoldsSyllable(rs[1..]) {
        var i :| 0 <= i < |rs[1..]| && Syllable(rs[1..][i]);
        assert rs[i + 1] == rs[1..][i];
      }
    }
  }

  // A string has Hangul exactly when one of its runes is a syllable.
  lemma HasHangulIff(s: bytes)
    ensures HasHangul(s) <==> HoldsSyllable(Runes(s))
  {
    AnyHangulIff(Runes(s));
  }

  lemma {:induction false} RuneOccurs(rs: seq<int>, i: nat)
    requires i < |rs|
    ensures Occurs(EncodeRune(rs[i]), Encode(rs))
  {
    var head, rest := EncodeRune(rs[0]), Encode(rs[1..]);
    if i == 0 {
      assert Encode(rs)[..|head|] == head;
      assert OccursAt(head, Encode(rs), 0);
    } else {
      RuneOccurs(rs[1..], i - 1);
      OccursInContext(EncodeRune(rs[i]), head, rest, []);
      assert head + rest + [] == Encode(rs);
    }
  }

  // In well-formed text, exactly when the bytes of a syllable stand somewhere in it.
  lemma HangulOccursIff(s: bytes)
    requires Valid(s)
    ensures HasHangul(s) <==> exists r :: Syllable(r) && Occurs(EncodeRune(r), s)
  {
    HasHangulIff(s);
    RunesAreScalar(s);
    EncodeOfAll(s);
    if i :| 0 <= i < |Runes(s)| && Syllable(Runes(s)[i]) {
      RuneOccurs(Runes(s), i);
      assert Syllable(Runes(s)[i]) && Occurs(EncodeRune(Runes(s)[i]), s);
    }
    if r :| Syllable(r) && Occurs(EncodeRune(r), s) {
      var i :| OccursAt(EncodeRune(r), s, i);
      RuneInEncoded(r, Runes(s), i);
    }
  }

  // Decoding a valid string and encoding it again gives it back.
  lemma {:induction false} EncodeOfAll(s: bytes)
    requires Valid(s)
    ensures Encode(Runes(s)) == s
  {
    if s == [] {
    } else {
      var rest := s[Width(s)..];
      EncodeOfAll(rest);
      EncodeOfFirst(s, Runes(rest));
    }
  }

  lemma {:induction false} EncodeOfFirst(s: bytes, rs: seq<int>)
    requires s != [] && Width(s) > 0 && Encode(rs) == s[Width(s)..]
    ensures Encode([Head(s)] + rs) == s
  {
    EncodeOfHead(s);
    EncodePrepend(Head(s), rs);
    assert s == s[..Width(s)] + s[Width(s)..];
  }

  lemma {:induction false} EncodePrepend(r: int, rs: seq<int>)
    ensures Encode([r] + rs) == EncodeRune(r) + Encode(rs)
  {
    assert ([r] + rs)[1..] == rs;
  }
}
