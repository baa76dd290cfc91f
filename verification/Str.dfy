// Operations of Go's strings and path packages on character strings.
module Str {
  // unicode.IsSpace
  predicate IsSpace(c: char) {
    var r := c as int;
    9 <= r <= 13 || r == 0x20 || r == 0x85 || r == 0xA0 || r == 0x1680 || 0x2000 <= r <= 0x200A
    || r == 0x2028 || r == 0x2029 || r == 0x202F || r == 0x205F || r == 0x3000
  }

  function TrimStart(s: string): string {
    if s != "" && IsSpace(s[0]) then TrimStart(s[1..]) else s
  }

  function TrimEnd(s: string): string {
    if s != "" && IsSpace(s[|s| - 1]) then TrimEnd(s[..|s| - 1]) else s
  }

  // strings.TrimSpace
  function TrimSpace(s: string): string { TrimEnd(TrimStart(s)) }

  lemma {:induction false} TrimEndKeepsHead(s: string)
    requires s != "" && !IsSpace(s[0])
    ensures TrimEnd(s) != "" && TrimEnd(s)[0] == s[0]
  {
    if |s| == 1 {
    } else if IsSpace(s[|s| - 1]) {
      TrimEndKeepsHead(s[..|s| - 1]);
    }
  }

  predicate HasPrefix(s: string, p: string) { p <= s }

  // strings.HasSuffix, character by character.
  predicate HasSuffix(s: string, p: string) {
    |p| <= |s| && forall i :: 0 <= i < |p| ==> s[|s| - |p| + i] == p[i]
  }

  // strings.TrimRight and TrimLeft with a one-character cutset.
  function TrimRightChar(s: string, c: char): (t: string)
    ensures t <= s && (t == "" || t[|t| - 1] != c)
  {
    if s != "" && s[|s| - 1] == c then TrimRightChar(s[..|s| - 1], c) else s
  }

  function TrimLeftChar(s: string, c: char): (t: string)
    ensures |t| <= |s| && (forall i :: 0 <= i < |t| ==> t[i] == s[|s| - |t| + i]) && (t == "" || t[0] != c)
  {
    if s != "" && s[0] == c then TrimLeftChar(s[1..], c) else s
  }

  // strings.Trim
  function TrimChar(s: string, c: char): string { TrimRightChar(TrimLeftChar(s, c), c) }

  // The first position from from on that holds c, the length of s when there is none.
  function IndexFrom(s: string, c: char, from: nat): (i: nat)
    requires from <= |s|
    ensures from <= i <= |s| && (i < |s| ==> s[i] == c) && forall j :: from <= j < i ==> s[j] != c
    decreases |s| - from
  {
    if from == |s| || s[from] == c then from else IndexFrom(s, c, from + 1)
  }

  lemma IndexFromFirst(s: string, c: char, from: nat, i: nat)
    requires from <= i < |s| && s[i] == c && forall j :: from <= j < i ==> s[j] != c
    ensures IndexFrom(s, c, from) == i
  {}

  // path.Base of a path that ends in no slash: what stands after its last slash.
  function BaseOf(p: string): string {
    if p == "" || p[|p| - 1] == '/' then "" else BaseOf(p[..|p| - 1]) + [p[|p| - 1]]
  }

  // ---------- what they mean ----------

  lemma PrefixIff(s: string, p: string)
    ensures HasPrefix(s, p) <==> exists t :: s == p + t
  {
    if p <= s { assert s == p + s[|p|..]; }
  }

  lemma SuffixIff(s: string, p: string)
    ensures HasSuffix(s, p) <==> exists t :: s == t + p
  {
    if HasSuffix(s, p) { assert s == s[..|s| - |p|] + p; }
    if t :| s == t + p {
      assert |s| - |p| == |t|;
    }
  }

  // The base name stands after the last slash, or is the whole path when there is none.
  lemma {:induction false} BaseOfLast(before: string, name: string)
    requires '/' !in name && (before == "" || before[|before| - 1] == '/')
    ensures BaseOf(before + name) == name
  {
    if name == "" {
      assert before + name == before;
    } else {
      var n := |name| - 1;
      assert (before + name)[..|before + name| - 1] == before + name[..n];
      assert name[n] in name && forall c :: c in name[..n] ==> c in name;
      BaseOfLast(before, name[..n]);
    }
  }
}
