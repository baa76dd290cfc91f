// Decimal numerals: what %d prints and what Atoi and int() read, as digit lists, characters and bytes.
module Numbers {
  import opened Text

  type digit = d: int | 0 <= d < 10

  function Digits(n: nat): (ds: seq<digit>)
    ensures |ds| >= 1
  {
    if n < 10 then [n] else Digits(n / 10) + [n % 10]
  }

  function ValueOf(ds: seq<digit>): nat {
    if ds == [] then 0 else 10 * ValueOf(ds[..|ds| - 1]) + ds[|ds| - 1]
  }

  lemma {:induction false} ValueOfDigits(n: nat)
    ensures ValueOf(Digits(n)) == n
  {
    if n >= 10 {
      ValueOfDigits(n / 10);
      assert Digits(n)[..|Digits(n)| - 1] == Digits(n / 10);
    } else {
      assert Digits(n)[..0] == [];
    }
  }

  lemma {:induction false} ValueOfPadded(ds: seq<digit>)
    ensures ValueOf([0] + ds) == ValueOf(ds)
  {
    if ds == [] {
      assert ([0] + ds)[..0] == [];
    } else {
      ValueOfPadded(ds[..|ds| - 1]);
      assert ([0] + ds)[..|ds|] == [0] + ds[..|ds| - 1];
    }
  }

  // ---------- characters ----------

  predicate DigitChar(c: char) { '0' <= c <= '9' }

  function CharOf(d: digit): (c: char)
    ensures DigitChar(c)
  { '0' + d as char }

  function Chars(ds: seq<digit>): string { seq(|ds|, i requires 0 <= i < |ds| => CharOf(ds[i])) }

  function DigitsOfChars(s: string): Option<seq<digit>> {
    if exists i :: 0 <= i < |s| && !DigitChar(s[i]) then None
    else Some(seq(|s|, i requires 0 <= i < |s| => s[i] as int - '0' as int))
  }

  // An unsigned numeral; the empty string is none.
  function ReadNat(s: string): Option<nat> {
    if s == "" then None
    else match DigitsOfChars(s) case None => None case Some(ds) => Some(ValueOf(ds))
  }

  function PrintNat(n: nat): string { Chars(Digits(n)) }

  // %d
  function PrintInt(n: int): string { if n < 0 then "-" + PrintNat(-n) else PrintNat(n) }

  function ReadInt(s: string): Option<int> {
    if s != "" && s[0] == '-' then Negated(ReadNat(s[1..])) else ReadNat(s)
  }

  function Negated(n: Option<int>): Option<int> {
    match n case None => None case Some(v) => Some(-v)
  }

  lemma DigitsRoundTrip(ds: seq<digit>)
    ensures DigitsOfChars(Chars(ds)) == Some(ds)
    ensures forall i :: 0 <= i < |ds| ==> DigitChar(Chars(ds)[i])
  {
    var s := Chars(ds);
    assert seq(|s|, i requires 0 <= i < |s| => s[i] as int - '0' as int) == ds;
  }

  lemma NatRoundTrip(n: nat)
    ensures PrintNat(n) != "" && ReadNat(PrintNat(n)) == Some(n)
    ensures forall i :: 0 <= i < |PrintNat(n)| ==> DigitChar(PrintNat(n)[i])
  {
    ValueOfDigits(n);
    DigitsRoundTrip(Digits(n));
  }

  lemma ReadSigned(t: string)
    ensures ReadInt("-" + t) == Negated(ReadNat(t))
    ensures t != "" && DigitChar(t[0]) ==> ReadInt(t) == ReadNat(t)
  {
    assert ("-" + t)[1..] == t;
  }

  lemma IntRoundTrip(n: int)
    ensures ReadInt(PrintInt(n)) == Some(n)
    ensures forall i :: 0 <= i < |PrintInt(n)| ==> DigitChar(PrintInt(n)[i]) || PrintInt(n)[i] == '-'
  {
    var m := if n < 0 then -n else n;
    NatRoundTrip(m);
    ReadSigned(PrintNat(m));
  }

  // The only printed number that starts with a zero is zero itself; a sign is printed for negative numbers alone.
  lemma {:induction false} PrintIsCanonical(n: int)
    ensures n == 0 ==> PrintInt(n) == "0"
    ensures n > 0 ==> PrintInt(n)[0] != '0' && PrintInt(n)[0] != '-'
    ensures n < 0 ==> |PrintInt(n)| > 1 && PrintInt(n)[0] == '-' && PrintInt(n)[1] != '0'
  {
    if n != 0 {
      var m := if n < 0 then -n else n;
      LeadingDigit(m);
      assert Chars(Digits(m))[0] == CharOf(Digits(m)[0]);
    }
  }

  lemma {:induction false} LeadingDigit(n: nat)
    requires n > 0
    ensures Digits(n) != [] && Digits(n)[0] != 0
  {
    if n >= 10 { LeadingDigit(n / 10); }
  }

  // A text reads as a number exactly when it is made of digits and there is one.
  lemma ReadNatIff(s: string)
    ensures ReadNat(s).Some? <==> s != "" && forall i :: 0 <= i < |s| ==> '0' <= s[i] <= '9'
  {}
}
