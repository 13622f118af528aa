/** Decimal text as the standard library writes and reads it. */
module Decimals {
  import opened Wrappers

  const U64: int := 0x1_0000_0000_0000_0000
  const I63: int := 0x8000_0000_0000_0000

  predicate IsAlpha(c: char) { 'a' <= c <= 'z' || 'A' <= c <= 'Z' }

  predicate IsDigit(c: char) { '0' <= c <= '9' }

  predicate IsSpace(c: char) { c == ' ' || 9 <= c as int <= 13 }

  /** std::to_string of a number that is not negative */
  function Digits(n: nat): (s: string)
    ensures |s| > 0 && forall i | 0 <= i < |s| :: IsDigit(s[i])
  {
    if n < 10 then [(n + '0' as int) as char] else Digits(n / 10) + [(n % 10 + '0' as int) as char]
  }

  function ToString(i: int): string {
    if i < 0 then "-" + Digits(-i) else Digits(i)
  }

  function NumberOf(s: string): nat
    requires forall i | 0 <= i < |s| :: IsDigit(s[i])
  {
    if s == [] then 0
    else assert IsDigit(s[|s| - 1]); NumberOf(s[..|s| - 1]) * 10 + (s[|s| - 1] as int - '0' as int)
  }

  lemma {:induction false} NumberOfDigits(n: nat)
    ensures NumberOf(Digits(n)) == n
  {
    if n >= 10 {
      NumberOfDigits(n / 10);
      assert Digits(n)[..|Digits(n)| - 1] == Digits(n / 10);
    }
  }

  /** The digits that `s` begins with. */
  function LeadingDigits(s: string): (d: string)
    ensures forall i | 0 <= i < |d| :: IsDigit(d[i])
  {
    if s == [] || !IsDigit(s[0]) then [] else [s[0]] + LeadingDigits(s[1..])
  }

  lemma {:induction false} AllLeading(s: string, t: string)
    requires forall i | 0 <= i < |s| :: IsDigit(s[i])
    requires t == [] || !IsDigit(t[0])
    ensures LeadingDigits(s + t) == s
  {
    if s == [] {
      assert s + t == t;
    } else {
      AllLeading(s[1..], t);
      assert (s + t)[1..] == s[1..] + t;
    }
  }

  function SkipSpace(s: string): string {
    if s != [] && IsSpace(s[0]) then SkipSpace(s[1..]) else s
  }

  /** Sign and magnitude of the number that `s` begins with. What follows it is ignored. */
  function Magnitude(s: string): Option<(bool, nat)> {
    var t := SkipSpace(s);
    var negative := t != [] && t[0] == '-';
    var digits := LeadingDigits(if negative || (t != [] && t[0] == '+') then t[1..] else t);
    if digits == [] then None else Some((negative, NumberOf(digits)))
  }

  /** std::stoull, which negates modulo the width after a minus sign */
  function ParseUnsigned(s: string): (r: Option<nat>)
    ensures r.Some? ==> r.value < U64
  {
    match Magnitude(s)
    case None => None
    case Some((negative, n)) =>
      if n >= U64 then None else if negative then Some((U64 - n) % U64) else Some(n)
  }

  /** std::stoll */
  function ParseSigned(s: string): Option<int> {
    match Magnitude(s)
    case None => None
    case Some((negative, n)) =>
      var m: int := n;
      var i := if negative then -m else m;
      if -I63 <= i < I63 then Some(i) else None
  }

  lemma MagnitudeOf(n: nat)
    ensures Magnitude(Digits(n)) == Some((false, n))
  {
    hide Digits;
    NumberOfDigits(n);
    AllLeading(Digits(n), []);
    assert Digits(n) + [] == Digits(n);
    assert IsDigit(Digits(n)[0]);
  }

  lemma MagnitudeOfNegative(n: nat)
    ensures Magnitude("-" + Digits(n)) == Some((true, n))
  {
    hide Digits;
    NumberOfDigits(n);
    AllLeading(Digits(n), []);
    assert Digits(n) + [] == Digits(n);
    assert ("-" + Digits(n))[1..] == Digits(n);
  }

  lemma UnsignedRoundTrip(n: nat)
    requires n < U64
    ensures ParseUnsigned(Digits(n)) == Some(n)
  {
    MagnitudeOf(n);
  }

  lemma SignedRoundTrip(i: int)
    requires -I63 <= i < I63
    ensures ParseSigned(ToString(i)) == Some(i)
  {
    hide Magnitude, Digits;
    if i < 0 { MagnitudeOfNegative(-i); } else { MagnitudeOf(i); }
  }
}
