/** Unpadded base64url (sections 5 and 3.2 of RFC 4648), as two loops over a 32-bit buffer
    that wraps around, and as groups of bits. */
module Base64Url {
  import opened Wrappers
  import opened Values

  const WIDTH: int := 0x1_0000_0000

  predicate IsBytes(s: string) { forall i | 0 <= i < |s| :: s[i] as int < 256 }

  /** The letter at position `v` of the alphabet: A-Z, a-z, 0-9, - and _. */
  function Letter(v: nat): (c: char)
    requires v < 64
    ensures LetterValue(c) == v
  {
    if v < 26 then (v + 'A' as int) as char
    else if v < 52 then (v - 26 + 'a' as int) as char
    else if v < 62 then (v - 52 + '0' as int) as char
    else if v == 62 then '-'
    else '_'
  }

  /** The number that a letter stands for, or -1. */
  function LetterValue(c: char): (v: int)
    ensures -1 <= v < 64
  {
    if 'A' <= c <= 'Z' then c as int - 'A' as int
    else if 'a' <= c <= 'z' then c as int - 'a' as int + 26
    else if '0' <= c <= '9' then c as int - '0' as int + 52
    else if c == '-' then 62
    else if c == '_' then 63
    else -1
  }

  type Sextet = v: nat | v < 64

  // ----- groups of bits

  function High6(a: Byte): Sextet { a / 4 }
  function Low2High4(a: Byte, b: Byte): Sextet { a % 4 * 16 + b / 16 }
  function Low4High2(b: Byte, c: Byte): Sextet { b % 16 * 4 + c / 64 }
  function Low6(c: Byte): Sextet { c % 64 }

  function First(v: Sextet, w: Sextet): Byte { v * 4 + w / 16 }
  function Second(v: Sextet, w: Sextet): Byte { v % 16 * 16 + w / 4 }
  function Third(v: Sextet, w: Sextet): Byte { v % 4 * 64 + w }

  /** Three bytes make four letters; one or two bytes at the end make two or three. */
  function Encoded(s: string): string
    requires IsBytes(s)
  {
    if s == [] then []
    else
      var a := s[0] as int;
      if |s| == 1 then [Letter(High6(a)), Letter(Low2High4(a, 0))]
      else
        var b := s[1] as int;
        if |s| == 2 then [Letter(High6(a)), Letter(Low2High4(a, b)), Letter(Low4High2(b, 0))]
        else
          var c := s[2] as int;
          [Letter(High6(a)), Letter(Low2High4(a, b)), Letter(Low4High2(b, c)), Letter(Low6(c))] + Encoded(s[3..])
  }

  predicate AllLetters(t: string) { forall i | 0 <= i < |t| :: LetterValue(t[i]) >= 0 }

  /** Four letters make three bytes; two or three letters at the end make one or two, and one makes none. */
  function Decoded(t: string): string
    requires AllLetters(t)
  {
    if |t| <= 1 then []
    else
      var a, b := LetterValue(t[0]), LetterValue(t[1]);
      if |t| == 2 then [First(a, b) as char]
      else
        var c := LetterValue(t[2]);
        if |t| == 3 then [First(a, b) as char, Second(b, c) as char]
        else
          var d := LetterValue(t[3]);
          [First(a, b) as char, Second(b, c) as char, Third(c, d) as char] + Decoded(t[4..])
  }

  lemma Times(m: int, d: int)
    requires m > 0
    ensures d > 0 ==> m * d >= m
    ensures d < 0 ==> m * d <= -m
  {}

  lemma DivUnique(x: int, m: int, q: int, r: int)
    requires m > 0 && x == m * q + r && 0 <= r < m
    ensures x / m == q && x % m == r
  {
    var d := x / m - q;
    assert m * d == r - x % m;
    Times(m, d);
  }

  /** The bytes come back from the sextets that hold their bits. */
  lemma BitsCome(a: Byte, b: Byte, c: Byte)
    ensures First(High6(a), Low2High4(a, b)) == a
    ensures Second(Low2High4(a, b), Low4High2(b, c)) == b
    ensures Third(Low4High2(b, c), Low6(c)) == c
  {
    DivUnique(Low2High4(a, b), 16, a % 4, b / 16);
    DivUnique(Low4High2(b, c), 4, b % 16, c / 64);
  }

  lemma {:induction false} EncodedIsLetters(s: string)
    requires IsBytes(s)
    ensures AllLetters(Encoded(s))
  {
    hide High6, Low2High4, Low4High2, Low6, Letter;
    if |s| > 2 { EncodedIsLetters(s[3..]); }
  }

  lemma {:induction false} DecodedEncoded(s: string)
    requires IsBytes(s)
    ensures AllLetters(Encoded(s)) && Decoded(Encoded(s)) == s
  {
    hide High6, Low2High4, Low4High2, Low6, First, Second, Third, Letter, LetterValue;
    EncodedIsLetters(s);
    if |s| == 1 {
      BitsCome(s[0] as int, 0, 0);
    } else if |s| == 2 {
      BitsCome(s[0] as int, s[1] as int, 0);
    } else if |s| > 2 {
      BitsCome(s[0] as int, s[1] as int, s[2] as int);
      DecodedEncoded(s[3..]);
      assert Encoded(s)[4..] == Encoded(s[3..]);
    }
  }

  // ----- the loops

  function Pow2(n: nat): (r: nat)
    ensures r > 0
  {
    if n == 0 then 1 else 2 * Pow2(n - 1)
  }

  lemma Powers()
    ensures Pow2(0) == 1 && Pow2(2) == 4 && Pow2(4) == 16 && Pow2(6) == 64
  {
    assert Pow2(1) == 2 && Pow2(3) == 8 && Pow2(5) == 32;
  }

  /** The buffer wraps around, but only above the bits that are still needed. */
  lemma LowBits(x: int, m: int, n: int)
    requires m > 0 && m * n == WIDTH
    ensures x % WIDTH % m == x % m
  {
    var q, r := x / WIDTH, x % WIDTH;
    assert WIDTH * q == m * (n * q);
    assert x == m * (n * q + r / m) + r % m;
    DivUnique(x, m, n * q + r / m, r % m);
  }

  /** Six bits out of the lowest `n`. */
  lemma Middle(x: int, m: int)
    requires x >= 0 && (m == 4 || m == 16 || m == 64)
    ensures x / m % 64 == x % (64 * m) / m
  {
    var q, r := x / (64 * m), x % (64 * m);
    DivUnique(x, m, 64 * q + r / m, r % m);
    DivUnique(64 * q + r / m, 64, q, r / m);
  }

  /** The buffer after the byte `c` has been shifted in. */
  function ShiftedIn(buffer: nat, c: Byte): (r: nat)
    ensures r < WIDTH
  {
    (buffer * 256 + c) % WIDTH
  }

  /** (buffer >> bits) & 0x3f */
  function TakenOut(buffer: nat, bits: nat): Sextet { buffer / Pow2(bits) % 64 }

  /** (buffer << (6 - bits)) & 0x3f */
  function Flushed(buffer: nat, bits: nat): Sextet
    requires bits <= 6
  {
    buffer * Pow2(6 - bits) % WIDTH % 64
  }

  /** What the loop takes out of the buffer, first, second and third time. */
  lemma TakesHigh6(buffer: nat, a: Byte)
    ensures ShiftedIn(buffer, a) / 4 % 64 == High6(a) && ShiftedIn(buffer, a) % 4 == a % 4
  {
    var x := buffer * 256 + a;
    DivUnique(x, 256, buffer, a);
    DivUnique(x, 4, buffer * 64 + a / 4, a % 4);
    LowBits(x, 256, 16777216);
    LowBits(x, 4, 1073741824);
    Middle(ShiftedIn(buffer, a), 4);
  }

  lemma TakesLow2High4(buffer: nat, a: Byte, b: Byte)
    requires buffer % 4 == a % 4
    ensures ShiftedIn(buffer, b) / 16 % 64 == Low2High4(a, b) && ShiftedIn(buffer, b) % 16 == b % 16
  {
    var x := buffer * 256 + b;
    DivUnique(x, 1024, buffer / 4, a % 4 * 256 + b);
    DivUnique(x, 16, buffer * 16 + b / 16, b % 16);
    LowBits(x, 1024, 4194304);
    LowBits(x, 16, 268435456);
    Middle(ShiftedIn(buffer, b), 16);
    DivUnique(a % 4 * 256 + b, 16, a % 4 * 16 + b / 16, b % 16);
  }

  lemma TakesLow4High2(buffer: nat, b: Byte, c: Byte)
    requires buffer % 16 == b % 16
    ensures ShiftedIn(buffer, c) / 64 % 64 == Low4High2(b, c) && ShiftedIn(buffer, c) % 64 == Low6(c)
  {
    var x := buffer * 256 + c;
    DivUnique(x, 4096, buffer / 16, b % 16 * 256 + c);
    DivUnique(x, 64, buffer * 4 + c / 64, c % 64);
    LowBits(x, 4096, 1048576);
    LowBits(x, 64, 67108864);
    Middle(ShiftedIn(buffer, c), 64);
    DivUnique(b % 16 * 256 + c, 64, b % 16 * 4 + c / 64, c % 64);
  }

  /** What is left in the buffer at the end. */
  lemma TakesRest(buffer: nat, a: Byte)
    ensures buffer % 4 == a % 4 ==> buffer * 16 % WIDTH % 64 == Low2High4(a, 0)
    ensures buffer % 16 == a % 16 ==> buffer * 4 % WIDTH % 64 == Low4High2(a, 0)
  {
    LowBits(buffer * 16, 64, 67108864);
    LowBits(buffer * 4, 64, 67108864);
    DivUnique(buffer * 16, 64, buffer / 4, buffer % 4 * 16);
    DivUnique(buffer * 4, 64, buffer / 16, buffer % 16 * 4);
  }

  /** How far the loop has come within its group of three bytes, and by what the buffer ends. */
  ghost predicate Pending(input: string, i: nat, bits: int, buffer: int)
    requires IsBytes(input) && i <= |input|
  {
    && 0 <= buffer < WIDTH
    && bits == i % 3 * 2
    && (i % 3 == 1 ==> buffer % 4 == input[i - 1] as int % 4)
    && (i % 3 == 2 ==> buffer % 16 == input[i - 1] as int % 16)
  }

  /** The letters of the group that byte `i` is in, and of all after it. */
  ghost function Rest(input: string, i: nat): string
    requires IsBytes(input) && i <= |input|
  {
    Encoded(input[i - i % 3..])
  }

  /** The letters that the buffer gives are the next ones. */
  lemma NextLetters(input: string, i: nat, before: int, buffer: int)
    requires IsBytes(input) && i < |input| && Pending(input, i, i % 3 * 2, before)
    requires buffer == ShiftedIn(before, input[i] as int)
    ensures Pending(input, i + 1, (i + 1) % 3 * 2, buffer)
    ensures |Rest(input, i)| > i % 3 && Rest(input, i)[i % 3] == Letter(TakenOut(buffer, i % 3 * 2 + 2))
    ensures i % 3 == 2 ==> |Rest(input, i)| > 3 && Rest(input, i)[3] == Letter(TakenOut(buffer, 0))
    ensures i % 3 == 2 ==> Rest(input, i)[4..] == Rest(input, i + 1)[0..]
    ensures i % 3 < 2 ==> Rest(input, i) == Rest(input, i + 1)
  {
    hide High6, Low2High4, Low4High2, Low6, ShiftedIn, Letter;
    Powers();
    var group := input[i - i % 3..];
    assert group[i % 3] == input[i];
    if i % 3 == 0 {
      TakesHigh6(before, input[i] as int);
    } else if i % 3 == 1 {
      assert group[0] == input[i - 1];
      TakesLow2High4(before, group[0] as int, input[i] as int);
    } else {
      assert group[1] == input[i - 1];
      TakesLow4High2(before, group[1] as int, input[i] as int);
      assert group[3..] == input[i + 1..];
    }
  }

  method Encode(input: string) returns (out: string)
    requires IsBytes(input)
    ensures out == Encoded(input)
  {
    hide Encoded, Letter, Pending, Rest, ShiftedIn, TakenOut, Flushed;
    out := "";
    var buffer, bits := 0, 0;
    Begins(input);
    for i := 0 to |input|
      invariant buffer >= 0 && bits == i % 3 * 2 && Pending(input, i, bits, buffer)
      invariant i % 3 <= |Rest(input, i)| && out + Rest(input, i)[i % 3..] == Encoded(input)
    {
      ghost var rest, phase := Rest(input, i), i % 3;
      NextLetters(input, i, buffer, ShiftedIn(buffer, input[i] as int));
      buffer := ShiftedIn(buffer, input[i] as int);
      bits := bits + 8;
      ghost var k := phase;
      while bits >= 6
        invariant 0 <= bits == phase * 2 + 8 - 6 * (k - phase) && phase <= k <= (if phase == 2 then 4 else phase + 1)
        invariant k <= |rest| && out + rest[k..] == Encoded(input)
      {
        bits := bits - 6;
        assert rest[k] == Letter(TakenOut(buffer, bits)) by {
          assert if k == phase then bits == phase * 2 + 2 else k == 3 && bits == 0;
        }
        OneMore(out, rest, k);
        out := out + [Letter(TakenOut(buffer, bits))];
        k := k + 1;
      }
      NextPhase(i);
    }
    LastLetter(input, bits, buffer);
    if bits > 0 {
      out := out + [Letter(Flushed(buffer, bits))];
    }
  }

  lemma Begins(input: string)
    requires IsBytes(input)
    ensures Pending(input, 0, 0, 0) && Rest(input, 0)[0..] == Encoded(input)
  {}

  lemma NextPhase(i: nat)
    ensures (i + 1) % 3 == if i % 3 == 2 then 0 else i % 3 + 1
  {}

  lemma OneMore(out: string, rest: string, k: nat)
    requires k < |rest|
    ensures out + rest[k..] == out + [rest[k]] + rest[k + 1..]
  {}

  lemma LastLetter(input: string, bits: int, buffer: int)
    requires IsBytes(input) && Pending(input, |input|, bits, buffer)
    ensures bits <= 4
    ensures bits > 0 ==>
              |Rest(input, |input|)| >= |input| % 3
              && Rest(input, |input|)[|input| % 3..] == [Letter(Flushed(buffer, bits))]
    ensures bits == 0 ==> Rest(input, |input|) == []
  {
    hide High6, Low2High4, Low4High2, Low6, Letter;
    Powers();
    if bits > 0 {
      var group := input[|input| - |input| % 3..];
      assert group[|group| - 1] == input[|input| - 1];
      TakesRest(buffer, input[|input| - 1] as int);
    }
  }

  // ----- decoding

  /** The buffer after the sextet `v` has been shifted in. */
  function ShiftedIn6(buffer: nat, v: Sextet): (r: nat)
    ensures r < WIDTH
  {
    (buffer * 64 + v) % WIDTH
  }

  /** (buffer >> bits) & 0xff */
  function ByteOut(buffer: nat, bits: nat): Byte { buffer / Pow2(bits) % 256 }

  /** Eight bits out of the lowest. */
  lemma Middle8(x: int, m: int)
    requires x >= 0 && (m == 1 || m == 4 || m == 16)
    ensures x / m % 256 == x % (256 * m) / m
  {
    var q, r := x / (256 * m), x % (256 * m);
    DivUnique(x, m, 256 * q + r / m, r % m);
    DivUnique(256 * q + r / m, 256, q, r / m);
  }

  lemma KeepsSextet(buffer: nat, v: Sextet)
    ensures ShiftedIn6(buffer, v) % 64 == v
  {
    LowBits(buffer * 64 + v, 64, 67108864);
    DivUnique(buffer * 64 + v, 64, buffer, v);
  }

  lemma GivesFirst(buffer: nat, v: Sextet, w: Sextet)
    requires buffer % 64 == v
    ensures ShiftedIn6(buffer, w) / 16 % 256 == First(v, w) && ShiftedIn6(buffer, w) % 16 == w % 16
  {
    var x := buffer * 64 + w;
    DivUnique(x, 4096, buffer / 64, v * 64 + w);
    DivUnique(x, 16, buffer * 4 + w / 16, w % 16);
    LowBits(x, 4096, 1048576);
    LowBits(x, 16, 268435456);
    Middle8(ShiftedIn6(buffer, w), 16);
    DivUnique(v * 64 + w, 16, v * 4 + w / 16, w % 16);
  }

  lemma GivesSecond(buffer: nat, v: Sextet, w: Sextet)
    requires buffer % 16 == v % 16
    ensures ShiftedIn6(buffer, w) / 4 % 256 == Second(v, w) && ShiftedIn6(buffer, w) % 4 == w % 4
  {
    var x := buffer * 64 + w;
    DivUnique(x, 1024, buffer / 16, v % 16 * 64 + w);
    DivUnique(x, 4, buffer * 16 + w / 4, w % 4);
    LowBits(x, 1024, 4194304);
    LowBits(x, 4, 1073741824);
    Middle8(ShiftedIn6(buffer, w), 4);
    DivUnique(v % 16 * 64 + w, 4, v % 16 * 16 + w / 4, w % 4);
  }

  lemma GivesThird(buffer: nat, v: Sextet, w: Sextet)
    requires buffer % 4 == v % 4
    ensures ShiftedIn6(buffer, w) % 256 == Third(v, w)
  {
    var x := buffer * 64 + w;
    DivUnique(x, 256, buffer / 4, v % 4 * 64 + w);
    LowBits(x, 256, 16777216);
  }

  /** How far the loop has come within its group of four letters, and by what the buffer ends. */
  ghost predicate PendingLetters(input: string, i: nat, bits: int, buffer: int)
    requires AllLetters(input) && i <= |input|
  {
    && 0 <= buffer < WIDTH
    && bits == (4 - i % 4) % 4 * 2
    && (i % 4 == 1 ==> buffer % 64 == LetterValue(input[i - 1]))
    && (i % 4 == 2 ==> buffer % 16 == LetterValue(input[i - 1]) % 16)
    && (i % 4 == 3 ==> buffer % 4 == LetterValue(input[i - 1]) % 4)
  }

  /** The bytes of the group that letter `i` is in that are still to come, and of all after it. */
  ghost function BytesToCome(input: string, i: nat): string
    requires AllLetters(input) && i <= |input|
  {
    var bytes := Decoded(input[i - i % 4..]);
    var done := if i % 4 <= 1 then 0 else i % 4 - 1;
    if done <= |bytes| then bytes[done..] else []
  }

  /** Every letter but the first of a group gives the next byte. */
  lemma NextByte(input: string, i: nat, bits: int, before: int, buffer: int)
    requires AllLetters(input) && i < |input| && PendingLetters(input, i, bits, before)
    requires buffer == ShiftedIn6(before, LetterValue(input[i]))
    ensures bits + 6 >= 8 <==> i % 4 != 0
    ensures PendingLetters(input, i + 1, if i % 4 == 0 then 6 else bits - 2, buffer)
    ensures BytesToCome(input, i)
         == (if i % 4 == 0 then [] else [ByteOut(buffer, bits - 2) as char]) + BytesToCome(input, i + 1)
  {
    hide BytesToCome, ShiftedIn6, LetterValue, ByteOut, Decoded;
    NextPending(input, i, bits, before, buffer);
    NextToCome(input, i, bits, before, buffer);
  }

  lemma NextPending(input: string, i: nat, bits: int, before: int, buffer: int)
    requires AllLetters(input) && i < |input| && PendingLetters(input, i, bits, before)
    requires buffer == ShiftedIn6(before, LetterValue(input[i]))
    ensures PendingLetters(input, i + 1, if i % 4 == 0 then 6 else bits - 2, buffer)
  {
    hide ShiftedIn6, LetterValue, ByteOut, Decoded, First, Second, Third;
    NextBits(i % 4, before, LetterValue(input[i]), if i % 4 == 0 then 0 else LetterValue(input[i - 1]));
    NextOfFour(i);
  }

  lemma NextToCome(input: string, i: nat, bits: int, before: int, buffer: int)
    requires AllLetters(input) && i < |input| && PendingLetters(input, i, bits, before)
    requires buffer == ShiftedIn6(before, LetterValue(input[i]))
    ensures BytesToCome(input, i)
         == (if i % 4 == 0 then [] else [ByteOut(buffer, bits - 2) as char]) + BytesToCome(input, i + 1)
  {
    hide First, Second, Third, ShiftedIn6, LetterValue, ByteOut, Decoded, BytesToCome;
    var group, p := input[i - i % 4..], i % 4;
    assert group[p] == input[i] && (p > 0 ==> group[p - 1] == input[i - 1]);
    GroupGives(group);
    NextBits(p, before, LetterValue(input[i]), if p == 0 then 0 else LetterValue(input[i - 1]));
    ToComeHere(input, i);
    ToComeNext(input, i);
    hide AllLetters;
    if p > 0 { OneByteMore(Decoded(group), p - 1); }
    if p == 3 { assert group[4..] == input[i + 1..]; }
  }

  lemma ToComeHere(input: string, i: nat)
    requires AllLetters(input) && i < |input|
    ensures var p, bytes := i % 4, Decoded(input[i - i % 4..]);
            BytesToCome(input, i) == if p <= 1 then bytes else if p - 1 <= |bytes| then bytes[p - 1..] else []
  {
    hide Decoded, LetterValue;
  }

  lemma ToComeNext(input: string, i: nat)
    requires AllLetters(input) && i < |input|
    ensures i % 4 == 3 ==> BytesToCome(input, i + 1) == Decoded(input[i + 1..])
    ensures var p, bytes := i % 4, Decoded(input[i - i % 4..]);
            p < 3 && p <= |bytes| ==> BytesToCome(input, i + 1) == bytes[p..]
  {
    hide Decoded, LetterValue;
    NextOfFour(i);
    if i % 4 == 3 {
      assert i + 1 - (i + 1) % 4 == i + 1;
    } else {
      assert i + 1 - (i + 1) % 4 == i - i % 4;
    }
  }

  lemma OneByteMore(bytes: string, n: nat)
    requires n < |bytes|
    ensures bytes[n..] == [bytes[n]] + bytes[n + 1..]
  {}

  lemma NextOfFour(i: nat)
    ensures (i + 1) % 4 == if i % 4 == 3 then 0 else i % 4 + 1
  {}

  /** What a group decodes to, byte by byte. */
  lemma GroupGives(t: string)
    requires AllLetters(t)
    ensures |t| <= 1 ==> Decoded(t) == []
    ensures |t| > 1 ==> |Decoded(t)| > 0 && Decoded(t)[0] == First(LetterValue(t[0]), LetterValue(t[1])) as char
    ensures |t| == 2 ==> |Decoded(t)| == 1
    ensures |t| > 2 ==> |Decoded(t)| > 1 && Decoded(t)[1] == Second(LetterValue(t[1]), LetterValue(t[2])) as char
    ensures |t| == 3 ==> |Decoded(t)| == 2
    ensures |t| > 3 ==> |Decoded(t)| > 2 && Decoded(t)[2] == Third(LetterValue(t[2]), LetterValue(t[3])) as char
    ensures |t| > 3 ==> Decoded(t)[3..] == Decoded(t[4..])
  {
    hide First, Second, Third, LetterValue;
  }

  lemma NextBits(p: nat, before: nat, v: Sextet, u: Sextet)
    requires p < 4
    requires p == 1 ==> before % 64 == u
    requires p == 2 ==> before % 16 == u % 16
    requires p == 3 ==> before % 4 == u % 4
    ensures p == 0 ==> ShiftedIn6(before, v) % 64 == v
    ensures p == 1 ==> ByteOut(ShiftedIn6(before, v), 4) == First(u, v) && ShiftedIn6(before, v) % 16 == v % 16
    ensures p == 2 ==> ByteOut(ShiftedIn6(before, v), 2) == Second(u, v) && ShiftedIn6(before, v) % 4 == v % 4
    ensures p == 3 ==> ByteOut(ShiftedIn6(before, v), 0) == Third(u, v)
  {
    hide ShiftedIn6, First, Second, Third;
    Powers();
    match p {
      case 0 => KeepsSextet(before, v);
      case 1 => GivesFirst(before, u, v);
      case 2 => GivesSecond(before, u, v);
      case 3 => GivesThird(before, u, v);
    }
  }

  /** Rejects exactly the texts with a character outside the alphabet. */
  method Decode(input: string) returns (r: Option<string>)
    ensures r == if AllLetters(input) then Some(Decoded(input)) else None
  {
    hide Decoded, LetterValue, PendingLetters, BytesToCome, ShiftedIn6, ByteOut;
    var out := "";
    var buffer, bits := 0, 0;
    if AllLetters(input) { BeginsLetters(input); }
    for i := 0 to |input|
      invariant forall j | 0 <= j < i :: LetterValue(input[j]) >= 0
      invariant buffer >= 0 && bits == (4 - i % 4) % 4 * 2
      invariant AllLetters(input)
                ==> PendingLetters(input, i, bits, buffer) && out + BytesToCome(input, i) == Decoded(input)
    {
      var value := LetterValue(input[i]);
      if value < 0 {
        return None;
      }
      if AllLetters(input) { NextByte(input, i, bits, buffer, ShiftedIn6(buffer, value)); }
      buffer := ShiftedIn6(buffer, value);
      bits := bits + 6;
      if bits >= 8 {
        bits := bits - 8;
        out := out + [ByteOut(buffer, bits) as char];
      }
    }
    NothingToCome(input);
    assert out + BytesToCome(input, |input|) == out;
    return Some(out);
  }

  lemma BeginsLetters(input: string)
    requires AllLetters(input)
    ensures PendingLetters(input, 0, 0, 0) && BytesToCome(input, 0) == Decoded(input)
  {}

  lemma NothingToCome(input: string)
    requires AllLetters(input)
    ensures BytesToCome(input, |input|) == []
  {
    hide Decoded;
    var group := input[|input| - |input| % 4..];
    assert |group| == |input| % 4;
    GroupGives(group);
    var done := if |group| <= 1 then 0 else |group| - 1;
    assert |Decoded(group)| == done && Decoded(group)[done..] == [];
  }
}
