/** The base58btc encoding: a bijection that keeps leading zeros, within a fixed length bound. */
module Base58 {
  import opened Wrappers
  import opened Positional

  const ALPHABET := "123456789ABCDEFGHJKLMNPQRSTUVWXYZabcdefghijkmnopqrstuvwxyz"

  /** The character of a digit: 1-9, A-Z without I and O, a-z without l. */
  function Glyph(d: nat): (c: char)
    requires d < 58
    ensures GlyphIndex(c) == d
  {
    if d < 9 then ('1' as int + d) as char
    else if d < 17 then ('A' as int + d - 9) as char
    else if d < 22 then ('J' as int + d - 17) as char
    else if d < 33 then ('P' as int + d - 22) as char
    else if d < 44 then ('a' as int + d - 33) as char
    else ('m' as int + d - 44) as char
  }

  /** The digit of a character, or -1. */
  function GlyphIndex(c: char): (i: int)
    ensures -1 <= i < 58
  {
    if '1' <= c <= '9' then c as int - '1' as int
    else if 'A' <= c <= 'H' then c as int - 'A' as int + 9
    else if 'J' <= c <= 'N' then c as int - 'J' as int + 17
    else if 'P' <= c <= 'Z' then c as int - 'P' as int + 22
    else if 'a' <= c <= 'k' then c as int - 'a' as int + 33
    else if 'm' <= c <= 'z' then c as int - 'm' as int + 44
    else -1
  }

  lemma GlyphOfIndex(c: char)
    requires GlyphIndex(c) >= 0
    ensures Glyph(GlyphIndex(c)) == c
  {}

  /** The characters spell the alphabet. */
  lemma AlphabetSpelled()
    ensures ALPHABET ==
            [Glyph(0), Glyph(1), Glyph(2), Glyph(3), Glyph(4), Glyph(5), Glyph(6), Glyph(7),
             Glyph(8), Glyph(9), Glyph(10), Glyph(11), Glyph(12), Glyph(13), Glyph(14), Glyph(15),
             Glyph(16), Glyph(17), Glyph(18), Glyph(19), Glyph(20), Glyph(21), Glyph(22), Glyph(23),
             Glyph(24), Glyph(25), Glyph(26), Glyph(27), Glyph(28), Glyph(29), Glyph(30), Glyph(31),
             Glyph(32), Glyph(33), Glyph(34), Glyph(35), Glyph(36), Glyph(37), Glyph(38), Glyph(39),
             Glyph(40), Glyph(41), Glyph(42), Glyph(43), Glyph(44), Glyph(45), Glyph(46), Glyph(47),
             Glyph(48), Glyph(49), Glyph(50), Glyph(51), Glyph(52), Glyph(53), Glyph(54), Glyph(55),
             Glyph(56), Glyph(57)]
  {}

  function Chars(ds: seq<nat>): (s: string)
    requires DigitSeq(58, ds)
    ensures |s| == |ds|
  {
    seq(|ds|, i requires 0 <= i < |ds| => Glyph(ds[i]))
  }

  predicate InAlphabet(s: string) { forall i | 0 <= i < |s| :: GlyphIndex(s[i]) >= 0 }

  function Indices(s: string): (ds: seq<nat>)
    requires InAlphabet(s)
    ensures |ds| == |s| && DigitSeq(58, ds)
  {
    seq(|s|, i requires 0 <= i < |s| => GlyphIndex(s[i]))
  }

  /** How many elements of ds are zero before the first that is not. */
  function Zeros(ds: seq<nat>): (n: nat)
    ensures n <= |ds| && (forall i | 0 <= i < n :: ds[i] == 0) && (n < |ds| ==> ds[n] != 0)
  {
    if ds == [] || ds[0] != 0 then 0 else 1 + Zeros(ds[1..])
  }

  function Pad(n: nat): seq<nat> { seq(n, _ => 0) }

  /** Changes base, keeping the number of leading zeros and the value. */
  function Rebase(from: nat, to: nat, ds: seq<nat>): (r: seq<nat>)
    requires to >= 2
    ensures DigitSeq(to, r)
  {
    Pad(Zeros(ds)) + Digits(to, Value(from, ds))
  }

  lemma ZerosOfPadded(n: nat, ds: seq<nat>)
    requires ds == [] || ds[0] != 0
    ensures Zeros(Pad(n) + ds) == n
  {
    var s := Pad(n) + ds;
    var z := Zeros(s);
    assert forall i | 0 <= i < n :: s[i] == 0;
    assert ds != [] ==> s[n] == ds[0];
  }

  /** Changing base and back is the identity on digit sequences. */
  lemma RebaseBack(from: nat, to: nat, ds: seq<nat>)
    requires from >= 2 && to >= 2 && DigitSeq(from, ds)
    ensures Rebase(to, from, Rebase(from, to, ds)) == ds
  {
    var n, x := Zeros(ds), Value(from, ds);
    var rest := ds[n..];
    assert ds == Pad(n) + rest;
    LeadingZeros(from, n, rest);
    DigitsOfValue(from, rest);
    ZerosOfPadded(n, Digits(to, x));
    LeadingZeros(to, n, Digits(to, x));
    ValueOfDigits(to, x);
  }

  function ToBytes(ds: seq<nat>): (b: Bytes)
    requires DigitSeq(256, ds)
    ensures b == ds
  {
    seq(|ds|, i requires 0 <= i < |ds| => ds[i] as Byte)
  }

  function Encode58(b: Bytes): string { Chars(Rebase(256, 58, b)) }

  function Decode58(s: string): Option<Bytes> {
    if InAlphabet(s) then Some(ToBytes(Rebase(58, 256, Indices(s)))) else None
  }

  lemma IndicesOfChars(ds: seq<nat>)
    requires DigitSeq(58, ds)
    ensures InAlphabet(Chars(ds)) && Indices(Chars(ds)) == ds
  {
    var s := Chars(ds);
    assert forall i | 0 <= i < |s| :: s[i] == Glyph(ds[i]);
  }

  lemma CharsOfIndices(s: string)
    requires InAlphabet(s)
    ensures Chars(Indices(s)) == s
  {
    hide GlyphIndex, Glyph;
    forall i | 0 <= i < |s| ensures Glyph(Indices(s)[i]) == s[i] { GlyphOfIndex(s[i]); }
  }

  /** Decoding undoes encoding, on every byte string. */
  lemma DecodeOfEncode(b: Bytes)
    ensures Decode58(Encode58(b)) == Some(b)
  {
    hide Rebase;
    IndicesOfChars(Rebase(256, 58, b));
    RebaseBack(256, 58, b);
  }

  /** Encoding undoes decoding, on every string over the alphabet. */
  lemma EncodeOfDecode(s: string)
    requires InAlphabet(s)
    ensures Decode58(s).Some? && Encode58(Decode58(s).value) == s
  {
    hide Rebase;
    RebaseBack(58, 256, Indices(s));
    CharsOfIndices(s);
  }

  // ---- the length bound ----

  lemma MulMono(a: nat, b: nat, c: nat, d: nat)
    requires a <= b && c <= d
    ensures a * c <= b * d
  {
    assert a * c <= b * c by { assert (b - a) * c >= 0; }
    assert b * c <= b * d by { assert b * (d - c) >= 0; }
  }

  lemma {:induction false} PowSum(base: nat, a: nat, b: nat)
    ensures Pow(base, a + b) == Pow(base, a) * Pow(base, b)
  {
    if b > 0 {
      PowSum(base, a, b - 1);
      MulAssociative(Pow(base, a), Pow(base, b - 1), base);
    }
  }

  lemma MulAssociative(a: nat, b: nat, c: nat)
    ensures a * b * c == a * (b * c)
  {}

  lemma {:induction false} ValueBound(base: nat, ds: seq<nat>)
    requires base > 0 && DigitSeq(base, ds)
    ensures Value(base, ds) < Pow(base, |ds|)
  {
    if ds != [] {
      var init := ds[..|ds| - 1];
      ValueBound(base, init);
      HornerBound(Value(base, init), Pow(base, |init|), base, ds[|ds| - 1]);
    }
  }

  lemma HornerBound(v: nat, p: nat, base: nat, d: nat)
    requires v < p && d < base
    ensures v * base + d < p * base
  {
    assert (v + 1) * base <= p * base by { MulMono(v + 1, p, base, base); }
  }

  lemma {:induction false} DigitsBound(base: nat, x: nat, e: nat)
    requires base >= 2 && x < Pow(base, e)
    ensures |Digits(base, x)| <= e
  {
    if x > 0 {
      assert e > 0;
      DivSmaller(x, base);
      Remainder(x, base);
      if x / base >= Pow(base, e - 1) { MulMono(Pow(base, e - 1), x / base, base, base); }
      DigitsBound(base, x / base, e - 1);
    }
  }

  /** Enough base-58 digits for r octets, 0 <= r < 8. */
  const ENOUGH: seq<nat> := [0, 2, 3, 5, 6, 7, 9, 10]

  lemma SmallPowers()
    ensures forall r | 0 <= r < 8 :: Pow(256, r) <= Pow(58, ENOUGH[r])
    ensures Pow(256, 8) <= Pow(58, 11)
  {
    assert Pow(256, 1) == 256 && Pow(256, 2) == 65536 && Pow(256, 3) == 16777216;
    assert Pow(256, 4) == 4294967296 && Pow(256, 5) == 1099511627776 && Pow(256, 6) == 281474976710656;
    assert Pow(256, 7) == 72057594037927936 && Pow(256, 8) == 18446744073709551616;
    assert Pow(58, 1) == 58 && Pow(58, 2) == 3364 && Pow(58, 3) == 195112 && Pow(58, 4) == 11316496;
    assert Pow(58, 5) == 656356768 && Pow(58, 6) == 38068692544 && Pow(58, 7) == 2207984167552;
    assert Pow(58, 8) == 128063081718016 && Pow(58, 9) == 7427658739644928;
    assert Pow(58, 10) == 430804206899405824 && Pow(58, 11) == 24986644000165537792;
  }

  lemma {:induction false} OctetsFit(q: nat, r: nat)
    requires r < 8
    ensures Pow(256, 8 * q + r) <= Pow(58, 11 * q + ENOUGH[r])
  {
    hide Pow;
    SmallPowers();
    if q > 0 {
      OctetsFit(q - 1, r);
      PowSum(256, 8 * (q - 1) + r, 8);
      PowSum(58, 11 * (q - 1) + ENOUGH[r], 11);
      MulMono(Pow(256, 8 * (q - 1) + r), Pow(58, 11 * (q - 1) + ENOUGH[r]), Pow(256, 8), Pow(58, 11));
    }
  }

  /** The capacity the encoder reserves for n octets. */
  function Capacity(n: nat): nat { n * 138 / 100 + 1 }

  lemma DigitsFit(b: Bytes)
    ensures |Digits(58, Value(256, b))| <= Capacity(|b|)
  {
    var q, r := |b| / 8, |b| % 8;
    OctetsFit(q, r);
    ValueBound(256, b);
    DigitsBound(58, Value(256, b), 11 * q + ENOUGH[r]);
  }

  /** The encoding of n octets never needs more than the reserved capacity. */
  lemma EncodedLength(b: Bytes)
    ensures |Encode58(b)| <= Capacity(|b|)
  {
    var n := Zeros(b);
    var rest := b[n..];
    assert b == Pad(n) + rest;
    LeadingZeros(256, n, rest);
    DigitsFit(rest);
  }

  // ---- the algorithms as they run ----

  function Reversed(s: string): (r: string)
    ensures |r| == |s| && forall i | 0 <= i < |s| :: r[i] == s[|s| - 1 - i]
  {
    seq(|s|, i requires 0 <= i < |s| => s[|s| - 1 - i])
  }

  lemma ReversedSnoc(s: string, c: char)
    ensures Reversed(s + [c]) == [c] + Reversed(s)
  {}

  lemma CharsConcat(ds: seq<nat>, es: seq<nat>)
    requires DigitSeq(58, ds) && DigitSeq(58, es)
    ensures DigitSeq(58, ds + es) && Chars(ds + es) == Chars(ds) + Chars(es)
  {}

  /** Reverses the first n cells in place. */
  method ReverseInPlace(out: array<char>, n: nat)
    requires n <= out.Length
    modifies out
    ensures out[..n] == Reversed(old(out[..n]))
  {
    var i, j := 0, n - 1;
    while i < j
      invariant 0 <= i && j == n - 1 - i && i <= j + 2
      invariant forall k | 0 <= k < i || j < k < n :: out[k] == old(out[n - 1 - k])
      invariant forall k | i <= k <= j :: out[k] == old(out[k])
    {
      out[i], out[j] := out[j], out[i];
      i, j := i + 1, j - 1;
    }
  }

  /** The run of zero octets at the head of b. */
  method CountZeros(b: Bytes) returns (zeros: nat)
    ensures zeros == Zeros(b)
  {
    hide Zeros;
    zeros := 0;
    while zeros < |b| && b[zeros] == 0
      invariant 0 <= zeros <= |b| && forall i | 0 <= i < zeros :: b[i] == 0
    {
      zeros := zeros + 1;
    }
    ZerosAre(b, zeros);
  }

  /** Repeated division by 58, least significant digit first. */
  method WriteDigits(out: array<char>, number: nat) returns (n: nat)
    requires |Digits(58, number)| <= out.Length
    modifies out
    ensures n == |Digits(58, number)| && Reversed(out[..n]) == Chars(Digits(58, number))
  {
    hide Digits, Glyph, Chars;
    n := 0;
    var x := number;
    ReversedNothing();
    assert out[..0] == "";
    assert Chars(Digits(58, x)) + "" == Chars(Digits(58, x));
    while x > 0
      invariant n + |Digits(58, x)| == |Digits(58, number)| && n <= out.Length
      invariant Chars(Digits(58, x)) + Reversed(out[..n]) == Chars(Digits(58, number))
      decreases x
    {
      DigitsStep(x);
      var c := Glyph(x % 58);
      ghost var before := out[..n];
      out[n] := c;
      assert out[..n + 1] == before + [c];
      ReversedSnoc(before, c);
      assert Chars(Digits(58, x / 58)) + ([c] + Reversed(before)) == Chars(Digits(58, x / 58)) + [c] + Reversed(before);
      x := x / 58;
      n := n + 1;
    }
    DigitsOfZero();
  }

  /** The leading zeros of the result, which come last before the reversal. */
  method WriteZeros(out: array<char>, start: nat, zeros: nat) returns (n: nat)
    requires start + zeros <= out.Length
    modifies out
    ensures n == start + zeros && Reversed(out[..n]) == Chars(Pad(zeros)) + Reversed(old(out[..start]))
  {
    n := start;
    assert Chars(Pad(0)) + Reversed(out[..start]) == Reversed(out[..start]);
    for i := 0 to zeros
      invariant n == start + i && n <= out.Length
      invariant Reversed(out[..n]) == Chars(Pad(i)) + Reversed(old(out[..start]))
    {
      ghost var before := out[..n];
      out[n] := Glyph(0);
      assert out[..n + 1] == before + [Glyph(0)];
      ReversedSnoc(before, Glyph(0));
      assert Chars(Pad(i + 1)) == [Glyph(0)] + Chars(Pad(i));
      n := n + 1;
    }
  }

  /** The encoder: digits and zeros go into the reserved space, which is then reversed. */
  method Base58Encode(b: Bytes) returns (s: string)
    ensures s == Encode58(b)
  {
    hide Digits, Value, Zeros, Glyph, Chars;
    var zeros := CountZeros(b);
    EncodedLength(b);
    var x := Value(256, b);
    CharsConcat(Pad(zeros), Digits(58, x));
    var out := new char[Capacity(|b|)];
    var n := WriteDigits(out, x);
    n := WriteZeros(out, n, zeros);
    ReverseInPlace(out, n);
    return out[..n];
  }

  lemma ReversedNothing()
    ensures Reversed("") == ""
  {}

  lemma ZerosAre(ds: seq<nat>, n: nat)
    requires n <= |ds| && (forall i | 0 <= i < n :: ds[i] == 0) && (n < |ds| ==> ds[n] != 0)
    ensures Zeros(ds) == n
  {
    hide Zeros;
  }

  lemma DigitsStep(x: nat)
    requires x > 0
    ensures 0 <= x / 58 < x && |Digits(58, x)| == |Digits(58, x / 58)| + 1
    ensures Chars(Digits(58, x)) == Chars(Digits(58, x / 58)) + [Glyph(x % 58)]
  {
    DivSmaller(x, 58);
    CharsConcat(Digits(58, x / 58), [x % 58]);
  }

  lemma DigitsOfZero()
    ensures Digits(58, 0) == [] && Chars(Digits(58, 0)) == ""
  {}

  /** Horner's rule over the characters, failing at the first one outside the alphabet. */
  method Base58Decode(s: string) returns (r: Option<Bytes>)
    ensures r == Decode58(s)
  {
    hide GlyphIndex, Glyph, Zeros, Digits;
    var x: nat := 0;
    for i := 0 to |s|
      invariant InAlphabet(s[..i]) && x == Value(58, Indices(s[..i]))
    {
      var v := GlyphIndex(s[i]);
      if v < 0 { return None; }
      assert s[..i + 1] == s[..i] + [s[i]];
      assert Indices(s[..i + 1]) == Indices(s[..i]) + [v];
      ValueSnoc(58, Indices(s[..i]), v);
      x := x * 58 + v;
    }
    assert s[..|s|] == s;
    var zeros := 0;
    while zeros < |s| && s[zeros] == Glyph(0)
      invariant 0 <= zeros <= |s| && forall i | 0 <= i < zeros :: s[i] == Glyph(0)
    {
      zeros := zeros + 1;
    }
    forall i | 0 <= i < |s| ensures Indices(s)[i] == 0 <==> s[i] == Glyph(0) { GlyphOfIndex(s[i]); }
    ZerosAre(Indices(s), zeros);
    return Some(ToBytes(Pad(zeros) + Digits(256, x)));
  }
}
