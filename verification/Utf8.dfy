/** UTF-8 between octets and Unicode scalar values (section 3 of RFC 3629). */
module Utf8 {
  import opened Wrappers

  function EncodeChar(c: char): (b: Bytes)
    ensures 1 <= |b| <= 4
    ensures c as int < 0x80 ==> b == [c as int]
    ensures c as int >= 0x80 ==> forall i | 0 <= i < |b| :: b[i] >= 0x80
  {
    var n := c as int;
    if n < 0x80 then [n]
    else if n < 0x800 then [0xC0 + n / 64, 0x80 + n % 64]
    else if n < 0x10000 then [0xE0 + n / 4096, 0x80 + n / 64 % 64, 0x80 + n % 64]
    else [0xF0 + n / 262144, 0x80 + n / 4096 % 64, 0x80 + n / 64 % 64, 0x80 + n % 64]
  }

  function Encode(s: string): Bytes {
    if s == "" then [] else EncodeChar(s[0]) + Encode(s[1..])
  }

  predicate IsTail(b: Bytes, i: nat) { i < |b| && 0x80 <= b[i] < 0xC0 }

  function Low(b: Bytes, i: nat): (r: int)
    requires i < |b|
  {
    var octet: int := b[i];
    octet - 0x80
  }

  /** The number whose bits the leading octets carry, and how many octets they are. */
  function Payload(b: Bytes): Option<(int, nat)> {
    if b == [] then None
    else
      var lead: int := b[0];
      if lead < 0x80 then Some((lead, 1))
      else if 0xC0 <= lead < 0xE0 && IsTail(b, 1) then
        Some(((lead - 0xC0) * 64 + Low(b, 1), 2))
      else if 0xE0 <= lead < 0xF0 && IsTail(b, 1) && IsTail(b, 2) then
        Some(((lead - 0xE0) * 4096 + Low(b, 1) * 64 + Low(b, 2), 3))
      else if 0xF0 <= lead < 0xF8 && IsTail(b, 1) && IsTail(b, 2) && IsTail(b, 3) then
        Some(((lead - 0xF0) * 262144 + Low(b, 1) * 4096 + Low(b, 2) * 64 + Low(b, 3), 4))
      else None
  }

  /** The smallest number that needs k octets; anything below is an overlong form. */
  function Shortest(k: nat): int {
    if k <= 1 then 0 else if k == 2 then 0x80 else if k == 3 then 0x800 else 0x10000
  }

  predicate IsScalar(n: int) { 0 <= n < 0xD800 || 0xE000 <= n < 0x110000 }

  /** The first scalar value and its width, or None where utf8.Valid fails. */
  function DecodeChar(b: Bytes): (r: Option<(char, nat)>)
    ensures r.Some? ==> 1 <= r.value.1 <= |b|
  {
    match Payload(b)
    case None => None
    case Some((n, k)) => if Shortest(k) <= n && IsScalar(n) then Some((n as char, k)) else None
  }

  function Decode(b: Bytes): Option<string>
    decreases |b|
  {
    if b == [] then Some("")
    else
      match DecodeChar(b)
      case None => None
      case Some((c, k)) =>
        match Decode(b[k..])
        case None => None
        case Some(s) => Some([c] + s)
  }

  lemma Sextets(n: nat)
    requires n < 0x110000
    ensures n == n / 64 * 64 + n % 64
    ensures n / 64 == n / 4096 * 64 + n / 64 % 64
    ensures n / 4096 == n / 262144 * 64 + n / 4096 % 64
    ensures n / 262144 <= 4
  {}

  lemma DecodeOfEncodeChar(c: char, rest: Bytes)
    ensures DecodeChar(EncodeChar(c) + rest) == Some((c, |EncodeChar(c)|))
  {
    var n := c as int;
    var e := EncodeChar(c);
    var b := e + rest;
    Sextets(n);
    assert forall i | 0 <= i < |e| :: b[i] == e[i];
    assert Payload(b) == Some((n, |e|));
  }

  lemma EncodeOfDecodeChar(b: Bytes)
    requires DecodeChar(b).Some?
    ensures EncodeChar(DecodeChar(b).value.0) == b[..DecodeChar(b).value.1]
  {
    var (c, k) := DecodeChar(b).value;
    var n := c as int;
    var lead: int := b[0];
    if k == 2 {
      assert n / 64 == lead - 0xC0 && n % 64 == Low(b, 1);
    } else if k == 3 {
      assert n / 64 == (lead - 0xE0) * 64 + Low(b, 1) && n % 64 == Low(b, 2);
      Sextets(n);
      assert n / 4096 == lead - 0xE0;
    } else if k == 4 {
      assert n / 64 == (lead - 0xF0) * 4096 + Low(b, 1) * 64 + Low(b, 2) && n % 64 == Low(b, 3);
      Sextets(n);
      assert n / 4096 == (lead - 0xF0) * 64 + Low(b, 1) && n / 64 % 64 == Low(b, 2);
      assert n / 262144 == lead - 0xF0;
    }
  }

  lemma {:induction false} DecodeOfEncode(s: string)
    ensures Decode(Encode(s)) == Some(s)
  {
    if s != "" {
      var rest := Encode(s[1..]);
      DecodeOfEncodeChar(s[0], rest);
      DecodeOfEncode(s[1..]);
      assert Encode(s)[|EncodeChar(s[0])|..] == rest;
      assert s == [s[0]] + s[1..];
    }
  }

  lemma EncodeCons(c: char, s: string)
    ensures Encode([c] + s) == EncodeChar(c) + Encode(s)
  {
    hide EncodeChar;
    assert ([c] + s)[1..] == s;
  }

  lemma NothingDecodes()
    ensures Decode([]) == Some("") && Encode("") == []
  {}

  lemma DecodeStep(b: Bytes)
    requires b != [] && Decode(b).Some?
    ensures DecodeChar(b).Some?
    ensures var (c, k) := DecodeChar(b).value;
            Decode(b[k..]).Some? && Decode(b).value == [c] + Decode(b[k..]).value
  {
    hide DecodeChar;
  }

  lemma {:induction false} EncodeOfDecode(b: Bytes)
    requires Decode(b).Some?
    ensures Encode(Decode(b).value) == b
    decreases |b|
  {
    hide *;
    if b == [] {
      NothingDecodes();
    } else {
      DecodeStep(b);
      var (c, k) := DecodeChar(b).value;
      EncodeOfDecodeChar(b);
      EncodeOfDecode(b[k..]);
      EncodeCons(c, Decode(b[k..]).value);
      assert b == b[..k] + b[k..];
    }
  }

  lemma EncodeInjective(s: string, t: string)
    requires Encode(s) == Encode(t)
    ensures s == t
  {
    DecodeOfEncode(s);
    DecodeOfEncode(t);
  }
}
