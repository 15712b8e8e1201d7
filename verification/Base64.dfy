/**
 * Base64url without padding (section 5 of RFC 4648), read as leniently as the library's decoder does: line
 * ends are skipped anywhere, and spare bits of the last character are not looked at.
 */
module Base64 {
  import opened Wrappers

  // ---- the alphabet ----

  function Sextet(c: char): (i: int)
    ensures -1 <= i < 64
  {
    if 'A' <= c <= 'Z' then c as int - 'A' as int
    else if 'a' <= c <= 'z' then c as int - 'a' as int + 26
    else if '0' <= c <= '9' then c as int - '0' as int + 52
    else if c == '-' then 62
    else if c == '_' then 63
    else -1
  }

  function Symbol(d: nat): (c: char)
    requires d < 64
    ensures Sextet(c) == d
  {
    if d < 26 then ('A' as int + d) as char
    else if d < 52 then ('a' as int + d - 26) as char
    else if d < 62 then ('0' as int + d - 52) as char
    else if d == 62 then '-'
    else '_'
  }

  predicate IsLineEnd(c: char) { c == '\r' || c == '\n' }

  predicate SextetSeq(ds: seq<nat>) { forall i | 0 <= i < |ds| :: ds[i] < 64 }

  /** The digits of a text, line ends left out; None when anything else is in it. */
  function Sextets(s: string): (r: Option<seq<nat>>)
    ensures r.Some? ==> SextetSeq(r.value)
  {
    if s == "" then Some([])
    else if IsLineEnd(s[0]) then Sextets(s[1..])
    else if Sextet(s[0]) < 0 || Sextets(s[1..]).None? then None
    else Some([Sextet(s[0]) as nat] + Sextets(s[1..]).value)
  }

  function Symbols(ds: seq<nat>): (s: string)
    requires SextetSeq(ds)
    ensures |s| == |ds|
  {
    seq(|ds|, i requires 0 <= i < |ds| => Symbol(ds[i]))
  }

  lemma {:induction false} SextetsOfSymbols(ds: seq<nat>)
    requires SextetSeq(ds)
    ensures Sextets(Symbols(ds)) == Some(ds)
  {
    hide Sextet, Symbol, IsLineEnd;
    if ds != [] {
      SextetsOfSymbols(ds[1..]);
      SymbolIsNoLineEnd(ds[0]);
      assert Symbols(ds)[1..] == Symbols(ds[1..]) && Symbols(ds)[0] == Symbol(ds[0]);
      assert ds == [ds[0]] + ds[1..];
    }
  }

  lemma SymbolIsNoLineEnd(d: nat)
    requires d < 64
    ensures !IsLineEnd(Symbol(d)) && Sextet(Symbol(d)) == d
  {}

  lemma SextetsCons(c: char, s: string)
    ensures Sextets([c] + s) == if IsLineEnd(c) then Sextets(s) else if Sextet(c) < 0 then None
                                else Append(Some([Sextet(c) as nat]), Sextets(s))
  {
    hide Sextet, IsLineEnd;
    assert ([c] + s)[1..] == s;
  }

  lemma {:induction false} SextetsConcat(s: string, t: string)
    ensures Sextets(s + t) == Append(Sextets(s), Sextets(t))
  {
    if s == "" {
      assert s + t == t && Sextets("") == Some([]);
      AppendNothing(Sextets(t));
    } else {
      hide Sextet, IsLineEnd, Sextets, Append;
      SextetsConcat(s[1..], t);
      SextetsCons(s[0], s[1..]);
      SextetsCons(s[0], s[1..] + t);
      SplitHead(s, t);
      if Sextet(s[0]) >= 0 { AppendAssoc(Some([Sextet(s[0]) as nat]), Sextets(s[1..]), Sextets(t)); }
      AppendFails(Sextets(t));
    }
  }

  function Append(ds: Option<seq<nat>>, es: Option<seq<nat>>): Option<seq<nat>> {
    if ds.Some? && es.Some? then Some(ds.value + es.value) else None
  }

  lemma AppendNothing(es: Option<seq<nat>>)
    ensures Append(Some([]), es) == es && Append(es, Some([])) == es
  {
    if es.Some? { assert [] + es.value == es.value && es.value + [] == es.value; }
  }

  lemma AppendAssoc(ds: Option<seq<nat>>, es: Option<seq<nat>>, fs: Option<seq<nat>>)
    ensures Append(Append(ds, es), fs) == Append(ds, Append(es, fs))
  {
    if ds.Some? && es.Some? && fs.Some? {
      assert ds.value + es.value + fs.value == ds.value + (es.value + fs.value);
    }
  }

  lemma AppendFails(es: Option<seq<nat>>)
    ensures Append(None, es) == None
  {}

  lemma SplitHead(s: string, t: string)
    requires s != ""
    ensures s == [s[0]] + s[1..] && s + t == [s[0]] + (s[1..] + t)
  {}

  // ---- digits and octets ----

  function Octet0(w: nat, x: nat): Byte
    requires w < 64 && x < 64
  {
    w * 4 + x / 16
  }

  function Octet1(x: nat, y: nat): Byte
    requires x < 64 && y < 64
  {
    x % 16 * 16 + y / 4
  }

  function Octet2(y: nat, z: nat): Byte
    requires y < 64 && z < 64
  {
    y % 4 * 64 + z
  }

  /** Four digits to three octets; a last group of two or three gives one or two, and one digit is an error. */
  function Pack(ds: seq<nat>): Option<Bytes>
    requires SextetSeq(ds)
  {
    if ds == [] then Some([])
    else if |ds| == 1 then None
    else if |ds| == 2 then Some([Octet0(ds[0], ds[1])])
    else if |ds| == 3 then Some([Octet0(ds[0], ds[1]), Octet1(ds[1], ds[2])])
    else
      match Pack(ds[4..])
      case None => None
      case Some(rest) => Some([Octet0(ds[0], ds[1]), Octet1(ds[1], ds[2]), Octet2(ds[2], ds[3])] + rest)
  }

  function Digit0(a: Byte): (d: nat)
    ensures d < 64
  {
    a / 4
  }

  function Digit1(a: Byte, b: Byte): (d: nat)
    ensures d < 64
  {
    a % 4 * 16 + b / 16
  }

  function Digit2(b: Byte, c: Byte): (d: nat)
    ensures d < 64
  {
    b % 16 * 4 + c / 64
  }

  function Digit3(c: Byte): (d: nat)
    ensures d < 64
  {
    c % 64
  }

  function Unpack(b: Bytes): (ds: seq<nat>)
    ensures SextetSeq(ds)
  {
    if b == [] then []
    else if |b| == 1 then [Digit0(b[0]), Digit1(b[0], 0)]
    else if |b| == 2 then [Digit0(b[0]), Digit1(b[0], b[1]), Digit2(b[1], 0)]
    else [Digit0(b[0]), Digit1(b[0], b[1]), Digit2(b[1], b[2]), Digit3(b[2])] + Unpack(b[3..])
  }

  lemma OctetsBack(a: Byte, b: Byte, c: Byte)
    ensures Octet0(Digit0(a), Digit1(a, b)) == a && Octet1(Digit1(a, b), Digit2(b, c)) == b
    ensures Octet2(Digit2(b, c), Digit3(c)) == c
  {}

  lemma DigitsBack(w: nat, x: nat, y: nat, z: nat)
    requires w < 64 && x < 64 && y < 64 && z < 64
    ensures Digit0(Octet0(w, x)) == w && Digit1(Octet0(w, x), Octet1(x, y)) == x
    ensures Digit2(Octet1(x, y), Octet2(y, z)) == y && Digit3(Octet2(y, z)) == z
    ensures Digit1(Octet0(w, x), 0) == x / 16 * 16 && Digit2(Octet1(x, y), 0) == y / 4 * 4
  {}

  lemma {:induction false} PackOfUnpack(b: Bytes)
    ensures Pack(Unpack(b)) == Some(b)
  {
    hide Octet0, Octet1, Octet2, Digit0, Digit1, Digit2, Digit3;
    if |b| == 1 {
      OctetsBack(b[0], 0, 0);
      assert b == [b[0]];
    } else if |b| == 2 {
      OctetsBack(b[0], b[1], 0);
      assert b == [b[0], b[1]];
    } else if |b| >= 3 {
      PackOfUnpack(b[3..]);
      OctetsBack(b[0], b[1], b[2]);
      var ds := Unpack(b);
      assert ds[0] == Digit0(b[0]) && ds[1] == Digit1(b[0], b[1]);
      assert ds[2] == Digit2(b[1], b[2]) && ds[3] == Digit3(b[2]);
      assert ds[4..] == Unpack(b[3..]);
      assert b == [b[0], b[1], b[2]] + b[3..];
    }
  }

  /** The digits with the spare bits of the last one cleared. */
  function Cleared(ds: seq<nat>): (es: seq<nat>)
    requires SextetSeq(ds)
    ensures |es| == |ds|
  {
    if |ds| % 4 == 2 then ds[|ds| - 1 := ds[|ds| - 1] / 16 * 16]
    else if |ds| % 4 == 3 then ds[|ds| - 1 := ds[|ds| - 1] / 4 * 4]
    else ds
  }

  /** What is read is what would be written, but for the spare bits. */
  lemma {:induction false} UnpackOfPack(ds: seq<nat>)
    requires SextetSeq(ds) && Pack(ds).Some?
    ensures Unpack(Pack(ds).value) == Cleared(ds)
  {
    hide Octet0, Octet1, Octet2, Digit0, Digit1, Digit2, Digit3;
    if |ds| == 2 {
      DigitsBack(ds[0], ds[1], 0, 0);
    } else if |ds| == 3 {
      DigitsBack(ds[0], ds[1], ds[2], 0);
    } else if |ds| >= 4 {
      var rest := ds[4..];
      UnpackOfPack(rest);
      DigitsBack(ds[0], ds[1], ds[2], ds[3]);
      assert Pack(ds).value[3..] == Pack(rest).value;
      ClearedRest(ds);
    }
  }

  lemma ClearedRest(ds: seq<nat>)
    requires SextetSeq(ds) && |ds| >= 4
    ensures Cleared(ds) == [ds[0], ds[1], ds[2], ds[3]] + Cleared(ds[4..])
  {
    assert |ds[4..]| % 4 == |ds| % 4;
    assert ds == ds[..4] + ds[4..];
  }

  function Encode64(b: Bytes): string { Symbols(Unpack(b)) }

  function Decode64(s: string): Option<Bytes> {
    match Sextets(s)
    case None => None
    case Some(ds) => Pack(ds)
  }

  lemma DecodeOfEncode64(b: Bytes)
    ensures Decode64(Encode64(b)) == Some(b)
  {
    SextetsOfSymbols(Unpack(b));
    PackOfUnpack(b);
  }

  /** Two texts decode alike exactly when their digits agree up to the spare bits of the last one. */
  lemma SameOctets(s: string, t: string)
    requires Decode64(s).Some? && Decode64(t).Some?
    ensures Decode64(s) == Decode64(t) <==> Cleared(Sextets(s).value) == Cleared(Sextets(t).value)
  {
    hide Pack, Unpack, Cleared, Sextets;
    var ds, es := Sextets(s).value, Sextets(t).value;
    UnpackOfPack(ds);
    UnpackOfPack(es);
    if Cleared(ds) == Cleared(es) {
      PackOfUnpack(Pack(ds).value);
      PackOfUnpack(Pack(es).value);
    }
  }

  /** Line ends at the end change nothing. */
  lemma LineEndIgnored(s: string)
    ensures Decode64(s + "\n") == Decode64(s)
  {
    hide Pack;
    assert Sextets("\n") == Some([]) by { assert "\n"[1..] == ""; }
    SextetsConcat(s, "\n");
    AppendNothing(Sextets(s));
  }

  /** Text that decodes is of the alphabet, but for line ends. */
  lemma {:induction false} DecodesOverAlphabet(s: string)
    requires Sextets(s).Some?
    ensures forall c | c in s :: IsLineEnd(c) || Sextet(c) >= 0
  {
    hide Sextet, IsLineEnd;
    if s != "" {
      DecodesOverAlphabet(s[1..]);
      assert s == [s[0]] + s[1..];
    }
  }
}
