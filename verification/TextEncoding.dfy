/**
 * The text-level check that runs before a document is parsed: valid UTF-8, and no
 * escape that names an unpaired surrogate (section 2.1 of RFC 7493).
 */
module TextEncoding {
  import opened Wrappers
  import opened Json
  import Jcs
  import Utf8

  datatype EncodingError = InvalidUtf8 | TruncatedEscape | MalformedEscape | LoneSurrogate

  /** The low half of a pair, written as an escape at the head of t. */
  predicate LowHalfAt(t: string) {
    && |t| >= 6 && t[0] == '\\' && t[1] == 'u'
    && Hex4(t[2..]).Some? && Jcs.IsLowSurrogate(Hex4(t[2..]).value)
  }

  /** The scan from a position, inside or outside a string literal; None is acceptance. */
  function Scan(s: string, inString: bool): Option<EncodingError>
    decreases |s|
  {
    if s == "" then None
    else if !inString then Scan(s[1..], s[0] == '"')
    else if s[0] == '"' then Scan(s[1..], false)
    else if s[0] != '\\' then Scan(s[1..], true)
    else if |s| < 2 then Some(TruncatedEscape)
    else if s[1] != 'u' then Scan(s[2..], true)
    else
      match Hex4(s[2..])
      case None => Some(MalformedEscape)
      case Some(hi) =>
        if !Jcs.IsHighSurrogate(hi) && !Jcs.IsLowSurrogate(hi) then Scan(s[6..], true)
        else if Jcs.IsHighSurrogate(hi) && LowHalfAt(s[6..]) then Scan(s[12..], true)
        else Some(LoneSurrogate)
  }

  /** Octets read one by one as characters. */
  function Octets(data: Bytes): string {
    seq(|data|, i requires 0 <= i < |data| => data[i] as char)
  }

  function EncodingErrorOf(data: Bytes): Option<EncodingError> {
    if Utf8.Decode(data).None? then Some(InvalidUtf8) else Scan(Octets(data), false)
  }

  // ---- the check as it runs ----

  function HexNibble(b: Byte): Option<nat> {
    if 0x30 <= b <= 0x39 then Some(b as int - 0x30)
    else if 0x61 <= b <= 0x66 then Some(b as int - 0x61 + 10)
    else if 0x41 <= b <= 0x46 then Some(b as int - 0x41 + 10)
    else None
  }

  /** The number written by the first k hex digits of s. */
  function HexPrefix(s: string, k: nat): nat
    requires k <= |s| && forall j | 0 <= j < k :: IsHexDigit(s[j])
  {
    if k == 0 then 0 else HexPrefix(s, k - 1) * 16 + HexDigitValue(s[k - 1])
  }

  lemma HexPrefixFour(s: string)
    requires |s| >= 4 && forall j | 0 <= j < 4 :: IsHexDigit(s[j])
    ensures Hex4(s) == Some(HexPrefix(s, 4))
  {
    assert HexPrefix(s, 1) == HexDigitValue(s[0]);
    assert HexPrefix(s, 2) == HexPrefix(s, 1) * 16 + HexDigitValue(s[1]);
    assert HexPrefix(s, 3) == HexPrefix(s, 2) * 16 + HexDigitValue(s[2]);
    assert HexPrefix(s, 4) == HexPrefix(s, 3) * 16 + HexDigitValue(s[3]);
  }

  lemma NibbleAgrees(b: Byte)
    ensures HexNibble(b).Some? <==> IsHexDigit(b as char)
    ensures HexNibble(b).Some? ==> HexNibble(b).value == HexDigitValue(b as char)
  {}

  /** Four hex digits at data[i..i+4], shifted in one at a time. */
  method Hex4At(data: Bytes, i: nat) returns (v: nat, ok: bool)
    ensures ok <==> i + 4 <= |data| && Hex4(Octets(data)[i..]).Some?
    ensures ok ==> Hex4(Octets(data)[i..]) == Some(v)
  {
    if i + 4 > |data| { return 0, false; }
    ghost var s := Octets(data)[i..];
    v, ok := 0, true;
    var k := 0;
    while k < 4
      invariant 0 <= k <= 4
      invariant forall j | 0 <= j < k :: IsHexDigit(s[j])
      invariant v == HexPrefix(s, k)
    {
      var digit := HexNibble(data[i + k]);
      NibbleAgrees(data[i + k]);
      assert s[k] == data[i + k] as char;
      if digit.None? { return 0, false; }
      v := v * 16 + digit.value;
      k := k + 1;
    }
    HexPrefixFour(s);
  }

  /** Whether the low half of a pair starts at t, in terms of the octets. */
  lemma LowHalfOctets(data: Bytes, j: nat)
    requires j <= |data|
    ensures LowHalfAt(Octets(data)[j..]) <==>
            && j + 6 <= |data| && data[j] == 0x5C && data[j + 1] == 0x75
            && Hex4(Octets(data)[j + 2..]).Some? && Jcs.IsLowSurrogate(Hex4(Octets(data)[j + 2..]).value)
  {
    hide Hex4;
    var t := Octets(data)[j..];
    if j + 2 <= |data| {
      assert t[2..] == Octets(data)[j + 2..];
      assert t[0] == data[j] as char && t[1] == data[j + 1] as char;
    }
  }

  /** The body of the scan at a \u escape: where it continues, or why it stops. */
  method CheckUnicodeEscape(data: Bytes, i: nat) returns (next: nat, err: Option<EncodingError>)
    requires i + 1 < |data| && data[i] == 0x5C && data[i + 1] == 0x75
    ensures err.Some? ==> Scan(Octets(data)[i..], true) == err
    ensures err.None? ==> i < next <= |data| && Scan(Octets(data)[i..], true) == Scan(Octets(data)[next..], true)
  {
    hide Hex4, LowHalfAt;
    ghost var t := Octets(data)[i..];
    assert t[0] == '\\' && t[1] == 'u' && t[2..] == Octets(data)[i + 2..];
    var hi, ok := Hex4At(data, i + 2);
    if !ok { return i, Some(MalformedEscape); }
    assert t[6..] == Octets(data)[i + 6..];
    if !(0xD800 <= hi < 0xE000) { return i + 6, None; }
    var lo, okLow := Hex4At(data, i + 8);
    LowHalfOctets(data, i + 6);
    if hi > 0xDBFF || !okLow || data[i + 6] != 0x5C || data[i + 7] != 0x75 || !(0xDC00 <= lo < 0xE000) {
      return i, Some(LoneSurrogate);
    }
    assert t[12..] == Octets(data)[i + 12..];
    return i + 12, None;
  }

  /** One pass with a position and an in-string flag; every index it uses is in range. */
  method ValidateTextEncoding(data: Bytes) returns (r: Option<EncodingError>)
    ensures r == EncodingErrorOf(data)
  {
    if Utf8.Decode(data).None? { return Some(InvalidUtf8); }
    hide Utf8.Decode, Hex4, LowHalfAt;
    var i, inString := 0, false;
    ghost var s := Octets(data);
    assert s[0..] == s;
    while i < |data|
      invariant 0 <= i <= |data|
      invariant Scan(s, false) == Scan(s[i..], inString)
    {
      ghost var t := s[i..];
      assert t[0] == data[i] as char && t[1..] == s[i + 1..];
      if !inString || data[i] != 0x5C {
        inString := inString != (data[i] == 0x22);
        i := i + 1;
      } else if i + 1 >= |data| {
        return Some(TruncatedEscape);
      } else if data[i + 1] != 0x75 {
        assert t[1] == data[i + 1] as char && t[2..] == s[i + 2..];
        i := i + 2;
      } else {
        var next, err := CheckUnicodeEscape(data, i);
        if err.Some? { return err; }
        i := next;
      }
    }
    return None;
  }

  // ---- scanning octets is scanning scalars ----

  lemma {:induction false} ScanHigh(b: Bytes, rest: string)
    requires forall i | 0 <= i < |b| :: b[i] >= 0x80
    ensures Scan(Octets(b) + rest, true) == Scan(rest, true)
    ensures Scan(Octets(b) + rest, false) == Scan(rest, false)
  {
    if b == [] {
      assert Octets(b) + rest == rest;
    } else {
      ScanHigh(b[1..], rest);
      assert (Octets(b) + rest)[1..] == Octets(b[1..]) + rest;
    }
  }

  lemma OctetsConcat(a: Bytes, b: Bytes)
    ensures Octets(a + b) == Octets(a) + Octets(b)
  {}

  lemma EncodeAscii(c: char, s: string)
    requires c as int < 0x80
    ensures Octets(Utf8.Encode([c] + s)) == [c] + Octets(Utf8.Encode(s))
  {
    assert ([c] + s)[1..] == s;
    OctetsConcat(Utf8.EncodeChar(c), Utf8.Encode(s));
    assert Octets(Utf8.EncodeChar(c)) == [c];
  }

  /** The octets of a text agree with the text as long as both are ASCII. */
  lemma {:induction false} SamePrefix(s: string, n: nat)
    requires n <= |s| && forall i | 0 <= i < n :: s[i] as int < 0x80
    ensures var o := Octets(Utf8.Encode(s));
            n <= |o| && o[..n] == s[..n] && o[n..] == Octets(Utf8.Encode(s[n..]))
  {
    if n > 0 {
      hide Utf8.Encode, Octets;
      SamePrefix(s[1..], n - 1);
      EncodeAscii(s[0], s[1..]);
      assert s == [s[0]] + s[1..];
      ConsPrefix(s[0], s[1..], Octets(Utf8.Encode(s[1..])), n);
    } else {
      assert s[0..] == s;
    }
  }

  /** Putting the same character in front of two texts lengthens what they have in common. */
  lemma ConsPrefix(c: char, s: string, o: string, n: nat)
    requires 0 < n <= |s| + 1 && n - 1 <= |o| && o[..n - 1] == s[..n - 1]
    ensures ([c] + o)[..n] == ([c] + s)[..n] && ([c] + o)[n..] == o[n - 1..] && ([c] + s)[n..] == s[n - 1..]
  {
    assert forall i | 0 <= i < n - 1 :: o[i] == o[..n - 1][i] == s[..n - 1][i] == s[i];
  }

  lemma FirstOctet(s: string)
    ensures s == "" <==> Utf8.Encode(s) == []
    ensures s != "" ==> var c := Octets(Utf8.Encode(s))[0];
                        if s[0] as int < 0x80 then c == s[0] else c as int >= 0x80
  {
    if s != "" {
      var e := Utf8.EncodeChar(s[0]);
      assert Utf8.Encode(s)[0] == e[0];
    }
  }

  lemma OctetAgrees(s: string, n: nat)
    requires n < |s| && forall i | 0 <= i < n :: s[i] as int < 0x80
    ensures var o := Octets(Utf8.Encode(s));
            n < |o| && (if s[n] as int < 0x80 then o[n] == s[n] else o[n] as int >= 0x80)
  {
    SamePrefix(s, n);
    FirstOctet(s[n..]);
    var o := Octets(Utf8.Encode(s));
    assert o[n] == o[n..][0];
  }

  lemma Hex4Ascii(s: string)
    requires Hex4(s).Some?
    ensures |s| >= 4 && forall i | 0 <= i < 4 :: s[i] as int < 0x80
  {}

  lemma Hex4Agrees(s: string)
    ensures Hex4(Octets(Utf8.Encode(s))) == Hex4(s)
  {
    hide Utf8.Encode, Octets, HexDigitValue;
    var o := Octets(Utf8.Encode(s));
    var n := if |s| == 0 || !IsHexDigit(s[0]) then 0
             else if |s| == 1 || !IsHexDigit(s[1]) then 1
             else if |s| == 2 || !IsHexDigit(s[2]) then 2
             else if |s| == 3 || !IsHexDigit(s[3]) then 3 else 4;
    SamePrefix(s, n);
    assert forall i | 0 <= i < n :: o[i] == o[..n][i] && s[i] == s[..n][i];
    if n < 4 {
      if n < |s| {
        OctetAgrees(s, n);
        assert !IsHexDigit(o[n]);
      } else {
        assert s[n..] == "";
        NothingEncoded();
        assert |o| == n;
      }
    }
  }

  lemma NothingEncoded()
    ensures Octets(Utf8.Encode("")) == ""
  {}

  lemma LowHalfAgrees(s: string)
    ensures LowHalfAt(Octets(Utf8.Encode(s))) == LowHalfAt(s)
    ensures LowHalfAt(s) ==> forall i | 0 <= i < 6 :: s[i] as int < 0x80
  {
    hide Utf8.Encode, Octets, Hex4;
    NothingEncoded();
    var o := Octets(Utf8.Encode(s));
    if |s| >= 2 && s[0] == '\\' && s[1] == 'u' {
      SamePrefix(s, 2);
      assert o[0] == o[..2][0] && o[1] == o[..2][1];
      Hex4Agrees(s[2..]);
      if Hex4(s[2..]).Some? {
        Hex4Ascii(s[2..]);
        assert forall i | 2 <= i < 6 :: s[i] == s[2..][i - 2];
      }
    } else if |s| >= 1 {
      OctetAgrees(s, 0);
      if |s| >= 2 && s[0] == '\\' {
        OctetAgrees(s, 1);
      } else if s[0] == '\\' {
        SamePrefix(s, 1);
        assert s[1..] == "";
      }
    }
  }

  /** The byte scan and the scan over scalar values give the same answer. */
  lemma {:induction false} ScanAgrees(s: string, inString: bool)
    ensures Scan(Octets(Utf8.Encode(s)), inString) == Scan(s, inString)
    decreases |s|
  {
    if s != "" {
      var o := Octets(Utf8.Encode(s));
      var e := Utf8.EncodeChar(s[0]);
      OctetsConcat(e, Utf8.Encode(s[1..]));
      FirstOctet(s);
      if s[0] as int >= 0x80 {
        ScanHigh(e, Octets(Utf8.Encode(s[1..])));
        ScanAgrees(s[1..], inString);
      } else {
        ScanAgreesAscii(s, inString);
      }
    }
  }

  lemma {:induction false} ScanAgreesAscii(s: string, inString: bool)
    requires s != "" && s[0] as int < 0x80
    ensures Scan(Octets(Utf8.Encode(s)), inString) == Scan(s, inString)
    decreases |s|, 1
  {
    hide Hex4, LowHalfAt;
    var o := Octets(Utf8.Encode(s));
    SamePrefix(s, 1);
    assert o[0] == o[..1][0] == s[..1][0];
    if !inString || s[0] != '\\' {
      ScanAgrees(s[1..], if inString then s[0] != '"' else s[0] == '"');
    } else if |s| == 1 {
      assert s[1..] == "";
    } else if s[1] != 'u' {
      OctetAgrees(s, 1);
      ScanAgreesShort(s);
    } else {
      ScanAgreesUnicode(s);
    }
  }

  lemma {:induction false} ScanAgreesUnicode(s: string)
    requires |s| >= 2 && s[0] == '\\' && s[1] == 'u'
    ensures Scan(Octets(Utf8.Encode(s)), true) == Scan(s, true)
    decreases |s|, 0
  {
    hide Utf8.Encode, Octets, Hex4;
    var o := Octets(Utf8.Encode(s));
    SamePrefix(s, 2);
    assert o[0] == o[..2][0] == s[..2][0] && o[1] == o[..2][1] == s[..2][1];
    Hex4Agrees(s[2..]);
    if Hex4(s[2..]).Some? {
      Hex4Ascii(s[2..]);
      assert forall i | 2 <= i < 6 :: s[i] == s[2..][i - 2];
      SamePrefix(s, 6);
      LowHalfAgrees(s[6..]);
      if LowHalfAt(s[6..]) {
        assert forall i | 6 <= i < 12 :: s[i] == s[6..][i - 6];
        SamePrefix(s, 12);
        ScanAgrees(s[12..], true);
      }
      ScanAgrees(s[6..], true);
    }
  }

  /** A backslash and one more character, which may take several octets. */
  lemma {:induction false} ScanAgreesShort(s: string)
    requires |s| >= 2 && s[0] == '\\' && s[1] != 'u'
    ensures Scan(Octets(Utf8.Encode(s)), true) == Scan(s, true)
    decreases |s|, 0
  {
    hide Utf8.Encode, Octets, Hex4, LowHalfAt;
    var o := Octets(Utf8.Encode(s));
    SamePrefix(s, 1);
    OctetAgrees(s, 1);
    assert o[0] == o[..1][0] == s[..1][0];
    EncodeStep(s[1..]);
    assert s[1..][1..] == s[2..];
    var e, rest := Utf8.EncodeChar(s[1]), Octets(Utf8.Encode(s[2..]));
    OctetsTail(e);
    DropFirst(Octets(e), rest);
    assert o[2..] == o[1..][1..];
    if s[1] as int >= 0x80 {
      assert forall i | 0 <= i < |e| - 1 :: e[1..][i] == e[i + 1];
      ScanHigh(e[1..], rest);
    } else {
      assert Octets(e[1..]) + rest == rest;
    }
    ScanAgrees(s[2..], true);
  }

  lemma EncodeStep(s: string)
    requires s != ""
    ensures Octets(Utf8.Encode(s)) == Octets(Utf8.EncodeChar(s[0])) + Octets(Utf8.Encode(s[1..]))
  {
    hide Octets;
    OctetsConcat(Utf8.EncodeChar(s[0]), Utf8.Encode(s[1..]));
  }

  lemma DropFirst(a: string, b: string)
    requires a != ""
    ensures (a + b)[1..] == a[1..] + b && (a + b)[0] == a[0]
  {}

  lemma OctetsTail(e: Bytes)
    requires e != []
    ensures Octets(e) != "" && Octets(e)[1..] == Octets(e[1..])
    ensures |e| == 1 ==> Octets(e[1..]) == ""
  {}
}
