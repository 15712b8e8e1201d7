/**
 * Root tokens on the wire: three base64url segments between dots. What a platform writes is read back, and,
 * unlike a block, what is read has more than one spelling.
 */
module Tokens {
  import opened Wrappers
  import opened Base64
  import opened Chain
  import opened Credential
  import opened Roots
  import opened Steps
  import opened Text
  import Pop
  import TextEncoding
  import Utf8

  const SIGNATURE_SIZE := 64

  /** A compact token with its segments decoded, and the octets its signature covers. */
  datatype Jws = Jws(signingInput: Bytes, header: Bytes, payload: Bytes, signature: Bytes)

  function Segments(raw: Bytes): seq<string> { Split(TextEncoding.Octets(raw), '.') }

  lemma SegmentsJoin(raw: Bytes)
    ensures var parts := Segments(raw);
            |parts| == 3 ==> TextEncoding.Octets(raw) == parts[0] + "." + parts[1] + "." + parts[2]
  {
    hide Split;
    var parts := Segments(raw);
    JoinOfSplit(TextEncoding.Octets(raw), '.');
    if |parts| == 3 { JoinThree(parts[0], parts[1], parts[2]); assert parts == [parts[0], parts[1], parts[2]]; }
  }

  lemma JoinThree(a: string, b: string, c: string)
    ensures Join([a, b, c], '.') == a + "." + b + "." + c
  {
    assert [a, b, c][1..] == [b, c] && [b, c][1..] == [c];
    assert Join([b, c], '.') == b + "." + c;
  }

  /** The structure of a token: three segments that decode, and a signature of the right size. */
  function ParseJws(raw: Bytes): Option<Jws> {
    var parts := Segments(raw);
    if |parts| != 3 then None
    else
      SegmentsJoin(raw);
      match (Decode64(parts[0]), Decode64(parts[1]), Decode64(parts[2]))
      case (Some(header), Some(payload), Some(signature)) =>
        if |signature| == SIGNATURE_SIZE then
          Some(Jws(raw[..|parts[0]| + 1 + |parts[1]|], header, payload, signature))
        else None
      case _ => None
  }

  /** How header and payload are read as JSON: the claims, when the header is one that is supported. */
  type Reader = (Bytes, Bytes) -> Option<Claims>

  function ParseUcan(read: Reader, raw: Bytes): Option<Ucan> {
    match ParseJws(raw)
    case None => None
    case Some(j) =>
      match read(j.header, j.payload)
      case None => None
      case Some(p) => Some(Ucan(p.iss, p.aud, p.att, p.prf, p.exp, p.nbf, p.iat, j.signingInput, j.signature, raw))
  }

  ghost predicate ParsesTokens(codec: Codec, read: Reader) {
    forall raw :: codec.parseToken(raw) == ParseUcan(read, raw)
  }

  // ---- what is written is read back ----

  function CompactText(header: Bytes, payload: Bytes, signature: Bytes): string {
    Encode64(header) + "." + Encode64(payload) + "." + Encode64(signature)
  }

  lemma NoDotInside(b: Bytes)
    ensures '.' !in Encode64(b)
  {
    hide Unpack, Symbol;
    var s := Encode64(b);
    forall i | 0 <= i < |s| ensures s[i] != '.' {
      assert Sextet(s[i]) == Unpack(b)[i];
    }
  }

  lemma SegmentsOf(a: string, b: string, c: string, raw: Bytes)
    requires TextEncoding.Octets(raw) == a + "." + b + "." + c
    requires '.' !in a && '.' !in b && '.' !in c
    ensures Segments(raw) == [a, b, c]
  {
    hide Split, Join;
    JoinThree(a, b, c);
    forall seg | seg in [a, b, c] ensures '.' !in seg {}
    SplitOfJoin([a, b, c], '.');
  }

  /** A compact token of a header, a payload and a signature is read as those. */
  lemma CompactBack(header: Bytes, payload: Bytes, signature: Bytes, raw: Bytes)
    requires TextEncoding.Octets(raw) == CompactText(header, payload, signature) && |signature| == SIGNATURE_SIZE
    ensures var n := |Encode64(header)| + 1 + |Encode64(payload)|;
            n <= |raw| && ParseJws(raw) == Some(Jws(raw[..n], header, payload, signature))
  {
    hide Encode64, Decode64, Segments;
    DecodeOfEncode64(header);
    DecodeOfEncode64(payload);
    DecodeOfEncode64(signature);
    NoDotInside(header);
    NoDotInside(payload);
    NoDotInside(signature);
    SegmentsOf(Encode64(header), Encode64(payload), Encode64(signature), raw);
    assert |TextEncoding.Octets(raw)| == |raw|;
  }

  lemma {:induction false} PlainIsNoBlock(raw: Bytes)
    requires forall b | b in raw :: b < 0x80 && b != 0x7B
    ensures !LooksLikeBlock(raw)
  {
    if raw != [] {
      var b: int := raw[0];
      assert raw[0] in raw && Utf8.Payload(raw) == Some((b, 1));
      assert Utf8.DecodeChar(raw) == Some((b as char, 1));
      assert forall x | x in raw[1..] :: x in raw;
      PlainIsNoBlock(raw[1..]);
    }
  }

  /** A token is never taken for a block. */
  lemma TokenIsNoBlock(raw: Bytes)
    requires ParseJws(raw).Some?
    ensures !LooksLikeBlock(raw)
  {
    hide Split, Pack, LooksLikeBlock, Sextets;
    SegmentsJoin(raw);
    var parts := Segments(raw);
    DecodesOverAlphabet(parts[0]);
    DecodesOverAlphabet(parts[1]);
    DecodesOverAlphabet(parts[2]);
    forall b | b in raw ensures b < 0x80 && b != 0x7B {
      var i :| 0 <= i < |raw| && raw[i] == b;
      CharOfThree(TextEncoding.Octets(raw), parts[0], parts[1], parts[2], i);
    }
    PlainIsNoBlock(raw);
  }

  lemma CharOfThree(s: string, a: string, b: string, c: string, i: nat)
    requires s == a + "." + b + "." + c && i < |s|
    ensures s[i] in a || s[i] in b || s[i] in c || s[i] == '.'
  {}

  /** The platform writes compact tokens whose header and payload it can read back. */
  ghost predicate WritesCompact(platform: Platform, read: Reader) {
    forall p, raw | TokenRefusal(p).None? && FaithfulGrant(p.att) && platform.compact(p) == Some(raw) ::
      WrittenAs(read, p, raw)
  }

  ghost predicate WrittenAs(read: Reader, p: Claims, raw: Bytes) {
    exists header, payload, signature ::
      && TextEncoding.Octets(raw) == CompactText(header, payload, signature)
      && |signature| == SIGNATURE_SIZE && read(header, payload) == Some(p)
  }

  /** So what is assumed of a platform comes down to its JSON: the compact form never gets in the way. */
  lemma CompactPlatformIsGood(platform: Platform, codec: Codec, read: Reader)
    requires ParsesTokens(codec, read) && WritesCompact(platform, read)
    ensures GoodPlatform(platform, codec)
  {
    hide ParseJws, CompactText, LooksLikeBlock, FaithfulGrant, TokenRefusal;
    forall p, raw | TokenRefusal(p).None? && FaithfulGrant(p.att) && platform.compact(p) == Some(raw)
      ensures !LooksLikeBlock(raw) && codec.parseToken(raw).Some? && Says(codec.parseToken(raw).value, p)
    {
      assert WrittenAs(read, p, raw);
      var header, payload, signature :|
        && TextEncoding.Octets(raw) == CompactText(header, payload, signature)
        && |signature| == SIGNATURE_SIZE && read(header, payload) == Some(p);
      CompactBack(header, payload, signature, raw);
      TokenIsNoBlock(raw);
    }
  }

  // ---- spellings ----

  /** Two tokens that differ in nothing but the octets they were read from. */
  predicate SameToken(u: Ucan, v: Ucan) { u.(raw := v.raw) == v }

  /** The first two segments and the dot between them, and the digits of the third without its spare bits. */
  function Spelled(raw: Bytes): (string, seq<nat>)
    requires ParseJws(raw).Some?
  {
    var parts := Segments(raw);
    (parts[0] + "." + parts[1], Cleared(Sextets(parts[2]).value))
  }

  lemma InputText(raw: Bytes)
    requires ParseJws(raw).Some?
    ensures TextEncoding.Octets(ParseJws(raw).value.signingInput) == Spelled(raw).0
  {
    hide Split, Pack, Sextets;
    SegmentsJoin(raw);
    var parts := Segments(raw);
    var n := |parts[0]| + 1 + |parts[1]|;
    assert TextEncoding.Octets(raw)[..n] == parts[0] + "." + parts[1];
    assert TextEncoding.Octets(raw[..n]) == TextEncoding.Octets(raw)[..n];
  }

  lemma OctetsInjective(a: Bytes, b: Bytes)
    requires TextEncoding.Octets(a) == TextEncoding.Octets(b)
    ensures a == b
  {
    assert |TextEncoding.Octets(a)| == |a| && |TextEncoding.Octets(b)| == |b|;
    forall i | 0 <= i < |a| ensures a[i] == b[i] {
      assert TextEncoding.Octets(a)[i] == TextEncoding.Octets(b)[i];
    }
  }

  /** Texts with one dot each that are equal agree on both sides of it. */
  lemma OneDot(a: string, b: string, c: string, d: string)
    requires a + "." + b == c + "." + d && '.' !in a && '.' !in c
    ensures a == c && b == d
  {
    var s := a + "." + b;
    assert s[..|a|] == a && s[..|c|] == c && s[|a|] == '.' && s[|c|] == '.';
    IndexOfUnique(s, '.', |a|);
    IndexOfUnique(s, '.', |c|);
    assert b == s[|a| + 1..] && d == s[|c| + 1..];
  }

  /** Two token texts are read as the same token exactly when they are spelled alike. */
  lemma SameTokenExactly(read: Reader, a: Bytes, b: Bytes)
    requires ParseUcan(read, a).Some? && ParseUcan(read, b).Some?
    ensures SameToken(ParseUcan(read, a).value, ParseUcan(read, b).value) <==> Spelled(a) == Spelled(b)
  {
    hide Split, Pack, Cleared, Sextets, TextEncoding.Octets;
    var pa, pb := Segments(a), Segments(b);
    InputText(a);
    InputText(b);
    SameOctets(pa[2], pb[2]);
    if Spelled(a) == Spelled(b) {
      OneDot(pa[0], pa[1], pb[0], pb[1]);
      OctetsInjective(ParseJws(a).value.signingInput, ParseJws(b).value.signingInput);
    }
  }

  lemma LineEndSegment(raw: Bytes)
    requires ParseJws(raw).Some?
    ensures Segments(raw + [0x0A]) == [Segments(raw)[0], Segments(raw)[1], Segments(raw)[2] + "\n"]
  {
    hide Split, Pack, Sextets;
    var parts := Segments(raw);
    SegmentsJoin(raw);
    assert TextEncoding.Octets(raw + [0x0A]) == TextEncoding.Octets(raw) + "\n";
    assert forall seg | seg in parts :: '.' !in seg by { NoDotInSegments(raw); }
    assert parts[0] in parts && parts[1] in parts && parts[2] in parts;
    assert TextEncoding.Octets(raw) + "\n" == parts[0] + "." + parts[1] + "." + (parts[2] + "\n");
    SegmentsOf(parts[0], parts[1], parts[2] + "\n", raw + [0x0A]);
  }

  lemma NoDotInSegments(raw: Bytes)
    ensures forall seg | seg in Segments(raw) :: '.' !in seg
  {}

  /** No token has one spelling: a line end at its end gives another, which is read as the same token. */
  lemma AnotherSpelling(read: Reader, raw: Bytes)
    requires ParseUcan(read, raw).Some?
    ensures raw + [0x0A] != raw && ParseUcan(read, raw + [0x0A]).Some?
    ensures SameToken(ParseUcan(read, raw).value, ParseUcan(read, raw + [0x0A]).value)
  {
    hide Split, Pack, Sextets, Decode64;
    var other := raw + [0x0A];
    LineEndSegment(raw);
    var parts := Segments(raw);
    LineEndIgnored(parts[2]);
    assert |other| == |raw| + 1;
    SegmentsJoin(raw);
    var n := |parts[0]| + 1 + |parts[1]|;
    assert other[..n] == raw[..n];
  }

  // ---- what the spellings of a root share ----

  /** Signatures are checked over the signing input, not over the octets of the token. */
  ghost predicate SignsInput(cfg: Config) {
    forall key, c, d, u, v | SameToken(u, v) ::
      cfg.signed(key, TokenElement(c, u)) == cfg.signed(key, TokenElement(d, v))
  }

  /**
   * Two spellings of a root have different CIDs and pass all the same checks on the chain; the CID is all that
   * revocation sees of the difference. Unlike that of a block, the CID of a root does not stand for the root.
   */
  lemma SpellingsVerifyAlike(cfg: Config, read: Reader, a: Bytes, b: Bytes)
    requires GoodHash(cfg.codec) && ParsesTokens(cfg.codec, read) && SignsInput(cfg) && a != b
    requires ParseUcan(read, a).Some? && ParseUcan(read, b).Some? && Spelled(a) == Spelled(b)
    ensures var u, v := ParseUcan(read, a).value, ParseUcan(read, b).value;
            var e, f := TokenElement(cfg.codec.cid(a), u), TokenElement(cfg.codec.cid(b), v);
            && e.cid != f.cid
            && (forall now :: BeforeRevocation(cfg, [e], now) == BeforeRevocation(cfg, [f], now))
            && (forall request, now ::
                  AfterRevocation(cfg, [e], request, now) == AfterRevocation(cfg, [f], request, now))
            && Subjects([e]) == {e.cid, u.aud} && Subjects([f]) == {f.cid, u.aud}
  {
    hide ParseUcan, Spelled, Capability.Valid;
    SameTokenExactly(read, a, b);
    var u, v := ParseUcan(read, a).value, ParseUcan(read, b).value;
    var e, f := TokenElement(cfg.codec.cid(a), u), TokenElement(cfg.codec.cid(b), v);
    forall now ensures BeforeRevocation(cfg, [e], now) == BeforeRevocation(cfg, [f], now) {
      BeforeAlike(cfg, e, f, now);
    }
    forall request, now ensures AfterRevocation(cfg, [e], request, now) == AfterRevocation(cfg, [f], request, now) {
      AfterAlike(cfg, e, f, request, now);
    }
    SoleSubjects(e);
    SoleSubjects(f);
  }

  lemma SoleSubjects(e: Element)
    ensures Subjects([e]) == {e.cid, e.Aud()}
  {
    assert [e][0] == e && forall x | x in [e] :: x == e;
  }

  lemma BeforeAlike(cfg: Config, e: Element, f: Element, now: int)
    requires e.TokenElement? && f.TokenElement? && SameToken(e.token, f.token) && SignsInput(cfg)
    ensures BeforeRevocation(cfg, [e], now) == BeforeRevocation(cfg, [f], now)
  {
    hide Capability.Valid;
    assert [e][1..] == [] && [f][1..] == [];
    assert (forall x | x in [e] :: x == e) && (forall x | x in [f] :: x == f) && e in [e] && f in [f];
  }

  lemma AfterAlike(cfg: Config, e: Element, f: Element, request: Pop.Request, now: int)
    requires e.TokenElement? && f.TokenElement? && SameToken(e.token, f.token)
    ensures AfterRevocation(cfg, [e], request, now) == AfterRevocation(cfg, [f], request, now)
  {
    hide PermitsAll, FirstMatch;
    assert [e][1..] == [] && [f][1..] == [];
  }
}
