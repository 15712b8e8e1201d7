/** did:key identifiers of Ed25519 keys, one to one with 32-byte keys. */
module DidKey {
  import opened Wrappers
  import opened Base58

  const DID_KEY_PREFIX := "did:key:"
  const BASE58BTC_PREFIX := "z"
  const ED25519_MULTICODEC: Bytes := [0xED, 0x01]
  const PUBLIC_KEY_SIZE := 32

  function EncodeDid(pub: Bytes): string {
    DID_KEY_PREFIX + BASE58BTC_PREFIX + Encode58(ED25519_MULTICODEC + pub)
  }

  /** strings.CutPrefix */
  function CutPrefix(s: string, prefix: string): (r: Option<string>)
    ensures r.Some? <==> prefix <= s
    ensures r.Some? ==> s == prefix + r.value
  {
    if prefix <= s then Some(s[|prefix|..]) else None
  }

  function ParseDid(did: string): Option<Bytes> {
    match CutPrefix(did, DID_KEY_PREFIX)
    case None => None
    case Some(rest) =>
      match CutPrefix(rest, BASE58BTC_PREFIX)
      case None => None
      case Some(multibase) =>
        match Decode58(multibase)
        case None => None
        case Some(decoded) =>
          if |decoded| != |ED25519_MULTICODEC| + PUBLIC_KEY_SIZE then None
          else if decoded[..2] != ED25519_MULTICODEC then None
          else Some(decoded[2..])
  }

  lemma PrefixesCut(rest: string)
    ensures var did := DID_KEY_PREFIX + BASE58BTC_PREFIX + rest;
            && CutPrefix(did, DID_KEY_PREFIX) == Some(BASE58BTC_PREFIX + rest)
            && CutPrefix(BASE58BTC_PREFIX + rest, BASE58BTC_PREFIX) == Some(rest)
  {
    var did := DID_KEY_PREFIX + BASE58BTC_PREFIX + rest;
    assert did == DID_KEY_PREFIX + (BASE58BTC_PREFIX + rest);
  }

  lemma EncodedParses(pub: Bytes)
    requires |pub| == PUBLIC_KEY_SIZE
    ensures ParseDid(EncodeDid(pub)) == Some(pub)
  {
    hide Encode58, Decode58, CutPrefix;
    var octets := ED25519_MULTICODEC + pub;
    PrefixesCut(Encode58(octets));
    DecodeOfEncode(octets);
    assert octets[..2] == ED25519_MULTICODEC && octets[2..] == pub;
  }

  lemma ParsedIsEncoded(did: string)
    requires ParseDid(did).Some?
    ensures |ParseDid(did).value| == PUBLIC_KEY_SIZE && did == EncodeDid(ParseDid(did).value)
  {
    hide Encode58, Decode58, CutPrefix;
    var rest := CutPrefix(did, DID_KEY_PREFIX).value;
    var multibase := CutPrefix(rest, BASE58BTC_PREFIX).value;
    var decoded := Decode58(multibase).value;
    assert decoded == decoded[..2] + decoded[2..];
    DecodedIsOverAlphabet(multibase);
    EncodeOfDecode(multibase);
    Joined(DID_KEY_PREFIX, BASE58BTC_PREFIX, multibase);
  }

  lemma Joined(a: string, b: string, c: string)
    ensures a + (b + c) == a + b + c
  {}

  /** An identifier parses to a key exactly when it is the identifier of that 32-byte key. */
  lemma ParsesExactly(did: string, pub: Bytes)
    ensures ParseDid(did) == Some(pub) <==> |pub| == PUBLIC_KEY_SIZE && did == EncodeDid(pub)
  {
    hide EncodeDid, ParseDid;
    if |pub| == PUBLIC_KEY_SIZE { EncodedParses(pub); }
    if ParseDid(did).Some? { ParsedIsEncoded(did); }
  }

  lemma DecodedIsOverAlphabet(s: string)
    requires Decode58(s).Some?
    ensures InAlphabet(s)
  {}

  /** Different keys have different identifiers. */
  lemma IdentifiersDistinct(a: Bytes, b: Bytes)
    requires |a| == |b| == PUBLIC_KEY_SIZE && EncodeDid(a) == EncodeDid(b)
    ensures a == b
  {
    hide EncodeDid, ParseDid;
    ParsesExactly(EncodeDid(a), a);
    ParsesExactly(EncodeDid(b), b);
  }
}
