/**
 * Canonicalization of a serialized document, end to end: octets in, octets out.
 * The main results relate two documents through the values they denote.
 */
module Canonicalizer {
  import opened Wrappers
  import opened Json
  import opened Jcs
  import opened JcsRoundTrip
  import opened Profile
  import opened TextEncoding
  import opened EscapePairs
  import JcsWriter
  import Reading
  import Utf8

  /** The value a serialized document denotes, when it is a document of the profile. */
  function ValueOf(data: Bytes): Option<Value> {
    if EncodingErrorOf(data).Some? then None
    else
      match ParseDocument(Utf8.Decode(data).value)
      case None => None
      case Some(d) => Denote(d)
  }

  ghost function Canonicalize(data: Bytes): Option<Bytes> {
    match ValueOf(data)
    case None => None
    case Some(v) => Some(CanonicalBytes(v))
  }

  /** The canonical octets of an in-memory value. */
  ghost function CanonicalBytes(v: Value): Bytes { Utf8.Encode(Print(v)) }

  datatype CanonError = Encoding(e: EncodingError) | Unreadable(r: Reading.ReadError) | TrailingData

  /**
   * The error a document is refused with, if any: that of the encoding scan; or the first that reading the
   * value token by token comes to; or that the value does not end the text.
   */
  function ErrorOf(data: Bytes): Option<CanonError> {
    if EncodingErrorOf(data).Some? then Some(Encoding(EncodingErrorOf(data).value))
    else
      match Reading.ReadValue(Utf8.Decode(data).value)
      case Err(e) => Some(Unreadable(e))
      case Ok(rest) => if SkipSpace(rest) != "" then Some(TrailingData) else None
  }

  /** The canonicalizer end to end: the encoding scan, the value, the writer, then the end of the text. */
  method CanonicalizeBytes(data: Bytes) returns (r: Result<Bytes, CanonError>)
    ensures match r
            case Ok(out) => Canonicalize(data) == Some(out) && ErrorOf(data).None?
            case Err(e) => Canonicalize(data) == None && ErrorOf(data) == Some(e)
  {
    hide Print, Denote, ParseValue, FaultOf, Reading.ReadValue, JcsWriter.GrammarNumbers;
    var bad := ValidateTextEncoding(data);
    if bad.Some? { return Err(Encoding(bad.value)); }
    var s := Utf8.Decode(data).value;
    Reading.ReadExactly(s);
    var parsed := ParseValue(s);
    if parsed.None? { return Err(Unreadable(Reading.ReadValue(s).error)); }
    var (d, rest) := parsed.value;
    JcsWriter.ParsedNumbers(s);
    var out := JcsWriter.CanonicalizeDoc(d);
    if out.Err? { return Err(Unreadable(Reading.Outside(out.error))); }
    JcsWriter.TextIsFaultless(d);
    if SkipSpace(rest) != "" { return Err(TrailingData); }
    return Ok(Utf8.Encode(out.value));
  }

  /** Which documents are accepted, in terms of the document rather than the scan. */
  lemma AcceptedExactly(data: Bytes)
    ensures Canonicalize(data).Some? <==>
            && Utf8.Decode(data).Some?
            && ParseDocument(Utf8.Decode(data).value).Some?
            && DocPaired(ParseDocument(Utf8.Decode(data).value).value)
            && InProfile(ParseDocument(Utf8.Decode(data).value).value)
  {
    if Utf8.Decode(data).Some? && ParseDocument(Utf8.Decode(data).value).Some? {
      EncodingAccepts(data);
      JcsWriter.ParsedNumbers(Utf8.Decode(data).value);
      JcsWriter.DenotesExactly(ParseDocument(Utf8.Decode(data).value).value);
    }
  }

  lemma CanonicalInjective(v: Value, w: Value)
    requires CanonicalBytes(v) == CanonicalBytes(w)
    ensures v == w
  {
    Utf8.EncodeInjective(Print(v), Print(w));
    PrintInjective(v, w);
  }

  /** Two accepted documents have the same canonical form exactly when they denote the same value. */
  lemma SameFormSameValue(a: Bytes, b: Bytes)
    requires Canonicalize(a).Some? && Canonicalize(b).Some?
    ensures Canonicalize(a) == Canonicalize(b) <==> ValueOf(a) == ValueOf(b)
  {
    if Canonicalize(a) == Canonicalize(b) {
      CanonicalInjective(ValueOf(a).value, ValueOf(b).value);
    }
  }

  /** Canonical octets are themselves a document, and denote what they were made from. */
  lemma CanonicalDenotes(v: Value)
    ensures ValueOf(CanonicalBytes(v)) == Some(v)
  {
    var d := DocumentOfPrint(v);
    Utf8.DecodeOfEncode(Print(v));
    EncodingAccepts(CanonicalBytes(v));
  }

  lemma Idempotent(data: Bytes)
    requires Canonicalize(data).Some?
    ensures Canonicalize(Canonicalize(data).value) == Canonicalize(data)
  {
    CanonicalDenotes(ValueOf(data).value);
  }

  /** Listing the same members in any order gives the same value, so the same canonical form. */
  lemma MemberOrderIrrelevant(ms: seq<Member>, ns: seq<Member>)
    requires Denote(DObj(ms)).Some? && DistinctKeys(ns)
    requires forall m :: m in ms <==> m in ns
    ensures Denote(DObj(ns)) == Denote(DObj(ms))
  {
    DenoteObjectParts(ms);
    var fields := FieldMap(ms);
    forall k | 0 <= k < |ns|
      ensures DecodeString(ns[k].key) in fields && Denote(ns[k].value) == Some(fields[DecodeString(ns[k].key)])
    {
      assert ns[k] in ms;
    }
    forall key | key in fields ensures exists l :: 0 <= l < |ns| && DecodeString(ns[l].key) == key {
      var l :| 0 <= l < |ms| && DecodeString(ms[l].key) == key;
      assert ms[l] in ns;
    }
    DenoteObject(ns, fields);
  }

  // ---- signing input ----

  /** "AITP1" followed by a zero octet. */
  const DOMAIN_PREFIX: Bytes := [0x41, 0x49, 0x54, 0x50, 0x31, 0x00]

  /** The signing input of an object: its members other than "sig"; None for anything but an object (or null). */
  ghost function SignatureInput(obj: Value): Option<Bytes> {
    match obj
    case Obj(fields) => Some(DOMAIN_PREFIX + CanonicalBytes(Obj(fields - {"sig"})))
    case Null => Some(DOMAIN_PREFIX + CanonicalBytes(Null))
    case _ => None
  }

  /** Two objects have the same signing input exactly when they differ at most in "sig". */
  lemma SignatureInputBinds(a: map<string, Value>, b: map<string, Value>)
    ensures SignatureInput(Obj(a)) == SignatureInput(Obj(b)) <==>
            forall k | k != "sig" :: (k in a <==> k in b) && (k in a ==> a[k] == b[k])
  {
    var x, y := a - {"sig"}, b - {"sig"};
    if SignatureInput(Obj(a)) == SignatureInput(Obj(b)) {
      var n := |DOMAIN_PREFIX|;
      assert (DOMAIN_PREFIX + CanonicalBytes(Obj(x)))[n..] == CanonicalBytes(Obj(x));
      assert (DOMAIN_PREFIX + CanonicalBytes(Obj(y)))[n..] == CanonicalBytes(Obj(y));
      CanonicalInjective(Obj(x), Obj(y));
      forall k | k != "sig" ensures (k in a <==> k in b) && (k in a ==> a[k] == b[k]) {
        assert k in x <==> k in y;
        assert k in x ==> x[k] == y[k];
      }
    }
    if forall k | k != "sig" :: (k in a <==> k in b) && (k in a ==> a[k] == b[k]) {
      assert x == y;
    }
  }
}
