/**
 * The canonical serialization of JSON under the integer-only I-JSON profile
 * (RFC 8785, sections 3.2.2.2 and 3.2.3): what a syntax tree denotes, how a value
 * is printed, and the canonicalizer that goes from one to the other.
 */
module Jcs {
  import opened Wrappers
  import opened Text
  import opened Json
  import Lex

  /** JSON values: integers as numbers, strings as scalar sequences, objects as finite maps. */
  datatype Value =
    | Null
    | Bool(b: bool)
    | Num(n: int)
    | Str(s: string)
    | Arr(items: seq<Value>)
    | Obj(fields: map<string, Value>)

  // ---- denotation ----

  predicate IsHighSurrogate(u: nat) { 0xD800 <= u < 0xDC00 }

  predicate IsLowSurrogate(u: nat) { 0xDC00 <= u < 0xE000 }

  function CombineSurrogates(hi: nat, lo: nat): char
    requires IsHighSurrogate(hi) && IsLowSurrogate(lo)
  {
    (0x10000 + (hi - 0xD800) * 0x400 + (lo - 0xDC00)) as char
  }

  /** The decoded string; an unpaired surrogate escape decodes to U+FFFD. */
  function DecodeString(ps: seq<Piece>): string {
    if ps == [] then ""
    else
      match ps[0]
      case Plain(c) => [c] + DecodeString(ps[1..])
      case Short(c) => [c] + DecodeString(ps[1..])
      case Unit(u) =>
        if IsHighSurrogate(u) && |ps| > 1 && ps[1].Unit? && IsLowSurrogate(ps[1].u) then
          [CombineSurrogates(u, ps[1].u)] + DecodeString(ps[2..])
        else
          [if u < 0xD800 || 0xE000 <= u < 0x10000 then u as char else 0xFFFD as char] + DecodeString(ps[1..])
  }

  predicate IsInteger(lit: string) {
    forall c | c in lit :: c != '.' && c != 'e' && c != 'E'
  }

  /** The number an integer literal of the JSON grammar stands for. */
  function IntegerOf(lit: string): Option<int> {
    var digits := if lit != "" && lit[0] == '-' then lit[1..] else lit;
    if digits == "" || !AllDigits(digits) then None
    else if lit[0] == '-' then Some(0 - ParseDigits(digits))
    else Some(ParseDigits(digits))
  }

  predicate DistinctKeys(ms: seq<Member>) {
    forall i, j | 0 <= i < j < |ms| :: DecodeString(ms[i].key) != DecodeString(ms[j].key)
  }

  /** The value a document denotes; none for a repeated key or a non-integer number. */
  function Denote(d: Doc): Option<Value>
    decreases d, 1
  {
    match d
    case DNull => Some(Null)
    case DBool(b) => Some(Bool(b))
    case DNum(lit) =>
      if IntegerOf(lit).Some? then Some(Num(IntegerOf(lit).value)) else None
    case DStr(ps) => Some(Str(DecodeString(ps)))
    case DArr(items) =>
      if forall i | 0 <= i < |items| :: Denote(items[i]).Some? then
        Some(Arr(seq(|items|, i requires 0 <= i < |items| && Denote(items[i]).Some? => Denote(items[i]).value)))
      else None
    case DObj(ms) =>
      if DistinctKeys(ms) && forall i | 0 <= i < |ms| :: Denote(ms[i].value).Some? then
        Some(Obj(FieldMap(ms)))
      else None
  }

  function FieldMap(ms: seq<Member>): (m: map<string, Value>)
    requires DistinctKeys(ms) && forall i | 0 <= i < |ms| :: Denote(ms[i].value).Some?
    ensures forall i | 0 <= i < |ms| ::
              DecodeString(ms[i].key) in m && m[DecodeString(ms[i].key)] == Denote(ms[i].value).value
    ensures forall k | k in m :: exists i :: 0 <= i < |ms| && DecodeString(ms[i].key) == k
    decreases ms, 0
  {
    map i | 0 <= i < |ms| && Denote(ms[i].value).Some? :: DecodeString(ms[i].key) := Denote(ms[i].value).value
  }

  /** When an object denotes: distinct keys, and members that denote. */
  lemma DenoteObjectParts(ms: seq<Member>)
    requires Denote(DObj(ms)).Some?
    ensures DistinctKeys(ms) && forall i | 0 <= i < |ms| :: Denote(ms[i].value).Some?
    ensures Denote(DObj(ms)) == Some(Obj(FieldMap(ms)))
  {
    hide DecodeString, DistinctKeys, FieldMap, IntegerOf;
  }

  lemma DenoteArray(items: seq<Doc>, vs: seq<Value>)
    requires |items| == |vs| && forall i | 0 <= i < |items| :: Denote(items[i]) == Some(vs[i])
    ensures Denote(DArr(items)) == Some(Arr(vs))
  {
    var r := Denote(DArr(items)).value.items;
    assert r == vs;
  }

  lemma DenoteObject(ms: seq<Member>, fields: map<string, Value>)
    requires DistinctKeys(ms)
    requires forall i | 0 <= i < |ms| ::
               DecodeString(ms[i].key) in fields && Denote(ms[i].value) == Some(fields[DecodeString(ms[i].key)])
    requires forall k | k in fields :: exists i :: 0 <= i < |ms| && DecodeString(ms[i].key) == k
    ensures Denote(DObj(ms)) == Some(Obj(fields))
  {
    hide DistinctKeys, DecodeString, IntegerOf;
    assert FieldMap(ms) == fields;
  }

  // ---- UTF-16 member order ----

  function Utf16Char(c: char): (us: seq<nat>)
    ensures 1 <= |us| <= 2
  {
    var n := c as int;
    if n < 0x10000 then [n] else [0xD800 + (n - 0x10000) / 0x400, 0xDC00 + (n - 0x10000) % 0x400]
  }

  /** utf16.Encode of the runes of s. */
  function Utf16(s: string): seq<nat> {
    if s == "" then [] else Utf16Char(s[0]) + Utf16(s[1..])
  }

  lemma {:induction false} Utf16Injective(s: string, t: string)
    requires Utf16(s) == Utf16(t)
    ensures s == t
  {
    if s == "" || t == "" {
      assert s != "" ==> |Utf16(s)| > 0;
      assert t != "" ==> |Utf16(t)| > 0;
    } else {
      var a, b := Utf16Char(s[0]), Utf16Char(t[0]);
      assert (a + Utf16(s[1..]))[0] == a[0] && (b + Utf16(t[1..]))[0] == b[0];
      assert |a| == |b|;
      if |a| == 2 {
        assert (a + Utf16(s[1..]))[1] == a[1] && (b + Utf16(t[1..]))[1] == b[1];
      }
      assert s[0] == t[0];
      assert (a + Utf16(s[1..]))[|a|..] == Utf16(s[1..]);
      assert (b + Utf16(t[1..]))[|b|..] == Utf16(t[1..]);
      Utf16Injective(s[1..], t[1..]);
      assert s == [s[0]] + s[1..] && t == [t[0]] + t[1..];
    }
  }

  lemma Utf16IsKey()
    ensures Lex.InjectiveKey(Utf16)
  {
    forall s, t | Utf16(s) == Utf16(t) ensures s == t {
      Utf16Injective(s, t);
    }
  }

  ghost function SortedKeys(m: map<string, Value>): (ks: seq<string>)
    ensures forall k :: k in ks <==> k in m
    ensures Lex.StrictlySorted(ks, Utf16)
  {
    Utf16IsKey();
    Lex.SortedEnumerates(m.Keys, Utf16);
    Lex.Sorted(m.Keys, Utf16)
  }

  // ---- canonical text ----

  function LowerHexDigit(v: nat): (c: char)
    requires v < 16
    ensures IsHexDigit(c) && HexDigitValue(c) == v
  {
    if v < 10 then ('0' as int + v) as char else ('a' as int + v - 10) as char
  }

  /** The minimal escape of one character. */
  function EscapeChar(c: char): (e: string)
    ensures |e| > 0
  {
    if c == '"' then "\\\""
    else if c == '\\' then "\\\\"
    else if c as int == 0x08 then "\\b"
    else if c == '\t' then "\\t"
    else if c == '\n' then "\\n"
    else if c as int == 0x0C then "\\f"
    else if c == '\r' then "\\r"
    else if c as int < 0x20 then "\\u00" + [LowerHexDigit(c as int / 16), LowerHexDigit(c as int % 16)]
    else [c]
  }

  function EscapeAll(s: string): string {
    if s == "" then "" else EscapeChar(s[0]) + EscapeAll(s[1..])
  }

  function PrintString(s: string): string { "\"" + EscapeAll(s) + "\"" }

  function PrintInt(n: int): string {
    if n < 0 then "-" + Itoa(0 - n) else Itoa(n)
  }

  ghost function Print(v: Value): string
    decreases v, 1, 0
  {
    match v
    case Null => "null"
    case Bool(b) => if b then "true" else "false"
    case Num(n) => PrintInt(n)
    case Str(s) => PrintString(s)
    case Arr(items) => if items == [] then "[]" else "[" + PrintItems(v, 0)
    case Obj(fields) => if fields == map[] then "{}" else "{" + PrintFields(v, SortedKeys(fields))
  }

  /** The items from position i on, and the closing bracket. */
  ghost function PrintItems(v: Value, i: nat): string
    requires v.Arr? && i < |v.items|
    decreases v, 0, |v.items| - i
  {
    Print(v.items[i]) + if i + 1 == |v.items| then "]" else "," + PrintItems(v, i + 1)
  }

  /** The members with the given keys, in that order, and the closing brace. */
  ghost function PrintFields(v: Value, ks: seq<string>): string
    requires v.Obj? && forall k | k in ks :: k in v.fields
    decreases v, 0, |ks|
  {
    if ks == [] then "}"
    else
      PrintString(ks[0]) + ":" + Print(v.fields[ks[0]])
      + if |ks| == 1 then "}" else "," + PrintFields(v, ks[1..])
  }
}
