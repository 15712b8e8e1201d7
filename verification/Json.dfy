/**
 * JSON text (RFC 8259): the grammar as a parser into a syntax tree that keeps
 * how each string was escaped and how each number was written.
 */
module Json {
  import opened Wrappers
  import opened Text

  /** One element of a string literal: a plain character, a two-character escape, or \uXXXX. */
  datatype Piece = Plain(c: char) | Short(c: char) | Unit(u: nat)

  datatype Doc =
    | DNull
    | DBool(b: bool)
    | DNum(lit: string)
    | DStr(pieces: seq<Piece>)
    | DArr(items: seq<Doc>)
    | DObj(members: seq<Member>)

  datatype Member = Member(key: seq<Piece>, value: Doc)

  predicate IsSpace(c: char) { c == ' ' || c == '\t' || c == '\n' || c == '\r' }

  function SkipSpace(s: string): (r: string)
    ensures |r| <= |s|
    ensures r != "" ==> !IsSpace(r[0])
  {
    if s != "" && IsSpace(s[0]) then SkipSpace(s[1..]) else s
  }

  predicate StartsWith(s: string, prefix: string) {
    |prefix| <= |s| && s[..|prefix|] == prefix
  }

  // ---- strings ----

  predicate IsHexDigit(c: char) { IsDigit(c) || 'a' <= c <= 'f' || 'A' <= c <= 'F' }

  function HexDigitValue(c: char): (v: nat)
    requires IsHexDigit(c)
    ensures v < 16
  {
    if IsDigit(c) then c as int - '0' as int
    else if 'a' <= c <= 'f' then c as int - 'a' as int + 10
    else c as int - 'A' as int + 10
  }

  /** The value of four hexadecimal digits at the head of s. */
  function Hex4(s: string): (v: Option<nat>)
    ensures v.Some? ==> |s| >= 4 && v.value < 0x10000
  {
    if |s| >= 4 && IsHexDigit(s[0]) && IsHexDigit(s[1]) && IsHexDigit(s[2]) && IsHexDigit(s[3]) then
      Some(HexDigitValue(s[0]) * 4096 + HexDigitValue(s[1]) * 256 + HexDigitValue(s[2]) * 16 + HexDigitValue(s[3]))
    else None
  }

  /** The character named by a two-character escape. */
  function ShortEscape(c: char): Option<char> {
    if c == '"' || c == '\\' || c == '/' then Some(c)
    else if c == 'b' then Some(0x08 as char)
    else if c == 'f' then Some(0x0C as char)
    else if c == 'n' then Some('\n')
    else if c == 'r' then Some('\r')
    else if c == 't' then Some('\t')
    else None
  }

  /** The pieces of a literal whose opening quote is consumed, and what follows the closing one. */
  function ParseString(s: string): (r: Option<(seq<Piece>, string)>)
    ensures r.Some? ==> |r.value.1| < |s|
  {
    if s == "" then None
    else if s[0] == '"' then Some(([], s[1..]))
    else if s[0] == '\\' then
      if |s| < 2 then None
      else if s[1] == 'u' then
        match Hex4(s[2..])
        case None => None
        case Some(u) => ConsPiece(Unit(u), ParseString(s[6..]))
      else
        match ShortEscape(s[1])
        case None => None
        case Some(c) => ConsPiece(Short(c), ParseString(s[2..]))
    else if s[0] as int < 0x20 then None
    else ConsPiece(Plain(s[0]), ParseString(s[1..]))
  }

  function ConsPiece(p: Piece, r: Option<(seq<Piece>, string)>): Option<(seq<Piece>, string)> {
    match r
    case None => None
    case Some((ps, rest)) => Some(([p] + ps, rest))
  }

  // ---- numbers ----

  /** The end of the run of digits that starts at i. */
  function DigitsEnd(s: string, i: nat): (j: nat)
    requires i <= |s|
    ensures i <= j <= |s|
    ensures forall k | i <= k < j :: s[k] != '"'
    decreases |s| - i
  {
    if i < |s| && IsDigit(s[i]) then DigitsEnd(s, i + 1) else i
  }

  /** The integer part, with no superfluous leading zero. */
  function IntEnd(s: string, i: nat): (j: nat)
    requires i <= |s|
    ensures i <= j <= |s|
    ensures forall k | i <= k < j :: s[k] != '"'
  {
    if i < |s| && s[i] == '0' then i + 1 else DigitsEnd(s, i)
  }

  /** An optional fraction; None when the point is not followed by a digit. */
  function FractionEnd(s: string, i: nat): (j: Option<nat>)
    requires i <= |s|
    ensures j.Some? ==> i <= j.value <= |s| && forall k | i <= k < j.value :: s[k] != '"'
  {
    if i < |s| && s[i] == '.' then
      var j := DigitsEnd(s, i + 1);
      if j == i + 1 then None else Some(j)
    else Some(i)
  }

  /** An optional exponent; None when the marker is not followed by digits. */
  function ExponentEnd(s: string, i: nat): (j: Option<nat>)
    requires i <= |s|
    ensures j.Some? ==> i <= j.value <= |s| && forall k | i <= k < j.value :: s[k] != '"'
  {
    if i < |s| && (s[i] == 'e' || s[i] == 'E') then
      var k := if i + 1 < |s| && (s[i + 1] == '+' || s[i + 1] == '-') then i + 2 else i + 1;
      var j := DigitsEnd(s, k);
      if j == k then None else Some(j)
    else Some(i)
  }

  /** Where the number literal at the head of s ends. */
  function NumberEnd(s: string): (n: Option<nat>)
    ensures n.Some? ==> 0 < n.value <= |s| && forall k | 0 <= k < n.value :: s[k] != '"'
  {
    var sign := if s != "" && s[0] == '-' then 1 else 0;
    var i := IntEnd(s, sign);
    if i == sign then None
    else
      match FractionEnd(s, i)
      case None => None
      case Some(j) => ExponentEnd(s, j)
  }

  // ---- values ----

  /** One value with any leading whitespace, and the text after it. */
  function ParseValue(s: string): (r: Option<(Doc, string)>)
    ensures r.Some? ==> |r.value.1| < |s|
    decreases |s|, 1
  {
    var t := SkipSpace(s);
    if t == "" then None
    else if t[0] == '{' then
      var u := SkipSpace(t[1..]);
      if u != "" && u[0] == '}' then Some((DObj([]), u[1..]))
      else
        match ParseMembers(t[1..])
        case None => None
        case Some((ms, rest)) => Some((DObj(ms), rest))
    else if t[0] == '[' then
      var u := SkipSpace(t[1..]);
      if u != "" && u[0] == ']' then Some((DArr([]), u[1..]))
      else
        match ParseItems(t[1..])
        case None => None
        case Some((items, rest)) => Some((DArr(items), rest))
    else if t[0] == '"' then
      match ParseString(t[1..])
      case None => None
      case Some((ps, rest)) => Some((DStr(ps), rest))
    else if StartsWith(t, "true") then Some((DBool(true), t[4..]))
    else if StartsWith(t, "false") then Some((DBool(false), t[5..]))
    else if StartsWith(t, "null") then Some((DNull, t[4..]))
    else
      match NumberEnd(t)
      case None => None
      case Some(n) => Some((DNum(t[..n]), t[n..]))
  }

  /** One or more array items, up to and including the closing bracket. */
  function ParseItems(s: string): (r: Option<(seq<Doc>, string)>)
    ensures r.Some? ==> |r.value.1| < |s|
    decreases |s|, 2
  {
    match ParseValue(s)
    case None => None
    case Some((d, afterValue)) =>
      var t := SkipSpace(afterValue);
      if t == "" then None
      else if t[0] == ']' then Some(([d], t[1..]))
      else if t[0] == ',' then
        match ParseItems(t[1..])
        case None => None
        case Some((ds, rest)) => Some(([d] + ds, rest))
      else None
  }

  /** One or more object members, up to and including the closing brace. */
  function ParseMembers(s: string): (r: Option<(seq<Member>, string)>)
    ensures r.Some? ==> |r.value.1| < |s|
    decreases |s|, 2
  {
    match ParseMember(s)
    case None => None
    case Some((m, afterValue)) =>
      var t := SkipSpace(afterValue);
      if t == "" then None
      else if t[0] == '}' then Some(([m], t[1..]))
      else if t[0] == ',' then
        match ParseMembers(t[1..])
        case None => None
        case Some((ms, rest)) => Some(([m] + ms, rest))
      else None
  }

  function ParseMember(s: string): (r: Option<(Member, string)>)
    ensures r.Some? ==> |r.value.1| < |s|
    decreases |s|, 1
  {
    var t := SkipSpace(s);
    if t == "" || t[0] != '"' then None
    else
      match ParseString(t[1..])
      case None => None
      case Some((key, afterKey)) =>
        var u := SkipSpace(afterKey);
        if u == "" || u[0] != ':' then None
        else
          match ParseValue(u[1..])
          case None => None
          case Some((v, rest)) => Some((Member(key, v), rest))
  }

  /** A whole document: one value, then nothing but whitespace. */
  function ParseDocument(s: string): Option<Doc> {
    match ParseValue(s)
    case None => None
    case Some((d, rest)) => if SkipSpace(rest) == "" then Some(d) else None
  }
}
