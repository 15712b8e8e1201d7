/** The capability URI profile: normalization of scheme, authority and path. */
module Uri {
  import opened Wrappers
  import opened Text

  datatype UriError =
    | InvalidUri | InvalidScheme | NonAsciiHost | UserinfoNotAllowed | QueryOrFragment
    | EncodedSeparator | DotSegment | InvalidPercentEncoding | InvalidPort

  // ---- character classes ----

  predicate IsLower(c: char) { 'a' <= c <= 'z' }

  const KELVIN_SIGN := '\U{212A}'
  const DOTTED_CAPITAL_I := '\U{130}'

  /** Characters that have a lower-case form within ASCII. */
  predicate IsUpper(c: char) { 'A' <= c <= 'Z' || c == KELVIN_SIGN || c == DOTTED_CAPITAL_I }

  predicate IsUnreserved(c: char) {
    'A' <= c <= 'Z' || IsLower(c) || IsDigit(c) || c == '-' || c == '.' || c == '_' || c == '~'
  }

  predicate IsSubDelim(c: char) {
    c == '!' || c == '$' || '&' <= c <= ',' || c == ';' || c == '='
  }

  predicate IsRegName(c: char) { IsUnreserved(c) || IsSubDelim(c) }

  predicate IsPathLiteral(c: char) {
    IsUnreserved(c) || IsSubDelim(c) || c == ':' || c == '@' || c == '/'
  }

  predicate IsUpperHex(c: char) { IsDigit(c) || 'A' <= c <= 'F' }

  predicate IsHex(c: char) { IsUpperHex(c) || 'a' <= c <= 'f' }

  predicate IsIpv6(c: char) { IsHex(c) || c == ':' || c == '.' }

  function LowerChar(c: char): char {
    if 'A' <= c <= 'Z' then (c as int + 32) as char
    else if c == KELVIN_SIGN then 'k'
    else if c == DOTTED_CAPITAL_I then 'i'
    else c
  }

  /**
   * strings.ToLower on text that ends up in ASCII. Other characters have lower-case forms outside ASCII, and are
   * refused with or without lower-casing wherever it is used.
   */
  function Lower(s: string): string {
    seq(|s|, i requires 0 <= i < |s| => LowerChar(s[i]))
  }

  function HexValue(c: char): (v: nat)
    requires IsHex(c)
    ensures v < 16
  {
    if IsDigit(c) then c as int - '0' as int
    else if IsUpper(c) then c as int - 'A' as int + 10
    else c as int - 'a' as int + 10
  }

  function UpperHexDigit(v: nat): (c: char)
    requires v < 16
    ensures IsUpperHex(c) && HexValue(c) == v
  {
    if v < 10 then ('0' as int + v) as char else ('A' as int + v - 10) as char
  }

  /** The octet written by a percent escape with these two hex digits. */
  function Octet(hi: char, lo: char): (c: char)
    requires IsHex(hi) && IsHex(lo)
  {
    (16 * HexValue(hi) + HexValue(lo)) as char
  }

  // ---- scheme ----

  predicate SchemeOk(s: string) {
    forall i | 0 <= i < |s| ::
      IsLower(s[i]) || (i > 0 && (IsDigit(s[i]) || s[i] == '+' || s[i] == '-' || s[i] == '.'))
  }

  function CanonicalScheme(scheme: string): Result<string, UriError> {
    if scheme == "" then Err(InvalidScheme)
    else if SchemeOk(Lower(scheme)) then Ok(Lower(scheme))
    else Err(InvalidScheme)
  }

  // ---- authority ----

  /** Separates an authority into its host and its port text. */
  function SplitHostPort(authority: string): Result<(string, string), UriError>
    requires authority != ""
  {
    if authority[0] == '[' then
      var end := IndexOf(authority, ']');
      if end < 0 then Err(InvalidUri)
      else
        var tail := authority[end + 1..];
        if tail == "" then Ok((authority, ""))
        else if tail[0] != ':' then Err(InvalidUri)
        else Ok((authority[..end + 1], tail[1..]))
    else
      var i := LastIndexOf(authority, ':');
      if i >= 0 then Ok((authority[..i], authority[i + 1..])) else Ok((authority, ""))
  }

  function CanonicalHost(host: string): Result<string, UriError> {
    if host == "" then Err(InvalidUri)
    else if host[0] == '[' then
      if |host| < 3 then Err(InvalidUri)
      else
        var inner := host[1..|host| - 1];
        if forall c | c in inner :: IsIpv6(c) then Ok("[" + Lower(inner) + "]") else Err(InvalidUri)
    else HostChars(host, host)
  }

  /** The reg-name check, left to right: the first bad octet decides the error. */
  function HostChars(host: string, rest: string): (r: Result<string, UriError>)
    ensures r.Ok? <==> forall c | c in rest :: IsRegName(c)
    ensures r.Ok? ==> r.value == Lower(host)
  {
    if rest == "" then Ok(Lower(host))
    else
      assert rest == [rest[0]] + rest[1..] && rest[0] in rest;
      if rest[0] as int >= 0x80 then Err(NonAsciiHost)
      else if !IsRegName(rest[0]) then Err(InvalidUri)
      else HostChars(host, rest[1..])
  }

  function DefaultPort(scheme: string): int {
    if scheme == "http" || scheme == "ws" then 80
    else if scheme == "https" || scheme == "wss" then 443
    else -1
  }

  /** strconv.Atoi without the machine-word bound, which lies far above the port range. */
  function Atoi(s: string): Option<int> {
    var body := if s != "" && (s[0] == '+' || s[0] == '-') then s[1..] else s;
    if body == "" || !AllDigits(body) then None
    else if s[0] == '-' then Some(0 - ParseDigits(body))
    else Some(ParseDigits(body))
  }

  function CanonicalPort(port: string, scheme: string): Result<string, UriError> {
    if port == "" then Ok("")
    else
      match Atoi(port)
      case None => Err(InvalidPort)
      case Some(n) =>
        if n < 0 || n > 65535 then Err(InvalidPort)
        else if DefaultPort(scheme) == n then Ok("")
        else Ok(Itoa(n))
  }

  function CanonicalAuthority(authority: string, scheme: string): Result<string, UriError> {
    if authority == "" then Err(InvalidUri)
    else if '@' in authority then Err(UserinfoNotAllowed)
    else
      match SplitHostPort(authority)
      case Err(e) => Err(e)
      case Ok((rawHost, rawPort)) =>
        match CanonicalHost(rawHost)
        case Err(e) => Err(e)
        case Ok(host) =>
          match CanonicalPort(rawPort, scheme)
          case Err(e) => Err(e)
          case Ok(port) => Ok(if port == "" then host else host + ":" + port)
  }

  // ---- path ----

  predicate IsEncodedSeparator(hi: char, lo: char) {
    (hi == '2' && LowerChar(lo) == 'f') || (hi == '5' && LowerChar(lo) == 'c') || (hi == '0' && lo == '0')
  }

  /** Whether %2F, %5C or %00 occurs anywhere, in either case. */
  predicate HasEncodedSeparator(path: string) {
    exists i | 0 <= i < |path| - 2 :: path[i] == '%' && IsEncodedSeparator(path[i + 1], path[i + 2])
  }

  /** Decodes escapes of unreserved octets, uppercases the others and copies literals. */
  function NormalizeOctets(path: string): Result<string, UriError> {
    if path == "" then Ok("")
    else if path[0] == '%' then
      if |path| < 3 || !IsHex(path[1]) || !IsHex(path[2]) then Err(InvalidPercentEncoding)
      else
        match NormalizeOctets(path[3..])
        case Err(e) => Err(e)
        case Ok(rest) => Ok(NormalEscape(path[1], path[2]) + rest)
    else if !IsPathLiteral(path[0]) then Err(InvalidUri)
    else
      match NormalizeOctets(path[1..])
      case Err(e) => Err(e)
      case Ok(rest) => Ok([path[0]] + rest)
  }

  function NormalEscape(hi: char, lo: char): string
    requires IsHex(hi) && IsHex(lo)
  {
    var decoded := Octet(hi, lo);
    if IsUnreserved(decoded) then [decoded]
    else ['%', UpperHexDigit(HexValue(hi)), UpperHexDigit(HexValue(lo))]
  }

  predicate HasDotSegment(path: string) {
    var segs := Split(path, '/');
    "." in segs || ".." in segs
  }

  function CanonicalPath(path: string): Result<string, UriError> {
    if path == "" then Ok("")
    else if HasEncodedSeparator(path) then Err(EncodedSeparator)
    else
      match NormalizeOctets(path)
      case Err(e) => Err(e)
      case Ok(out) => if HasDotSegment(out) then Err(DotSegment) else Ok(out)
  }

  function Prepend(b: string, r: Result<string, UriError>): Result<string, UriError> {
    match r
    case Err(e) => Err(e)
    case Ok(rest) => Ok(b + rest)
  }

  lemma PrependTwice(a: string, b: string, r: Result<string, UriError>)
    ensures Prepend(a + b, r) == Prepend(a, Prepend(b, r))
  {
    if r.Ok? { assert a + b + r.value == a + (b + r.value); }
  }

  /** The path normalizer as it runs: one pass over the octets, appending to a buffer. */
  method NormalizePath(path: string) returns (r: Result<string, UriError>)
    ensures r == CanonicalPath(path)
  {
    if path == "" { return Ok(""); }
    if HasEncodedSeparator(path) { return Err(EncodedSeparator); }
    var b, i := "", 0;
    assert path[0..] == path;
    assert forall s: string :: "" + s == s;
    while i < |path|
      invariant 0 <= i <= |path|
      invariant NormalizeOctets(path) == Prepend(b, NormalizeOctets(path[i..]))
    {
      var rest := path[i..];
      if rest[0] == '%' {
        if i + 2 >= |path| || !IsHex(path[i + 1]) || !IsHex(path[i + 2]) {
          return Err(InvalidPercentEncoding);
        }
        assert rest[3..] == path[i + 3..];
        PrependTwice(b, NormalEscape(path[i + 1], path[i + 2]), NormalizeOctets(path[i + 3..]));
        b, i := b + NormalEscape(path[i + 1], path[i + 2]), i + 3;
      } else {
        if !IsPathLiteral(path[i]) { return Err(InvalidUri); }
        assert rest[1..] == path[i + 1..];
        PrependTwice(b, [path[i]], NormalizeOctets(path[i + 1..]));
        b, i := b + [path[i]], i + 1;
      }
    }
    assert path[i..] == "" && b + "" == b;
    return if HasDotSegment(b) then Err(DotSegment) else Ok(b);
  }

  // ---- whole URI ----

  /** strings.Index(s, "://") */
  function SepIndex(s: string): (i: int)
    ensures -1 <= i && (i >= 0 ==> i + 3 <= |s| && s[i..i + 3] == "://")
  {
    if |s| < 3 then -1
    else if s[..3] == "://" then 0
    else var r := SepIndex(s[1..]); if r < 0 then -1 else r + 1
  }

  /** Splits what follows the scheme separator at the first slash. */
  function SplitPath(rest: string): (string, string) {
    var slash := IndexOf(rest, '/');
    if slash >= 0 then (rest[..slash], rest[slash..]) else (rest, "")
  }

  function CanonicalizeURI(raw: string): Result<string, UriError> {
    var sep := SepIndex(raw);
    if sep <= 0 then Err(InvalidUri)
    else
      match CanonicalScheme(raw[..sep])
      case Err(e) => Err(e)
      case Ok(scheme) =>
        var rest := raw[sep + 3..];
        if '?' in rest || '#' in rest then Err(QueryOrFragment)
        else
          var (authority, path) := SplitPath(rest);
          match CanonicalAuthority(authority, scheme)
          case Err(e) => Err(e)
          case Ok(a) =>
            match CanonicalPath(path)
            case Err(e) => Err(e)
            case Ok(p) => Ok(scheme + "://" + a + p)
  }
}
