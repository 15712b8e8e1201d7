/**
 * The canonical URIs as a set of their own: which strings they are, that
 * CanonicalizeURI produces only them and leaves them alone, and that it keeps
 * what the URI denotes.
 */
module UriCanonical {
  import opened Wrappers
  import opened Text
  import opened Uri

  /** The components of a canonical URI; None is an absent (or default) port. */
  datatype Parts = Parts(scheme: string, host: string, port: Option<nat>, path: string) {
    function Authority(): string {
      match port
      case None => host
      case Some(n) => host + ":" + Itoa(n)
    }

    function Render(): string { scheme + "://" + Authority() + path }

    predicate WellFormed() {
      && scheme != "" && SchemeOk(scheme)
      && HostForm(host)
      && (port.Some? ==> port.value <= 65535 && port.value != DefaultPort(scheme))
      && (path == "" || (path[0] == '/' && NormalPath(path) && !HasDotSegment(path)))
    }
  }

  /** A lowercase registered name, or a lowercase bracketed literal. */
  predicate HostForm(host: string) {
    if host == "" then false
    else if host[0] == '[' then
      && |host| >= 3 && host[|host| - 1] == ']'
      && forall c | c in host[1..|host| - 1] :: IsIpv6(c) && !IsUpper(c)
    else forall c | c in host :: IsRegName(c) && !IsUpper(c)
  }

  /** Literals, and uppercase escapes of octets that are neither unreserved nor separators. */
  predicate NormalPath(path: string) {
    if path == "" then true
    else if path[0] == '%' then
      && |path| >= 3 && IsUpperHex(path[1]) && IsUpperHex(path[2])
      && !IsUnreserved(Octet(path[1], path[2]))
      && !IsEncodedSeparator(path[1], path[2])
      && NormalPath(path[3..])
    else IsPathLiteral(path[0]) && NormalPath(path[1..])
  }

  ghost predicate IsCanonical(u: string) {
    exists p: Parts :: p.WellFormed() && u == p.Render()
  }

  // ---- path octets ----

  lemma UpperHexIdentity(c: char)
    requires IsUpperHex(c)
    ensures UpperHexDigit(HexValue(c)) == c
  {}

  lemma {:induction false} NormalizedIsNormal(path: string)
    requires NormalizeOctets(path).Ok? && !HasEncodedSeparator(path)
    ensures NormalPath(NormalizeOctets(path).value)
    decreases |path|
  {
    if path == "" {
    } else if path[0] == '%' {
      var hi, lo, rest := path[1], path[2], path[3..];
      assert !IsEncodedSeparator(path[0 + 1], path[0 + 2]);
      NoSeparatorInSuffix(path, 3);
      NormalizedIsNormal(rest);
      var e := NormalEscape(hi, lo);
      var out := NormalizeOctets(rest).value;
      assert NormalizeOctets(path).value == e + out;
      if IsUnreserved(Octet(hi, lo)) {
        assert (e + out)[1..] == out;
      } else {
        EscapeKeepsSeparatorStatus(hi, lo);
        assert (e + out)[3..] == out;
      }
    } else {
      NoSeparatorInSuffix(path, 1);
      NormalizedIsNormal(path[1..]);
      assert ([path[0]] + NormalizeOctets(path[1..]).value)[1..] == NormalizeOctets(path[1..]).value;
    }
  }

  lemma NoSeparatorInSuffix(path: string, k: nat)
    requires k <= |path| && !HasEncodedSeparator(path)
    ensures !HasEncodedSeparator(path[k..])
  {
    var rest := path[k..];
    forall i | 0 <= i < |rest| - 2 && rest[i] == '%'
      ensures !IsEncodedSeparator(rest[i + 1], rest[i + 2])
    {
      assert path[k + i] == '%' && path[k + i + 1] == rest[i + 1] && path[k + i + 2] == rest[i + 2];
    }
  }

  lemma EscapeKeepsSeparatorStatus(hi: char, lo: char)
    requires IsHex(hi) && IsHex(lo)
    ensures var h, l := UpperHexDigit(HexValue(hi)), UpperHexDigit(HexValue(lo));
            IsEncodedSeparator(h, l) == IsEncodedSeparator(hi, lo) && Octet(h, l) == Octet(hi, lo)
  {}

  lemma {:induction false} NormalIsFixed(path: string)
    requires NormalPath(path)
    ensures NormalizeOctets(path) == Ok(path)
    decreases |path|
  {
    if path == "" {
    } else if path[0] == '%' {
      NormalIsFixed(path[3..]);
      UpperHexIdentity(path[1]);
      UpperHexIdentity(path[2]);
      assert path == ['%', path[1], path[2]] + path[3..];
    } else {
      NormalIsFixed(path[1..]);
      assert path == [path[0]] + path[1..];
    }
  }

  lemma {:induction false} NormalHasNoSeparator(path: string)
    requires NormalPath(path)
    ensures !HasEncodedSeparator(path)
    decreases |path|
  {
    if path != "" {
      var k := if path[0] == '%' then 3 else 1;
      NormalHasNoSeparator(path[k..]);
      forall i | 0 <= i < |path| - 2 && path[i] == '%'
        ensures !IsEncodedSeparator(path[i + 1], path[i + 2])
      {
        if i >= k {
          var j := i - k;
          assert path[k..][j] == '%' && path[k..][j + 1] == path[i + 1] && path[k..][j + 2] == path[i + 2];
        }
      }
    }
  }

  lemma {:induction false} NormalChars(path: string)
    requires NormalPath(path)
    ensures forall c | c in path :: c == '%' || IsPathLiteral(c)
    decreases |path|
  {
    if path != "" {
      var k := if path[0] == '%' then 3 else 1;
      NormalChars(path[k..]);
      assert path == path[..k] + path[k..];
    }
  }

  // ---- authority ----

  lemma LowerFixed(s: string)
    requires forall c | c in s :: !IsUpper(c)
    ensures Lower(s) == s
  {
    forall i | 0 <= i < |s| ensures Lower(s)[i] == s[i] {
      assert s[i] in s;
    }
  }

  lemma LoweredFrom(s: string, c: char) returns (d: char)
    requires c in Lower(s)
    ensures d in s && c == LowerChar(d)
  {
    var i :| 0 <= i < |s| && Lower(s)[i] == c;
    d := s[i];
  }

  lemma HostIsForm(host: string)
    requires CanonicalHost(host).Ok?
    requires host != "" && host[0] == '[' ==> host[|host| - 1] == ']'
    ensures HostForm(CanonicalHost(host).value)
  {
    var out := CanonicalHost(host).value;
    if host[0] == '[' {
      var inner := host[1..|host| - 1];
      assert out[1..|out| - 1] == Lower(inner);
      forall c | c in Lower(inner) ensures IsIpv6(c) && !IsUpper(c) {
        var d := LoweredFrom(inner, c);
      }
    } else {
      forall c | c in out ensures IsRegName(c) && !IsUpper(c) {
        var d := LoweredFrom(host, c);
      }
      assert host[0] in host && out[0] in out;
    }
  }

  lemma HostIsFixed(host: string)
    requires HostForm(host)
    ensures CanonicalHost(host) == Ok(host)
  {
    if host[0] == '[' {
      var inner := host[1..|host| - 1];
      LowerFixed(inner);
      assert host == "[" + inner + "]";
    } else {
      LowerFixed(host);
    }
  }

  lemma HostChar(host: string, c: char)
    requires HostForm(host) && c in host
    ensures IsIpv6(c) || IsRegName(c) || c == '[' || c == ']'
  {
    if host[0] == '[' {
      assert host == "[" + host[1..|host| - 1] + "]";
    }
  }

  /** Splitting a canonical authority gives back its host and port text. */
  lemma SplitOfAuthority(p: Parts)
    requires p.WellFormed()
    ensures p.Authority() != ""
    ensures SplitHostPort(p.Authority()) == Ok((p.host, if p.port.Some? then Itoa(p.port.value) else ""))
  {
    var portText := if p.port.Some? then Itoa(p.port.value) else "";
    assert ':' !in portText;
    if p.host[0] == '[' {
      SplitBracketed(p.host, portText);
    } else {
      assert ':' !in p.host;
      SplitNamed(p.host, portText);
    }
  }

  lemma SplitBracketed(host: string, portText: string)
    requires HostForm(host) && host[0] == '['
    ensures SplitHostPort(if portText == "" then host else host + ":" + portText) == Ok((host, portText))
  {
    var a := if portText == "" then host else host + ":" + portText;
    var n := |host| - 1;
    assert forall c | c in host[1..|host| - 1] :: IsIpv6(c);
    assert !IsIpv6(']');
    assert a[..n] == "[" + host[1..n];
    IndexOfUnique(a, ']', n);
    assert a[..n + 1] == host;
    assert portText != "" ==> a[n + 1..] == ":" + portText;
  }

  lemma SplitNamed(host: string, portText: string)
    requires host != "" && host[0] != '[' && ':' !in host && ':' !in portText
    ensures SplitHostPort(if portText == "" then host else host + ":" + portText) == Ok((host, portText))
  {
    var a := if portText == "" then host else host + ":" + portText;
    if portText != "" {
      assert a[|host| + 1..] == portText && a[..|host|] == host;
      LastIndexOfUnique(a, ':', |host|);
    }
  }

  lemma AtoiOfItoa(n: nat)
    ensures Atoi(Itoa(n)) == Some(n)
  {
    ParseOfItoa(n);
    assert IsDigit(Itoa(n)[0]);
  }

  lemma AuthorityChars(p: Parts)
    requires p.WellFormed()
    ensures forall c | c in p.Authority() :: c != '/' && c != '?' && c != '#' && c != '@'
  {
    forall c | c in p.Authority() ensures c != '/' && c != '?' && c != '#' && c != '@' {
      if c in p.host {
        HostChar(p.host, c);
      } else {
        var port := Itoa(p.port.value);
        assert c == ':' || c in port;
        if c in port { var i :| 0 <= i < |port| && port[i] == c; }
      }
    }
  }

  lemma AuthorityIsFixed(p: Parts)
    requires p.WellFormed()
    ensures CanonicalAuthority(p.Authority(), p.scheme) == Ok(p.Authority())
  {
    SplitOfAuthority(p);
    HostIsFixed(p.host);
    AuthorityChars(p);
    if p.port.Some? { AtoiOfItoa(p.port.value); }
  }

  lemma AuthorityHasForm(authority: string, scheme: string) returns (host: string, port: Option<nat>)
    requires CanonicalAuthority(authority, scheme).Ok?
    ensures HostForm(host)
    ensures port.Some? ==> port.value <= 65535 && port.value != DefaultPort(scheme)
    ensures CanonicalAuthority(authority, scheme).value == Parts(scheme, host, port, "").Authority()
    ensures authority != "" && SplitHostPort(authority).Ok?
    ensures var (rawHost, rawPort) := SplitHostPort(authority).value;
            && CanonicalHost(rawHost) == Ok(host) && (rawHost[0] == '[' ==> rawHost[|rawHost| - 1] == ']')
            && CanonicalPort(rawPort, scheme) == Ok(if port.Some? then Itoa(port.value) else "")
  {
    hide SplitHostPort, CanonicalHost, HostForm, Itoa, Atoi, CanonicalPort;
    var (rawHost, rawPort) := SplitHostPort(authority).value;
    BracketsClose(authority);
    HostIsNonEmpty(rawHost);
    HostIsForm(rawHost);
    host := CanonicalHost(rawHost).value;
    port := PortHasForm(rawPort, scheme);
  }

  /** A bracketed host that is split off ends in its bracket. */
  lemma BracketsClose(authority: string)
    requires authority != "" && SplitHostPort(authority).Ok?
    ensures var host := SplitHostPort(authority).value.0;
            host != "" && host[0] == '[' ==> host[|host| - 1] == ']'
  {
    if authority[0] == '[' {
      var end := IndexOf(authority, ']');
      assert SplitHostPort(authority).value.0 == authority[..end + 1];
    }
  }

  lemma HostIsNonEmpty(host: string)
    requires CanonicalHost(host).Ok?
    ensures host != ""
  {}

  lemma PortHasForm(text: string, scheme: string) returns (port: Option<nat>)
    requires CanonicalPort(text, scheme).Ok?
    ensures port.Some? ==> port.value <= 65535 && port.value != DefaultPort(scheme)
    ensures CanonicalPort(text, scheme) == Ok(if port.Some? then Itoa(port.value) else "")
    ensures port.Some? <==> CanonicalPort(text, scheme).value != ""
  {
    hide Atoi;
    port := if CanonicalPort(text, scheme).value == "" then None else Some(Atoi(text).value);
  }

  // ---- scheme and separator ----

  lemma SchemeIsForm(scheme: string)
    requires CanonicalScheme(scheme).Ok?
    ensures CanonicalScheme(scheme).value != "" && SchemeOk(CanonicalScheme(scheme).value)
  {
    assert |Lower(scheme)| == |scheme|;
  }

  lemma {:induction false} SepIndexAfter(scheme: string, rest: string)
    requires ':' !in scheme
    ensures SepIndex(scheme + "://" + rest) == |scheme|
  {
    var u := scheme + "://" + rest;
    if scheme == "" {
      assert u[..3] == "://";
    } else {
      SepIndexAfter(scheme[1..], rest);
      assert u[1..] == scheme[1..] + "://" + rest;
      assert u[0] in scheme;
    }
  }

  lemma SchemeHasNoColon(scheme: string)
    requires SchemeOk(scheme)
    ensures ':' !in scheme && Lower(scheme) == scheme
  {}

  /** Searching for the separators splits a rendered URI exactly at its components. */
  lemma SplitsAt(scheme: string, authority: string, path: string)
    requires ':' !in scheme && '/' !in authority
    requires path == "" || path[0] == '/'
    ensures var u := scheme + "://" + authority + path;
            && SepIndex(u) == |scheme| && u[..|scheme|] == scheme
            && u[|scheme| + 3..] == authority + path
            && SplitPath(u[|scheme| + 3..]) == (authority, path)
  {
    var rest := authority + path;
    var u := scheme + "://" + authority + path;
    SepIndexAfter(scheme, rest);
    assert u == scheme + "://" + rest;
    assert u[|scheme| + 3..] == rest;
    if path != "" {
      assert rest[..|authority|] == authority && rest[|authority|..] == path;
      IndexOfUnique(rest, '/', |authority|);
    } else {
      assert rest == authority;
    }
  }

  lemma NormalCharsPlain(path: string)
    requires forall c | c in path :: c == '%' || IsPathLiteral(c)
    ensures '?' !in path && '#' !in path
  {
    assert !IsPathLiteral('?') && !IsPathLiteral('#');
  }

  lemma PathIsFixed(path: string)
    requires path == "" || (path[0] == '/' && NormalPath(path) && !HasDotSegment(path))
    ensures CanonicalPath(path) == Ok(path)
    ensures '?' !in path && '#' !in path
  {
    if path != "" {
      NormalIsFixed(path);
      NormalHasNoSeparator(path);
      assert CanonicalPath(path) == Ok(path);
      NormalChars(path);
      NormalCharsPlain(path);
    }
  }

  lemma PathHasForm(path: string)
    requires CanonicalPath(path).Ok? && (path == "" || path[0] == '/')
    ensures var out := CanonicalPath(path).value;
            out == "" || (out[0] == '/' && NormalPath(out) && !HasDotSegment(out))
  {
    if path != "" { NormalizedIsNormal(path); }
  }

  /** The normalizer on a URI whose scheme and path are already normal. */
  lemma FixedComponents(scheme: string, authority: string, path: string, normal: string)
    requires scheme != "" && SchemeOk(scheme)
    requires '/' !in authority && '?' !in authority && '#' !in authority
    requires '?' !in path && '#' !in path && (path == "" || path[0] == '/')
    requires CanonicalAuthority(authority, scheme) == Ok(normal)
    requires CanonicalPath(path) == Ok(path)
    ensures CanonicalizeURI(scheme + "://" + authority + path) == Ok(scheme + "://" + normal + path)
  {
    hide CanonicalAuthority, CanonicalPath, SepIndex, SplitPath, Lower, SchemeOk;
    SchemeHasNoColon(scheme);
    SplitsAt(scheme, authority, path);
    var u := scheme + "://" + authority + path;
    assert forall c | c in u[|scheme| + 3..] :: c in authority || c in path;
  }

  // ---- main results ----

  /** Every output of the normalizer is a canonical URI. */
  lemma OutputIsCanonical(raw: string) returns (p: Parts)
    requires CanonicalizeURI(raw).Ok?
    ensures p.WellFormed() && CanonicalizeURI(raw).value == p.Render()
    ensures SepIndex(raw) >= 0 && CanonicalPath(SplitPath(raw[SepIndex(raw) + 3..]).1) == Ok(p.path)
  {
    var sep := SepIndex(raw);
    var (authority, path) := SplitPath(raw[sep + 3..]);
    SchemeIsForm(raw[..sep]);
    var scheme := CanonicalScheme(raw[..sep]).value;
    var host, port := AuthorityHasForm(authority, scheme);
    PathHasForm(path);
    p := Parts(scheme, host, port, CanonicalPath(path).value);
    assert p.Authority() == Parts(scheme, host, port, "").Authority();
  }

  /** A canonical URI maps to itself. */
  lemma CanonicalIsFixed(p: Parts)
    requires p.WellFormed()
    ensures CanonicalizeURI(p.Render()) == Ok(p.Render())
  {
    AuthorityIsFixed(p);
    AuthorityChars(p);
    PathIsFixed(p.path);
    FixedComponents(p.scheme, p.Authority(), p.path, p.Authority());
  }

  /** The fixed points of the normalizer are exactly the canonical URIs. */
  lemma FixedPointsAreCanonical(u: string)
    ensures CanonicalizeURI(u) == Ok(u) <==> IsCanonical(u)
  {
    if CanonicalizeURI(u) == Ok(u) {
      var p := OutputIsCanonical(u);
    }
    if IsCanonical(u) {
      var p: Parts :| p.WellFormed() && u == p.Render();
      CanonicalIsFixed(p);
    }
  }

  /** Canonical input maps to itself, so normalizing twice changes nothing. */
  lemma Idempotent(raw: string)
    requires CanonicalizeURI(raw).Ok?
    ensures CanonicalizeURI(CanonicalizeURI(raw).value) == CanonicalizeURI(raw)
  {
    var p := OutputIsCanonical(raw);
    CanonicalIsFixed(p);
  }

  // ---- what the normalizer keeps, and what its outputs look like ----

  /** Percent-decoding of every escape. */
  function PercentDecode(path: string): string {
    if path == "" then ""
    else if path[0] == '%' && |path| >= 3 && IsHex(path[1]) && IsHex(path[2]) then
      [Octet(path[1], path[2])] + PercentDecode(path[3..])
    else [path[0]] + PercentDecode(path[1..])
  }

  lemma {:induction false} NormalizeKeepsOctets(path: string)
    requires NormalizeOctets(path).Ok?
    ensures PercentDecode(NormalizeOctets(path).value) == PercentDecode(path)
    decreases |path|
  {
    if path == "" {
    } else if path[0] == '%' {
      NormalizeKeepsOctets(path[3..]);
      var rest := NormalizeOctets(path[3..]).value;
      var e := NormalEscape(path[1], path[2]);
      EscapeKeepsSeparatorStatus(path[1], path[2]);
      if |e| == 1 {
        assert (e + rest)[1..] == rest;
      } else {
        assert (e + rest)[3..] == rest;
      }
    } else {
      NormalizeKeepsOctets(path[1..]);
      var rest := NormalizeOctets(path[1..]).value;
      assert ([path[0]] + rest)[1..] == rest;
    }
  }

  /** What a URI names: case-folded scheme and host, effective port, decoded path. */
  datatype Resource = Resource(scheme: string, host: string, port: int, path: string)

  function EffectivePort(port: string, scheme: string): Option<int> {
    if port == "" then Some(DefaultPort(scheme)) else Atoi(port)
  }

  function Denotation(u: string): Option<Resource> {
    var sep := SepIndex(u);
    if sep < 0 then None
    else
      var scheme := Lower(u[..sep]);
      var (authority, path) := SplitPath(u[sep + 3..]);
      if authority == "" || SplitHostPort(authority).Err? then None
      else
        var (host, port) := SplitHostPort(authority).value;
        match EffectivePort(port, scheme)
        case None => None
        case Some(n) => Some(Resource(scheme, Lower(host), n, PercentDecode(path)))
  }

  lemma DenotationAt(scheme: string, authority: string, path: string, host: string, port: string, n: int)
    requires SchemeOk(scheme) && '/' !in authority && (path == "" || path[0] == '/')
    requires authority != "" && SplitHostPort(authority) == Ok((host, port))
    requires EffectivePort(port, scheme) == Some(n)
    ensures Denotation(scheme + "://" + authority + path) == Some(Resource(scheme, Lower(host), n, PercentDecode(path)))
  {
    hide SplitHostPort, EffectivePort;
    SchemeHasNoColon(scheme);
    SplitsAt(scheme, authority, path);
  }

  lemma HostKeepsName(rawHost: string)
    requires CanonicalHost(rawHost).Ok?
    requires rawHost[0] == '[' ==> rawHost[|rawHost| - 1] == ']'
    ensures Lower(CanonicalHost(rawHost).value) == Lower(rawHost)
  {
    if rawHost[0] == '[' {
      var inner := rawHost[1..|rawHost| - 1];
      assert rawHost == "[" + inner + "]";
      assert Lower("[" + Lower(inner) + "]") == "[" + Lower(inner) + "]" == Lower(rawHost);
    }
  }

  lemma PortKeepsNumber(rawPort: string, scheme: string)
    requires CanonicalPort(rawPort, scheme).Ok?
    ensures EffectivePort(rawPort, scheme).Some?
    ensures EffectivePort(CanonicalPort(rawPort, scheme).value, scheme) == EffectivePort(rawPort, scheme)
  {
    if rawPort != "" { AtoiOfItoa(Atoi(rawPort).value); }
  }

  lemma OctetsKeepMeaning(path: string)
    requires CanonicalPath(path).Ok?
    ensures PercentDecode(CanonicalPath(path).value) == PercentDecode(path)
  {
    if path != "" { NormalizeKeepsOctets(path); }
  }

  lemma DenotationOfParts(p: Parts, portText: string, n: int)
    requires p.WellFormed() && portText == (if p.port.Some? then Itoa(p.port.value) else "")
    requires EffectivePort(portText, p.scheme) == Some(n)
    ensures Denotation(p.Render()) == Some(Resource(p.scheme, Lower(p.host), n, PercentDecode(p.path)))
  {
    hide SplitHostPort, EffectivePort, Denotation;
    AuthorityChars(p);
    SplitOfAuthority(p);
    DenotationAt(p.scheme, p.Authority(), p.path, p.host, portText, n);
  }

  /** What an accepted URI names, read off its parts. */
  lemma DenotationOfUri(raw: string)
    requires CanonicalizeURI(raw).Ok?
    ensures var sep := SepIndex(raw);
            && sep > 0 && sep + 3 <= |raw|
            && var (authority, path) := SplitPath(raw[sep + 3..]);
            && authority != "" && SplitHostPort(authority).Ok?
            && var (host, port) := SplitHostPort(authority).value;
               EffectivePort(port, Lower(raw[..sep])).Some? ==>
                 Denotation(raw) == Some(Resource(Lower(raw[..sep]), Lower(host),
                                                  EffectivePort(port, Lower(raw[..sep])).value, PercentDecode(path)))
  {
    hide SplitHostPort, EffectivePort, CanonicalPath, PercentDecode, CanonicalHost, CanonicalPort, SplitPath;
  }

  /** Normalization never changes which resource a URI names. */
  lemma CanonicalizeKeepsMeaning(raw: string)
    requires CanonicalizeURI(raw).Ok?
    ensures Denotation(raw).Some?
    ensures Denotation(CanonicalizeURI(raw).value) == Denotation(raw)
  {
    hide SplitHostPort, EffectivePort, CanonicalPath, PercentDecode, CanonicalHost, CanonicalPort, Atoi, Denotation,
         Itoa;
    DenotationOfUri(raw);
    var sep := SepIndex(raw);
    var (authority, path) := SplitPath(raw[sep + 3..]);
    SchemeIsForm(raw[..sep]);
    var scheme := CanonicalScheme(raw[..sep]).value;
    var host, port := AuthorityHasForm(authority, scheme);
    var (rawHost, rawPort) := SplitHostPort(authority).value;
    PathHasForm(path);
    OctetsKeepMeaning(path);
    HostKeepsName(rawHost);
    PortKeepsNumber(rawPort, scheme);
    var p := Parts(scheme, host, port, CanonicalPath(path).value);
    assert p.Authority() == Parts(scheme, host, port, "").Authority();
    DenotationOfParts(p, CanonicalPort(rawPort, scheme).value, EffectivePort(rawPort, scheme).value);
  }

  lemma {:induction false} NormalPointwise(path: string, i: nat)
    requires NormalPath(path) && i < |path| && path[i] == '%'
    ensures i + 2 < |path| && IsUpperHex(path[i + 1]) && IsUpperHex(path[i + 2])
    ensures !IsUnreserved(Octet(path[i + 1], path[i + 2]))
    decreases i
  {
    if i > 0 {
      var k := if path[0] == '%' then 3 else 1;
      assert i >= k;
      NormalPointwise(path[k..], i - k);
    }
  }

  /** The profile read off the characters of the three components. */
  ghost predicate InProfile(scheme: string, authority: string, path: string) {
    && scheme != "" && (forall c | c in scheme :: !IsUpper(c) && c as int < 0x80)
    && (forall c | c in authority :: !IsUpper(c) && c as int < 0x80 && c != '@')
    && authority != "" && SplitHostPort(authority).Ok?
    && (var port := SplitHostPort(authority).value.1;
        port == "" || (Atoi(port).Some? && Atoi(port).value != DefaultPort(scheme)))
    && (forall c | c in authority + path :: c != '?' && c != '#')
    && !HasDotSegment(path) && !HasEncodedSeparator(path)
    && (forall i | 0 <= i < |path| && path[i] == '%' ::
          && i + 2 < |path| && IsUpperHex(path[i + 1]) && IsUpperHex(path[i + 2])
          && !IsUnreserved(Octet(path[i + 1], path[i + 2])))
  }

  lemma HostLower(host: string)
    requires HostForm(host)
    ensures forall c | c in host :: !IsUpper(c) && c as int < 0x80
  {
    forall c | c in host ensures !IsUpper(c) && c as int < 0x80 {
      HostChar(host, c);
      if host[0] == '[' {
        assert host == "[" + host[1..|host| - 1] + "]";
      }
    }
  }

  lemma AuthorityLower(p: Parts)
    requires p.WellFormed()
    ensures forall c | c in p.Authority() :: !IsUpper(c) && c as int < 0x80
  {
    HostLower(p.host);
    hide HostForm;
    forall c | c in p.Authority() ensures !IsUpper(c) && c as int < 0x80 {
      if c !in p.host {
        var port := Itoa(p.port.value);
        assert c == ':' || c in port;
        if c in port { var i :| 0 <= i < |port| && port[i] == c; }
      }
    }
  }

  lemma PathProfile(path: string)
    requires path == "" || (path[0] == '/' && NormalPath(path) && !HasDotSegment(path))
    ensures !HasDotSegment(path) && !HasEncodedSeparator(path)
    ensures forall i | 0 <= i < |path| && path[i] == '%' ::
              && i + 2 < |path| && IsUpperHex(path[i + 1]) && IsUpperHex(path[i + 2])
              && !IsUnreserved(Octet(path[i + 1], path[i + 2]))
  {
    if path == "" {
      assert Split("", '/') == [""];
    } else {
      NormalHasNoSeparator(path);
      forall i | 0 <= i < |path| && path[i] == '%'
        ensures i + 2 < |path| && IsUpperHex(path[i + 1]) && IsUpperHex(path[i + 2])
                && !IsUnreserved(Octet(path[i + 1], path[i + 2]))
      {
        NormalPointwise(path, i);
      }
    }
  }

  lemma PartsInProfile(p: Parts)
    requires p.WellFormed()
    ensures InProfile(p.scheme, p.Authority(), p.path)
  {
    hide SplitHostPort, Parts.Authority, HasDotSegment;
    SchemeHasNoColon(p.scheme);
    AuthorityChars(p);
    AuthorityLower(p);
    SplitOfAuthority(p);
    if p.port.Some? { AtoiOfItoa(p.port.value); }
    PathIsFixed(p.path);
    PathProfile(p.path);
    forall c | c in p.scheme ensures !IsUpper(c) && c as int < 0x80 {
      var i :| 0 <= i < |p.scheme| && p.scheme[i] == c;
    }
  }

  /** Every output splits into components that meet the profile. */
  lemma OutputProfile(raw: string)
    requires CanonicalizeURI(raw).Ok?
    ensures var out := CanonicalizeURI(raw).value;
            var sep := SepIndex(out);
            && sep > 0
            && (var (authority, path) := SplitPath(out[sep + 3..]);
                InProfile(out[..sep], authority, path))
  {
    hide CanonicalizeURI, InProfile, Parts.Authority;
    var p := OutputIsCanonical(raw);
    PartsInProfile(p);
    SchemeHasNoColon(p.scheme);
    AuthorityChars(p);
    SplitsAt(p.scheme, p.Authority(), p.path);
  }
}
