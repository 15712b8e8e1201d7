/**
 * Requests against patterns: the guard that keeps wildcards out of a request reads the
 * resource as it came, and this is what that guard is worth once the URI is canonical.
 */
module UriRequests {
  import opened Wrappers
  import opened Text
  import opened Uri
  import opened UriCanonical
  import opened UriCovers

  lemma SplitCons(a: string, rest: string)
    requires '/' !in a
    ensures Split(a + "/" + rest, '/') == [a] + Split(rest, '/')
  {
    var s := a + "/" + rest;
    assert s[|a|] == '/' && s[..|a|] == a && s[|a| + 1..] == rest;
    IndexOfUnique(s, '/', |a|);
  }

  /** What follows a slash keeps its segments. */
  lemma {:induction false} SuffixSegments(x: string, rest: string)
    ensures forall seg | seg in Split(rest, '/') :: seg in Split(x + "/" + rest, '/')
    decreases |x|
  {
    var i := IndexOf(x, '/');
    if i < 0 {
      SplitCons(x, rest);
    } else {
      var head, tail := x[..i], x[i + 1..];
      assert x == head + "/" + tail;
      assert x + "/" + rest == head + "/" + (tail + "/" + rest);
      SplitCons(head, tail + "/" + rest);
      SuffixSegments(tail, rest);
    }
  }

  /** Whether the first octet of a path can be normalized, and over how many characters it is written. */
  predicate StepOk(path: string)
    requires path != ""
  {
    if path[0] == '%' then |path| >= 3 && IsHex(path[1]) && IsHex(path[2]) else IsPathLiteral(path[0])
  }

  function Width(path: string): nat
    requires path != ""
  {
    if path[0] == '%' then 3 else 1
  }

  function Head(path: string): string
    requires path != "" && StepOk(path)
  {
    if path[0] == '%' then NormalEscape(path[1], path[2]) else [path[0]]
  }

  lemma NormalizeStep(path: string)
    requires path != ""
    ensures NormalizeOctets(path).Ok? <==> StepOk(path) && NormalizeOctets(path[Width(path)..]).Ok?
    ensures NormalizeOctets(path).Ok? ==>
              NormalizeOctets(path).value == Head(path) + NormalizeOctets(path[Width(path)..]).value
  {}

  /** The first octet of a slash-free text is the same whatever follows the slash after it. */
  lemma HeadBeforeSlash(a: string, b: string)
    requires a != "" && '/' !in a && StepOk(a + "/" + b)
    ensures Width(a + "/" + b) <= |a| && StepOk(a) && Head(a) == Head(a + "/" + b) && '/' !in Head(a)
  {
    var s := a + "/" + b;
    assert s[|a|] == '/' && a[0] in a && s[0] == a[0];
    assert !IsHex('/') && !IsUnreserved('/');
    if a[0] == '%' {
      assert |a| != 1 && |a| != 2;
      assert s[1] == a[1] && s[2] == a[2];
    }
  }

  lemma Append4(h: string, x: string, y: string)
    ensures h + (x + "/" + y) == (h + x) + "/" + y
  {}

  /** No escape reaches across a slash, and none decodes to one. */
  lemma {:induction false} NormalizeCut(a: string, b: string)
    requires '/' !in a && NormalizeOctets(a + "/" + b).Ok?
    ensures NormalizeOctets(a).Ok? && NormalizeOctets(b).Ok? && '/' !in NormalizeOctets(a).value
    ensures NormalizeOctets(a + "/" + b).value == NormalizeOctets(a).value + "/" + NormalizeOctets(b).value
    decreases |a|
  {
    var s := a + "/" + b;
    NormalizeStep(s);
    if a == "" {
      assert s[1..] == b && s[0] == '/';
    } else {
      hide NormalizeOctets, StepOk, Head;
      HeadBeforeSlash(a, b);
      var k := Width(s);
      assert s[k..] == a[k..] + "/" + b;
      NormalizeCut(a[k..], b);
      NormalizeStep(a);
      Append4(Head(a), NormalizeOctets(a[k..]).value, NormalizeOctets(b).value);
    }
  }

  /** Normalization works segment by segment. */
  lemma {:induction false} NormalizeSegments(path: string)
    requires NormalizeOctets(path).Ok?
    ensures var segs, outs := Split(path, '/'), Split(NormalizeOctets(path).value, '/');
            |segs| == |outs| && forall i | 0 <= i < |segs| :: NormalizeOctets(segs[i]) == Ok(outs[i])
    decreases |path|
  {
    hide NormalizeOctets;
    var i := IndexOf(path, '/');
    if i >= 0 {
      var head, tail := path[..i], path[i + 1..];
      assert path == head + "/" + tail;
      NormalizeCut(head, tail);
      NormalizeSegments(tail);
      SplitCons(head, tail);
      SplitCons(NormalizeOctets(head).value, NormalizeOctets(tail).value);
    } else {
      SlashFree(path);
      assert Split(NormalizeOctets(path).value, '/') == [NormalizeOctets(path).value];
    }
  }

  lemma {:induction false} SlashFree(path: string)
    requires '/' !in path && NormalizeOctets(path).Ok?
    ensures '/' !in NormalizeOctets(path).value
  {
    if path != "" {
      var k := if path[0] == '%' then 3 else 1;
      assert !IsUnreserved('/') && path[0] in path;
      SlashFree(path[k..]);
    }
  }

  /** A wildcard segment is written as one: no escape stands for "*". */
  lemma {:induction false} WildcardsAreLiteral(seg: string)
    requires NormalizeOctets(seg).Ok?
    ensures NormalizeOctets(seg).value == "*" ==> seg == "*"
    ensures NormalizeOctets(seg).value == "**" ==> seg == "**"
  {
    if seg != "" {
      var out := NormalizeOctets(seg).value;
      assert !IsUnreserved('*');
      if seg[0] == '%' {
        assert out[0] == '%' || IsUnreserved(out[0]);
      } else {
        assert out[0] == seg[0] && out[1..] == NormalizeOctets(seg[1..]).value;
        assert seg == [seg[0]] + seg[1..] && out == [out[0]] + out[1..];
        if |out| == 2 && out[0] == '*' && out[1] == '*' { WildcardsAreLiteral(seg[1..]); }
      }
    }
  }

  /** A request that passes the guard names one resource, and still does in canonical form. */
  lemma RequestIsConcrete(raw: string)
    requires NoWildcard(raw) && CanonicalizeURI(raw).Ok?
    ensures Concrete(CanonicalizeURI(raw).value)
  {
    hide NoWildcard, CanonicalizeURI, SplitCanonicalURI, Parts.WellFormed, Parts.Render;
    Idempotent(raw);
    var p := OutputIsCanonical(raw);
    var (authority, path) := SplitPath(raw[SepIndex(raw) + 3..]);
    SplitRecovers(p);
    CanonicalOfPath(path);
    if path != "" {
      PathEndsUri(raw);
      TailPassesGuard(raw[..SepIndex(raw) + 3] + authority, path);
      PathKeepsGuard(path, p.path);
    } else {
      EmptyPassesGuard();
    }
    PathDecides(p);
  }

  lemma PathEndsUri(raw: string)
    requires SepIndex(raw) >= 0
    ensures var (authority, path) := SplitPath(raw[SepIndex(raw) + 3..]);
            && raw == (raw[..SepIndex(raw) + 3] + authority) + path
            && (path != "" ==> path[0] == '/')
  {
    hide SplitPath;
    var (authority, path) := SplitPath(raw[SepIndex(raw) + 3..]);
    SplitRejoins(raw[SepIndex(raw) + 3..]);
    Rejoin(raw, SepIndex(raw) + 3, authority, path);
  }

  lemma Rejoin(s: string, n: nat, a: string, b: string)
    requires n <= |s| && s[n..] == a + b
    ensures s == (s[..n] + a) + b
  {
    assert s == s[..n] + s[n..];
  }

  lemma SplitRejoins(rest: string)
    ensures var (authority, path) := SplitPath(rest);
            rest == authority + path && (path != "" ==> path[0] == '/')
  {}

  lemma PathDecides(p: Parts)
    requires p.WellFormed() && CanonicalizeURI(p.Render()) == Ok(p.Render()) && NoWildcard(p.path)
    ensures Concrete(p.Render())
  {
    hide CanonicalizeURI, NoWildcard;
    SplitRecovers(p);
  }

  lemma EmptyPassesGuard()
    ensures NoWildcard("")
  {
    assert Split("", '/') == [""];
  }

  lemma CanonicalOfPath(path: string)
    requires CanonicalPath(path).Ok?
    ensures if path == "" then CanonicalPath(path).value == ""
            else NormalizeOctets(path) == Ok(CanonicalPath(path).value)
  {}

  lemma TailPassesGuard(x: string, path: string)
    requires NoWildcard(x + path) && path != "" && path[0] == '/'
    ensures NoWildcard(path[1..])
  {
    assert x + path == x + "/" + path[1..];
    SuffixSegments(x, path[1..]);
  }

  lemma PathKeepsGuard(path: string, out: string)
    requires path != "" && path[0] == '/' && NormalizeOctets(path) == Ok(out)
    requires NoWildcard(path[1..])
    ensures NoWildcard(out)
  {
    hide NormalizeOctets;
    NormalizeSegments(path);
    assert path == "" + "/" + path[1..];
    SplitCons("", path[1..]);
    var segs, outs := Split(path, '/'), Split(out, '/');
    forall i | 0 <= i < |outs| ensures outs[i] != "*" && outs[i] != "**" {
      WildcardsAreLiteral(segs[i]);
      assert i > 0 ==> segs[i] == Split(path[1..], '/')[i - 1];
    }
  }

  lemma GuardCons(a: string, rest: string)
    requires '/' !in a && a != "*" && a != "**"
    ensures NoWildcard(a + "/" + rest) <==> NoWildcard(rest)
  {
    SplitCons(a, rest);
  }

  lemma SpelledPassesGuard(scheme: string, authority: string, path: string)
    requires '/' !in scheme && '/' !in authority && authority != "*" && authority != "**"
    requires NoWildcard(path) && (path != "" ==> path[0] == '/')
    ensures NoWildcard(scheme + "://" + authority + path)
  {
    hide NoWildcard;
    var rest := authority + path;
    var first := scheme + ":";
    assert first[|first| - 1] == ':';
    RenderShape(scheme, authority, path);
    GuardCons(first, "" + "/" + rest);
    GuardCons("", rest);
    if path != "" {
      assert path == "" + "/" + path[1..];
      GuardCons("", path[1..]);
      GuardCons(authority, path[1..]);
    } else {
      SlashlessPassesGuard(authority);
    }
  }

  lemma RenderShape(scheme: string, authority: string, path: string)
    ensures scheme + "://" + authority + path == (scheme + ":") + "/" + ("" + "/" + (authority + path))
    ensures path == "" ==> authority + path == authority
    ensures path != "" && path[0] == '/' ==> authority + path == authority + "/" + path[1..]
  {}

  lemma SchemeHasNoSlash(scheme: string)
    requires SchemeOk(scheme)
    ensures '/' !in scheme
  {}

  lemma AbsolutePath(p: Parts)
    requires p.WellFormed()
    ensures p.path != "" ==> p.path[0] == '/'
  {}

  lemma SlashlessPassesGuard(s: string)
    requires '/' !in s && s != "*" && s != "**"
    ensures NoWildcard(s)
  {
    assert Split(s, '/') == [s];
  }

  /**
   * Every concrete canonical URI is the canonical form of some request that passes the guard. An authority
   * "*" has no meaning beyond its letters, and is spelled with an empty port to get by.
   */
  lemma AdmissibleSpelling(w: Parts) returns (raw: string)
    requires w.WellFormed() && NoWildcard(w.path)
    ensures NoWildcard(raw) && CanonicalizeURI(raw) == Ok(w.Render())
  {
    AuthorityChars(w);
    SchemeHasNoColon(w.scheme);
    SchemeHasNoSlash(w.scheme);
    AbsolutePath(w);
    WellFormedParts(w);
    hide NoWildcard, Parts.WellFormed, Parts.Authority, CanonicalizeURI, CanonicalPath, SchemeOk;
    var authority := w.Authority();
    if authority != "*" && authority != "**" {
      raw := w.Render();
      SpelledPassesGuard(w.scheme, authority, w.path);
      CanonicalIsFixed(w);
    } else {
      raw := EmptyPortSpelling(w.scheme, authority, w.path);
    }
  }

  lemma EmptyPortSpelling(scheme: string, authority: string, path: string) returns (raw: string)
    requires scheme != "" && SchemeOk(scheme) && '/' !in scheme && (authority == "*" || authority == "**")
    requires CanonicalPath(path) == Ok(path) && '?' !in path && '#' !in path
    requires NoWildcard(path) && (path != "" ==> path[0] == '/')
    ensures NoWildcard(raw) && CanonicalizeURI(raw) == Ok(scheme + "://" + authority + path)
  {
    hide NoWildcard, CanonicalizeURI, CanonicalAuthority, CanonicalPath, SchemeOk;
    var spelled := authority + ":";
    assert spelled == "*:" || spelled == "**:";
    EmptyPort(scheme);
    raw := scheme + "://" + spelled + path;
    SpelledPassesGuard(scheme, spelled, path);
    FixedComponents(scheme, spelled, path, authority);
  }

  lemma WellFormedParts(w: Parts)
    requires w.WellFormed()
    ensures w.scheme != "" && SchemeOk(w.scheme)
    ensures CanonicalPath(w.path) == Ok(w.path) && '?' !in w.path && '#' !in w.path
  {
    PathIsFixed(w.path);
  }

  /** An empty port is dropped. */
  lemma EmptyPort(scheme: string)
    ensures CanonicalAuthority("*:", scheme) == Ok("*")
    ensures CanonicalAuthority("**:", scheme) == Ok("**")
  {
    assert "*:"[1] == ':' && "**:"[2] == ':';
    LastIndexOfUnique("*:", ':', 1);
    LastIndexOfUnique("**:", ':', 2);
    assert "*:"[..1] == "*" && "**:"[..2] == "**" && "*:"[2..] == "" && "**:"[3..] == "";
    assert Lower("*") == "*" && Lower("**") == "**";
  }

  /**
   * Coverage read through the requests that verification lets by: for a child pattern without "**", the
   * parent covers the child exactly when it covers every admissible request that the child covers.
   */
  lemma RequestsDecideCoverage(parent: string, child: string)
    requires CanonicalizeURI(parent) == Ok(parent) && CanonicalizeURI(child) == Ok(child)
    requires SplitCanonicalURI(child).Some? && "**" !in Split(SplitCanonicalURI(child).value.2, '/')
    ensures URICovers(parent, child) <==>
            forall r | NoWildcard(r) && URICovers(child, r) :: URICovers(parent, r)
  {
    hide CanonicalizeURI, URICovers, NoWildcard, Parts.WellFormed, Parts.Render, SplitCanonicalURI;
    if URICovers(parent, child) {
      forall r | NoWildcard(r) && URICovers(child, r) ensures URICovers(parent, r) {
        CoversTransitive(parent, child, r);
      }
    } else {
      var p := PartsOf(parent);
      var c := PartsOf(child);
      SplitRecovers(c);
      CoversByParts(p, c);
      var w := UncoveredWitness(p, c);
      ConcretePath(w);
      var r := AdmissibleSpelling(w);
      CoveredSpelling(p, w, r);
      CoveredSpelling(c, w, r);
    }
  }

  /** A pattern covers a request exactly when it covers its canonical form. */
  lemma CoveredSpelling(p: Parts, w: Parts, r: string)
    requires p.WellFormed() && w.WellFormed() && CanonicalizeURI(r) == Ok(w.Render())
    ensures URICovers(p.Render(), r) <==> PartsCover(p, w)
  {
    hide CanonicalizeURI, URICovers, Parts.WellFormed, Parts.Render, PartsCover;
    CanonicalIsFixed(p);
    CanonicalIsFixed(w);
    CoversByParts(p, w);
    CoversByCanonical(p.Render(), r);
  }

  lemma ConcretePath(w: Parts)
    requires w.WellFormed() && Concrete(w.Render())
    ensures NoWildcard(w.path)
  {
    SplitRecovers(w);
  }
}
