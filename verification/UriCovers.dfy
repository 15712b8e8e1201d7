/** Coverage of one capability URI by another, as an order and by what it denotes. */
module UriCovers {
  import opened Wrappers
  import opened Text
  import opened Uri
  import opened UriCanonical

  /** Scheme, authority and path of a canonical URI. */
  function SplitCanonicalURI(u: string): Option<(string, string, string)> {
    var i := SepIndex(u);
    if i <= 0 then None
    else
      var (authority, path) := SplitPath(u[i + 3..]);
      Some((u[..i], authority, path))
  }

  /** The positional match of parent segments against child segments. */
  predicate SegmentsMatch(parent: seq<string>, child: seq<string>) {
    && |parent| == |child|
    && forall i | 0 <= i < |parent| :: if parent[i] == "*" then child[i] != "" else parent[i] == child[i]
  }

  predicate URICovers(parent: string, child: string) {
    match (CanonicalizeURI(parent), CanonicalizeURI(child))
    case (Ok(p), Ok(c)) =>
      p == c ||
      (match (SplitCanonicalURI(p), SplitCanonicalURI(c))
       case (Some((pScheme, pAuthority, pPath)), Some((cScheme, cAuthority, cPath))) =>
         pScheme == cScheme && pAuthority == cAuthority
         && SegmentsMatch(Split(pPath, '/'), Split(cPath, '/'))
       case _ => false)
    case _ => false
  }

  // ---- coverage of rendered components ----

  predicate PartsCover(p: Parts, c: Parts) {
    && p.scheme == c.scheme && p.Authority() == c.Authority()
    && SegmentsMatch(Split(p.path, '/'), Split(c.path, '/'))
  }

  /** Splitting a canonical URI recovers its scheme, authority and path. */
  lemma SplitRecovers(p: Parts)
    requires p.WellFormed()
    ensures SplitCanonicalURI(p.Render()) == Some((p.scheme, p.Authority(), p.path))
  {
    SchemeHasNoColon(p.scheme);
    AuthorityChars(p);
    SplitsAt(p.scheme, p.Authority(), p.path);
  }

  lemma CoversByParts(p: Parts, c: Parts)
    requires p.WellFormed() && c.WellFormed()
    ensures URICovers(p.Render(), c.Render()) <==> PartsCover(p, c)
  {
    hide CanonicalizeURI, SplitCanonicalURI, SegmentsMatch, Parts.WellFormed, Parts.Render, Parts.Authority;
    CanonicalIsFixed(p);
    CanonicalIsFixed(c);
    SplitRecovers(p);
    SplitRecovers(c);
    if p.Render() == c.Render() {
      MatchReflexive(Split(p.path, '/'));
    }
  }

  lemma MatchReflexive(s: seq<string>)
    ensures SegmentsMatch(s, s)
  {}

  lemma PartsOf(u: string) returns (p: Parts)
    requires CanonicalizeURI(u) == Ok(u)
    ensures p.WellFormed() && u == p.Render()
  {
    p := OutputIsCanonical(u);
  }

  // ---- coverage is a partial order on canonical URIs ----

  /** A helper for the order: equal canonical forms cover each other. */
  lemma CoversReflexive(u: string)
    requires CanonicalizeURI(u).Ok?
    ensures URICovers(u, u)
  {}

  lemma CoversAntisymmetric(u: string, v: string)
    requires CanonicalizeURI(u) == Ok(u) && CanonicalizeURI(v) == Ok(v)
    requires URICovers(u, v) && URICovers(v, u)
    ensures u == v
  {
    var p := PartsOf(u);
    var c := PartsOf(v);
    CoversByParts(p, c);
    CoversByParts(c, p);
    var ps, cs := Split(p.path, '/'), Split(c.path, '/');
    assert ps == cs;
    JoinOfSplit(p.path, '/');
    JoinOfSplit(c.path, '/');
  }

  lemma CoversTransitive(u: string, v: string, w: string)
    requires URICovers(u, v) && URICovers(v, w)
    ensures URICovers(u, w)
  {
    hide CanonicalizeURI, URICovers;
    CoversByCanonical(u, v);
    CoversByCanonical(v, w);
    CoversByCanonical(u, w);
    var p := OutputIsCanonical(u);
    var c := OutputIsCanonical(v);
    var d := OutputIsCanonical(w);
    CoversByParts(p, c);
    CoversByParts(c, d);
    CoversByParts(p, d);
  }

  /** Coverage depends only on the canonical forms, and needs both to exist. */
  lemma CoversByCanonical(u: string, v: string)
    ensures URICovers(u, v) ==> CanonicalizeURI(u).Ok? && CanonicalizeURI(v).Ok?
    ensures CanonicalizeURI(u).Ok? && CanonicalizeURI(v).Ok? ==>
              URICovers(u, v) == URICovers(CanonicalizeURI(u).value, CanonicalizeURI(v).value)
  {
    if CanonicalizeURI(u).Ok? { Idempotent(u); }
    if CanonicalizeURI(v).Ok? { Idempotent(v); }
  }

  // ---- coverage is inclusion of the concrete resources ----

  /** No segment is a wildcard; the guard on the resource of every request. */
  predicate NoWildcard(resource: string) {
    var segs := Split(resource, '/');
    "*" !in segs && "**" !in segs
  }

  /** A canonical URI whose path names one resource. */
  predicate Concrete(u: string) {
    && CanonicalizeURI(u) == Ok(u)
    && SplitCanonicalURI(u).Some?
    && NoWildcard(SplitCanonicalURI(u).value.2)
  }

  /** The child's segments with each wildcard replaced by a name the parent does not use there. */
  function Fresh(parent: seq<string>, child: seq<string>): seq<string> {
    seq(|child|, i requires 0 <= i < |child| =>
      if child[i] != "*" then child[i]
      else if i < |parent| && parent[i] == "a" then "b" else "a")
  }

  lemma {:induction false} NormalConcat(a: string, b: string)
    requires NormalPath(a) && NormalPath(b)
    ensures NormalPath(a + b)
    decreases |a|
  {
    if a == "" {
      assert a + b == b;
    } else {
      var k := if a[0] == '%' then 3 else 1;
      NormalConcat(a[k..], b);
      assert (a + b)[k..] == a[k..] + b;
    }
  }

  lemma {:induction false} NormalCut(a: string, b: string)
    requires NormalPath(a + "/" + b)
    ensures NormalPath(a) && NormalPath(b)
    decreases |a|
  {
    var s := a + "/" + b;
    if a == "" {
      assert s[1..] == b;
    } else {
      var k := if a[0] == '%' then 3 else 1;
      if k == 3 {
        assert s[|a|] == '/' && !IsUpperHex('/');
      }
      assert s[k..] == a[k..] + "/" + b;
      NormalCut(a[k..], b);
    }
  }

  lemma {:induction false} NormalJoin(segs: seq<string>)
    requires |segs| > 0 && forall seg | seg in segs :: NormalPath(seg)
    ensures NormalPath(Join(segs, '/'))
  {
    if |segs| > 1 {
      var rest := Join(segs[1..], '/');
      NormalJoin(segs[1..]);
      NormalSlash(rest);
      hide NormalPath;
      NormalConcat(segs[0], "/" + rest);
      assert Join(segs, '/') == segs[0] + ("/" + rest);
    }
  }

  lemma NormalSlash(rest: string)
    requires NormalPath(rest)
    ensures NormalPath("/" + rest)
  {
    assert ("/" + rest)[1..] == rest;
  }

  lemma {:induction false} NormalSplit(path: string)
    requires NormalPath(path)
    ensures forall seg | seg in Split(path, '/') :: NormalPath(seg)
    decreases |path|
  {
    var i := IndexOf(path, '/');
    if i >= 0 {
      assert path == path[..i] + "/" + path[i + 1..];
      NormalCut(path[..i], path[i + 1..]);
      NormalSplit(path[i + 1..]);
    }
  }

  lemma JoinStart(segs: seq<string>)
    requires |segs| > 1 && segs[0] == ""
    ensures Join(segs, '/') != "" && Join(segs, '/')[0] == '/'
  {}

  lemma SplitStart(path: string)
    ensures path == "" ==> Split(path, '/') == [""]
    ensures path != "" && path[0] == '/' ==> |Split(path, '/')| > 1 && Split(path, '/')[0] == ""
  {
    if path != "" && path[0] == '/' {
      IndexOfUnique(path, '/', 0);
    }
  }

  lemma FreshSegments(parent: seq<string>, child: seq<string>)
    requires "**" !in child && forall seg | seg in child :: '/' !in seg && NormalPath(seg)
    ensures |Fresh(parent, child)| == |child|
    ensures child != [] && child[0] == "" ==> Fresh(parent, child)[0] == ""
    ensures forall seg | seg in Fresh(parent, child) ::
              '/' !in seg && NormalPath(seg) && seg != "*" && seg != "**" && (seg in child || seg == "a" || seg == "b")
  {
    var segs := Fresh(parent, child);
    assert NormalPath("a") && NormalPath("b");
    forall seg | seg in segs
      ensures '/' !in seg && NormalPath(seg) && seg != "*" && seg != "**" && (seg in child || seg == "a" || seg == "b")
    {
      var i :| 0 <= i < |segs| && segs[i] == seg;
      assert child[i] in child;
    }
  }

  lemma FreshPathForm(parent: seq<string>, path: string) returns (out: string)
    requires path == "" || (path[0] == '/' && NormalPath(path) && !HasDotSegment(path))
    requires "**" !in Split(path, '/')
    ensures out == "" || (out[0] == '/' && NormalPath(out) && !HasDotSegment(out))
    ensures Split(out, '/') == Fresh(parent, Split(path, '/'))
    ensures NoWildcard(out)
  {
    hide NormalPath, Fresh, Split;
    var cs := Split(path, '/');
    var segs := Fresh(parent, cs);
    SplitStart(path);
    NormalSplit(path);
    FreshSegments(parent, cs);
    SplitOfJoin(segs, '/');
    NormalJoin(segs);
    if |segs| > 1 { JoinStart(segs); }
    out := Join(segs, '/');
  }

  /** Filling the child's wildcards yields a concrete canonical URI. */
  lemma FreshPath(parent: seq<string>, child: Parts) returns (w: Parts)
    requires child.WellFormed() && "**" !in Split(child.path, '/')
    ensures w.WellFormed() && w.scheme == child.scheme && w.Authority() == child.Authority()
    ensures Split(w.path, '/') == Fresh(parent, Split(child.path, '/'))
    ensures NoWildcard(w.path)
  {
    hide HostForm, HasDotSegment, NormalPath, NoWildcard, Fresh;
    var path := FreshPathForm(parent, child.path);
    w := child.(path := path);
  }

  lemma FreshDecides(parent: seq<string>, child: seq<string>)
    requires "**" !in child
    ensures SegmentsMatch(child, Fresh(parent, child))
    ensures SegmentsMatch(parent, Fresh(parent, child)) ==> SegmentsMatch(parent, child)
  {
    var w := Fresh(parent, child);
    if SegmentsMatch(parent, w) {
      forall i | 0 <= i < |parent|
        ensures if parent[i] == "*" then child[i] != "" else parent[i] == child[i]
      {
        assert if parent[i] == "*" then w[i] != "" else parent[i] == w[i];
      }
    }
  }

  /** A child without a reserved "**" covers something the parent misses, unless the parent covers it. */
  lemma UncoveredWitness(p: Parts, c: Parts) returns (w: Parts)
    requires p.WellFormed() && c.WellFormed() && "**" !in Split(c.path, '/')
    requires !PartsCover(p, c)
    ensures w.WellFormed() && Concrete(w.Render())
    ensures PartsCover(c, w) && !PartsCover(p, w)
  {
    w := FreshPath(Split(p.path, '/'), c);
    FreshDecides(Split(p.path, '/'), Split(c.path, '/'));
    CanonicalIsFixed(w);
    SplitRecovers(w);
  }

  /**
   * The exact reading of coverage: a parent covers a child (without "**") if and
   * only if it covers every concrete URI that the child covers.
   */
  lemma CoversIsInclusion(parent: string, child: string)
    requires CanonicalizeURI(parent) == Ok(parent) && CanonicalizeURI(child) == Ok(child)
    requires "**" !in Split(SplitCanonicalURI(child).value.2, '/')
    ensures URICovers(parent, child) <==>
            forall w | Concrete(w) && URICovers(child, w) :: URICovers(parent, w)
  {
    if URICovers(parent, child) {
      forall w | Concrete(w) && URICovers(child, w) ensures URICovers(parent, w) {
        CoversTransitive(parent, child, w);
      }
    } else {
      var p := PartsOf(parent);
      var c := PartsOf(child);
      SplitRecovers(c);
      CoversByParts(p, c);
      var w := UncoveredWitness(p, c);
      CoversByParts(c, w);
      CoversByParts(p, w);
    }
  }

  /** "**" is an ordinary segment that no request may use, so such a child covers nothing concrete. */
  lemma ReservedCoversNothing(child: string, w: string)
    requires CanonicalizeURI(child) == Ok(child) && "**" in Split(SplitCanonicalURI(child).value.2, '/')
    requires Concrete(w)
    ensures !URICovers(child, w)
  {
    hide URICovers, Parts.WellFormed, Parts.Render, Parts.Authority, CanonicalizeURI, SplitCanonicalURI;
    var c := PartsOf(child);
    var d := PartsOf(w);
    SplitRecovers(c);
    SplitRecovers(d);
    CoversByParts(c, d);
    var cs, ds := Split(c.path, '/'), Split(d.path, '/');
    var i :| 0 <= i < |cs| && cs[i] == "**";
    assert SegmentsMatch(cs, ds) ==> cs[i] == ds[i];
  }
}
