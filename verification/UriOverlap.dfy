/** When two patterns have a request in common, decided segment by segment. */
module UriOverlap {
  import opened Wrappers
  import opened Text
  import opened Uri
  import opened UriCanonical
  import opened UriCovers
  import opened UriRequests

  /** One segment that both patterns admit: equal literals, or a wildcard against anything but an empty segment. */
  predicate SegmentMeets(a: string, b: string) {
    && a != "**" && b != "**"
    && if a == "*" then b != "" else if b == "*" then a != "" else a == b
  }

  predicate SegmentsMeet(p: seq<string>, q: seq<string>) {
    |p| == |q| && forall i | 0 <= i < |p| :: SegmentMeets(p[i], q[i])
  }

  /** Two canonical patterns overlap: one scheme, one authority, and segments that meet. */
  predicate PatternsOverlap(u: string, v: string) {
    match (SplitCanonicalURI(u), SplitCanonicalURI(v))
    case (Some((uScheme, uAuthority, uPath)), Some((vScheme, vAuthority, vPath))) =>
      uScheme == vScheme && uAuthority == vAuthority && SegmentsMeet(Split(uPath, '/'), Split(vPath, '/'))
    case _ => false
  }

  /** The more specific of the segments, with a name of its own where both are wildcards. */
  function Meet(p: seq<string>, q: seq<string>): (m: seq<string>)
    requires |p| == |q|
    ensures |m| == |p|
  {
    seq(|p|, i requires 0 <= i < |p| => if p[i] != "*" then p[i] else if q[i] != "*" then q[i] else "a")
  }

  lemma MeetMatches(p: seq<string>, q: seq<string>)
    requires SegmentsMeet(p, q)
    ensures SegmentsMatch(p, Meet(p, q)) && SegmentsMatch(q, Meet(p, q))
    ensures "*" !in Meet(p, q) && "**" !in Meet(p, q)
  {
    var m := Meet(p, q);
    forall i | 0 <= i < |p|
      ensures m[i] != "*" && m[i] != "**"
      ensures if p[i] == "*" then m[i] != "" else p[i] == m[i]
      ensures if q[i] == "*" then m[i] != "" else q[i] == m[i]
    {
      assert SegmentMeets(p[i], q[i]);
    }
  }

  lemma MatchesMeet(p: seq<string>, q: seq<string>, w: seq<string>)
    requires SegmentsMatch(p, w) && SegmentsMatch(q, w) && "*" !in w && "**" !in w
    ensures SegmentsMeet(p, q)
  {
    forall i | 0 <= i < |p| ensures SegmentMeets(p[i], q[i]) {
      assert w[i] in w;
      assert if p[i] == "*" then w[i] != "" else p[i] == w[i];
      assert if q[i] == "*" then w[i] != "" else q[i] == w[i];
    }
  }

  /** The canonical URI with the common segments as its path. */
  lemma CommonUri(p: Parts, q: Parts) returns (w: Parts)
    requires p.WellFormed() && q.WellFormed() && p.scheme == q.scheme && p.Authority() == q.Authority()
    requires SegmentsMeet(Split(p.path, '/'), Split(q.path, '/'))
    ensures w.WellFormed() && NoWildcard(w.path) && PartsCover(p, w) && PartsCover(q, w)
  {
    var ps, qs := Split(p.path, '/'), Split(q.path, '/');
    var path := CommonPath(p.path, q.path);
    MeetMatches(ps, qs);
    w := p.(path := path);
    assert w.Authority() == p.Authority();
  }

  lemma CommonPath(p: string, q: string) returns (out: string)
    requires p == "" || (p[0] == '/' && NormalPath(p) && !HasDotSegment(p))
    requires q == "" || (q[0] == '/' && NormalPath(q) && !HasDotSegment(q))
    requires |Split(p, '/')| == |Split(q, '/')|
    ensures out == "" || (out[0] == '/' && NormalPath(out) && !HasDotSegment(out))
    ensures Split(out, '/') == Meet(Split(p, '/'), Split(q, '/'))
  {
    hide NormalPath, Split, Meet;
    var ps, qs := Split(p, '/'), Split(q, '/');
    var segs := Meet(ps, qs);
    SplitStart(p);
    SplitStart(q);
    NormalSplit(p);
    NormalSplit(q);
    MeetSegments(ps, qs);
    SplitOfJoin(segs, '/');
    NormalJoin(segs);
    if |segs| > 1 { JoinStart(segs); }
    out := Join(segs, '/');
  }

  lemma MeetSegments(p: seq<string>, q: seq<string>)
    requires |p| == |q| > 0 && p[0] == ""
    requires forall seg | seg in p || seg in q :: '/' !in seg && NormalPath(seg) && seg != "." && seg != ".."
    ensures Meet(p, q)[0] == ""
    ensures forall seg | seg in Meet(p, q) :: '/' !in seg && NormalPath(seg) && seg != "." && seg != ".."
  {
    var m := Meet(p, q);
    assert NormalPath("a");
    forall seg | seg in m ensures '/' !in seg && NormalPath(seg) && seg != "." && seg != ".." {
      var i :| 0 <= i < |m| && m[i] == seg;
      assert p[i] in p && q[i] in q;
    }
  }

  /** Two canonical patterns overlap if and only if some request that passes the guard is covered by both. */
  lemma OverlapsExactly(u: string, v: string)
    requires CanonicalizeURI(u) == Ok(u) && CanonicalizeURI(v) == Ok(v)
    ensures PatternsOverlap(u, v) <==> exists r :: NoWildcard(r) && URICovers(u, r) && URICovers(v, r)
  {
    hide CanonicalizeURI, URICovers, NoWildcard, Parts.WellFormed, Parts.Render, SplitCanonicalURI, SegmentsMeet,
         SegmentsMatch;
    var p := PartsOf(u);
    var q := PartsOf(v);
    SplitRecovers(p);
    SplitRecovers(q);
    if PatternsOverlap(u, v) {
      var w := CommonUri(p, q);
      var r := AdmissibleSpelling(w);
      CoveredSpelling(p, w, r);
      CoveredSpelling(q, w, r);
    }
    forall r | NoWildcard(r) && URICovers(u, r) && URICovers(v, r) ensures PatternsOverlap(u, v) {
      CoversByCanonical(u, r);
      RequestIsConcrete(r);
      var w := OutputIsCanonical(r);
      ConcretePath(w);
      CoveredSpelling(p, w, r);
      CoveredSpelling(q, w, r);
      SegmentsOfGuarded(w.path);
      MatchesMeet(Split(p.path, '/'), Split(q.path, '/'), Split(w.path, '/'));
    }
  }

  lemma SegmentsOfGuarded(path: string)
    requires NoWildcard(path)
    ensures "*" !in Split(path, '/') && "**" !in Split(path, '/')
  {}
}
