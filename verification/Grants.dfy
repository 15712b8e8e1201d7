/**
 * Capability sets are described as disjunctions, and step 8 tries only the first capability
 * that matches. Which sets mean the same either way, decided from their grants alone.
 */
module Grants {
  import opened Wrappers
  import opened Attenuation
  import opened Credential
  import opened Steps
  import Pop
  import Uri
  import UriCovers
  import UriOverlap

  /** The disjunctive reading of a capability set: some capability matches and permits. */
  predicate SomeCapabilityPermits(att: seq<Capability>, ctx: InvocationContext) {
    exists i | 0 <= i < |att| :: Matches(att[i], ctx.request) && PermitsAll(att[i].constraints, ctx)
  }

  /** Whether the first capability that matches a request permits it. */
  predicate FirstMatchPermits(att: seq<Capability>, ctx: InvocationContext) {
    var c := FirstMatch(att, ctx.request);
    c.Some? && PermitsAll(c.value.constraints, ctx)
  }

  /** A helper: the first match is one of the matches, so what step 8 grants the disjunction grants. */
  lemma FirstMatchIsSound(att: seq<Capability>, ctx: InvocationContext)
    ensures FirstMatchPermits(att, ctx) ==> SomeCapabilityPermits(att, ctx)
  {
    hide Matches, PermitsAll;
    FirstMatchIndex(att, ctx.request);
  }

  /** Where no two capabilities match the request, the first match is the only one. */
  lemma FirstMatchSuffices(att: seq<Capability>, ctx: InvocationContext)
    requires forall i, j | 0 <= i < j < |att| :: !(Matches(att[i], ctx.request) && Matches(att[j], ctx.request))
    ensures FirstMatchPermits(att, ctx) <==> SomeCapabilityPermits(att, ctx)
  {
    hide Matches, PermitsAll;
    FirstMatchIndex(att, ctx.request);
    if SomeCapabilityPermits(att, ctx) {
      var i :| 0 <= i < |att| && Matches(att[i], ctx.request) && PermitsAll(att[i].constraints, ctx);
      assert IsFirstMatch(att, ctx.request, i);
    }
  }

  /** A grant limited to one second, listed before an unlimited grant of the same thing, hides it. */
  lemma ShadowedGrant(can: string, with: string, request: Pop.Request)
    requires can == request.action && UriCovers.URICovers(with, request.resource)
    ensures var att := [Capability(can, with, [Within(TimeWindow(0, 1))]), Capability(can, with, [])];
            var ctx := InvocationContext(request, 1, true);
            SomeCapabilityPermits(att, ctx) && !FirstMatchPermits(att, ctx)
  {
    hide UriCovers.URICovers;
    var narrow := Within(TimeWindow(0, 1));
    var att := [Capability(can, with, [narrow]), Capability(can, with, [])];
    var ctx := InvocationContext(request, 1, true);
    assert Matches(att[1], request) && PermitsAll(att[1].constraints, ctx);
    assert FirstMatch(att, request) == Some(att[0]);
    assert narrow in att[0].constraints && !Permits(narrow, ctx);
  }

  // ---- grants ----

  /** An ability over a pattern, before any constraint is put on it. */
  datatype Grant = Grant(can: string, with: string)

  function Constrained(gs: seq<Grant>, css: seq<seq<Constraint>>): (att: seq<Capability>)
    requires |css| == |gs|
    ensures |att| == |gs| && forall i | 0 <= i < |gs| :: att[i] == Capability(gs[i].can, gs[i].with, css[i])
  {
    seq(|gs|, i requires 0 <= i < |gs| => Capability(gs[i].can, gs[i].with, css[i]))
  }

  /** Two grants of one ability whose patterns have a request in common. */
  predicate GrantsOverlap(g: Grant, h: Grant) { g.can == h.can && UriOverlap.PatternsOverlap(g.with, h.with) }

  predicate Disjoint(gs: seq<Grant>) {
    forall i, j | 0 <= i < j < |gs| :: !GrantsOverlap(gs[i], gs[j])
  }

  predicate WellFormedLists(css: seq<seq<Constraint>>) {
    forall cs | cs in css :: forall c | c in cs :: c.Valid()
  }

  /** Whatever constraints are put on the grants, first match and disjunction agree on every admissible request. */
  ghost predicate ReadsAsDisjunction(gs: seq<Grant>) {
    forall css: seq<seq<Constraint>>, ctx: InvocationContext
      | |css| == |gs| && UriCovers.NoWildcard(ctx.request.resource) ::
      FirstMatchPermits(Constrained(gs, css), ctx) <==> SomeCapabilityPermits(Constrained(gs, css), ctx)
  }

  /** The same for constraints that a token may carry. */
  ghost predicate ReadsAsDisjunctionWhenValid(gs: seq<Grant>) {
    forall css: seq<seq<Constraint>>, ctx: InvocationContext
      | |css| == |gs| && UriCovers.NoWildcard(ctx.request.resource) && WellFormedLists(css) ::
      FirstMatchPermits(Constrained(gs, css), ctx) <==> SomeCapabilityPermits(Constrained(gs, css), ctx)
  }

  /** No admissible request is matched by two grants that do not overlap. */
  lemma DisjointMatchesOnce(gs: seq<Grant>, css: seq<seq<Constraint>>, request: Pop.Request, i: nat, j: nat)
    requires |css| == |gs| && i < j < |gs| && Disjoint(gs) && UriCovers.NoWildcard(request.resource)
    requires IsCanonicalUri(gs[i].with) && IsCanonicalUri(gs[j].with)
    ensures !(Matches(Constrained(gs, css)[i], request) && Matches(Constrained(gs, css)[j], request))
  {
    hide UriCovers.URICovers, UriCovers.NoWildcard, UriOverlap.PatternsOverlap, IsCanonicalUri;
    CommonRequest(gs[i], gs[j], request.resource);
    assert !GrantsOverlap(gs[i], gs[j]);
  }

  lemma CommonRequest(g: Grant, h: Grant, resource: string)
    requires IsCanonicalUri(g.with) && IsCanonicalUri(h.with) && UriCovers.NoWildcard(resource)
    ensures UriCovers.URICovers(g.with, resource) && UriCovers.URICovers(h.with, resource) ==>
              UriOverlap.PatternsOverlap(g.with, h.with)
  {
    hide UriCovers.URICovers, UriCovers.NoWildcard, UriOverlap.PatternsOverlap;
    UriOverlap.OverlapsExactly(g.with, h.with);
  }

  /** Constraints that refuse everything but the grant at j, and nothing there. */
  function Shadowing(n: nat, j: nat): (css: seq<seq<Constraint>>)
    ensures |css| == n
  {
    seq(n, k => if k == j then [] else [Within(TimeWindow(0, 1))])
  }

  /** Of two overlapping grants, the earlier one can be constrained so as to hide the later one. */
  lemma OverlapShadows(gs: seq<Grant>, i: nat, j: nat) returns (css: seq<seq<Constraint>>, ctx: InvocationContext)
    requires i < j < |gs| && GrantsOverlap(gs[i], gs[j]) && IsCanonicalUri(gs[i].with) && IsCanonicalUri(gs[j].with)
    ensures |css| == |gs| && WellFormedLists(css) && UriCovers.NoWildcard(ctx.request.resource)
    ensures SomeCapabilityPermits(Constrained(gs, css), ctx) && !FirstMatchPermits(Constrained(gs, css), ctx)
  {
    hide UriCovers.URICovers, UriCovers.NoWildcard, UriOverlap.PatternsOverlap, IsCanonicalUri;
    IsCanonicalMeans(gs[i].with);
    IsCanonicalMeans(gs[j].with);
    UriOverlap.OverlapsExactly(gs[i].with, gs[j].with);
    var r :| UriCovers.NoWildcard(r) && UriCovers.URICovers(gs[i].with, r) && UriCovers.URICovers(gs[j].with, r);
    ctx := InvocationContext(Pop.Request(gs[i].can, r, map[]), 1, true);
    css := Shadowing(|gs|, j);
    var att := Constrained(gs, css);
    assert Matches(att[i], ctx.request) && Matches(att[j], ctx.request) && PermitsAll(att[j].constraints, ctx);
    FirstIsShadowed(gs, j, ctx, i);
  }

  lemma IsCanonicalMeans(u: string)
    requires IsCanonicalUri(u)
    ensures Uri.CanonicalizeURI(u) == Ok(u)
  {}

  lemma FirstIsShadowed(gs: seq<Grant>, j: nat, ctx: InvocationContext, i: nat)
    requires i < j < |gs| && ctx.now == 1
    requires Matches(Constrained(gs, Shadowing(|gs|, j))[i], ctx.request)
    ensures !FirstMatchPermits(Constrained(gs, Shadowing(|gs|, j)), ctx)
    ensures WellFormedLists(Shadowing(|gs|, j))
  {
    hide Matches;
    var css := Shadowing(|gs|, j);
    var att := Constrained(gs, css);
    FirstMatchIndex(att, ctx.request);
    var narrow := Within(TimeWindow(0, 1));
    forall f | IsFirstMatch(att, ctx.request, f) ensures !PermitsAll(att[f].constraints, ctx) {
      assert f <= i;
      assert narrow in att[f].constraints && !Permits(narrow, ctx);
    }
  }

  /**
   * When a capability set may be read as a disjunction: exactly when no two of its grants overlap,
   * which an issuer can decide segment by segment before putting any constraint on them.
   */
  lemma DisjunctionExactly(gs: seq<Grant>)
    requires forall g | g in gs :: IsCanonicalUri(g.with)
    ensures ReadsAsDisjunction(gs) <==> Disjoint(gs)
    ensures ReadsAsDisjunctionWhenValid(gs) <==> Disjoint(gs)
  {
    hide IsCanonicalUri, GrantsOverlap, FirstMatchPermits, SomeCapabilityPermits, UriCovers.NoWildcard,
         WellFormedLists, Matches;
    if Disjoint(gs) {
      forall css: seq<seq<Constraint>>, ctx: InvocationContext
        | |css| == |gs| && UriCovers.NoWildcard(ctx.request.resource)
        ensures FirstMatchPermits(Constrained(gs, css), ctx) <==> SomeCapabilityPermits(Constrained(gs, css), ctx)
      {
        forall i, j | 0 <= i < j < |gs|
          ensures !(Matches(Constrained(gs, css)[i], ctx.request) && Matches(Constrained(gs, css)[j], ctx.request))
        {
          DisjointMatchesOnce(gs, css, ctx.request, i, j);
        }
        FirstMatchSuffices(Constrained(gs, css), ctx);
      }
    } else {
      var i, j :| 0 <= i < j < |gs| && GrantsOverlap(gs[i], gs[j]);
      var css, ctx := OverlapShadows(gs, i, j);
    }
  }
}
