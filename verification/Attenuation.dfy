/**
 * Attenuation: what a delegate may do is bounded by what each of its delegators may
 * do, in authority, in depth and in time.
 */
module Attenuation {
  import opened Wrappers
  import opened Credential
  import opened Chain
  import opened ChainPaths
  import opened Steps
  import Pop
  import Uri
  import UriCanonical
  import UriCovers
  import UriRequests

  /** The state a verification reads: stored credentials, revocation source and two clock readings. */
  datatype World = World(store: Store, revocations: Option<string -> Lookup>, now5: int, now8: int)

  /** Steps 0 to 9 pass for the chain of leaf, and match cap. */
  ghost predicate Authorizes(cfg: Config, w: World, leaf: string, request: Pop.Request, es: seq<Element>,
                             cap: Capability)
  {
    && Build(cfg.codec, w.store, leaf, cfg.maxChainDepth) == Ok(es)
    && es != []
    && BeforeRevocation(cfg, es, w.now5).None?
    && RevocationClear(es, w.revocations, cfg.TierFor(request.resource))
    && AfterRevocation(cfg, es, request, w.now8) == Ok(cap)
  }

  // ---- each step, on suffixes ----

  lemma {:induction false} LinkageSuffix(es: seq<Element>, k: nat)
    requires Step2Linkage(es).None? && k < |es|
    ensures Step2Linkage(es[k..]).None?
  {
    hide LinkFault;
    if k > 0 {
      LinkageSuffix(es[1..], k - 1);
      assert es[1..][k - 1..] == es[k..];
    } else {
      assert es[0..] == es;
    }
  }

  lemma {:induction false} SignaturesSuffix(es: seq<Element>, cfg: Config, k: nat)
    requires Step4Signatures(es, cfg).None? && k < |es|
    ensures Step4Signatures(es[k..], cfg).None?
  {
    hide SignatureFault;
    if k > 0 {
      SignaturesSuffix(es[1..], cfg, k - 1);
      assert es[1..][k - 1..] == es[k..];
    } else {
      assert es[0..] == es;
    }
  }

  lemma {:induction false} TemporalSuffix(es: seq<Element>, now: int, skew: int, k: nat)
    requires Step5Temporal(es, now, skew).None? && k < |es|
    ensures Step5Temporal(es[k..], now, skew).None?
  {
    hide WindowFault;
    if k > 0 {
      TemporalSuffix(es[1..], now, skew, k - 1);
      assert es[1..][k - 1..] == es[k..];
    } else {
      assert es[0..] == es;
    }
  }

  lemma BeforeRevocationSuffix(cfg: Config, es: seq<Element>, now: int, k: nat)
    requires k < |es| && BeforeRevocation(cfg, es, now).None?
    ensures BeforeRevocation(cfg, es[k..], now).None?
    ensures Step3RootTrust(es[k..], cfg) == Step3RootTrust(es, cfg)
  {
    hide WellFormed, Step2Linkage, Step4Signatures, Step5Temporal;
    assert forall e | e in es[k..] :: e in es;
    assert Root(es[k..]) == Root(es);
    LinkageSuffix(es, k);
    SignaturesSuffix(es, cfg, k);
    TemporalSuffix(es, now, cfg.ClockSkew(), k);
  }

  lemma RevocationSuffix(es: seq<Element>, cache: Option<string -> Lookup>, tier: Tier, k: nat)
    requires k < |es| && RevocationClear(es, cache, tier)
    ensures RevocationClear(es[k..], cache, tier)
  {
    hide SubjectError;
    assert forall e | e in es[k..] :: e in es;
  }

  /** The capability set comes from the root, whichever hop one stands on. */
  lemma {:induction false} EffectiveIsRoots(es: seq<Element>)
    requires es != [] && Root(es).TokenElement?
    requires forall i | 0 <= i < |es| - 1 :: es[i].BlockElement?
    ensures EffectiveAtt(es) == Root(es).token.att
  {
    if |es| > 1 {
      assert forall i | 0 <= i < |es| - 2 :: es[1..][i] == es[i + 1];
      EffectiveIsRoots(es[1..]);
    }
  }

  lemma AuthorizationSuffix(es: seq<Element>, ctx: InvocationContext, k: nat)
    requires k < |es| && Root(es).TokenElement?
    requires forall i | 0 <= i < |es| - 1 :: es[i].BlockElement?
    requires Step8Authorization(es, ctx).Ok?
    ensures Step8Authorization(es[k..], ctx) == Step8Authorization(es, ctx)
  {
    hide PermitsAll, Caveats, UriCovers.NoWildcard, EffectiveAtt, FirstMatch, Root;
    EffectiveSuffix(es, k);
    CaveatsFrom(es, k, ctx);
  }

  lemma EffectiveSuffix(es: seq<Element>, k: nat)
    requires k < |es| && Root(es).TokenElement?
    requires forall i | 0 <= i < |es| - 1 :: es[i].BlockElement?
    ensures EffectiveAtt(es[k..]) == EffectiveAtt(es)
  {
    hide EffectiveAtt;
    EffectiveIsRoots(es);
    EffectiveIsRoots(es[k..]);
  }

  lemma CrossOrgSuffix(es: seq<Element>, policies: seq<TrustPolicy>, crossOrg: bool, k: nat)
    requires k < |es| && Step9CrossOrg(es, policies, crossOrg).None?
    ensures Step9CrossOrg(es[k..], policies, crossOrg).None?
  {
    assert Root(es[k..]) == Root(es);
  }

  lemma AfterRevocationSuffix(cfg: Config, es: seq<Element>, request: Pop.Request, now: int, k: nat)
    requires k < |es| && Root(es).TokenElement?
    requires forall i | 0 <= i < |es| - 1 :: es[i].BlockElement?
    requires Step3RootTrust(es[k..], cfg) == Step3RootTrust(es, cfg)
    requires AfterRevocation(cfg, es, request, now).Ok?
    ensures AfterRevocation(cfg, es[k..], request, now) == AfterRevocation(cfg, es, request, now)
  {
    hide Step3RootTrust, Step8Authorization, Step9CrossOrg;
    AuthorizationSuffix(es, InvocationContext(request, now, cfg.meteringEnabled), k);
    CrossOrgSuffix(es, cfg.trustPolicies, Step3RootTrust(es, cfg) == Ok(true), k);
  }

  /** The chain of a leaf is made of blocks above one root token. */
  lemma BuiltShape(codec: Codec, store: Store, leaf: string, maxDepth: int, es: seq<Element>)
    requires Build(codec, store, leaf, maxDepth) == Ok(es)
    ensures es != [] && es[0].cid == leaf && Root(es).IsRoot()
    ensures forall i | 0 <= i < |es| - 1 :: es[i].BlockElement?
  {
    hide Build, IsPath;
    BuildsExactly(codec, store, leaf, maxDepth, es);
    PathShape(codec, store, leaf, es);
    PathNotEmpty(codec, store, leaf, es);
  }

  lemma PathNotEmpty(codec: Codec, store: Store, leaf: string, es: seq<Element>)
    requires IsPath(codec, store, leaf, es)
    ensures es != []
  {}

  /**
   * A delegate can do nothing its delegators cannot: when a leaf is authorized for a request,
   * the chain of every ancestor is the matching suffix and is authorized for the same request
   * by the same capability, one that the root was granted.
   */
  lemma DelegatorsMayToo(cfg: Config, w: World, leaf: string, request: Pop.Request,
                         es: seq<Element>, cap: Capability, k: nat)
    requires Authorizes(cfg, w, leaf, request, es, cap) && k < |es|
    ensures Authorizes(cfg, w, es[k].cid, request, es[k..], cap)
    ensures Root(es).TokenElement? && cap in Root(es).token.att
  {
    hide Build, BeforeRevocation, AfterRevocation, RevocationClear;
    BuiltShape(cfg.codec, w.store, leaf, cfg.maxChainDepth, es);
    SuffixBuilds(cfg.codec, w.store, leaf, cfg.maxChainDepth, es, k);
    BeforeRevocationSuffix(cfg, es, w.now5, k);
    RevocationSuffix(es, w.revocations, cfg.TierFor(request.resource), k);
    AfterRevocationSuffix(cfg, es, request, w.now8, k);
    MatchedIsGranted(cfg, es, request, w.now8);
  }

  lemma MatchedIsGranted(cfg: Config, es: seq<Element>, request: Pop.Request, now: int)
    requires es != [] && Root(es).TokenElement?
    requires forall i | 0 <= i < |es| - 1 :: es[i].BlockElement?
    requires AfterRevocation(cfg, es, request, now).Ok?
    ensures AfterRevocation(cfg, es, request, now).value in Root(es).token.att
  {
    hide PermitsAll, Caveats, UriCovers.NoWildcard, Step3RootTrust, Step9CrossOrg, EffectiveAtt;
    EffectiveIsRoots(es);
  }

  // ---- what authorization means ----

  /** The caveats of a chain, hop by hop. */
  lemma CaveatsOfChain(es: seq<Element>, ctx: InvocationContext)
    requires es != [] && Root(es).TokenElement?
    requires forall i | 0 <= i < |es| - 1 :: es[i].BlockElement?
    ensures PermitsAll(Caveats(es), ctx) <==> forall i | 0 <= i < |es| - 1 :: PermitsAll(es[i].block.cav, ctx)
  {
    hide Permits;
    CaveatsFrom(es, |es|, ctx);
    assert Caveats(es[|es|..]) == [];
  }

  /**
   * Step 8 grants a request exactly when it is concrete, some capability of the root matches
   * it, the first that does permits it, and so does every caveat of every hop.
   */
  lemma GrantedExactly(es: seq<Element>, ctx: InvocationContext)
    requires es != [] && Root(es).TokenElement?
    requires forall i | 0 <= i < |es| - 1 :: es[i].BlockElement?
    ensures var att := Root(es).token.att;
            Step8Authorization(es, ctx).Ok? <==>
            && UriCovers.NoWildcard(ctx.request.resource)
            && (exists i :: IsFirstMatch(att, ctx.request, i) && PermitsAll(att[i].constraints, ctx))
            && forall i | 0 <= i < |es| - 1 :: PermitsAll(es[i].block.cav, ctx)
  {
    hide PermitsAll, Caveats, FirstMatch, EffectiveAtt, IsFirstMatch, UriCovers.NoWildcard;
    var att := Root(es).token.att;
    EffectiveIsRoots(es);
    FirstMatchIndex(att, ctx.request);
    CaveatsOfChain(es, ctx);
  }

  /**
   * What is granted is one resource: the request, brought into canonical form, has no wildcard, and the
   * capability's pattern and every resource caveat on the way cover it.
   */
  lemma GrantNamesOneResource(es: seq<Element>, ctx: InvocationContext)
    requires Step8Authorization(es, ctx).Ok?
    ensures var canonical := Uri.CanonicalizeURI(ctx.request.resource);
            && canonical.Ok? && UriCovers.Concrete(canonical.value)
            && UriCovers.URICovers(Step8Authorization(es, ctx).value.with, canonical.value)
            && forall r | ResourceRestrict(r) in Caveats(es) :: UriCovers.URICovers(r, canonical.value)
  {
    hide Permits, Caveats, UriCovers.URICovers, UriCovers.NoWildcard, UriCovers.Concrete, Uri.CanonicalizeURI,
         EffectiveAtt;
    var resource, cap := ctx.request.resource, Step8Authorization(es, ctx).value;
    CoveredCanonically(cap.with, resource);
    UriRequests.RequestIsConcrete(resource);
    forall r | ResourceRestrict(r) in Caveats(es)
      ensures UriCovers.URICovers(r, Uri.CanonicalizeURI(resource).value)
    {
      assert Permits(ResourceRestrict(r), ctx);
      ResourceCaveat(r, ctx);
      CoveredCanonically(r, resource);
    }
  }

  lemma ResourceCaveat(r: string, ctx: InvocationContext)
    requires Permits(ResourceRestrict(r), ctx)
    ensures UriCovers.URICovers(r, ctx.request.resource)
  {}

  lemma CoveredCanonically(pattern: string, resource: string)
    requires UriCovers.URICovers(pattern, resource)
    ensures Uri.CanonicalizeURI(resource).Ok? && UriCovers.URICovers(pattern, Uri.CanonicalizeURI(resource).value)
  {
    hide UriCovers.URICovers, Uri.CanonicalizeURI;
    UriCovers.CoversByCanonical(pattern, resource);
    UriCanonical.Idempotent(resource);
    UriCovers.CoversByCanonical(pattern, Uri.CanonicalizeURI(resource).value);
  }

  predicate IsFirstMatch(att: seq<Capability>, request: Pop.Request, i: int) {
    0 <= i < |att| && Matches(att[i], request) && forall j | 0 <= j < i :: !Matches(att[j], request)
  }

  lemma {:induction false} FirstMatchIndex(att: seq<Capability>, request: Pop.Request)
    ensures forall i | IsFirstMatch(att, request, i) :: FirstMatch(att, request) == Some(att[i])
    ensures FirstMatch(att, request).Some? ==> exists i :: IsFirstMatch(att, request, i)
  {
    hide Matches;
    if att != [] {
      FirstMatchIndex(att[1..], request);
      forall i | IsFirstMatch(att, request, i) ensures FirstMatch(att, request) == Some(att[i]) {
        FirstMatchSkips(att, request, i);
      }
      if FirstMatch(att, request).Some? {
        if Matches(att[0], request) {
          assert IsFirstMatch(att, request, 0);
        } else {
          var i :| IsFirstMatch(att[1..], request, i);
          assert forall j | 0 < j < i + 1 :: att[j] == att[1..][j - 1];
          assert IsFirstMatch(att, request, i + 1);
        }
      }
    }
  }

  // ---- depth ----

  lemma {:induction false} DepthNonNegative(att: seq<Capability>)
    requires forall c | c in att :: c.Valid()
    ensures DelegableDepth(att).Some? ==> DelegableDepth(att).value >= 0
  {
    if att != [] {
      assert att[0].Valid();
      DepthInNonNegative(att[0].constraints);
      DepthNonNegative(att[1..]);
    }
  }

  lemma {:induction false} DepthInNonNegative(cs: seq<Constraint>)
    requires forall c | c in cs :: c.Valid()
    ensures DepthIn(cs).Some? ==> DepthIn(cs).value >= 0
  {
    if cs != [] {
      assert cs[0].Valid();
      DepthInNonNegative(cs[1..]);
    }
  }

  /** Each hop uses up at least one level of what its root granted. */
  lemma {:induction false} DepthSpent(es: seq<Element>)
    requires es != [] && Step2Linkage(es).None? && Root(es).TokenElement? && Root(es).DepthLeft().Some?
    requires forall i | 0 <= i < |es| - 1 :: es[i].BlockElement?
    ensures es[0].DepthLeft().Some? && es[0].DepthLeft().value <= Root(es).DepthLeft().value - (|es| - 1)
    ensures |es| > 1 ==> es[0].DepthLeft().value >= 0
  {
    if |es| > 1 {
      assert Root(es[1..]) == Root(es);
      assert forall i | 0 <= i < |es| - 2 :: es[1..][i] == es[i + 1];
      DepthSpent(es[1..]);
    }
  }

  /** A root's delegation_depth bounds the hops below it, and what is left of it at the leaf. */
  lemma DepthBound(es: seq<Element>, granted: int)
    requires es != [] && Root(es).TokenElement? && forall i | 0 <= i < |es| - 1 :: es[i].BlockElement?
    requires Step0Structural(es).None? && Step2Linkage(es).None?
    requires Root(es).DepthLeft() == Some(granted)
    ensures |es| - 1 <= granted
    ensures |es| > 1 ==> 0 <= es[0].block.dl <= granted - (|es| - 1)
  {
    hide Step2Linkage, Capability.Valid;
    assert Root(es) in es && WellFormed(Root(es));
    DepthNonNegative(Root(es).token.att);
    DepthSpent(es);
  }

  // ---- time ----

  /** Along a linked chain the leaf has the narrowest window, so its window alone decides step 5. */
  lemma {:induction false} LeafWindowDecides(es: seq<Element>, now: int, skew: int)
    requires es != [] && Step2Linkage(es).None?
    ensures Step5Temporal(es, now, skew).None? <==> WindowFault(es[0], now, skew).None?
  {
    if |es| > 1 {
      LeafWindowDecides(es[1..], now, skew);
      assert LinkFault(es[0], es[1]).None?;
    }
  }
}
