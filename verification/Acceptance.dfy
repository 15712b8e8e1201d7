/**
 * What it takes to be accepted, said without reference to steps: one chain and one list
 * of conditions on it, which the thirteen steps check exactly.
 */
module Acceptance {
  import opened Wrappers
  import opened Chain
  import opened ChainPaths
  import opened Steps
  import opened Verifying = Verifier
  import Attenuation
  import Pop
  import Revocation
  import UriCovers

  /** A hop takes its issuer from its parent's audience, never widens the window, and spends depth. */
  predicate Narrows(child: Element, parent: Element) {
    && child.Iss() == parent.Aud()
    && parent.Nbf() <= child.Nbf() && child.Exp() <= parent.Exp()
    && (child.BlockElement? ==>
          0 <= child.block.dl && (parent.DepthLeft().Some? ==> child.block.dl < parent.DepthLeft().value))
  }

  predicate SignedByIssuer(cfg: Config, e: Element) {
    cfg.resolveDid(e.Iss()).Some? && cfg.signed(cfg.resolveDid(e.Iss()).value, e)
  }

  predicate InWindow(e: Element, now: int, skew: int) { e.Nbf() - skew <= now <= e.Exp() + skew }

  /** The root issuer is trusted directly, or by a policy whose depth the chain keeps to. */
  predicate TrustedRoot(cfg: Config, es: seq<Element>)
    requires es != []
  {
    var iss := Root(es).Iss();
    iss in cfg.trustedRootDids ||
    (PolicyFor(cfg.trustPolicies, iss).Some? &&
     var p := PolicyFor(cfg.trustPolicies, iss).value;
     p.maxDelegationDepth <= 0 || |es| - 1 <= p.maxDelegationDepth)
  }

  /** A subject whose lookup does not stand in the way: not denied, and at the HIGH tier not unknown. */
  predicate NotDenied(l: Lookup, tier: Tier) {
    match l
    case LookupFailed => tier != TierHigh
    case Active => true
    case Found(status) => !Revocation.Denying(status)
  }

  /** The invocation is fresh, addressed to this verifier, signed by the leaf's audience, and new. */
  predicate Presented(cfg: Config, inv: Pop.Invocation, presenter: string, m: Pop.Nonces, t0: int, t2: int) {
    var now := Pop.Seconds(t0);
    && (cfg.startTime > 0 ==> inv.iat >= cfg.startTime)
    && Pop.WellSigned(cfg.presenters, cfg.verifierDid, inv) && inv.iss == presenter
    && now - 60 <= inv.iat <= now + 60
    && now <= inv.exp <= inv.iat + 300
    && (inv.nonce in m ==> m[inv.nonce] <= t2)
    && (cfg.expectedChannelBinding != "" ==> inv.cb == cfg.expectedChannelBinding)
  }

  /** The grant: one root capability matches first and permits, and so does every caveat below it. */
  ghost predicate Granted(es: seq<Element>, ctx: InvocationContext)
    requires es != [] && Root(es).TokenElement?
  {
    var att := Root(es).token.att;
    && UriCovers.NoWildcard(ctx.request.resource)
    && (exists i :: Attenuation.IsFirstMatch(att, ctx.request, i) && PermitsAll(att[i].constraints, ctx))
    && forall e | e in es && e.BlockElement? :: PermitsAll(e.block.cav, ctx)
  }

  ghost predicate GoodChain(cfg: Config, inv: Pop.Invocation, x: Inputs, es: seq<Element>) {
    && inv.delegation != ""
    && IsPath(cfg.codec, EffectiveStore(cfg.codec, x.store, x.inline), inv.delegation, es)
    && |es| - 1 <= ClampDepth(cfg.maxChainDepth) && TotalWeight(es) <= MAX_CHAIN_CAPS_CAVEATS
    && es != [] && Root(es).TokenElement?
    && (forall e | e in es :: WellFormed(e) && SignedByIssuer(cfg, e) && InWindow(e, x.now5, cfg.ClockSkew()))
    && (forall i | 0 <= i < |es| - 1 :: Narrows(es[i], es[i + 1]))
    && TrustedRoot(cfg, es)
  }

  /** Everything an accepted invocation has to satisfy. */
  ghost predicate Legitimate(cfg: Config, inv: Pop.Invocation, x: Inputs, m: Pop.Nonces, es: seq<Element>) {
    var tier := cfg.TierFor(inv.request.resource);
    && GoodChain(cfg, inv, x, es)
    && (x.revocations.Some? ==> forall e | e in es ::
          NotDenied(x.revocations.value(e.cid), tier) && NotDenied(x.revocations.value(e.Aud()), tier))
    && Granted(es, InvocationContext(inv.request, x.now8, cfg.meteringEnabled))
    && Presented(cfg, inv, es[0].Aud(), m, x.t0, x.t2)
    && (x.registered.Some? && tier == TierHigh ==> x.registered.value(inv.delegation, inv.delegation))
  }

  // ---- step by step ----

  lemma {:induction false} LinkagePointwise(es: seq<Element>)
    requires forall i | 0 <= i < |es| - 1 :: es[i].ParentCid() == es[i + 1].cid
    ensures Step2Linkage(es).None? <==> forall i | 0 <= i < |es| - 1 :: Narrows(es[i], es[i + 1])
  {
    hide Narrows, LinkFault, Element.ParentCid;
    if |es| > 1 {
      var rest := es[1..];
      assert forall i | 0 <= i < |rest| :: rest[i] == es[i + 1];
      LinkagePointwise(rest);
      NarrowsIsNoFault(es[0], es[1]);
      assert forall i | 0 < i < |es| - 1 :: es[i] == rest[i - 1] && es[i + 1] == rest[i];
      assert (forall i | 0 <= i < |rest| - 1 :: Narrows(rest[i], rest[i + 1])) ==>
             forall i | 0 < i < |es| - 1 :: Narrows(es[i], es[i + 1]);
      assert (forall i | 0 <= i < |es| - 1 :: Narrows(es[i], es[i + 1])) ==>
             forall i | 0 <= i < |rest| - 1 :: Narrows(rest[i], rest[i + 1]);
    }
  }

  lemma NarrowsIsNoFault(child: Element, parent: Element)
    requires child.ParentCid() == parent.cid
    ensures LinkFault(child, parent).None? <==> Narrows(child, parent)
  {}

  lemma {:induction false} SignaturesPointwise(es: seq<Element>, cfg: Config)
    ensures Step4Signatures(es, cfg).None? <==> forall e | e in es :: SignedByIssuer(cfg, e)
  {
    if es != [] {
      SignaturesPointwise(es[1..], cfg);
      assert SignatureFault(es[0], cfg).None? <==> SignedByIssuer(cfg, es[0]);
      hide SignedByIssuer, SignatureFault;
      assert es == [es[0]] + es[1..];
      assert forall e :: e in es <==> e == es[0] || e in es[1..];
    }
  }

  lemma {:induction false} TemporalPointwise(es: seq<Element>, now: int, skew: int)
    ensures Step5Temporal(es, now, skew).None? <==> forall e | e in es :: InWindow(e, now, skew)
  {
    if es != [] {
      TemporalPointwise(es[1..], now, skew);
      assert WindowFault(es[0], now, skew).None? <==> InWindow(es[0], now, skew);
      hide InWindow, WindowFault;
      assert es == [es[0]] + es[1..];
      assert forall e :: e in es <==> e == es[0] || e in es[1..];
    }
  }

  lemma {:induction false} PolicyNames(policies: seq<TrustPolicy>, iss: string)
    ensures PolicyFor(policies, iss).Some? <==> exists p | p in policies :: iss in p.platforms
  {
    if policies != [] {
      PolicyNames(policies[1..], iss);
      assert forall p :: p in policies <==> p == policies[0] || p in policies[1..];
    }
  }

  /** Steps 3 and 9 together are the trust condition. */
  lemma TrustSplit(cfg: Config, es: seq<Element>)
    requires es != []
    ensures TrustedRoot(cfg, es) <==>
            && Step3RootTrust(es, cfg).Ok?
            && Step9CrossOrg(es, cfg.trustPolicies, Step3RootTrust(es, cfg) == Ok(true)).None?
  {
    PolicyNames(cfg.trustPolicies, Root(es).Iss());
  }

  lemma RevocationPointwise(es: seq<Element>, cache: Option<string -> Lookup>, tier: Tier)
    ensures RevocationClear(es, cache, tier) <==>
            (cache.Some? ==>
               forall e | e in es :: NotDenied(cache.value(e.cid), tier) && NotDenied(cache.value(e.Aud()), tier))
  {
    if cache.Some? {
      forall s ensures SubjectError(cache.value(s), tier).None? <==> NotDenied(cache.value(s), tier) {}
      hide SubjectError, NotDenied;
      assert forall e | e in es :: e.cid in Subjects(es) && e.Aud() in Subjects(es);
    }
  }

  lemma GrantSplit(es: seq<Element>, ctx: InvocationContext)
    requires es != [] && Root(es).TokenElement? && forall i | 0 <= i < |es| - 1 :: es[i].BlockElement?
    ensures Granted(es, ctx) <==> Step8Authorization(es, ctx).Ok?
  {
    hide Permits, UriCovers.NoWildcard, Attenuation.IsFirstMatch, Step8Authorization;
    Attenuation.GrantedExactly(es, ctx);
    assert forall e | e in es && e.BlockElement? :: exists i :: 0 <= i < |es| - 1 && es[i] == e;
    assert forall i | 0 <= i < |es| - 1 :: es[i] in es;
  }

  lemma PresentedSplit(cfg: Config, inv: Pop.Invocation, presenter: string, m: Pop.Nonces, t0: int, t2: int)
    ensures Presented(cfg, inv, presenter, m, t0, t2) <==>
            SpendsNonce(cfg, inv, presenter, m, t0, t2) && ChannelBound(cfg, inv)
  {}

  lemma ChainSplit(cfg: Config, inv: Pop.Invocation, x: Inputs, es: seq<Element>)
    ensures GoodChain(cfg, inv, x, es) <==>
            && inv.delegation != ""
            && Build(cfg.codec, EffectiveStore(cfg.codec, x.store, x.inline), inv.delegation, cfg.maxChainDepth)
               == Ok(es)
            && es != [] && BeforeRevocation(cfg, es, x.now5).None?
            && Step9CrossOrg(es, cfg.trustPolicies, Step3RootTrust(es, cfg) == Ok(true)).None?
  {
    hide Build, IsPath, WellFormed, SignedByIssuer, InWindow, Narrows, TrustedRoot, Step2Linkage, Step3RootTrust,
         Step4Signatures, Step5Temporal, Step9CrossOrg;
    var store := EffectiveStore(cfg.codec, x.store, x.inline);
    BuildsExactly(cfg.codec, store, inv.delegation, cfg.maxChainDepth, es);
    if es != [] && IsPath(cfg.codec, store, inv.delegation, es) {
      PathShape(cfg.codec, store, inv.delegation, es);
      LinkagePointwise(es);
      SignaturesPointwise(es, cfg);
      TemporalPointwise(es, x.now5, cfg.ClockSkew());
      TrustSplit(cfg, es);
    }
  }

  /** Steps 7 to 9 on a chain of the right shape. */
  lemma AfterSplit(cfg: Config, es: seq<Element>, request: Pop.Request, now: int)
    requires es != [] && Root(es).TokenElement? && forall i | 0 <= i < |es| - 1 :: es[i].BlockElement?
    ensures AfterRevocation(cfg, es, request, now).Ok? <==>
            && Granted(es, InvocationContext(request, now, cfg.meteringEnabled))
            && Step9CrossOrg(es, cfg.trustPolicies, Step3RootTrust(es, cfg) == Ok(true)).None?
  {
    hide Granted, Step8Authorization, Step9CrossOrg, Step3RootTrust;
    GrantSplit(es, InvocationContext(request, now, cfg.meteringEnabled));
  }

  /**
   * The verification accepts an invocation exactly when it is legitimate: some chain, which is then the one
   * that was built, satisfies every condition.
   */
  lemma AcceptsExactly(cfg: Config, inv: Pop.Invocation, x: Inputs, m: Pop.Nonces)
    ensures Accepts(cfg, inv, x, m) <==> exists es :: Legitimate(cfg, inv, x, m, es)
  {
    hide Build, BeforeRevocation, AfterRevocation, RevocationClear, SpendsNonce, ChannelBound, GoodChain, Granted,
         Presented, NotDenied;
    forall es | Legitimate(cfg, inv, x, m, es) ensures Accepts(cfg, inv, x, m) {
      OneChain(cfg, inv, x, m, es);
    }
    if Accepts(cfg, inv, x, m) {
      OneChain(cfg, inv, x, m, ChainOf(cfg, inv, x));
    }
  }

  lemma OneChain(cfg: Config, inv: Pop.Invocation, x: Inputs, m: Pop.Nonces, es: seq<Element>)
    ensures Legitimate(cfg, inv, x, m, es) <==> Accepts(cfg, inv, x, m) && ChainOf(cfg, inv, x) == es
  {
    hide Build, BeforeRevocation, AfterRevocation, RevocationClear, SpendsNonce, ChannelBound, GoodChain, Granted,
         Presented, NotDenied, Step3RootTrust, Step9CrossOrg;
    var store := EffectiveStore(cfg.codec, x.store, x.inline);
    ChainSplit(cfg, inv, x, es);
    if Build(cfg.codec, store, inv.delegation, cfg.maxChainDepth) == Ok(es) && es != [] {
      Attenuation.BuiltShape(cfg.codec, store, inv.delegation, cfg.maxChainDepth, es);
      AfterSplit(cfg, es, inv.request, x.now8);
      RevocationPointwise(es, x.revocations, cfg.TierFor(inv.request.resource));
      PresentedSplit(cfg, inv, es[0].Aud(), m, x.t0, x.t2);
    }
  }
}
