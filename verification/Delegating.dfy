/** What a delegation does to the state of the service: a chain one hop longer, registered all the way up. */
module Delegating {
  import opened Wrappers
  import opened Blocks
  import opened Chain
  import opened ChainPaths
  import opened Credential
  import opened Issuance
  import opened Cascading
  import opened Registration
  import opened Service

  /**
   * Delegating from a credential whose chain is es, in any reachable state, gives the new credential
   * the chain with one hop more and registers it under its own CID and every ancestor's, provided
   * depth and weight leave room; otherwise it is stored and nothing is registered.
   */
  lemma DelegationTakesEffect(env: Env, s: State, k: Issuer, parentCid: string, es: seq<Element>,
                              aud: string, childDl: int, caveats: seq<Constraint>)
    requires GoodEnv(env) && Inv(env.codec, s) && GoodIssuer(k) && ParsesBlocks(env.codec)
    requires Build(env.codec, s.credentials, parentCid, env.maxChainDepth) == Ok(es) && es != [] && ParentOf(es[0]).Ok?
    requires Mint(k, ParentOf(es[0]).value, aud, childDl, caveats).Ok? && forall c | c in caveats :: Readable(c)
    ensures var raw := Mint(k, ParentOf(es[0]).value, aud, childDl, caveats).value.1;
            var cid, after := env.codec.cid(raw), Step(env, s, Delegate(raw));
            var longer := [BlockElement(cid, Stored(k, ParentOf(es[0]).value, aud, childDl, caveats))] + es;
            if |es| <= ClampDepth(env.maxChainDepth) && TotalWeight(es) + |caveats| <= MAX_CHAIN_CAPS_CAVEATS then
              && Build(env.codec, after.credentials, cid, env.maxChainDepth) == Ok(longer)
              && forall c, d :: Has(after.index, c, d) <==> Has(s.index, c, d) || (d == cid && c in CidsOf(longer))
            else
              cid in after.credentials && after.index == s.index
  {
    hide Build, Mint, Has, RegisterAll, GoodSigner, GoodHash, GoodIssuer, ParsesBlocks, Readable, Stored, CidsOf,
         Enumerates, Sound, ParentOf, ClampDepth, TotalWeight, Addressed;
    var raw := Mint(k, ParentOf(es[0]).value, aud, childDl, caveats).value.1;
    var cid := env.codec.cid(raw);
    var longer := [BlockElement(cid, Stored(k, ParentOf(es[0]).value, aud, childDl, caveats))] + es;
    MintedChain(k, env.codec, s.credentials, parentCid, env.maxChainDepth, es, aud, childDl, caveats);
    var built := Build(env.codec, s.credentials[cid := raw], cid, env.maxChainDepth);
    if built.Ok? { RegisterAllPairs(s.index, cid, CidsOf(longer)); }
  }

  /**
   * What a later reconciliation pass makes of a delegation, at whatever time it comes: it registers the new
   * credential under an ancestor exactly when the chain fits the hard cap and the weight limit. So one that was
   * refused for the configured depth is made good, and one that was refused for its weight never is.
   */
  lemma PassRegisters(env: Env, s: State, k: Issuer, parentCid: string, es: seq<Element>, aud: string, childDl: int,
                      caveats: seq<Constraint>, actions: seq<Action>, c: string)
    requires GoodHash(env.codec) && Inv(env.codec, s) && GoodIssuer(k) && ParsesBlocks(env.codec)
    requires Build(env.codec, s.credentials, parentCid, env.maxChainDepth) == Ok(es) && es != [] && ParentOf(es[0]).Ok?
    requires Mint(k, ParentOf(es[0]).value, aud, childDl, caveats).Ok? && forall c | c in caveats :: Readable(c)
    requires c in CidsOf(es)
    ensures var raw := Mint(k, ParentOf(es[0]).value, aud, childDl, caveats).value.1;
            var later := Run(env, Step(env, s, Delegate(raw)), actions);
            env.codec.cid(raw) in Descendants(Step(env, later, Reconcile).index, c) <==>
            |es| <= HARD_MAX_DEPTH && TotalWeight(es) + |caveats| <= MAX_CHAIN_CAPS_CAVEATS
  {
    hide Build, Mint, Stored, Readable, GoodHash, GoodIssuer, ParsesBlocks, Inv, Run, Step, Descendants, IsPath,
         Addressed, ParentOf, TotalWeight, CidsOf;
    var raw := Mint(k, ParentOf(es[0]).value, aud, childDl, caveats).value.1;
    var cid, after := env.codec.cid(raw), Step(env, s, Delegate(raw));
    var later := Run(env, after, actions);
    var longer := [BlockElement(cid, Stored(k, ParentOf(es[0]).value, aud, childDl, caveats))] + es;
    StepKeepsInv(env, s, Delegate(raw));
    RunKeepsInv(env, after, actions);
    InvAddresses(env.codec, s);
    MintedPath(k, env.codec, s.credentials, parentCid, env.maxChainDepth, es, aud, childDl, caveats);
    DelegateStores(env, s, raw);
    PathInLarger(env.codec, s.credentials[cid := raw], later.credentials, cid, longer);
    assert longer[1..] == es;
    LongerChain(env.codec, later.credentials, cid, longer, c);
    ReconciledExactly(env, later, c, cid);
    WeightCons(longer[0], es);
  }

  lemma WeightCons(e: Element, es: seq<Element>)
    ensures TotalWeight([e] + es) == e.Weight() + TotalWeight(es) && ([e] + es)[1..] == es
  {
    assert ([e] + es)[1..] == es;
  }

  lemma DelegateStores(env: Env, s: State, raw: Bytes)
    ensures Step(env, s, Delegate(raw)).credentials == s.credentials[env.codec.cid(raw) := raw]
  {
    hide Build, RegisterAll;
  }

  /** Whether a stored path is resolved by a pass is a matter of its length and weight. */
  lemma LongerChain(codec: Codec, store: Store, cid: string, longer: seq<Element>, c: string)
    requires IsPath(codec, store, cid, longer) && longer != [] && c in CidsOf(longer[1..])
    ensures c != cid && cid in store
    ensures Resolves(codec, store, cid, c) <==>
            |longer| - 1 <= HARD_MAX_DEPTH && TotalWeight(longer) <= MAX_CHAIN_CAPS_CAVEATS
  {
    hide Build, IsPath, Fetch;
    PathDistinct(codec, store, cid, longer);
    PathStarts(codec, store, cid, longer);
    BuildsExactly(codec, store, cid, HARD_MAX_DEPTH, longer);
    var built := Build(codec, store, cid, HARD_MAX_DEPTH);
    if built.Ok? {
      BuildsExactly(codec, store, cid, HARD_MAX_DEPTH, built.value);
      PathUnique(codec, store, cid, built.value, longer);
    }
    var j :| 0 <= j < |longer[1..]| && longer[1..][j].cid == c;
    assert longer[j + 1].cid == c && CidsOf(longer)[j + 1] == c;
  }

  lemma PathStarts(codec: Codec, store: Store, cid: string, es: seq<Element>)
    requires IsPath(codec, store, cid, es) && es != []
    ensures es[0].cid == cid && cid in store
  {
    hide ParseElement;
  }
}
