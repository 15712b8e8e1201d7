/**
 * How far a root token can be delegated past the verifier, on stores that content-addressed
 * blocks can fill: with a delegation_depth exactly that far, and without one as far as the
 * limits of the walk allow.
 */
module DelegationDepth {
  import opened Wrappers
  import opened Attenuation
  import opened Blocks
  import opened Chain
  import opened ChainPaths
  import opened Credential
  import opened Issuance
  import opened Steps

  /** A caveat that any block may carry. */
  const CAVEAT := ActionRestrict(Some(["tool/invoke"]))

  lemma CaveatIsFine()
    ensures CAVEAT.Valid() && Readable(CAVEAT) && Faithful(CAVEAT) && Serializable(CAVEAT)
  {
    assert CAVEAT.actions.value[0] == "tool/invoke";
  }

  /** The signing key, the hash and the parser of the deployment. */
  ghost predicate Deployment(k: Issuer, codec: Codec) {
    GoodIssuer(k) && GoodHash(codec) && ParsesBlocks(codec)
  }

  /** A stored chain that passes steps 0 and 2, whose audience can sign. */
  ghost predicate Sound(codec: Codec, store: Store, es: seq<Element>) {
    && es != [] && Addressed(codec, store) && IsPath(codec, store, es[0].cid, es)
    && Step0Structural(es).None? && Step2Linkage(es).None?
  }

  /** A parent context that a holder of the leaf's key can put together without asking what it may delegate. */
  function Crafted(e: Element, dl: nat): DelegationParent {
    DelegationParent(e.cid, e.Aud(), e.Exp(), e.Nbf(), dl + 1)
  }

  lemma CraftedMints(k: Issuer, e: Element, dl: nat)
    requires e.cid != "" && e.Aud() != ""
    ensures Mint(k, Crafted(e, dl), e.Aud(), dl, [CAVEAT]).Ok?
  {
    CaveatIsFine();
    assert forall c | c in [CAVEAT] :: c == CAVEAT;
  }

  lemma CraftedLinks(k: Issuer, e: Element, dl: nat, cid: string)
    requires Mint(k, Crafted(e, dl), e.Aud(), dl, [CAVEAT]).Ok? && e.Exp() > 0
    requires e.DepthLeft().Some? ==> dl < e.DepthLeft().value
    ensures var hop := BlockElement(cid, Mint(k, Crafted(e, dl), e.Aud(), dl, [CAVEAT]).value.0);
            && LinkFault(hop, e).None? && WellFormed(hop) && hop.Aud() == e.Aud() && hop.Weight() == 1
            && hop.block.prf == e.cid && hop.DepthLeft() == Some(dl as int)
  {
    hide Mint, BlockFields, Constraint.Valid, Serializable;
    MintedBlock(k, Crafted(e, dl), e.Aud(), dl, [CAVEAT]);
  }

  /** One hop more, minted with the leaf's own key and put into the store. */
  lemma Grow(k: Issuer, codec: Codec, store: Store, es: seq<Element>, dl: nat) returns (larger: Store, hop: Element)
    requires Deployment(k, codec) && Sound(codec, store, es) && es[0].Aud() != ""
    requires es[0].DepthLeft().Some? ==> dl < es[0].DepthLeft().value
    ensures Extends(store, larger) && Sound(codec, larger, [hop] + es)
    ensures hop.BlockElement? && hop.DepthLeft() == Some(dl as int) && hop.Aud() == es[0].Aud() && hop.Weight() == 1
  {
    hide Mint, Stored, Constraint.Valid, Readable, Faithful, WellFormed, Step2Linkage, GoodIssuer, GoodHash,
         ParsesBlocks, Fetch, IsPath, LinkFault, Element.DepthLeft, Addressed, Extends;
    PathIsFoundStep(codec, store, es[0].cid, es);
    CaveatIsFine();
    CraftedMints(k, es[0], dl);
    var (b, raw) := Mint(k, Crafted(es[0], dl), es[0].Aud(), dl, [CAVEAT]).value;
    var cid := codec.cid(raw);
    larger, hop := store[cid := raw], BlockElement(cid, b);
    assert es[0] in es;
    ExpiryIsSet(es[0]);
    CraftedLinks(k, es[0], dl, cid);
    PutExtends(codec, store, raw);
    assert forall c | c in [CAVEAT] :: c == CAVEAT;
    StoredAsMinted(k, Crafted(es[0], dl), es[0].Aud(), dl, [CAVEAT]);
    MintedIsFetched(k, codec, store, Crafted(es[0], dl), es[0].Aud(), dl, [CAVEAT]);
    PathInLarger(codec, store, larger, es[0].cid, es);
    PathCons(codec, larger, hop, es);
    LinkageCons(hop, es);
    assert forall e | e in [hop] + es :: e == hop || e in es;
  }

  lemma ExpiryIsSet(e: Element)
    requires WellFormed(e)
    ensures e.Exp() > 0
  {}

  /** n - i hops over a root, counting down so that the leaf has depth-left i. */
  lemma {:induction false} Stack(k: Issuer, codec: Codec, store: Store, root: Element, n: nat, i: nat)
    returns (larger: Store, es: seq<Element>)
    requires Deployment(k, codec) && Sound(codec, store, [root]) && i <= n
    requires n > 0 ==> root.Aud() != ""
    requires root.DepthLeft().Some? ==> n <= root.DepthLeft().value
    ensures Extends(store, larger) && Sound(codec, larger, es) && |es| == n - i + 1 && Root(es) == root
    ensures TotalWeight(es) == root.Weight() + n - i
    ensures es[0].Aud() == root.Aud() && (if i < n then es[0].DepthLeft() == Some(i as int) else es == [root])
    decreases n - i
  {
    hide Sound, Deployment, Element.DepthLeft;
    if i == n {
      larger, es := store, [root];
      assert TotalWeight([root]) == root.Weight() + TotalWeight([root][1..]);
    } else {
      var middle, above := Stack(k, codec, store, root, n, i + 1);
      var hop: Element;
      larger, hop := Grow(k, codec, middle, above, i);
      es := [hop] + above;
      assert es[1..] == above;
    }
  }

  /** A stored root, ready to be delegated from. */
  ghost predicate RootAt(codec: Codec, store: Store, root: Element) {
    Addressed(codec, store) && root.IsRoot() && WellFormed(root) && Fetch(codec, store, root.cid) == Ok(root)
  }

  lemma RootIsSound(codec: Codec, store: Store, root: Element)
    requires RootAt(codec, store, root)
    ensures Sound(codec, store, [root])
  {
    hide WellFormed, Fetch;
  }

  lemma {:induction false} WeightAtLeast(es: seq<Element>)
    requires es != [] && Step0Structural(es).None? && forall i | 0 <= i < |es| - 1 :: es[i].BlockElement?
    ensures TotalWeight(es) >= Root(es).Weight() + |es| - 1
  {
    assert WellFormed(es[0]);
    hide WellFormed;
    if |es| > 1 {
      assert Root(es[1..]) == Root(es);
      assert forall e | e in es[1..] :: e in es;
      assert forall i | 0 <= i < |es| - 2 :: es[1..][i] == es[i + 1];
      WeightAtLeast(es[1..]);
    } else {
      assert es[1..] == [] && TotalWeight([]) == 0;
    }
  }

  /** A block that was fetched names an issuer. */
  lemma FetchedHasIssuer(codec: Codec, store: Store, e: Element)
    requires ParsesBlocks(codec) && e.BlockElement? && Fetch(codec, store, e.cid) == Ok(e)
    ensures e.Iss() != ""
  {
    hide DecodeBlock, BlockBytes;
  }

  /** The hop right below a root is issued by the root's audience, which therefore has a name. */
  lemma DelegatedRootHasAudience(codec: Codec, store: Store, leaf: string, es: seq<Element>)
    requires ParsesBlocks(codec) && IsPath(codec, store, leaf, es) && Step2Linkage(es).None? && |es| > 1
    requires es[|es| - 2].BlockElement?
    ensures Root(es).Aud() != ""
  {
    hide Fetch, ParsesBlocks;
    var n := |es| - 2;
    PathSuffix(codec, store, leaf, es, n);
    assert es[n..][0] == es[n] && es[n..][1] == es[n + 1];
    FetchedHasIssuer(codec, store, es[n]);
    LinkageSuffix(es, n);
    assert LinkFault(es[n], es[n + 1]).None?;
  }

  /** Some addressed store that extends the given one holds a chain of the given number of hops over the root. */
  ghost predicate CanReach(codec: Codec, store: Store, root: Element, maxDepth: int, hops: nat) {
    exists larger: Store, leaf: string, es: seq<Element> ::
      && Extends(store, larger) && Addressed(codec, larger)
      && Build(codec, larger, leaf, maxDepth) == Ok(es) && |es| == hops + 1 && Root(es) == root
      && Step0Structural(es).None? && Step2Linkage(es).None?
  }

  lemma ReachIsBounded(codec: Codec, store: Store, root: Element, maxDepth: int, hops: nat)
    requires ParsesBlocks(codec) && RootAt(codec, store, root) && CanReach(codec, store, root, maxDepth, hops)
    ensures hops <= ClampDepth(maxDepth) && root.Weight() + hops <= MAX_CHAIN_CAPS_CAVEATS
    ensures hops > 0 ==> root.Aud() != ""
    ensures root.DepthLeft().Some? ==> hops <= root.DepthLeft().value
  {
    hide Build, IsPath, ClampDepth, Step0Structural, Step2Linkage, Fetch, ParsesBlocks, WellFormed, Addressed, Extends,
         Element.DepthLeft;
    var larger: Store, leaf: string, es: seq<Element> :|
      && Extends(store, larger) && Addressed(codec, larger)
      && Build(codec, larger, leaf, maxDepth) == Ok(es) && |es| == hops + 1 && Root(es) == root
      && Step0Structural(es).None? && Step2Linkage(es).None?;
    BuildsExactly(codec, larger, leaf, maxDepth, es);
    BuiltShape(codec, larger, leaf, maxDepth, es);
    WeightAtLeast(es);
    if hops > 0 { DelegatedRootHasAudience(codec, larger, leaf, es); }
    if root.DepthLeft().Some? { DepthBound(es, root.DepthLeft().value); }
  }

  /**
   * Exactly how many hops a stored root allows: the cap and the weight limit bound them, a root without
   * an audience allows none, and its delegation_depth bounds them when it has one. Without one nothing
   * else does, although issuance refuses to delegate from such a root at all.
   */
  lemma HopsExactly(k: Issuer, codec: Codec, store: Store, root: Element, maxDepth: int, hops: nat)
    requires Deployment(k, codec) && RootAt(codec, store, root)
    ensures CanReach(codec, store, root, maxDepth, hops) <==>
            && hops <= ClampDepth(maxDepth) && root.Weight() + hops <= MAX_CHAIN_CAPS_CAVEATS
            && (hops > 0 ==> root.Aud() != "")
            && (root.DepthLeft().Some? ==> hops <= root.DepthLeft().value)
  {
    hide Build, IsPath, ClampDepth, Step0Structural, Step2Linkage, Fetch, WellFormed, Addressed, Extends,
         Element.DepthLeft, GoodIssuer, GoodHash, ParsesBlocks, TotalWeight;
    if CanReach(codec, store, root, maxDepth, hops) {
      ReachIsBounded(codec, store, root, maxDepth, hops);
    }
    if && hops <= ClampDepth(maxDepth) && root.Weight() + hops <= MAX_CHAIN_CAPS_CAVEATS
       && (hops > 0 ==> root.Aud() != "")
       && (root.DepthLeft().Some? ==> hops <= root.DepthLeft().value) {
      RootIsSound(codec, store, root);
      var larger, es := Stack(k, codec, store, root, hops, 0);
      BuildsExactly(codec, larger, es[0].cid, maxDepth, es);
      assert CanReach(codec, store, root, maxDepth, hops);
    }
  }

  /** A helper for comparison: issuance, for its part, refuses to delegate from a root without a delegation_depth. */
  lemma IssuanceRefuses(root: Element)
    requires root.TokenElement?
    ensures ParentOf(root).Err? <==> root.DepthLeft().None?
  {}
}
