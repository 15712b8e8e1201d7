/**
 * Issuing delegations: what a minted block is, that it parses back to itself, and that
 * it extends the chain it was minted from.
 */
module Issuance {
  import opened Wrappers
  import opened Credential
  import opened Chain
  import opened ChainPaths
  import opened Steps
  import opened Blocks
  import Canonicalizer
  import Jcs
  import Utf8

  datatype MintError =
    | MissingField
    | NoCaveats
    | TooManyCaveats
    | DepthNotReduced
    | NegativeDepth
    | InvalidCaveat
    | Unserializable
    | CannotDelegate
    | DepthExhausted

  /** A signing key with its serializer: signatures are made over, and checked against, JSON objects. */
  datatype Issuer = Issuer(
    sign: Jcs.Value -> string, verify: (Jcs.Value, string) -> bool, canonical: Jcs.Value -> Bytes)

  /** Signatures of objects are text, verify, and depend on the signing input alone. */
  ghost predicate GoodIssuer(k: Issuer) {
    && (forall v :: k.canonical(v) == Canonicalizer.CanonicalBytes(v))
    && (forall v: Jcs.Value | v.Obj? :: k.sign(v) != "" && k.verify(v, k.sign(v)))
    && (forall v, w, s | Canonicalizer.SignatureInput(v) == Canonicalizer.SignatureInput(w) ::
          k.verify(v, s) == k.verify(w, s))
  }

  // ---- parents ----

  /** The delegation context of a root token; without a delegation_depth it may not delegate. */
  function ParentFromUcan(u: Ucan, cid: string): Result<DelegationParent, MintError> {
    match DelegableDepth(u.att)
    case None => Err(CannotDelegate)
    case Some(depth) => Ok(DelegationParent(cid, u.aud, u.exp, u.nbf, depth))
  }

  function ParentFromBlock(b: RestrictBlock, cid: string): DelegationParent {
    DelegationParent(cid, b.aud, b.exp, b.nbf, b.dl)
  }

  function ParentOf(e: Element): Result<DelegationParent, MintError> {
    match e
    case TokenElement(cid, u) => ParentFromUcan(u, cid)
    case BlockElement(cid, b) => Ok(ParentFromBlock(b, cid))
  }

  // ---- minting ----

  function MintRefusal(parent: DelegationParent, aud: string, childDl: int, caveats: seq<Constraint>)
    : Option<MintError>
  {
    if parent.cid == "" || parent.aud == "" || aud == "" then Some(MissingField)
    else if caveats == [] then Some(NoCaveats)
    else if |caveats| > MAX_CAVEATS_PER_BLOCK then Some(TooManyCaveats)
    else if childDl >= parent.dl then Some(DepthNotReduced)
    else if childDl < 0 then Some(NegativeDepth)
    else if exists c | c in caveats :: !c.Valid() then Some(InvalidCaveat)
    else if exists c | c in caveats :: !Serializable(c) then Some(Unserializable)
    else None
  }

  /** The block before it is signed: the parent's audience issues, and the window is inherited whole. */
  function Unsigned(parent: DelegationParent, aud: string, childDl: int, caveats: seq<Constraint>): RestrictBlock {
    RestrictBlock(RESTRICT_BLOCK_TYP, parent.aud, aud, parent.cid, parent.nbf, parent.exp, childDl, caveats, [], "")
  }

  function Mint(k: Issuer, parent: DelegationParent, aud: string, childDl: int, caveats: seq<Constraint>)
    : Result<(RestrictBlock, Bytes), MintError>
  {
    match MintRefusal(parent, aud, childDl, caveats)
    case Some(e) => Err(e)
    case None =>
      var unsigned := Unsigned(parent, aud, childDl, caveats);
      var block := unsigned.(sig := k.sign(Jcs.Obj(BlockFields(unsigned))));
      Ok((block, k.canonical(Jcs.Obj(BlockFields(block)))))
  }

  /** Minting as it runs: the checks in order, then the block, then its signature. */
  method CreateRestrictBlock(k: Issuer, parent: DelegationParent, aud: string, childDl: int, caveats: seq<Constraint>)
    returns (r: Result<(RestrictBlock, Bytes), MintError>)
    ensures r == Mint(k, parent, aud, childDl, caveats)
  {
    hide BlockFields, Constraint.Valid, Serializable;
    if parent.cid == "" || parent.aud == "" { return Err(MissingField); }
    if aud == "" { return Err(MissingField); }
    if |caveats| == 0 { return Err(NoCaveats); }
    if |caveats| > MAX_CAVEATS_PER_BLOCK { return Err(TooManyCaveats); }
    if childDl >= parent.dl { return Err(DepthNotReduced); }
    if childDl < 0 { return Err(NegativeDepth); }
    for i := 0 to |caveats|
      invariant forall j | 0 <= j < i :: caveats[j].Valid()
    {
      if !caveats[i].Valid() { return Err(InvalidCaveat); }
    }
    if exists c | c in caveats :: !Serializable(c) { return Err(Unserializable); }
    var block := Unsigned(parent, aud, childDl, caveats);
    block := block.(sig := k.sign(Jcs.Obj(BlockFields(block))));
    return Ok((block, k.canonical(Jcs.Obj(BlockFields(block)))));
  }

  /** Delegation proper, which also refuses an exhausted parent up front, and stores what it mints. */
  method DelegateRestrict(k: Issuer, codec: Codec, parent: DelegationParent, aud: string, childDl: int,
                          caveats: seq<Constraint>, store: MemoryProofStore)
    returns (r: Result<(RestrictBlock, string), MintError>)
    modifies store
    ensures parent.dl <= 0 ==> r == Err(DepthExhausted) && store.m == old(store.m)
    ensures parent.dl > 0 ==>
              match Mint(k, parent, aud, childDl, caveats)
              case Err(e) => r == Err(e) && store.m == old(store.m)
              case Ok((b, raw)) => r == Ok((b, codec.cid(raw))) && store.m == old(store.m)[codec.cid(raw) := raw]
  {
    hide Mint;
    if parent.dl <= 0 { return Err(DepthExhausted); }
    var minted := CreateRestrictBlock(k, parent, aud, childDl, caveats);
    match minted
    case Err(e) => return Err(e);
    case Ok((b, raw)) =>
      var cid := store.Put(codec, raw);
      return Ok((b, cid));
  }

  /** Caveats other than raw payloads are their own canonical form. */
  lemma ModelledAreFaithful(c: Constraint)
    requires !c.Raw? && !c.ParameterSchema?
    ensures Faithful(c) && Serializable(c)
  {}

  lemma MintedBlock(k: Issuer, parent: DelegationParent, aud: string, childDl: int, caveats: seq<Constraint>)
    requires Mint(k, parent, aud, childDl, caveats).Ok?
    ensures var (b, raw) := Mint(k, parent, aud, childDl, caveats).value;
            && MintRefusal(parent, aud, childDl, caveats).None?
            && SerializableBlock(b) && SerializableBlock(b.(sig := ""))
            && b == Unsigned(parent, aud, childDl, caveats).(sig := b.sig)
            && b.sig == k.sign(Jcs.Obj(BlockFields(b.(sig := ""))))
            && raw == k.canonical(Jcs.Obj(BlockFields(b)))
  {
    hide BlockFields, Constraint.Valid, Serializable;
  }

  /** A minted block parses back to itself if and only if the payloads it carries are canonical. */
  lemma MintParses(k: Issuer, parent: DelegationParent, aud: string, childDl: int, caveats: seq<Constraint>)
    requires GoodIssuer(k) && Mint(k, parent, aud, childDl, caveats).Ok?
    ensures var (b, raw) := Mint(k, parent, aud, childDl, caveats).value;
            ParseRestrictBlock(raw) == Some(b) <==> forall c | c in caveats :: Faithful(c)
  {
    hide Mint, BlockFields, Constraint.Valid, Serializable, Faithful, ParseRestrictBlock, Canonicalizer.CanonicalBytes;
    MintedBlock(k, parent, aud, childDl, caveats);
    var (b, raw) := Mint(k, parent, aud, childDl, caveats).value;
    ParsesExactly(raw, b);
  }

  /** In any case, as long as payloads say the types they have, it parses to itself with payloads made canonical. */
  lemma MintSettles(k: Issuer, parent: DelegationParent, aud: string, childDl: int, caveats: seq<Constraint>)
    requires GoodIssuer(k) && Mint(k, parent, aud, childDl, caveats).Ok?
    requires forall c | c in caveats :: Readable(c)
    ensures var (b, raw) := Mint(k, parent, aud, childDl, caveats).value;
            && SerializableBlock(b) && ParseRestrictBlock(raw) == Some(SettledBlock(b))
            && SerializableBlock(SettledBlock(b)) && k.verify(Jcs.Obj(BlockFields(SettledBlock(b))), b.sig)
  {
    hide Mint, BlockFields, Constraint.Valid, Serializable, Readable, Faithful, ParseRestrictBlock, Settled,
         Canonicalizer.CanonicalBytes;
    MintedBlock(k, parent, aud, childDl, caveats);
    MintVerifies(k, parent, aud, childDl, caveats);
    var (b, raw) := Mint(k, parent, aud, childDl, caveats).value;
    SettledIsSame(b);
    ParsesExactly(raw, SettledBlock(b));
  }

  /** So does every block minted with caveats of the eight kinds that carry no raw payload. */
  lemma ModelledMintParses(k: Issuer, parent: DelegationParent, aud: string, childDl: int, caveats: seq<Constraint>)
    requires GoodIssuer(k) && Mint(k, parent, aud, childDl, caveats).Ok?
    requires forall c | c in caveats :: !c.Raw? && !c.ParameterSchema?
    ensures ParseRestrictBlock(Mint(k, parent, aud, childDl, caveats).value.1)
            == Some(Mint(k, parent, aud, childDl, caveats).value.0)
  {
    hide Mint, ParseRestrictBlock, GoodIssuer;
    hide Faithful;
    forall c | c in caveats ensures Faithful(c) { ModelledAreFaithful(c); }
    MintParses(k, parent, aud, childDl, caveats);
  }

  /** The signature of a minted block verifies over the block that carries it. */
  lemma MintVerifies(k: Issuer, parent: DelegationParent, aud: string, childDl: int, caveats: seq<Constraint>)
    requires GoodIssuer(k) && Mint(k, parent, aud, childDl, caveats).Ok?
    ensures var (b, _) := Mint(k, parent, aud, childDl, caveats).value;
            SerializableBlock(b) && k.verify(Jcs.Obj(BlockFields(b)), b.sig)
  {
    hide Mint, BlockFields, Constraint.Valid, Serializable, Canonicalizer.SignatureInput;
    MintedBlock(k, parent, aud, childDl, caveats);
    var (b, raw) := Mint(k, parent, aud, childDl, caveats).value;
    SignatureOutside(b, "");
    Canonicalizer.SignatureInputBinds(BlockFields(b), BlockFields(b.(sig := "")));
  }

  /** Changing the signature of a block changes nothing else of its object. */
  lemma SignatureOutside(b: RestrictBlock, sig: string)
    requires SerializableBlock(b) && SerializableBlock(b.(sig := sig))
    ensures var m, n := BlockFields(b), BlockFields(b.(sig := sig));
            forall k | k != "sig" :: (k in m <==> k in n) && (k in m ==> m[k] == n[k])
  {
    hide Serializable, CaveatsValue, StrList;
  }

  // ---- linkage as issuance states it ----

  /** What a block must satisfy relative to its parent. */
  predicate ValidAgainstParent(b: RestrictBlock, parent: DelegationParent) {
    && b.iss == parent.aud && b.prf == parent.cid
    && b.exp <= parent.exp && b.nbf >= parent.nbf
    && b.dl < parent.dl && b.cav != []
  }

  /**
   * A helper that sets two definitions side by side: the block's own check against its parent agrees with the
   * linkage of step 2, but for two things step 2 and step 0 look at as well, the sign of the depth and the
   * presence of caveats.
   */
  lemma ParentCheckIsLinkage(cid: string, b: RestrictBlock, e: Element)
    requires ParentOf(e).Ok?
    ensures ValidAgainstParent(b, ParentOf(e).value) && b.dl >= 0 <==>
            LinkFault(BlockElement(cid, b), e).None? && b.cav != []
  {}

  /** What a mint stores: the block, with canonical payloads. */
  ghost function Stored(k: Issuer, parent: DelegationParent, aud: string, childDl: int, caveats: seq<Constraint>)
    : RestrictBlock
    requires Mint(k, parent, aud, childDl, caveats).Ok?
  {
    MintedBlock(k, parent, aud, childDl, caveats);
    SettledBlock(Mint(k, parent, aud, childDl, caveats).value.0)
  }

  /** What a stored block keeps of its minting. */
  lemma StoredBlock(k: Issuer, parent: DelegationParent, aud: string, childDl: int, caveats: seq<Constraint>)
    requires Mint(k, parent, aud, childDl, caveats).Ok?
    ensures var b := Stored(k, parent, aud, childDl, caveats);
            && b == Unsigned(parent, aud, childDl, b.cav).(sig := b.sig)
            && |b.cav| == |caveats|
            && forall i | 0 <= i < |caveats| :: Serializable(caveats[i]) && b.cav[i] == Settled(caveats[i])
  {
    hide Mint, BlockFields, Constraint.Valid, Serializable, Settled;
    MintedBlock(k, parent, aud, childDl, caveats);
  }

  /** Blocks with canonical payloads are stored as they are minted. */
  lemma StoredAsMinted(k: Issuer, parent: DelegationParent, aud: string, childDl: int, caveats: seq<Constraint>)
    requires Mint(k, parent, aud, childDl, caveats).Ok? && forall c | c in caveats :: Faithful(c)
    ensures Stored(k, parent, aud, childDl, caveats) == Mint(k, parent, aud, childDl, caveats).value.0
  {
    hide Mint, Readable, Serializable, Settled;
    MintedBlock(k, parent, aud, childDl, caveats);
    FaithfulIsSettled(Mint(k, parent, aud, childDl, caveats).value.0);
  }

  // ---- minting extends chains ----

  /**
   * A block minted from the head of a chain that passes steps 0 and 2 makes a longer chain that does, as it was
   * minted and as it is stored.
   */
  lemma MintExtends(k: Issuer, es: seq<Element>, aud: string, childDl: int, caveats: seq<Constraint>, cid: string)
    requires es != [] && Step0Structural(es).None? && Step2Linkage(es).None? && ParentOf(es[0]).Ok?
    requires Mint(k, ParentOf(es[0]).value, aud, childDl, caveats).Ok?
    ensures var parent := ParentOf(es[0]).value;
            forall b
              | b == Mint(k, parent, aud, childDl, caveats).value.0 || b == Stored(k, parent, aud, childDl, caveats) ::
              Step0Structural([BlockElement(cid, b)] + es).None? && Step2Linkage([BlockElement(cid, b)] + es).None?
  {
    hide Mint, Stored, BlockFields, Constraint.Valid, Capability.Valid, Serializable, Settled, Step2Linkage,
         Step0Structural;
    var parent := ParentOf(es[0]).value;
    MintedBlock(k, parent, aud, childDl, caveats);
    StoredBlock(k, parent, aud, childDl, caveats);
    UnsignedExtends(es, aud, childDl, caveats, Mint(k, parent, aud, childDl, caveats).value.0, cid);
    UnsignedExtends(es, aud, childDl, caveats, Stored(k, parent, aud, childDl, caveats), cid);
  }

  lemma UnsignedExtends(es: seq<Element>, aud: string, childDl: int, caveats: seq<Constraint>, b: RestrictBlock,
                        cid: string)
    requires es != [] && Step0Structural(es).None? && Step2Linkage(es).None? && ParentOf(es[0]).Ok?
    requires MintRefusal(ParentOf(es[0]).value, aud, childDl, caveats).None?
    requires b == Unsigned(ParentOf(es[0]).value, aud, childDl, b.cav).(sig := b.sig) && |b.cav| == |caveats|
    ensures Step0Structural([BlockElement(cid, b)] + es).None? && Step2Linkage([BlockElement(cid, b)] + es).None?
  {
    hide Constraint.Valid, Capability.Valid, Serializable, Step2Linkage;
    var hop := BlockElement(cid, b);
    assert WellFormed(es[0]);
    assert WellFormed(hop) && LinkFault(hop, es[0]).None?;
    LinkageCons(hop, es);
    assert forall e | e in [hop] + es :: e == hop || e in es;
  }

  lemma LinkageCons(hop: Element, es: seq<Element>)
    requires es != [] && Step2Linkage(es).None? && LinkFault(hop, es[0]).None?
    ensures Step2Linkage([hop] + es).None?
  {
    hide LinkFault;
    assert ([hop] + es)[1..] == es;
  }

  /** Blocks are parsed by the parser of this model. */
  ghost predicate ParsesBlocks(codec: Codec) {
    forall raw :: codec.parseBlock(raw) == ParseRestrictBlock(raw)
  }

  lemma ObjectOpens(fields: map<string, Jcs.Value>)
    ensures LooksLikeBlock(Canonicalizer.CanonicalBytes(Jcs.Obj(fields)))
  {
    var text := Jcs.Print(Jcs.Obj(fields));
    assert text != "" && text[0] == '{';
    assert Utf8.Encode(text) == Utf8.EncodeChar('{') + Utf8.Encode(text[1..]);
    assert Utf8.EncodeChar('{') == [0x7B];
    Utf8.DecodeOfEncodeChar('{', Utf8.Encode(text[1..]));
  }

  /** A minted block, once stored, is fetched as the hop it was minted to be. */
  lemma MintedIsFetched(k: Issuer, codec: Codec, store: Store, parent: DelegationParent, aud: string, childDl: int,
                        caveats: seq<Constraint>)
    requires GoodIssuer(k) && GoodHash(codec) && ParsesBlocks(codec)
    requires Mint(k, parent, aud, childDl, caveats).Ok? && forall c | c in caveats :: Readable(c)
    ensures var raw := Mint(k, parent, aud, childDl, caveats).value.1;
            var cid := codec.cid(raw);
            Fetch(codec, store[cid := raw], cid) == Ok(BlockElement(cid, Stored(k, parent, aud, childDl, caveats)))
  {
    hide Mint, BlockFields, Constraint.Valid, Serializable, Readable, ParseRestrictBlock, Canonicalizer.CanonicalBytes,
         LooksLikeBlock, SettledBlock;
    MintedBlock(k, parent, aud, childDl, caveats);
    MintSettles(k, parent, aud, childDl, caveats);
    var (b, raw) := Mint(k, parent, aud, childDl, caveats).value;
    ObjectOpens(BlockFields(b));
  }

  /** The prf path of a stored minted block is its parent's, with itself in front. */
  lemma MintedPath(k: Issuer, codec: Codec, store: Store, leaf: string, maxDepth: int, es: seq<Element>,
                   aud: string, childDl: int, caveats: seq<Constraint>)
    requires GoodIssuer(k) && GoodHash(codec) && ParsesBlocks(codec) && Addressed(codec, store)
    requires Build(codec, store, leaf, maxDepth) == Ok(es) && es != [] && ParentOf(es[0]).Ok?
    requires Mint(k, ParentOf(es[0]).value, aud, childDl, caveats).Ok? && forall c | c in caveats :: Readable(c)
    ensures var raw := Mint(k, ParentOf(es[0]).value, aud, childDl, caveats).value.1;
            var cid, b := codec.cid(raw), Stored(k, ParentOf(es[0]).value, aud, childDl, caveats);
            IsPath(codec, store[cid := raw], cid, [BlockElement(cid, b)] + es) && |b.cav| == |caveats|
  {
    hide Mint, Serializable, Readable, Stored, ParseRestrictBlock, Build, Fetch, IsPath, Extends, Addressed;
    var parent := ParentOf(es[0]).value;
    StoredBlock(k, parent, aud, childDl, caveats);
    MintedIsFetched(k, codec, store, parent, aud, childDl, caveats);
    var raw := Mint(k, parent, aud, childDl, caveats).value.1;
    var cid := codec.cid(raw);
    PutExtends(codec, store, raw);
    BuildsExactly(codec, store, leaf, maxDepth, es);
    PathInLarger(codec, store, store[cid := raw], leaf, es);
    PathStart(codec, store, leaf, es);
    PathCons(codec, store[cid := raw], BlockElement(cid, Stored(k, parent, aud, childDl, caveats)), es);
  }

  /**
   * Issuance agrees with verification: a block minted from the head of a built chain and stored
   * has that chain, with itself in front, as its own: exactly when depth and weight leave room.
   */
  lemma MintedChain(k: Issuer, codec: Codec, store: Store, leaf: string, maxDepth: int, es: seq<Element>,
                    aud: string, childDl: int, caveats: seq<Constraint>)
    requires GoodIssuer(k) && GoodHash(codec) && ParsesBlocks(codec) && Addressed(codec, store)
    requires Build(codec, store, leaf, maxDepth) == Ok(es) && es != [] && ParentOf(es[0]).Ok?
    requires Mint(k, ParentOf(es[0]).value, aud, childDl, caveats).Ok? && forall c | c in caveats :: Readable(c)
    ensures var raw := Mint(k, ParentOf(es[0]).value, aud, childDl, caveats).value.1;
            var cid, b := codec.cid(raw), Stored(k, ParentOf(es[0]).value, aud, childDl, caveats);
            var longer := [BlockElement(cid, b)] + es;
            && (Build(codec, store[cid := raw], cid, maxDepth).Ok? <==>
                |es| <= ClampDepth(maxDepth) && TotalWeight(es) + |caveats| <= MAX_CHAIN_CAPS_CAVEATS)
            && (Build(codec, store[cid := raw], cid, maxDepth).Ok? ==>
                Build(codec, store[cid := raw], cid, maxDepth) == Ok(longer))
  {
    hide Mint, Readable, Stored, ParsesBlocks, GoodIssuer, GoodHash, Build, Fetch, IsPath, ClampDepth, Addressed,
         ParentOf;
    var raw := Mint(k, ParentOf(es[0]).value, aud, childDl, caveats).value.1;
    var cid := codec.cid(raw);
    var longer := [BlockElement(cid, Stored(k, ParentOf(es[0]).value, aud, childDl, caveats))] + es;
    MintedPath(k, codec, store, leaf, maxDepth, es, aud, childDl, caveats);
    assert longer[1..] == es;
    BuildsExactly(codec, store[cid := raw], cid, maxDepth, longer);
    var built := Build(codec, store[cid := raw], cid, maxDepth);
    if built.Ok? {
      BuildsExactly(codec, store[cid := raw], cid, maxDepth, built.value);
      PathUnique(codec, store[cid := raw], cid, built.value, longer);
    }
  }

  lemma PathStart(codec: Codec, store: Store, leaf: string, es: seq<Element>)
    requires IsPath(codec, store, leaf, es)
    ensures es[0].cid == leaf
  {
    PathShape(codec, store, leaf, es);
  }

  lemma PathCons(codec: Codec, store: Store, hop: Element, es: seq<Element>)
    requires es != [] && hop.BlockElement? && hop.block.prf == es[0].cid && IsPath(codec, store, es[0].cid, es)
    requires Fetch(codec, store, hop.cid) == Ok(hop)
    ensures IsPath(codec, store, hop.cid, [hop] + es)
  {
    hide Fetch;
    assert ([hop] + es)[1..] == es;
  }
}
