/**
 * The assumptions the theorems make about hashing, signing and minting can be met, and
 * a delegated invocation can be accepted: nothing here is true for want of instances.
 */
module Consistency {
  import opened Wrappers
  import opened Acceptance
  import opened Chain
  import opened ChainPaths
  import opened Credential
  import opened Steps
  import opened Verifying = Verifier
  import Audit
  import Attenuation
  import Canonicalizer
  import Blocks
  import Cascading
  import Delegating
  import DelegationDepths = DelegationDepth
  import DidKey
  import Issuance
  import Pop
  import Revocation
  import Registration
  import Roots
  import Service
  import Text
  import Uri
  import UriCanonical
  import UriCovers
  import Utf8

  // ---- the assumptions ----

  /** A stand-in for a hash: the octets themselves, behind a letter. */
  function Spell(raw: Bytes): string { "c" + seq(|raw|, i requires 0 <= i < |raw| => raw[i] as char) }

  lemma SpellInjective(a: Bytes, b: Bytes)
    requires Spell(a) == Spell(b)
    ensures a == b
  {
    assert |Spell(a)| == |a| + 1 && |Spell(b)| == |b| + 1;
    forall i | 0 <= i < |a| ensures a[i] == b[i] {
      assert Spell(a)[i + 1] == a[i] as char && Spell(b)[i + 1] == b[i] as char;
    }
  }

  lemma HashesExist(codec: Codec)
    requires codec.cid == Spell
    ensures GoodHash(codec)
  {
    forall a, b | codec.cid(a) == codec.cid(b) ensures a == b { SpellInjective(a, b); }
  }

  lemma HashersExist()
    ensures exists h :: Audit.GoodHasher(h)
  {
    var h := Audit.Hasher(v => Canonicalizer.CanonicalBytes(v), b => Spell(b) + "padded to 12");
    forall a, b | h.digest(a) == h.digest(b) ensures a == b {
      var x, y := h.digest(a), h.digest(b);
      assert |x| == |Spell(a)| + 12 && |y| == |Spell(b)| + 12;
      assert x[..|x| - 12] == Spell(a) && y[..|y| - 12] == Spell(b);
      SpellInjective(a, b);
    }
    assert Audit.GoodHasher(h);
  }

  /** A key whose signatures verify over objects, and that verifies nothing over what cannot be signed. */
  lemma IssuersExist()
    ensures exists k: Issuance.Issuer ::
              Issuance.GoodIssuer(k) && forall v, sig | Canonicalizer.SignatureInput(v).None? :: !k.verify(v, sig)
  {
    var k := Issuance.Issuer(
      _ => "s", (v, _) => Canonicalizer.SignatureInput(v).Some?, v => Canonicalizer.CanonicalBytes(v));
    assert Issuance.GoodIssuer(k);
  }

  /** A platform key whose entries verify, against a check that refuses every unknown status and scope. */
  lemma SignersExist()
    ensures exists s: Cascading.Signer, v: Revocation.Verifier ::
              Cascading.GoodSigner(s, v)
              && forall e: Revocation.Entry | v.entryOk(e) :: Cascading.Permitted(e.scope, e.status)
  {
    var v := Revocation.Verifier((e: Revocation.Entry) => Cascading.Permitted(e.scope, e.status), (_, _) => true);
    var s := Cascading.Signer((subject, scope, status, origin, n) =>
      Revocation.Entry("adtp/rev/1", n, subject, scope, status,
                       Revocation.Auth("p", "platform_root", origin), 0, "", "s"));
    assert Cascading.GoodSigner(s, v);
  }

  // ---- one accepted invocation ----

  const RESOURCE := "t://h"
  const ROOT_RAW: Bytes := [0x00]
  const BLOCK_RAW: Bytes := [0x7B]

  const ROOT_TOKEN := Ucan("platform", "alice",
    [Capability("tool/invoke", RESOURCE, []), Capability(CAN_AGENT_DELEGATE, RESOURCE, [DelegationDepth(1)])],
    [], 1000, 0, 0, [], [], ROOT_RAW)

  const HOP := RestrictBlock(RESTRICT_BLOCK_TYP, "alice", "bob", Spell(ROOT_RAW), 0, 1000, 0,
    [ActionRestrict(Some(["tool/invoke"]))], [], "s")

  const CODEC := Codec(Spell, (raw: Bytes) => Some(ROOT_TOKEN), (raw: Bytes) => Some(HOP))

  const CONFIG := Config("verifier", {"platform"}, 10, 60, None, [], "", 0, false, CODEC,
    (did: string) => Some([]), (key: Bytes, e: Element) => true,
    Pop.Presenters((did: string) => Some([]), (key: Bytes, inv: Pop.Invocation) => true))

  const INPUTS := Inputs(map[Spell(ROOT_RAW) := ROOT_RAW, Spell(BLOCK_RAW) := BLOCK_RAW], None, None, None,
    100, 100, 100 * Pop.SECOND, 100 * Pop.SECOND, 100 * Pop.SECOND, 100)

  const INVOCATION := Pop.Invocation(Pop.INVOCATION_TYP, "bob", "verifier", 100, 400, "n", "", false, Spell(BLOCK_RAW),
    Pop.Request("tool/invoke", RESOURCE, map[]), "s")

  const CHAIN := [BlockElement(Spell(BLOCK_RAW), HOP), TokenElement(Spell(ROOT_RAW), ROOT_TOKEN)]

  lemma ResourceIsCanonical()
    ensures IsCanonicalUri(RESOURCE)
  {
    hide Uri.CanonicalizeURI;
    var p := UriCanonical.Parts("t", "h", None, "");
    assert p.Render() == RESOURCE;
    UriCanonical.CanonicalIsFixed(p);
  }

  lemma ResourceCoversItself()
    ensures UriCovers.URICovers(RESOURCE, RESOURCE)
  {
    hide Uri.CanonicalizeURI, UriCovers.URICovers;
    ResourceIsCanonical();
    UriCovers.CoversReflexive(RESOURCE);
  }

  lemma ResourceIsConcrete()
    ensures UriCovers.NoWildcard(RESOURCE)
  {
    hide Text.Split, Text.Join;
    var segs := Text.Split(RESOURCE, '/');
    Text.JoinOfSplit(RESOURCE, '/');
    if "*" in segs || "**" in segs { StarInJoin(segs); }
  }

  lemma {:induction false} StarInJoin(segs: seq<string>)
    requires |segs| > 0 && ("*" in segs || "**" in segs)
    ensures '*' in Text.Join(segs, '/')
  {
    if segs[0] == "*" || segs[0] == "**" {
      assert segs[0][0] == '*';
    } else {
      StarInJoin(segs[1..]);
    }
  }

  lemma RootIsNoBlock()
    ensures !LooksLikeBlock(ROOT_RAW)
  {
    Utf8.DecodeOfEncodeChar(0 as char, []);
    assert Utf8.EncodeChar(0 as char) + [] == ROOT_RAW;
  }

  lemma ElementsAreFetched()
    ensures Fetch(CODEC, INPUTS.store, Spell(BLOCK_RAW)) == Ok(CHAIN[0])
    ensures Fetch(CODEC, INPUTS.store, Spell(ROOT_RAW)) == Ok(CHAIN[1])
  {
    assert |Spell(ROOT_RAW)| == 2 && Spell(ROOT_RAW)[1] == 0 as char && Spell(BLOCK_RAW)[1] == '{';
    Utf8.DecodeOfEncodeChar('{', []);
    assert Utf8.EncodeChar('{') + [] == BLOCK_RAW;
    assert LooksLikeBlock(BLOCK_RAW);
    RootIsNoBlock();
  }

  lemma HopIsWellFormed()
    ensures WellFormed(CHAIN[0])
  {
    hide Uri.CanonicalizeURI, Constraint.Valid;
  }

  lemma RootIsWellFormed()
    ensures WellFormed(CHAIN[1])
  {
    hide Uri.CanonicalizeURI;
    ResourceIsCanonical();
    assert DelegationDepth(1).Valid();
    assert forall c | c in ROOT_TOKEN.att :: c == ROOT_TOKEN.att[0] || c == ROOT_TOKEN.att[1];
    assert ROOT_TOKEN.att[0].Valid() && ROOT_TOKEN.att[1].Valid();
  }

  lemma RootDepth()
    ensures CHAIN[1].DepthLeft() == Some(1)
  {
    var granted := Capability(CAN_AGENT_DELEGATE, RESOURCE, [DelegationDepth(1)]);
    assert DelegableDepth([granted]) == Some(1);
    assert ROOT_TOKEN.att[1..] == [granted];
    assert |ROOT_TOKEN.att[0].can| != |CAN_AGENT_DELEGATE|;
  }

  lemma HopNarrows()
    ensures Narrows(CHAIN[0], CHAIN[1])
  {
    hide DelegableDepth;
    RootDepth();
  }

  lemma ChainIsTimelyAndSigned()
    ensures forall e | e in CHAIN :: SignedByIssuer(CONFIG, e) && InWindow(e, 100, CONFIG.ClockSkew())
    ensures TrustedRoot(CONFIG, CHAIN) && TotalWeight(CHAIN) == 4
  {
    assert forall e | e in CHAIN :: e == CHAIN[0] || e == CHAIN[1];
    assert CHAIN[1..] == [CHAIN[1]] && CHAIN[1..][1..] == [];
    var granted := Capability(CAN_AGENT_DELEGATE, RESOURCE, [DelegationDepth(1)]);
    assert AttWeight([granted]) == 2;
    assert ROOT_TOKEN.att[1..] == [granted];
    assert TotalWeight([CHAIN[1]]) == 3;
  }

  lemma ChainIsGood()
    ensures GoodChain(CONFIG, INVOCATION, INPUTS, CHAIN)
  {
    hide IsPath, WellFormed, Narrows, SignedByIssuer, InWindow, TrustedRoot, TotalWeight;
    HopIsWellFormed();
    RootIsWellFormed();
    HopNarrows();
    ChainIsTimelyAndSigned();
    PathIs();
    assert forall e | e in CHAIN :: e == CHAIN[0] || e == CHAIN[1];
    assert |Spell(BLOCK_RAW)| == 2;
  }

  lemma PathIs()
    ensures IsPath(CODEC, INPUTS.store, Spell(BLOCK_RAW), CHAIN)
  {
    hide Fetch;
    ElementsAreFetched();
    assert CHAIN[1..] == [CHAIN[1]];
    assert IsPath(CODEC, INPUTS.store, Spell(ROOT_RAW), CHAIN[1..]);
  }

  lemma GrantIsMade()
    ensures Granted(CHAIN, InvocationContext(INVOCATION.request, 100, false))
  {
    hide UriCovers.NoWildcard, UriCovers.URICovers, Uri.CanonicalizeURI;
    ResourceCoversItself();
    ResourceIsConcrete();
    var ctx := InvocationContext(INVOCATION.request, 100, false);
    assert Attenuation.IsFirstMatch(ROOT_TOKEN.att, ctx.request, 0);
    CaveatPermits(ctx);
    assert forall c | c in HOP.cav :: c == HOP.cav[0];
    assert forall e | e in CHAIN :: e == CHAIN[0] || e == CHAIN[1];
  }

  lemma CaveatPermits(ctx: InvocationContext)
    requires ctx.request == INVOCATION.request
    ensures Permits(HOP.cav[0], ctx)
  {
    hide UriCovers.URICovers;
    assert ["tool/invoke"][0] == "tool/invoke";
  }

  const ROOT_CLAIMS := Roots.Claims("platform", "alice", ROOT_TOKEN.att, [], 1000, 0, 0)

  /** A platform whose tokens parse back, and which does make one. */
  lemma PlatformsExist()
    ensures exists platform: Roots.Platform ::
              GoodHash(CODEC) && Roots.GoodPlatform(platform, CODEC)
              && Roots.Token(platform, ROOT_CLAIMS) == Ok(ROOT_RAW)
  {
    hide Capability.Valid, LooksLikeBlock, Roots.FaithfulGrant;
    var platform := Roots.Platform("platform", Roots.PRIVATE_KEY_SIZE,
      (p: Roots.Claims) => if p == ROOT_CLAIMS then Some(ROOT_RAW) else None);
    HashesExist(CODEC);
    RootIsWellFormed();
    RootIsNoBlock();
    assert Roots.GoodPlatform(platform, CODEC);
  }

  /** A one-hop delegation exercised in time by its audience is accepted. */
  lemma SomeInvocationIsAccepted()
    ensures Accepts(CONFIG, INVOCATION, INPUTS, map[])
  {
    hide GoodChain, Granted, Accepts;
    ChainIsGood();
    GrantIsMade();
    assert Pop.Seconds(100 * Pop.SECOND) == 100;
    assert Legitimate(CONFIG, INVOCATION, INPUTS, map[], CHAIN);
    AcceptsExactly(CONFIG, INVOCATION, INPUTS, map[]);
  }

  // ---- credentials that are stored for nothing ----

  /** A well-formed agent identifier. */
  function SomeAgent(): string { DidKey.EncodeDid(seq(32, _ => 0)) }

  lemma AgentParses()
    ensures DidKey.ParseDid(SomeAgent()).Some?
  {
    hide DidKey.ParseDid, DidKey.EncodeDid;
    DidKey.EncodedParses(seq(32, _ => 0));
  }

  /** A grant of one capability with n constraints of depth d. */
  function Heavy(can: string, n: nat, d: nat): seq<Capability> {
    [Capability(can, RESOURCE, seq(n, _ => DelegationDepth(d)))]
  }

  lemma HeavyIsValid(can: string, n: nat, d: nat)
    requires can in KNOWN_ABILITIES
    ensures (forall c | c in Heavy(can, n, d) :: c.Valid()) && Roots.FaithfulGrant(Heavy(can, n, d))
    ensures AttWeight(Heavy(can, n, d)) == 1 + n
  {
    hide Uri.CanonicalizeURI;
    ResourceIsCanonical();
    assert Heavy(can, n, d)[1..] == [];
  }

  /** A platform, and a parser of its tokens, for one grant made at time 0. */
  function PlatformFor(att: seq<Capability>): Roots.Platform {
    Roots.Platform("platform", Roots.PRIVATE_KEY_SIZE,
                   (p: Roots.Claims) => if p == ClaimsFor(att) then Some(ROOT_RAW) else None)
  }

  function ClaimsFor(att: seq<Capability>): Roots.Claims {
    Roots.Claims("platform", SomeAgent(), att, [], 3600, 0, 0)
  }

  ghost function CodecFor(att: seq<Capability>): Codec {
    Codec(Spell, (raw: Bytes) => Some(Ucan("platform", SomeAgent(), att, [], 3600, 0, 0, [], [], raw)),
          (raw: Bytes) => Blocks.ParseRestrictBlock(raw))
  }

  ghost function EnvFor(att: seq<Capability>, v: Revocation.Verifier, s: Cascading.Signer): Service.Env {
    Service.Env(CodecFor(att), v, s, 0)
  }

  lemma GrantIsIssued(can: string, n: nat, d: nat)
    requires can in KNOWN_ABILITIES
    ensures var att := Heavy(can, n, d);
            && GoodHash(CodecFor(att)) && Roots.GoodPlatform(PlatformFor(att), CodecFor(att))
            && Issuance.ParsesBlocks(CodecFor(att))
            && Roots.IssueRequest(PlatformFor(att), _ => true, SomeAgent(), att, 3600, 0) == Ok(ROOT_RAW)
  {
    hide Capability.Valid, LooksLikeBlock, Roots.FaithfulGrant, DidKey.ParseDid, SomeAgent, Blocks.ParseRestrictBlock;
    var att := Heavy(can, n, d);
    HashesExist(CodecFor(att));
    AgentParses();
    AgentIsNamed();
    HeavyIsValid(can, n, d);
    RootIsNoBlock();
    assert Roots.GrantClaims(PlatformFor(att), SomeAgent(), att, 3600, 0) == ClaimsFor(att);
  }

  lemma AgentIsNamed()
    ensures SomeAgent() != ""
  {}

  /** A grant that weighs 1001 is issued, stored and registered, and no chain can be built on it. */
  lemma HeavyGrantNeverBuilds(v: Revocation.Verifier, s: Cascading.Signer)
    ensures var att := Heavy("tool/invoke", 1000, 0);
            var env := EnvFor(att, v, s);
            var request := Roots.IssueRequest(PlatformFor(att), _ => true, SomeAgent(), att, 3600, 0);
            && AttWeight(att) > MAX_CHAIN_CAPS_CAVEATS && request.Ok?
            && var after := Service.Step(env, Service.INITIAL, Service.Issue(request.value));
               var cid := env.codec.cid(request.value);
               && Registration.Has(after.index, cid, cid)
               && Build(env.codec, after.credentials, cid, env.maxChainDepth) == Err(ChainTooWide)
  {
    hide Heavy, PlatformFor, CodecFor, SomeAgent, Build, Roots.IssueRequest, Roots.GoodPlatform, GoodHash, AttWeight,
         Service.Step, Registration.Has;
    var att := Heavy("tool/invoke", 1000, 0);
    HeavyIsValid("tool/invoke", 1000, 0);
    GrantIsIssued("tool/invoke", 1000, 0);
    Roots.IssuedRoot(EnvFor(att, v, s), Service.INITIAL, PlatformFor(att), _ => true, SomeAgent(), att, 3600, 0);
  }

  // ---- a delegation that is stored for nothing ----

  /** A grant to delegate once that weighs 1000 and so leaves no room for a caveat. */
  const FULL: seq<Capability> := Heavy(CAN_AGENT_DELEGATE, 999, 1)

  /** The service after that grant. */
  ghost function FullState(v: Revocation.Verifier, s: Cascading.Signer): Service.State {
    Service.Step(EnvFor(FULL, v, s), Service.INITIAL, Service.Issue(ROOT_RAW))
  }

  ghost function FullRoot(v: Revocation.Verifier, s: Cascading.Signer): Result<seq<Element>, ChainError> {
    Build(CodecFor(FULL), FullState(v, s).credentials, Spell(ROOT_RAW), 0)
  }

  lemma FullRootBuilds(v: Revocation.Verifier, s: Cascading.Signer)
    ensures var built := FullRoot(v, s);
            && built.Ok? && |built.value| == 1 && TotalWeight(built.value) == 1000
            && Issuance.ParentOf(built.value[0])
               == Ok(DelegationParent(Spell(ROOT_RAW), SomeAgent(), built.value[0].Exp(), built.value[0].Nbf(), 1))
  {
    hide Heavy, PlatformFor, CodecFor, SomeAgent, Build, Roots.IssueRequest, Roots.GoodPlatform, GoodHash, AttWeight,
         Service.Step, Registration.Has, DelegableDepth, Step0Structural, Step2Linkage, Step5Temporal;
    HeavyIsValid(CAN_AGENT_DELEGATE, 999, 1);
    GrantIsIssued(CAN_AGENT_DELEGATE, 999, 1);
    CodecSpells();
    Roots.IssuedRoot(EnvFor(FULL, v, s), Service.INITIAL, PlatformFor(FULL), _ => true, SomeAgent(), FULL, 3600, 0);
    HeavyDepth();
    var built := FullRoot(v, s);
    BuiltStart(CodecFor(FULL), FullState(v, s).credentials, Spell(ROOT_RAW), 0);
    assert built.value[1..] == [];
  }

  lemma CodecSpells()
    ensures CodecFor(FULL).cid(ROOT_RAW) == Spell(ROOT_RAW)
  {}

  lemma BuiltStart(codec: Codec, store: Store, leaf: string, maxDepth: int)
    ensures var built := Build(codec, store, leaf, maxDepth);
            built.Ok? && |built.value| > 0 ==> built.value[0].cid == leaf
  {
    hide Build, IsPath;
    var built := Build(codec, store, leaf, maxDepth);
    if built.Ok? && |built.value| > 0 {
      BuildsExactly(codec, store, leaf, maxDepth, built.value);
      PathShape(codec, store, leaf, built.value);
    }
  }

  lemma HeavyDepth()
    ensures DelegableDepth(FULL) == Some(1)
  {
    hide Capability.Valid;
    var cs := FULL[0].constraints;
    assert cs[0] == DelegationDepth(1);
  }

  /**
   * One caveat put on that root makes a block that is stored and never registered: not when it is delegated, and not
   * by any pass, whatever happens before it.
   */
  lemma HeavyDelegationStaysUnregistered(v: Revocation.Verifier, s: Cascading.Signer, k: Issuance.Issuer,
                                         actions: seq<Service.Action>)
    requires Issuance.GoodIssuer(k) && Cascading.GoodSigner(s, v)
    ensures var env := EnvFor(FULL, v, s);
            && FullRoot(v, s).Ok? && FullRoot(v, s).value != [] && Issuance.ParentOf(FullRoot(v, s).value[0]).Ok?
            && var parent := Issuance.ParentOf(FullRoot(v, s).value[0]).value;
               var minted := Issuance.Mint(k, parent, "bob", 0, [DelegationDepths.CAVEAT]);
            && minted.Ok?
            && var after := Service.Step(env, FullState(v, s), Service.Delegate(minted.value.1));
               var cid := env.codec.cid(minted.value.1);
            && cid in after.credentials && after.index == FullState(v, s).index
            && var later := Service.Run(env, after, actions);
               cid !in Registration.Descendants(Service.Step(env, later, Service.Reconcile).index, Spell(ROOT_RAW))
  {
    hide Heavy, CodecFor, SomeAgent, Build, GoodHash, AttWeight, Service.Step, Service.Run, Registration.Descendants,
         TotalWeight, Issuance.Mint, Issuance.GoodIssuer, Cascading.GoodSigner, Issuance.ParsesBlocks, Service.Inv,
         FullState, FullRoot, Blocks.Readable, Issuance.ParentOf;
    var env := EnvFor(FULL, v, s);
    GrantIsIssued(CAN_AGENT_DELEGATE, 999, 1);
    FullRootBuilds(v, s);
    var es := FullRoot(v, s).value;
    CaveatMints(k, Issuance.ParentOf(es[0]).value);
    FullStateIsReached(v, s);
    Delegating.DelegationTakesEffect(env, FullState(v, s), k, Spell(ROOT_RAW), es, "bob", 0, [DelegationDepths.CAVEAT]);
    RootIsListed(es, v, s);
    Delegating.PassRegisters(env, FullState(v, s), k, Spell(ROOT_RAW), es, "bob", 0, [DelegationDepths.CAVEAT], actions,
                             Spell(ROOT_RAW));
  }

  lemma FullStateIsReached(v: Revocation.Verifier, s: Cascading.Signer)
    requires GoodHash(CodecFor(FULL))
    ensures Service.Inv(CodecFor(FULL), FullState(v, s))
    ensures Build(CodecFor(FULL), FullState(v, s).credentials, Spell(ROOT_RAW), 0) == FullRoot(v, s)
  {
    hide Service.Inv, Service.Step, GoodHash, CodecFor, Build;
    Service.InitialInv(CodecFor(FULL));
    Service.StepKeepsInv(EnvFor(FULL, v, s), Service.INITIAL, Service.Issue(ROOT_RAW));
  }

  lemma RootIsListed(es: seq<Element>, v: Revocation.Verifier, s: Cascading.Signer)
    requires |es| == 1 && Issuance.ParentOf(es[0]).Ok? && Issuance.ParentOf(es[0]).value.cid == Spell(ROOT_RAW)
    ensures Spell(ROOT_RAW) in Registration.CidsOf(es)
  {
    assert Registration.CidsOf(es)[0] == es[0].cid;
  }

  lemma CaveatMints(k: Issuance.Issuer, parent: DelegationParent)
    requires parent.cid == Spell(ROOT_RAW) && parent.aud == SomeAgent() && parent.dl == 1
    ensures Issuance.Mint(k, parent, "bob", 0, [DelegationDepths.CAVEAT]).Ok?
    ensures forall c | c in [DelegationDepths.CAVEAT] :: Blocks.Readable(c)
  {
    DelegationDepths.CaveatIsFine();
    AgentIsNamed();
    assert forall c | c in [DelegationDepths.CAVEAT] :: c == DelegationDepths.CAVEAT;
    assert |Spell(ROOT_RAW)| == 2;
  }
}
