/**
 * The steps of verification as checks on a built chain. Each step gives the first
 * violation it finds, as a step number and a code.
 */
module Steps {
  import opened Wrappers
  import opened Credential
  import opened Chain
  import Pop
  import Revocation
  import UriCovers

  datatype Code =
    | CodeSigInvalid
    | CodeExpired
    | CodeNotYetValid
    | CodeRevoked
    | CodeSuspended
    | CodeCompromised
    | CodeCapInsufficient
    | CodeAttenuation
    | CodeChainBroken
    | CodeChainTooDeep
    | CodeCircular
    | CodeUntrustedRoot
    | CodeCrossOrg
    | CodePoPFailed
    | CodeExpiryEscalate
    | CodeBranching
    | CodeMalformed
    | CodeCidMismatch
    | CodeUnregistered
    | CodeRevocUnavailable
    | CodeDidResolution
    | CodeProofCacheMiss

  datatype VerificationError = VerificationError(step: nat, code: Code)

  datatype Tier = TierAnalytics | TierLow | TierMedium | TierHigh

  datatype TrustPolicy = TrustPolicy(platforms: seq<string>, maxDelegationDepth: int)

  /** The answer of a revocation source for one subject. */
  datatype Lookup = LookupFailed | Active | Found(status: Revocation.Status)

  /** The policy of a verifier, and the codecs and keys it works with. */
  datatype Config = Config(
    verifierDid: string,
    trustedRootDids: set<string>,
    maxChainDepth: int,
    clockSkewSeconds: int,
    riskTierFn: Option<string -> Tier>,
    trustPolicies: seq<TrustPolicy>,
    expectedChannelBinding: string,
    startTime: int,
    meteringEnabled: bool,
    codec: Codec,
    resolveDid: string -> Option<Bytes>,
    signed: (Bytes, Element) -> bool,
    presenters: Pop.Presenters)
  {
    function ClockSkew(): int { if clockSkewSeconds > 0 then clockSkewSeconds else 60 }

    function TierFor(resource: string): Tier {
      if riskTierFn.Some? then riskTierFn.value(resource) else TierMedium
    }
  }

  // ---- step 0: structure ----

  predicate WellFormed(e: Element) {
    && e.Exp() > 0
    && match e
       case TokenElement(_, t) => |t.att| <= MAX_CAPABILITIES && forall c | c in t.att :: c.Valid()
       case BlockElement(_, b) => 0 < |b.cav| <= MAX_CAVEATS_PER_BLOCK && b.crit == []
  }

  function Step0Structural(es: seq<Element>): Option<VerificationError> {
    if forall e | e in es :: WellFormed(e) then None else Some(VerificationError(0, CodeMalformed))
  }

  // ---- step 1: chain construction ----

  function MapChainError(e: ChainError): VerificationError {
    VerificationError(1,
      match e
      case CircularChain => CodeCircular
      case ChainTooDeep => CodeChainTooDeep
      case ChainTooWide => CodeMalformed
      case BranchingUnsupported => CodeBranching
      case ProofNotFound => CodeProofCacheMiss
      case NonRootToken => CodeChainBroken
      case CidMismatch => CodeCidMismatch
      case ChainBroken => CodeChainBroken)
  }

  // ---- step 2: linkage ----

  function LinkFault(child: Element, parent: Element): Option<Code> {
    if child.Iss() != parent.Aud() then Some(CodeChainBroken)
    else if child.ParentCid() != parent.cid then Some(CodeChainBroken)
    else if child.Exp() > parent.Exp() then Some(CodeExpiryEscalate)
    else if child.Nbf() < parent.Nbf() then Some(CodeChainBroken)
    else if child.BlockElement? && child.block.dl < 0 then Some(CodeAttenuation)
    else if child.BlockElement? && parent.DepthLeft().Some? && child.block.dl >= parent.DepthLeft().value then
      Some(CodeAttenuation)
    else None
  }

  function Step2Linkage(es: seq<Element>): Option<VerificationError> {
    if |es| <= 1 then None
    else
      match LinkFault(es[0], es[1])
      case Some(code) => Some(VerificationError(2, code))
      case None => Step2Linkage(es[1..])
  }

  // ---- step 3: root trust ----

  function Root(es: seq<Element>): Element
    requires es != []
  {
    es[|es| - 1]
  }

  /** Whether the chain is cross-organizational, when its root is trusted at all. */
  function Step3RootTrust(es: seq<Element>, cfg: Config): Result<bool, VerificationError>
    requires es != []
  {
    var iss := Root(es).Iss();
    if iss in cfg.trustedRootDids then Ok(false)
    else if exists p | p in cfg.trustPolicies :: iss in p.platforms then Ok(true)
    else Err(VerificationError(3, CodeUntrustedRoot))
  }

  // ---- step 4: signatures ----

  function SignatureFault(e: Element, cfg: Config): Option<Code> {
    match cfg.resolveDid(e.Iss())
    case None => Some(CodeDidResolution)
    case Some(key) => if cfg.signed(key, e) then None else Some(CodeSigInvalid)
  }

  function Step4Signatures(es: seq<Element>, cfg: Config): Option<VerificationError> {
    if es == [] then None
    else
      match SignatureFault(es[0], cfg)
      case Some(code) => Some(VerificationError(4, code))
      case None => Step4Signatures(es[1..], cfg)
  }

  // ---- step 5: validity windows ----

  function WindowFault(e: Element, now: int, skew: int): Option<Code> {
    if now > e.Exp() + skew then Some(CodeExpired)
    else if now < e.Nbf() - skew then Some(CodeNotYetValid)
    else None
  }

  function Step5Temporal(es: seq<Element>, now: int, skew: int): Option<VerificationError> {
    if es == [] then None
    else
      match WindowFault(es[0], now, skew)
      case Some(code) => Some(VerificationError(5, code))
      case None => Step5Temporal(es[1..], now, skew)
  }

  // ---- step 6: revocation ----

  function StatusError(status: Revocation.Status): Option<VerificationError> {
    match status
    case Revoked => Some(VerificationError(6, CodeRevoked))
    case Decommissioned => Some(VerificationError(6, CodeRevoked))
    case Suspended => Some(VerificationError(6, CodeSuspended))
    case Compromised => Some(VerificationError(6, CodeCompromised))
    case Cascade => Some(VerificationError(6, CodeCompromised))
    case Reinstated => None
    case OtherStatus(_) => None
  }

  /** What one subject's lookup leads to; below the HIGH tier a failed lookup is let pass. */
  function SubjectError(l: Lookup, tier: Tier): Option<VerificationError> {
    match l
    case LookupFailed => if tier.TierHigh? then Some(VerificationError(6, CodeRevocUnavailable)) else None
    case Active => None
    case Found(status) => StatusError(status)
  }

  /** Every CID and every audience on the chain. */
  function Subjects(es: seq<Element>): set<string> {
    (set e | e in es :: e.cid) + (set e | e in es :: e.Aud())
  }

  predicate RevocationClear(es: seq<Element>, cache: Option<string -> Lookup>, tier: Tier) {
    cache.Some? ==> forall s | s in Subjects(es) :: SubjectError(cache.value(s), tier).None?
  }

  /** Subjects are looked up in no particular order; the first one found denying is reported. */
  method Step6Revocation(es: seq<Element>, cache: Option<string -> Lookup>, tier: Tier)
    returns (r: Option<VerificationError>)
    ensures r.None? <==> RevocationClear(es, cache, tier)
    ensures r.Some? ==> exists s :: s in Subjects(es) && SubjectError(cache.value(s), tier) == r
  {
    if cache.None? { return None; }
    var subjects: set<string> := {};
    for i := 0 to |es|
      invariant subjects == Subjects(es[..i])
    {
      assert es[..i + 1] == es[..i] + [es[i]];
      subjects := subjects + {es[i].cid} + {es[i].Aud()};
    }
    assert es[..|es|] == es;
    var left := subjects;
    while left != {}
      invariant left <= subjects
      invariant forall s | s in subjects - left :: SubjectError(cache.value(s), tier).None?
      decreases |left|
    {
      var s :| s in left;
      left := left - {s};
      var e := SubjectError(cache.value(s), tier);
      if e.Some? { return e; }
    }
    return None;
  }

  // ---- step 7: no hop carries capabilities ----

  function Step7Attenuation(es: seq<Element>): Option<VerificationError> {
    if forall i | 0 <= i < |es| - 1 :: es[i].BlockElement? then None
    else Some(VerificationError(7, CodeChainBroken))
  }

  // ---- step 8: authorization ----

  datatype InvocationContext = InvocationContext(request: Pop.Request, now: int, meteringEnabled: bool)

  predicate IsInt64(k: int) { -0x8000_0000_0000_0000 <= k < 0x8000_0000_0000_0000 }

  /** A parameter as a 64-bit integer; a floating-point number is one only if it is integral and in range. */
  function NumericParam(p: Pop.Param): (n: Option<int>)
    ensures p.Floating? ==> (n.Some? <==> exists k :: IsInt64(k) && k as real == p.r)
    ensures p.Floating? && n.Some? ==> n.value as real == p.r
  {
    match p
    case Integer(n) => Some(n)
    case Floating(r) =>
      if r == r.Floor as real && IsInt64(r.Floor) then Some(r.Floor) else None
    case _ => None
  }

  /** One constraint or caveat against the invocation. */
  predicate Permits(c: Constraint, ctx: InvocationContext) {
    var params := ctx.request.parameters;
    match c
    case Within(w) => w.start <= ctx.now < w.end
    case ResourceRestrict(r) => UriCovers.URICovers(r, ctx.request.resource)
    case ActionRestrict(actions) => actions.Some? && ctx.request.action in actions.value
    case MethodRestrict(methods) =>
      methods.Some? && "method" in params && params["method"].Text? && params["method"].s in methods.value
    case ParamLimit(field, max) =>
      field in params ==> NumericParam(params[field]).Some? && NumericParam(params[field]).value <= max
    case Budget(_, _, _, _, _) => ctx.meteringEnabled
    case MaxCalls(_, _) => ctx.meteringEnabled
    case ParameterSchema(_) => ctx.meteringEnabled
    case DelegationDepth(_) => true
    case Raw(_, _) => false
  }

  predicate PermitsAll(cs: seq<Constraint>, ctx: InvocationContext) {
    forall c | c in cs :: Permits(c, ctx)
  }

  predicate Matches(c: Capability, request: Pop.Request) {
    c.can == request.action && UriCovers.URICovers(c.with, request.resource)
  }

  function FirstMatch(att: seq<Capability>, request: Pop.Request): (r: Option<Capability>)
    ensures r.Some? ==> r.value in att && Matches(r.value, request)
    ensures r.None? ==> forall c | c in att :: !Matches(c, request)
  {
    if att == [] then None
    else if Matches(att[0], request) then Some(att[0])
    else FirstMatch(att[1..], request)
  }

  /** The att of the token nearest the leaf. */
  function EffectiveAtt(es: seq<Element>): seq<Capability> {
    if es == [] then []
    else if es[0].TokenElement? then es[0].token.att
    else EffectiveAtt(es[1..])
  }

  /** Every caveat of every hop, leaf first. */
  function Caveats(es: seq<Element>): seq<Constraint> {
    if es == [] then []
    else (if es[0].BlockElement? then es[0].block.cav else []) + Caveats(es[1..])
  }

  const CAP_INSUFFICIENT := VerificationError(8, CodeCapInsufficient)

  function Step8Authorization(es: seq<Element>, ctx: InvocationContext): Result<Capability, VerificationError> {
    if !UriCovers.NoWildcard(ctx.request.resource) then Err(CAP_INSUFFICIENT)
    else
      match FirstMatch(EffectiveAtt(es), ctx.request)
      case None => Err(CAP_INSUFFICIENT)
      case Some(c) =>
        if PermitsAll(c.constraints, ctx) && PermitsAll(Caveats(es), ctx) then Ok(c) else Err(CAP_INSUFFICIENT)
  }

  lemma {:induction false} FirstMatchSkips(att: seq<Capability>, request: Pop.Request, i: nat)
    requires i <= |att| && forall j | 0 <= j < i :: !Matches(att[j], request)
    ensures FirstMatch(att, request) == FirstMatch(att[i..], request)
  {
    if i > 0 {
      FirstMatchSkips(att[1..], request, i - 1);
      assert att[1..][i - 1..] == att[i..];
    } else {
      assert att[0..] == att;
    }
  }

  /** The caveats of a chain are those of its first i hops and those of the rest. */
  lemma {:induction false} CaveatsFrom(es: seq<Element>, i: nat, ctx: InvocationContext)
    requires i <= |es|
    ensures PermitsAll(Caveats(es), ctx) <==>
            PermitsAll(Caveats(es[i..]), ctx)
            && forall j | 0 <= j < i && es[j].BlockElement? :: PermitsAll(es[j].block.cav, ctx)
    decreases i
  {
    hide Permits;
    if i > 0 {
      CaveatsFrom(es[1..], i - 1, ctx);
      assert es[1..][i - 1..] == es[i..];
      assert forall j | 0 < j < i :: es[j] == es[1..][j - 1];
      var own := if es[0].BlockElement? then es[0].block.cav else [];
      assert forall c :: c in Caveats(es) <==> c in own || c in Caveats(es[1..]);
      assert forall j | 0 <= j < i - 1 :: es[1..][j] == es[j + 1];
    } else {
      assert es[0..] == es;
    }
  }

  /** The authorization step as it runs: find the first match, then try its constraints and every caveat. */
  method Authorize(es: seq<Element>, ctx: InvocationContext) returns (r: Result<Capability, VerificationError>)
    ensures r == Step8Authorization(es, ctx)
  {
    hide Permits, Matches, UriCovers.NoWildcard;
    if !UriCovers.NoWildcard(ctx.request.resource) { return Err(CAP_INSUFFICIENT); }
    var att := EffectiveAtt(es);
    var matched: Option<Capability> := None;
    var i := 0;
    while i < |att| && matched.None?
      invariant 0 <= i <= |att|
      invariant FirstMatch(att, ctx.request) == if matched.Some? then matched else FirstMatch(att[i..], ctx.request)
    {
      assert att[i..][1..] == att[i + 1..];
      if Matches(att[i], ctx.request) { matched := Some(att[i]); }
      i := i + 1;
    }
    if matched.None? { return Err(CAP_INSUFFICIENT); }
    if !PermitsAll(matched.value.constraints, ctx) { return Err(CAP_INSUFFICIENT); }
    for k := 0 to |es|
      invariant forall j | 0 <= j < k && es[j].BlockElement? :: PermitsAll(es[j].block.cav, ctx)
    {
      if es[k].BlockElement? && !PermitsAll(es[k].block.cav, ctx) {
        CaveatsFrom(es, k + 1, ctx);
        return Err(CAP_INSUFFICIENT);
      }
    }
    CaveatsFrom(es, |es|, ctx);
    return Ok(matched.value);
  }

  // ---- step 9: cross-organizational policy ----

  /** The first policy that names the root issuer decides. */
  function PolicyFor(policies: seq<TrustPolicy>, iss: string): Option<TrustPolicy> {
    if policies == [] then None
    else if iss in policies[0].platforms then Some(policies[0])
    else PolicyFor(policies[1..], iss)
  }

  function Step9CrossOrg(es: seq<Element>, policies: seq<TrustPolicy>, crossOrg: bool): Option<VerificationError>
    requires es != []
  {
    if !crossOrg then None
    else
      match PolicyFor(policies, Root(es).Iss())
      case None => Some(VerificationError(9, CodeCrossOrg))
      case Some(p) =>
        if p.maxDelegationDepth > 0 && |es| - 1 > p.maxDelegationDepth then Some(VerificationError(9, CodeCrossOrg))
        else None
  }

  // ---- the steps that look at no state but the chain ----

  /** Steps 0 and 2 to 5, in the order they run. */
  function BeforeRevocation(cfg: Config, es: seq<Element>, now: int): Option<VerificationError>
    requires es != []
  {
    if Step0Structural(es).Some? then Step0Structural(es)
    else if Step2Linkage(es).Some? then Step2Linkage(es)
    else if Step3RootTrust(es, cfg).Err? then Some(Step3RootTrust(es, cfg).error)
    else if Step4Signatures(es, cfg).Some? then Step4Signatures(es, cfg)
    else Step5Temporal(es, now, cfg.ClockSkew())
  }

  /** Steps 7 to 9, in the order they run. */
  function AfterRevocation(cfg: Config, es: seq<Element>, request: Pop.Request, now: int)
    : Result<Capability, VerificationError>
    requires es != []
  {
    if Step7Attenuation(es).Some? then Err(Step7Attenuation(es).value)
    else
      match Step8Authorization(es, InvocationContext(request, now, cfg.meteringEnabled))
      case Err(e) => Err(e)
      case Ok(c) =>
        var e9 := Step9CrossOrg(es, cfg.trustPolicies, Step3RootTrust(es, cfg) == Ok(true));
        if e9.Some? then Err(e9.value) else Ok(c)
  }
}
