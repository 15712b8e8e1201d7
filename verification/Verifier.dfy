/** The thirteen-step verification of an invocation, in the order it runs, failing fast. */
module Verifier {
  import opened Wrappers
  import opened Credential
  import opened Chain
  import opened Steps
  import Audit
  import Jcs
  import Pop

  /** The stores a verification consults, the inline leaf token if any, and its clock readings. */
  datatype Inputs = Inputs(
    store: Store,
    inline: Option<Ucan>,
    revocations: Option<string -> Lookup>,
    registered: Option<(string, string) -> bool>,
    now5: int,
    now8: int,
    t0: int,
    t1: int,
    t2: int,
    nowAudit: int)

  datatype VerificationResult = VerificationResult(
    ok: bool, chain: Option<seq<Element>>, authorized: Option<Capability>, error: Option<VerificationError>)

  /** The proof store with the inline leaf laid over it. */
  function EffectiveStore(codec: Codec, store: Store, inline: Option<Ucan>): Store {
    if inline.None? then store else store[codec.cid(inline.value.raw) := inline.value.raw]
  }

  const POP_FAILED := VerificationError(10, CodePoPFailed)

  // ---- step 10 ----

  /** What step 10 says before it reaches the invocation check. */
  predicate PredatesInstance(cfg: Config, inv: Pop.Invocation) { cfg.startTime > 0 && inv.iat < cfg.startTime }

  /** Whether the invocation check passes, which is also when the nonce is spent. */
  predicate SpendsNonce(cfg: Config, inv: Pop.Invocation, leafAud: string, m: Pop.Nonces, t0: int, t2: int) {
    && !PredatesInstance(cfg, inv)
    && Pop.CheckInvocation(cfg.presenters, inv, cfg.verifierDid, leafAud, Pop.Seconds(t0)).None?
    && !Pop.Seen(m, inv.nonce, t2)
  }

  predicate ChannelBound(cfg: Config, inv: Pop.Invocation) {
    cfg.expectedChannelBinding != "" ==> inv.cb == cfg.expectedChannelBinding
  }

  method Step10PoP(cfg: Config, inv: Pop.Invocation, leafAud: string, nonces: Pop.MemoryNonceCache,
                   t0: int, t1: int, t2: int)
    returns (err: Option<VerificationError>)
    modifies nonces
    ensures err == if SpendsNonce(cfg, inv, leafAud, old(nonces.m), t0, t2) && ChannelBound(cfg, inv) then None
                   else Some(POP_FAILED)
    ensures nonces.m == if SpendsNonce(cfg, inv, leafAud, old(nonces.m), t0, t2)
                        then old(nonces.m)[inv.nonce := t1 + Pop.TimeToLive(inv.exp, Pop.Seconds(t0))]
                        else old(nonces.m)
  {
    hide Pop.CheckInvocation;
    if cfg.startTime > 0 && inv.iat < cfg.startTime { return Some(POP_FAILED); }
    var bad := Pop.VerifyInvocation(cfg.presenters, inv, cfg.verifierDid, leafAud, nonces, t0, t1, t2);
    if bad.Some? { return Some(POP_FAILED); }
    if cfg.expectedChannelBinding != "" && inv.cb != cfg.expectedChannelBinding { return Some(POP_FAILED); }
    return None;
  }

  // ---- step 11 ----

  /** Below the HIGH tier an unregistered leaf is let pass. */
  function Step11Registration(leaf: string, tier: Tier, registered: Option<(string, string) -> bool>)
    : Option<VerificationError>
  {
    if registered.None? || registered.value(leaf, leaf) || !tier.TierHigh? then None
    else Some(VerificationError(11, CodeUnregistered))
  }

  // ---- the whole verification ----

  /** The outcome of steps 0 to 9 when revocation is clear. */
  function Authorized(cfg: Config, inv: Pop.Invocation, x: Inputs, es: seq<Element>)
    : Result<Capability, VerificationError>
    requires es != []
  {
    if BeforeRevocation(cfg, es, x.now5).Some? then Err(BeforeRevocation(cfg, es, x.now5).value)
    else AfterRevocation(cfg, es, inv.request, x.now8)
  }

  /** Steps 0 to 9 all pass for the chain of the invocation's leaf. */
  predicate ReachesPoP(cfg: Config, inv: Pop.Invocation, x: Inputs) {
    && inv.delegation != ""
    && var built := Build(cfg.codec, EffectiveStore(cfg.codec, x.store, x.inline), inv.delegation, cfg.maxChainDepth);
    && built.Ok? && built.value != []
    && RevocationClear(built.value, x.revocations, cfg.TierFor(inv.request.resource))
    && Authorized(cfg, inv, x, built.value).Ok?
  }

  function ChainOf(cfg: Config, inv: Pop.Invocation, x: Inputs): seq<Element>
    requires ReachesPoP(cfg, inv, x)
  {
    Build(cfg.codec, EffectiveStore(cfg.codec, x.store, x.inline), inv.delegation, cfg.maxChainDepth).value
  }

  predicate Accepts(cfg: Config, inv: Pop.Invocation, x: Inputs, m: Pop.Nonces) {
    && ReachesPoP(cfg, inv, x)
    && SpendsNonce(cfg, inv, ChainOf(cfg, inv, x)[0].Aud(), m, x.t0, x.t2)
    && ChannelBound(cfg, inv)
    && Step11Registration(ChainOf(cfg, inv, x)[0].cid, cfg.TierFor(inv.request.resource), x.registered).None?
  }

  /** The errors a failing verification may report: those of the first step that fails. */
  predicate FailsWith(cfg: Config, inv: Pop.Invocation, x: Inputs, m: Pop.Nonces, e: VerificationError) {
    if inv.delegation == "" then e == VerificationError(0, CodeMalformed)
    else
      match Build(cfg.codec, EffectiveStore(cfg.codec, x.store, x.inline), inv.delegation, cfg.maxChainDepth)
      case Err(c) => e == MapChainError(c)
      case Ok(es) =>
        var tier := cfg.TierFor(inv.request.resource);
        if es == [] then false
        else if BeforeRevocation(cfg, es, x.now5).Some? then Some(e) == BeforeRevocation(cfg, es, x.now5)
        else if !RevocationClear(es, x.revocations, tier) then
          exists s | s in Subjects(es) :: SubjectError(x.revocations.value(s), tier) == Some(e)
        else if AfterRevocation(cfg, es, inv.request, x.now8).Err? then
          e == AfterRevocation(cfg, es, inv.request, x.now8).error
        else if !(SpendsNonce(cfg, inv, es[0].Aud(), m, x.t0, x.t2) && ChannelBound(cfg, inv)) then e == POP_FAILED
        else Some(e) == Step11Registration(es[0].cid, tier, x.registered)
  }

  /** The text form of a code, as it goes into the audit log. */
  function CodeText(c: Code): string {
    match c
    case CodeSigInvalid => "AGENT_ERR_V001_SIG_INVALID"
    case CodeExpired => "AGENT_ERR_V002_EXPIRED"
    case CodeNotYetValid => "AGENT_ERR_V003_NOT_YET_VALID"
    case CodeRevoked => "AGENT_ERR_V004_REVOKED"
    case CodeSuspended => "AGENT_ERR_V005_SUSPENDED"
    case CodeCompromised => "AGENT_ERR_V006_COMPROMISED"
    case CodeCapInsufficient => "AGENT_ERR_V007_CAPABILITY_INSUFFICIENT"
    case CodeAttenuation => "AGENT_ERR_V008_ATTENUATION_VIOLATION"
    case CodeChainBroken => "AGENT_ERR_V009_CHAIN_BROKEN"
    case CodeChainTooDeep => "AGENT_ERR_V010_CHAIN_TOO_DEEP"
    case CodeCircular => "AGENT_ERR_V011_CIRCULAR_DELEGATION"
    case CodeUntrustedRoot => "AGENT_ERR_V012_UNTRUSTED_ROOT"
    case CodeCrossOrg => "AGENT_ERR_V013_CROSS_ORG_VIOLATION"
    case CodePoPFailed => "AGENT_ERR_V014_POP_FAILED"
    case CodeExpiryEscalate => "AGENT_ERR_V015_EXPIRY_ESCALATION"
    case CodeBranching => "AGENT_ERR_V016_BRANCHING_UNSUPPORTED"
    case CodeMalformed => "AGENT_ERR_V017_MALFORMED"
    case CodeCidMismatch => "AGENT_ERR_V018_CID_MISMATCH"
    case CodeUnregistered => "AGENT_ERR_V019_UNREGISTERED"
    case CodeRevocUnavailable => "AGENT_ERR_O001_REVOC_UNAVAILABLE"
    case CodeDidResolution => "AGENT_ERR_O002_DID_RESOLUTION_FAILED"
    case CodeProofCacheMiss => "AGENT_ERR_O004_PROOF_CACHE_MISS"
  }

  /** What is logged for a verification, allowed or denied. */
  function AuditEvent(res: VerificationResult, now: int): Audit.Event {
    var leaf := if res.chain.Some? && res.chain.value != [] then Some(res.chain.value[0]) else None;
    Audit.Event(
      if res.error.None? then "CAPABILITY_INVOKED" else "CAPABILITY_DENIED",
      if leaf.Some? then leaf.value.Aud() else "",
      if leaf.Some? then leaf.value.cid else "",
      "",
      now,
      Audit.Fields(
        if res.error.None? then map["result" := Jcs.Str("ALLOW")]
        else map["result" := Jcs.Str("DENY"),
                 "code" := Jcs.Str(CodeText(res.error.value.code)),
                 "step" := Jcs.Num(res.error.value.step)]))
  }

  /** The nonces after a verification: the leaf's is spent exactly when steps 0 to 9 and the invocation check pass. */
  function NoncesAfter(cfg: Config, inv: Option<Pop.Invocation>, x: Inputs, m: Pop.Nonces): Pop.Nonces {
    if inv.Some? && ReachesPoP(cfg, inv.value, x)
       && SpendsNonce(cfg, inv.value, ChainOf(cfg, inv.value, x)[0].Aud(), m, x.t0, x.t2)
    then m[inv.value.nonce := x.t1 + Pop.TimeToLive(inv.value.exp, Pop.Seconds(x.t0))]
    else m
  }

  /** What a verification may answer. */
  predicate Outcome(cfg: Config, inv: Option<Pop.Invocation>, x: Inputs, m: Pop.Nonces, res: VerificationResult) {
    && (res.ok <==> res.error.None?)
    && match inv
       case None => res.error == Some(POP_FAILED)
       case Some(i) =>
         && (res.ok <==> Accepts(cfg, i, x, m))
         && (res.error.Some? ==> FailsWith(cfg, i, x, m, res.error.value))
         && (res.ok ==> res.chain == Some(ChainOf(cfg, i, x))
                        && res.authorized.Some?
                        && Authorized(cfg, i, x, ChainOf(cfg, i, x)) == Ok(res.authorized.value))
  }

  /**
   * The verification without its audit record. A nonce once spent stays spent, even if the channel
   * binding or the registration then fails.
   */
  method RunSteps(inv: Option<Pop.Invocation>, cfg: Config, x: Inputs, nonces: Pop.MemoryNonceCache)
    returns (res: VerificationResult)
    modifies nonces
    ensures Outcome(cfg, inv, x, old(nonces.m), res)
    ensures nonces.m == NoncesAfter(cfg, inv, x, old(nonces.m))
  {
    hide Build, BeforeRevocation, AfterRevocation, RevocationClear, SpendsNonce, Pop.TimeToLive, SubjectError,
         MapChainError;
    if inv.None? { return VerificationResult(false, None, None, Some(POP_FAILED)); }
    var i := inv.value;
    if i.delegation == "" { return VerificationResult(false, None, None, Some(VerificationError(0, CodeMalformed))); }
    var store := EffectiveStore(cfg.codec, x.store, x.inline);
    var built := BuildChain(cfg.codec, store, i.delegation, cfg.maxChainDepth);
    if built.Err? { return VerificationResult(false, None, None, Some(MapChainError(built.error))); }
    var es := built.value;
    NonEmpty(cfg.codec, store, i.delegation, cfg.maxChainDepth);
    var early := BeforeRevocation(cfg, es, x.now5);
    if early.Some? { return VerificationResult(false, Some(es), None, early); }
    var tier := cfg.TierFor(i.request.resource);
    var revoked := Step6Revocation(es, x.revocations, tier);
    if revoked.Some? { return VerificationResult(false, Some(es), None, revoked); }
    var authorized := AfterRevocation(cfg, es, i.request, x.now8);
    if authorized.Err? { return VerificationResult(false, Some(es), None, Some(authorized.error)); }
    var cap := Some(authorized.value);
    var unproven := Step10PoP(cfg, i, es[0].Aud(), nonces, x.t0, x.t1, x.t2);
    if unproven.Some? { return VerificationResult(false, Some(es), cap, unproven); }
    var unregistered := Step11Registration(es[0].cid, tier, x.registered);
    if unregistered.Some? { return VerificationResult(false, Some(es), cap, unregistered); }
    return VerificationResult(true, Some(es), cap, None);
  }

  lemma NonEmpty(codec: Codec, store: Store, leaf: string, maxDepth: int)
    ensures Build(codec, store, leaf, maxDepth).Ok? ==> Build(codec, store, leaf, maxDepth).value != []
  {
    hide Fetch;
  }

  /**
   * The verification with its audit record: when a log is configured, every outcome leaves exactly one
   * entry in it, and the log has no part in the outcome.
   */
  method Verify(inv: Option<Pop.Invocation>, cfg: Config, x: Inputs, nonces: Pop.MemoryNonceCache,
                log: Audit.MemoryAuditLog?, h: Audit.Hasher, clock: int)
    returns (res: VerificationResult)
    requires log != null ==> log.Valid(h) && Audit.GoodHasher(h)
    modifies nonces, log
    ensures Outcome(cfg, inv, x, old(nonces.m), res)
    ensures nonces.m == NoncesAfter(cfg, inv, x, old(nonces.m))
    ensures log != null ==> log.Valid(h) && |log.entries| == |old(log.entries)| + 1 && old(log.entries) <= log.entries
    ensures log != null ==>
              var e := AuditEvent(res, x.nowAudit);
              log.entries[|old(log.entries)|].event == e.(ts := if e.ts == 0 then clock else e.ts)
  {
    hide Audit.GoodHasher, Audit.Linked, Audit.IncreasingUpTo, CodeText, Outcome, NoncesAfter;
    res := RunSteps(inv, cfg, x, nonces);
    if log != null { var logged := log.Append(h, AuditEvent(res, x.nowAudit), clock); }
  }
}
