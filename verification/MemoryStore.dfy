/**
 * The in-memory backend and the handlers that drive it, object by object; each
 * method moves the abstract state of the service by the corresponding action.
 */
module MemoryStore {
  import opened Wrappers
  import opened Chain
  import opened Registration
  import opened Revocation
  import opened Cascading
  import opened Service
  import Audit
  import Credential
  import DidKey
  import Issuance
  import Jcs
  import Roots

  datatype RevokeFailure = NoSubject | NotPermitted

  function RevokeRefusal(subject: Subject, scope: Scope, status: Status): Option<RevokeFailure> {
    if subject.Key() == "" then Some(NoSubject)
    else if !Permitted(scope, status) then Some(NotPermitted)
    else None
  }

  predicate Cascades(subject: Subject, status: Status) { status.Compromised? && subject.cid != "" }

  /** The record of a single revocation. */
  function RevokedEvent(cid: string, status: Status): Audit.Event {
    Audit.Event("REVOCATION_POSTED", "", cid, "", 0, Audit.Fields(map["status" := Jcs.Str(StatusText(status))]))
  }

  datatype DelegateFailure =
    | IncompleteRequest
    | ParentNotFound
    | ParentCannotDelegate
    | KeyNotHeld
    | InvalidDelegation(mint: Issuance.MintError)
    | InvalidChain(chain: ChainError)

  /** Whether the octets open a JSON object after blanks, tabs and line ends. */
  predicate IsBlock(raw: Bytes) {
    raw != [] && (raw[0] == 0x7B || (raw[0] in {0x20, 0x09, 0x0A, 0x0D} && IsBlock(raw[1..])))
  }

  /** The delegation context of a stored parent, whose audience is the delegator. */
  function ParentRef(codec: Codec, raw: Bytes, cid: string): Option<Credential.DelegationParent> {
    if IsBlock(raw) then
      match codec.parseBlock(raw)
      case None => None
      case Some(b) => Some(Issuance.ParentFromBlock(b, cid))
    else
      match codec.parseToken(raw)
      case None => None
      case Some(u) => if Issuance.ParentFromUcan(u, cid).Ok? then Some(Issuance.ParentFromUcan(u, cid).value) else None
  }

  /** What a delegation request comes down to before anything is stored: an error, or the octets to store. */
  function DelegateRequest(codec: Codec, keys: string -> Option<Issuance.Issuer>, store: Store,
                           parentCid: string, aud: string, depthLeft: int, caveats: seq<Credential.Constraint>)
    : Result<Bytes, DelegateFailure>
  {
    if parentCid == "" || aud == "" then Err(IncompleteRequest)
    else if parentCid !in store then Err(ParentNotFound)
    else
      match ParentRef(codec, store[parentCid], parentCid)
      case None => Err(ParentCannotDelegate)
      case Some(parent) =>
        match keys(parent.aud)
        case None => Err(KeyNotHeld)
        case Some(k) =>
          match Issuance.Mint(k, parent, aud, depthLeft, caveats)
          case Err(e) => Err(InvalidDelegation(e))
          case Ok((_, raw)) => Ok(raw)
  }

  class MemoryBackend {
    var credentials: Store
    var credOrder: seq<string>
    const registrations: MemoryRegistrationIndex
    const revocations: MemoryRevocationCache

    constructor ()
      ensures fresh(registrations) && fresh(revocations)
      ensures Contents() == INITIAL
    {
      credentials, credOrder := map[], [];
      registrations := new MemoryRegistrationIndex();
      revocations := new MemoryRevocationCache();
    }

    /** The abstract state. */
    function Contents(): State
      reads this, registrations, revocations
    {
      State(credentials, credOrder, registrations.index, revocations.entries, revocations.listSeq)
    }

    method PutCredential(codec: Codec, raw: Bytes) returns (cid: string)
      modifies this
      ensures cid == codec.cid(raw) && Contents() == Put(codec, old(Contents()), raw)
    {
      cid := codec.cid(raw);
      if cid !in credentials { credOrder := credOrder + [cid]; }
      credentials := credentials[cid := raw];
    }

    method Get(cid: string) returns (raw: Option<Bytes>)
      ensures raw == if cid in credentials then Some(credentials[cid]) else None
    {
      if cid !in credentials { return None; }
      return Some(credentials[cid]);
    }

    method ListCredentials() returns (cids: seq<string>)
      ensures cids == Contents().order
    {
      return credOrder;
    }

    /** A request for a root credential from end to end; only a token that could be made changes anything. */
    method IssueCredential(env: Env, platform: Roots.Platform, registered: string -> bool, agent: string,
                           att: seq<Credential.Capability>, expSeconds: int, now: int)
      returns (r: Result<string, Roots.IssueFailure>)
      modifies this, registrations
      ensures match Roots.IssueRequest(platform, registered, agent, att, expSeconds, now)
              case Err(e) => r == Err(e) && Contents() == old(Contents())
              case Ok(token) =>
                r == Ok(env.codec.cid(token)) && Contents() == Step(env, old(Contents()), Issue(token))
    {
      hide RegisterAll, Roots.Token, DidKey.ParseDid;
      if DidKey.ParseDid(agent).None? { return Err(Roots.InvalidAgentDid); }
      if |att| == 0 || expSeconds <= 0 { return Err(Roots.IncompleteGrant); }
      if !registered(agent) { return Err(Roots.AgentNotRegistered); }
      var token := Roots.CreateUcan(platform, Roots.GrantClaims(platform, agent, att, expSeconds, now));
      if token.Err? { return Err(Roots.InvalidCredential(token.error)); }
      var cid := PutCredential(env.codec, token.value);
      registrations.Register(cid, [cid]);
      return Ok(cid);
    }

    /** Stores a minted block, then registers it under its chain; the block stays stored when there is none. */
    method StoreAndRegister(env: Env, block: Bytes) returns (r: Result<string, ChainError>)
      modifies this, registrations
      ensures Contents() == Step(env, old(Contents()), Delegate(block))
      ensures var cid := env.codec.cid(block);
              var built := Build(env.codec, Contents().credentials, cid, env.maxChainDepth);
              r == if built.Ok? then Ok(cid) else Err(built.error)
    {
      hide RegisterAll, Build;
      var cid := PutCredential(env.codec, block);
      var built := BuildChain(env.codec, credentials, cid, env.maxChainDepth);
      if built.Err? { return Err(built.error); }
      registrations.Register(cid, CidsOf(built.value));
      return Ok(cid);
    }

    /** A delegation request from end to end; only a block that could be minted changes anything. */
    method DelegateRestrict(env: Env, keys: string -> Option<Issuance.Issuer>, parentCid: string, aud: string,
                            depthLeft: int, caveats: seq<Credential.Constraint>)
      returns (r: Result<string, DelegateFailure>)
      modifies this, registrations
      ensures match DelegateRequest(env.codec, keys, old(Contents()).credentials, parentCid, aud, depthLeft, caveats)
              case Err(e) => r == Err(e) && Contents() == old(Contents())
              case Ok(raw) =>
                && Contents() == Step(env, old(Contents()), Delegate(raw))
                && var cid := env.codec.cid(raw);
                   var built := Build(env.codec, Contents().credentials, cid, env.maxChainDepth);
                   r == if built.Ok? then Ok(cid) else Err(InvalidChain(built.error))
    {
      hide Issuance.Mint, Build, ParentRef, DelegateStep;
      if parentCid == "" || aud == "" { return Err(IncompleteRequest); }
      var parentRaw := Get(parentCid);
      if parentRaw.None? { return Err(ParentNotFound); }
      var parent := ParentRef(env.codec, parentRaw.value, parentCid);
      if parent.None? { return Err(ParentCannotDelegate); }
      var key := keys(parent.value.aud);
      if key.None? { return Err(KeyNotHeld); }
      var minted := Issuance.CreateRestrictBlock(key.value, parent.value, aud, depthLeft, caveats);
      match minted
      case Err(e) => return Err(InvalidDelegation(e));
      case Ok((_, raw)) =>
        var stored := StoreAndRegister(env, raw);
        match stored
        case Err(e) => return Err(InvalidChain(e));
        case Ok(cid) => return Ok(cid);
    }

    /**
     * Posts the next entry of a subject as the platform. COMPROMISED on a credential cascades; any
     * other known status and scope is posted alone; a request that names no subject, or a status or
     * scope the platform may not set, changes nothing.
     */
    method RevokeSubject(env: Env, subject: Subject, scope: Scope, status: Status, log: Audit.MemoryAuditLog?,
                         h: Audit.Hasher, clock: int, clock2: int)
      returns (r: Result<int, RevokeFailure>)
      requires GoodEnv(env) && Inv(env.codec, Contents())
      requires log != null ==> log.Valid(h) && Audit.GoodHasher(h)
      modifies revocations, log
      ensures r == match RevokeRefusal(subject, scope, status)
                   case Some(e) => Err(e)
                   case None => Ok(SeqOf(old(Contents()).revocations, subject.Key()) + 1)
      ensures r.Err? ==> Contents() == old(Contents())
      ensures r.Ok? && Cascades(subject, status) ==>
                Contents() == Step(env, old(Contents()), Compromise(subject.cid))
      ensures r.Ok? && !Cascades(subject, status) ==>
                exists e: Entry ::
                  && e.subject == subject && e.status == status && e.sequence == r.value
                  && RevokeError(env.verifier, old(Contents()).revocations, e).None?
                  && Contents() == Step(env, old(Contents()), Post(e))
      ensures log != null ==> log.Valid(h)
      ensures log != null && r.Err? ==> log.entries == old(log.entries)
      ensures log != null && r.Ok? && Cascades(subject, status) ==>
                var n := |Descendants(old(Contents()).index, subject.cid)|;
                Records(old(log.entries), log.entries,
                        [PostedEvent(subject.cid).(ts := clock), CascadeEvent(subject.cid, n).(ts := clock2)])
      ensures log != null && r.Ok? && !Cascades(subject, status) ==>
                Records(old(log.entries), log.entries, [RevokedEvent(subject.cid, status).(ts := clock)])
    {
      hide Inv, Cascaded, Descendants, ReportOf, Records, RevokedEvent, PostedEvent, CascadeEvent, Has, GoodHash,
           Audit.GoodHasher, Audit.Linked, Audit.IncreasingUpTo;
      RevokedHasFields(subject.cid, status);
      var refusal := RevokeRefusal(subject, scope, status);
      if refusal.Some? { return Err(refusal.value); }
      if Cascades(subject, status) {
        NoEmptyDescendant(env, Contents(), subject.cid);
        var n := revocations.CurrentSeq(subject.cid);
        var done := ExecuteCascade(subject.cid, registrations, revocations, env.verifier, env.signer, None, log, h,
                                   clock, clock2);
        return Ok(n + 1);
      }
      var key := subject.Key();
      var n := revocations.CurrentSeq(key);
      var entry := env.signer.mint(subject, scope, status, key, n + 1);
      var refused := revocations.Revoke(env.verifier, entry);
      Note(log, h, RevokedEvent(subject.cid, status), clock);
      return Ok(n + 1);
    }

    method UpdateFromList(env: Env, list: RevocationList, pub: Bytes) returns (err: Option<RevocationError>)
      modifies revocations
      ensures err == ListError(env.verifier, old(Contents()).listSeq, list, pub)
      ensures Contents() == Step(env, old(Contents()), ApplyList(list, pub))
    {
      err := revocations.UpdateFromList(env.verifier, list, pub);
    }

    method ReconcileIndex(env: Env) returns (report: Report)
      modifies registrations
      ensures Contents() == Step(env, old(Contents()), Reconcile)
      ensures var s := old(Contents());
              report == ReconcileAll(env.codec, s.credentials, s.index, s.order).1
    {
      hide ReconcileAll;
      var cids := ListCredentials();
      report := Registration.Reconcile(env.codec, credentials, cids, registrations);
    }
  }

  lemma RevokedHasFields(cid: string, status: Status)
    ensures RevokedEvent(cid, status).payload.Fields? && RevokedEvent(cid, status).ts == 0
  {}

  lemma NoEmptyDescendant(env: Env, s: State, cid: string)
    requires GoodEnv(env) && Inv(env.codec, s)
    ensures !Has(s.index, cid, "")
  {
    hide Has, Resolves;
    assert forall c | c in s.credentials :: env.codec.cid(s.credentials[c]) != "";
  }
}
