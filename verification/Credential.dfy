/** Credentials: capabilities, caveats, root tokens and RESTRICT blocks. */
module Credential {
  import opened Wrappers
  import Canonicalizer
  import Uri

  const CAN_AGENT_DELEGATE := "agent/delegate"

  /** The closed ability set of this credential version. */
  const KNOWN_ABILITIES: set<string> :=
    {"tool/invoke", "resource/read", "resource/write", CAN_AGENT_DELEGATE, "api/call"}

  const MAX_CAPABILITIES := 100
  const MAX_CAVEATS_PER_BLOCK := 50
  const RESTRICT_BLOCK_TYP := "adtp/cav/1"

  /** A half-open interval in UNIX seconds. */
  datatype TimeWindow = TimeWindow(start: int, end: int) {
    predicate Valid() { 0 <= start < end }
  }

  /**
   * A restriction, carried by a capability or by a RESTRICT block. A list of actions or methods
   * may be missing altogether, which is not the same on the wire as an empty one.
   */
  datatype Constraint =
    | Within(interval: TimeWindow)
    | Budget(dim: string, limit: int, window: Option<TimeWindow>, scope: string, meter: string)
    | ParamLimit(field: string, max: int)
    | ParameterSchema(schema: Bytes)
    | ResourceRestrict(resource: string)
    | ActionRestrict(actions: Option<seq<string>>)
    | MethodRestrict(methods: Option<seq<string>>)
    | MaxCalls(limit: int, window: Option<TimeWindow>)
    | DelegationDepth(max: int)
    | Raw(typeName: string, raw: Bytes)
  {
    predicate Valid() {
      match this
      case Within(w) => w.Valid()
      case Budget(d, l, w, s, m) =>
        && d != "" && l >= 0
        && s in {"leaf", "chain"} && m in {"verifier", "receipts"}
        && (w.Some? ==> w.value.Valid())
      case ParamLimit(f, m) => f != "" && m >= 0
      case ParameterSchema(s) => s != [] && Canonicalizer.ValueOf(s).Some?
      case ResourceRestrict(r) => IsCanonicalUri(r)
      case ActionRestrict(acts) => acts.Some? && acts.value != [] && forall a | a in acts.value :: a in KNOWN_ABILITIES
      case MethodRestrict(ms) => ms.Some? && ms.value != []
      case MaxCalls(l, w) => l >= 0 && (w.Some? ==> w.value.Valid())
      case DelegationDepth(m) => m >= 0
      case Raw(t, _) => t != ""
    }
  }

  /** URIs that the profile maps to themselves. */
  predicate IsCanonicalUri(u: string) { Uri.CanonicalizeURI(u) == Ok(u) }

  /** One grant: an ability over the resources a URI pattern covers, under constraints. */
  datatype Capability = Capability(can: string, with: string, constraints: seq<Constraint>) {
    predicate Valid() {
      && can in KNOWN_ABILITIES
      && IsCanonicalUri(with)
      && forall c | c in constraints :: c.Valid()
    }
  }

  /** The claims of a token, and the octets its signature covers. */
  datatype Ucan = Ucan(
    iss: string, aud: string, att: seq<Capability>, prf: seq<string>, exp: int, nbf: int, iat: int,
    signingInput: Bytes, signature: Bytes, raw: Bytes)

  /** A signed hop: caveats added to the parent credential named by prf. */
  datatype RestrictBlock = RestrictBlock(
    typ: string, iss: string, aud: string, prf: string, nbf: int, exp: int, dl: int,
    cav: seq<Constraint>, crit: seq<string>, sig: string)

  /** What a hop reads from the credential it delegates from. */
  datatype DelegationParent = DelegationParent(cid: string, aud: string, exp: int, nbf: int, dl: int)

  /** The first delegation_depth among constraints. */
  function DepthIn(cs: seq<Constraint>): Option<int> {
    if cs == [] then None
    else if cs[0].DelegationDepth? then Some(cs[0].max)
    else DepthIn(cs[1..])
  }

  /** The first delegation_depth on an agent/delegate capability: how far a token may be delegated. */
  function DelegableDepth(att: seq<Capability>): Option<int> {
    if att == [] then None
    else if att[0].can == CAN_AGENT_DELEGATE && DepthIn(att[0].constraints).Some? then
      DepthIn(att[0].constraints)
    else DelegableDepth(att[1..])
  }
}
