/** Issuing root tokens: what the platform grants, and that what it grants is a chain of its own. */
module Roots {
  import opened Wrappers
  import opened Blocks
  import opened Chain
  import opened Credential
  import opened Registration
  import opened Service
  import opened Steps
  import DidKey

  const PRIVATE_KEY_SIZE := 64

  /** The claim set of a token. */
  datatype Claims = Claims(
    iss: string, aud: string, att: seq<Capability>, prf: seq<string>, exp: int, nbf: int, iat: int)

  datatype TokenError =
    | InvalidKey
    | MissingField
    | MissingExpiry
    | InvalidExpiry
    | TooManyCapabilities
    | InvalidCapability
    | Unserializable

  /** The platform's identity and key, and the making of signed compact tokens with it. */
  datatype Platform = Platform(did: string, keySize: nat, compact: Claims -> Option<Bytes>)

  /** The sum as a 64-bit integer, which wraps around. */
  function Int64(n: int): int { (n + 0x8000_0000_0000_0000) % 0x1_0000_0000_0000_0000 - 0x8000_0000_0000_0000 }

  // ---- tokens ----

  function TokenRefusal(p: Claims): Option<TokenError> {
    if p.iss == "" || p.aud == "" then Some(MissingField)
    else if p.exp <= 0 then Some(MissingExpiry)
    else if p.nbf < 0 || p.iat < 0 then Some(InvalidExpiry)
    else if p.nbf > 0 && p.exp <= p.nbf then Some(InvalidExpiry)
    else if |p.att| > MAX_CAPABILITIES then Some(TooManyCapabilities)
    else if exists c | c in p.att :: !c.Valid() then Some(InvalidCapability)
    else None
  }

  function Token(platform: Platform, p: Claims): Result<Bytes, TokenError> {
    if platform.keySize != PRIVATE_KEY_SIZE then Err(InvalidKey)
    else if TokenRefusal(p).Some? then Err(TokenRefusal(p).value)
    else
      match platform.compact(p)
      case None => Err(Unserializable)
      case Some(raw) => Ok(raw)
  }

  /** The making of a token as it runs: the claims are checked in order, the capabilities one by one. */
  method CreateUcan(platform: Platform, p: Claims) returns (r: Result<Bytes, TokenError>)
    ensures r == Token(platform, p)
  {
    hide Capability.Valid;
    if platform.keySize != PRIVATE_KEY_SIZE { return Err(InvalidKey); }
    if p.iss == "" || p.aud == "" { return Err(MissingField); }
    if p.exp <= 0 { return Err(MissingExpiry); }
    if p.nbf < 0 || p.iat < 0 || (p.nbf > 0 && p.exp <= p.nbf) { return Err(InvalidExpiry); }
    if |p.att| > MAX_CAPABILITIES { return Err(TooManyCapabilities); }
    for i := 0 to |p.att|
      invariant forall j | 0 <= j < i :: p.att[j].Valid()
    {
      if !p.att[i].Valid() { return Err(InvalidCapability); }
    }
    var raw := platform.compact(p);
    return if raw.None? then Err(Unserializable) else Ok(raw.value);
  }

  // ---- requests ----

  datatype IssueFailure =
    | InvalidAgentDid
    | IncompleteGrant
    | AgentNotRegistered
    | InvalidCredential(error: TokenError)

  /** The claims of a grant made now: the window opens at once. */
  function GrantClaims(platform: Platform, agent: string, att: seq<Capability>, expSeconds: int, now: int): Claims {
    Claims(platform.did, agent, att, [], Int64(now + expSeconds), now, now)
  }

  /** What an issuing request comes down to before anything is stored: an error, or the token to store. */
  function IssueRequest(platform: Platform, registered: string -> bool, agent: string, att: seq<Capability>,
                        expSeconds: int, now: int): Result<Bytes, IssueFailure>
  {
    if DidKey.ParseDid(agent).None? then Err(InvalidAgentDid)
    else if att == [] || expSeconds <= 0 then Err(IncompleteGrant)
    else if !registered(agent) then Err(AgentNotRegistered)
    else
      match Token(platform, GrantClaims(platform, agent, att, expSeconds, now))
      case Err(e) => Err(InvalidCredential(e))
      case Ok(raw) => Ok(raw)
  }

  // ---- an issued token is a chain ----

  /** The token says what the claims say. */
  predicate Says(u: Ucan, p: Claims) {
    u.iss == p.iss && u.aud == p.aud && u.att == p.att && u.prf == p.prf && u.exp == p.exp && u.nbf == p.nbf
  }

  /** The constraints of the claims are in the form a decoder would give them. */
  ghost predicate FaithfulGrant(att: seq<Capability>) {
    forall i, j | 0 <= i < |att| && 0 <= j < |att[i].constraints| :: Faithful(att[i].constraints[j])
  }

  /** Compact tokens do not open a JSON object, and parse back to the claims they were made from. */
  ghost predicate GoodPlatform(platform: Platform, codec: Codec) {
    forall p, raw | TokenRefusal(p).None? && FaithfulGrant(p.att) && platform.compact(p) == Some(raw) ::
      !LooksLikeBlock(raw) && codec.parseToken(raw).Some? && Says(codec.parseToken(raw).value, p)
  }

  /** A moment at which the expiry wraps around is one at which nothing is issued. */
  lemma IssuedWindow(platform: Platform, registered: string -> bool, agent: string, att: seq<Capability>,
                     expSeconds: int, now: int)
    requires IssueRequest(platform, registered, agent, att, expSeconds, now).Ok?
    requires 0 <= now < 0x8000_0000_0000_0000 && expSeconds < 0x8000_0000_0000_0000
    ensures var p := GrantClaims(platform, agent, att, expSeconds, now);
            TokenRefusal(p).None? && p.exp == now + expSeconds
  {
    hide DidKey.ParseDid, Capability.Valid;
  }

  /** A root token that is stored under its hash is fetched as the root it was issued to be. */
  lemma IssuedIsFetched(codec: Codec, store: Store, platform: Platform, p: Claims)
    requires GoodHash(codec) && GoodPlatform(platform, codec)
    requires Token(platform, p).Ok? && FaithfulGrant(p.att) && p.prf == []
    ensures var raw := Token(platform, p).value;
            && codec.parseToken(raw).Some? && Says(codec.parseToken(raw).value, p)
            && Fetch(codec, store[codec.cid(raw) := raw], codec.cid(raw))
               == Ok(TokenElement(codec.cid(raw), codec.parseToken(raw).value))
  {
    hide LooksLikeBlock, Capability.Valid, FaithfulGrant, TokenRefusal;
  }

  /** The chain of a fetched root is the root, if its weight allows. */
  lemma RootBuilds(codec: Codec, store: Store, root: Element, maxDepth: int)
    requires Fetch(codec, store, root.cid) == Ok(root) && root.IsRoot()
    ensures var built := Build(codec, store, root.cid, maxDepth);
            built == if root.Weight() <= MAX_CHAIN_CAPS_CAVEATS then Ok([root]) else Err(ChainTooWide)
  {
    hide LooksLikeBlock;
  }

  /** A token alone passes the structure and linkage checks, and the window check exactly within its window. */
  lemma SoleToken(root: Element, p: Claims)
    requires root.TokenElement? && Says(root.token, p) && TokenRefusal(p).None?
    ensures Step0Structural([root]).None? && Step2Linkage([root]).None?
    ensures forall t, skew :: Step5Temporal([root], t, skew).None? <==> p.nbf - skew <= t <= p.exp + skew
  {
    hide Capability.Valid;
    forall t, skew ensures Step5Temporal([root], t, skew).None? <==> p.nbf - skew <= t <= p.exp + skew {
      assert [root][1..] == [];
    }
  }

  /**
   * Issuing agrees with verification: in any state a token issued to an agent is registered and is
   * its own chain, which passes steps 0 and 2, has the platform for its root, and passes step 5 from now until
   * the requested seconds have passed, give or take the clock skew. The one exception is a grant of more than
   * a thousand capabilities and constraints, which is stored all the same and never verifies.
   */
  lemma IssuedRoot(env: Env, s: State, platform: Platform, registered: string -> bool, agent: string,
                   att: seq<Capability>, expSeconds: int, now: int)
    requires GoodHash(env.codec) && GoodPlatform(platform, env.codec) && FaithfulGrant(att)
    requires IssueRequest(platform, registered, agent, att, expSeconds, now).Ok?
    requires 0 <= now < 0x8000_0000_0000_0000 && expSeconds < 0x8000_0000_0000_0000
    ensures var raw := IssueRequest(platform, registered, agent, att, expSeconds, now).value;
            var cid, after := env.codec.cid(raw), Step(env, s, Issue(raw));
            var built := Build(env.codec, after.credentials, cid, env.maxChainDepth);
            && Has(after.index, cid, cid)
            && (if AttWeight(att) > MAX_CHAIN_CAPS_CAVEATS then built == Err(ChainTooWide)
                else
                  && built.Ok? && |built.value| == 1
                  && built.value[0].Iss() == platform.did && built.value[0].Aud() == agent
                  && built.value[0].TokenElement? && built.value[0].token.att == att
                  && Step0Structural(built.value).None? && Step2Linkage(built.value).None?
                  && forall t, skew :: Step5Temporal(built.value, t, skew).None? <==>
                                       now - skew <= t <= now + expSeconds + skew)
  {
    hide Fetch, DidKey.ParseDid, Capability.Valid, FaithfulGrant, GoodPlatform, GoodHash, Build, Token, RegisterAll,
         Has, TokenRefusal;
    IssuedWindow(platform, registered, agent, att, expSeconds, now);
    var p := GrantClaims(platform, agent, att, expSeconds, now);
    var raw := Token(platform, p).value;
    var cid := env.codec.cid(raw);
    IssuedIsFetched(env.codec, s.credentials, platform, p);
    var root := TokenElement(cid, env.codec.parseToken(raw).value);
    RootBuilds(env.codec, s.credentials[cid := raw], root, env.maxChainDepth);
    RegisterAllPairs(s.index, cid, [cid]);
    SoleToken(root, p);
  }
}
