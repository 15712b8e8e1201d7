/**
 * Chain construction: the walk over prf links from a leaf to its root, and the
 * paths that walk is a search for.
 */
module Chain {
  import opened Wrappers
  import opened Credential
  import Utf8

  const DEFAULT_MAX_DEPTH := 10
  const HARD_MAX_DEPTH := 100
  const MAX_CHAIN_CAPS_CAVEATS := 1000

  datatype ChainError =
    | ProofNotFound
    | CidMismatch
    | CircularChain
    | ChainTooDeep
    | ChainTooWide
    | ChainBroken
    | BranchingUnsupported
    | NonRootToken

  /** Hashing and parsing of stored octets. */
  datatype Codec = Codec(
    cid: Bytes -> string,
    parseToken: Bytes -> Option<Ucan>,
    parseBlock: Bytes -> Option<RestrictBlock>)

  /** The hash is collision-free and never gives the empty identifier. */
  ghost predicate GoodHash(codec: Codec) {
    && (forall a, b :: codec.cid(a) == codec.cid(b) ==> a == b)
    && (forall a :: codec.cid(a) != "")
  }

  type Store = map<string, Bytes>

  /** One credential of a chain. */
  datatype Element =
    | TokenElement(cid: string, token: Ucan)
    | BlockElement(cid: string, block: RestrictBlock)
  {
    function Iss(): string { if TokenElement? then token.iss else block.iss }

    function Aud(): string { if TokenElement? then token.aud else block.aud }

    function Exp(): int { if TokenElement? then token.exp else block.exp }

    function Nbf(): int { if TokenElement? then token.nbf else block.nbf }

    function ParentCid(): string {
      if BlockElement? then block.prf
      else if |token.prf| == 1 then token.prf[0]
      else ""
    }

    function DepthLeft(): Option<int> {
      if BlockElement? then Some(block.dl) else DelegableDepth(token.att)
    }

    predicate IsRoot() { TokenElement? && token.prf == [] }

    /** Capabilities plus caveats. */
    function Weight(): nat {
      if BlockElement? then |block.cav| else AttWeight(token.att)
    }
  }

  function AttWeight(att: seq<Capability>): nat {
    if att == [] then 0 else 1 + |att[0].constraints| + AttWeight(att[1..])
  }

  // ---- one element ----

  /** Unicode white space. */
  predicate IsSpace(c: char) {
    var n := c as int;
    || 0x09 <= n <= 0x0D || n == 0x20 || n == 0x85 || n == 0xA0 || n == 0x1680
    || 0x2000 <= n <= 0x200A || n == 0x2028 || n == 0x2029 || n == 0x202F || n == 0x205F || n == 0x3000
  }

  /** Whether the first octet after leading white space opens a JSON object. */
  predicate LooksLikeBlock(raw: Bytes) {
    if raw == [] then false
    else
      match Utf8.DecodeChar(raw)
      case None => false
      case Some((c, n)) => if IsSpace(c) then 0 < n <= |raw| && LooksLikeBlock(raw[n..]) else c == '{'
  }

  function ParseElement(codec: Codec, raw: Bytes, cid: string): (r: Result<Element, ChainError>)
    ensures r.Ok? ==> r.value.cid == cid && (r.value.TokenElement? ==> r.value.IsRoot())
  {
    if LooksLikeBlock(raw) then
      match codec.parseBlock(raw)
      case None => Err(ChainBroken)
      case Some(b) => Ok(BlockElement(cid, b))
    else
      match codec.parseToken(raw)
      case None => Err(ChainBroken)
      case Some(t) =>
        if |t.prf| == 0 then Ok(TokenElement(cid, t))
        else if |t.prf| == 1 then Err(NonRootToken)
        else Err(BranchingUnsupported)
  }

  /** One step of the walk, before the limits are applied. */
  function Fetch(codec: Codec, store: Store, cid: string): (r: Result<Element, ChainError>)
    ensures r.Ok? ==> r.value.cid == cid && (r.value.TokenElement? ==> r.value.IsRoot())
  {
    if cid == "" then Err(ChainBroken)
    else if cid !in store then Err(ProofNotFound)
    else if codec.cid(store[cid]) != cid then Err(CidMismatch)
    else ParseElement(codec, store[cid], cid)
  }

  // ---- the walk ----

  function ClampDepth(maxDepth: int): (cap: nat)
    ensures 1 <= cap <= HARD_MAX_DEPTH
    ensures 0 < maxDepth <= HARD_MAX_DEPTH ==> cap == maxDepth
  {
    if maxDepth <= 0 then DEFAULT_MAX_DEPTH
    else if maxDepth > HARD_MAX_DEPTH then HARD_MAX_DEPTH
    else maxDepth
  }

  /** The elements from cid on, given the CIDs seen, the hops taken and the weight so far. */
  function Walk(codec: Codec, store: Store, cap: nat, cid: string, seen: set<string>, hops: nat, weight: nat)
    : Result<seq<Element>, ChainError>
    requires hops <= cap + 1
    decreases cap + 1 - hops
  {
    if cid == "" then Err(ChainBroken)
    else if cid in seen then Err(CircularChain)
    else
      match Fetch(codec, store, cid)
      case Err(e) => Err(e)
      case Ok(elem) =>
        var total := weight + elem.Weight();
        if total > MAX_CHAIN_CAPS_CAVEATS then Err(ChainTooWide)
        else if hops > cap then Err(ChainTooDeep)
        else if elem.IsRoot() then Ok([elem])
        else Prepend([elem], Walk(codec, store, cap, elem.ParentCid(), seen + {cid}, hops + 1, total))
  }

  function Prepend(before: seq<Element>, r: Result<seq<Element>, ChainError>): Result<seq<Element>, ChainError> {
    match r
    case Err(e) => Err(e)
    case Ok(rest) => Ok(before + rest)
  }

  lemma PrependSnoc(before: seq<Element>, elem: Element, r: Result<seq<Element>, ChainError>)
    ensures Prepend(before + [elem], r) == Prepend(before, Prepend([elem], r))
  {
    if r.Ok? { assert before + [elem] + r.value == before + ([elem] + r.value); }
  }

  lemma PrependEmpty(r: Result<seq<Element>, ChainError>)
    ensures Prepend([], r) == r
  {
    if r.Ok? { assert [] + r.value == r.value; }
  }

  /** The chain of a leaf under a configured depth. */
  function Build(codec: Codec, store: Store, leaf: string, maxDepth: int): Result<seq<Element>, ChainError> {
    Walk(codec, store, ClampDepth(maxDepth), leaf, {}, 0, 0)
  }

  /** The walk as it runs: a loop over the current CID, the seen set and the running weight. */
  method BuildChain(codec: Codec, store: Store, leaf: string, maxDepth: int)
    returns (r: Result<seq<Element>, ChainError>)
    ensures r == Build(codec, store, leaf, maxDepth)
  {
    hide Fetch;
    var cap := ClampDepth(maxDepth);
    var seen: set<string> := {};
    var elements: seq<Element> := [];
    var total: nat := 0;
    var cid := leaf;
    PrependEmpty(Build(codec, store, leaf, maxDepth));
    while true
      invariant |elements| <= cap + 1
      invariant Build(codec, store, leaf, maxDepth) ==
                Prepend(elements, Walk(codec, store, cap, cid, seen, |elements|, total))
      decreases cap + 1 - |elements|
    {
      if cid == "" { return Err(ChainBroken); }
      if cid in seen { return Err(CircularChain); }
      var fetched := Fetch(codec, store, cid);
      if fetched.Err? { return Err(fetched.error); }
      var elem := fetched.value;
      ghost var before := elements;
      elements := elements + [elem];
      total := total + elem.Weight();
      if total > MAX_CHAIN_CAPS_CAVEATS { return Err(ChainTooWide); }
      if |elements| - 1 > cap { return Err(ChainTooDeep); }
      if elem.IsRoot() { return Ok(elements); }
      PrependSnoc(before, elem, Walk(codec, store, cap, elem.ParentCid(), seen + {cid}, |elements|, total));
      seen, cid := seen + {cid}, elem.ParentCid();
    }
  }

  // ---- a proof store ----

  class MemoryProofStore {
    var m: Store

    constructor ()
      ensures m == map[]
    {
      m := map[];
    }

    method Put(codec: Codec, raw: Bytes) returns (cid: string)
      modifies this
      ensures cid == codec.cid(raw) && m == old(m)[cid := raw]
    {
      cid := codec.cid(raw);
      m := m[cid := raw];
    }

    /** Stores octets from an untrusted source only under their own hash. */
    method PutVerified(codec: Codec, raw: Bytes, claimed: string) returns (ok: bool)
      modifies this
      ensures ok <==> codec.cid(raw) == claimed
      ensures m == if ok then old(m)[claimed := raw] else old(m)
    {
      if codec.cid(raw) != claimed { return false; }
      var cid := Put(codec, raw);
      return true;
    }
  }
}
