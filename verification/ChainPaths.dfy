/**
 * What the chain walk finds: the one prf path from a leaf to a root, and why it
 * stops when there is none within the limits.
 */
module ChainPaths {
  import opened Wrappers
  import opened Chain

  /** The prf path from leaf to a root: every element is stored under its hash and names the next. */
  ghost predicate IsPath(codec: Codec, store: Store, leaf: string, es: seq<Element>)
    decreases |es|
  {
    && es != []
    && Fetch(codec, store, leaf) == Ok(es[0])
    && if es[0].IsRoot() then |es| == 1 else IsPath(codec, store, es[0].ParentCid(), es[1..])
  }

  function TotalWeight(es: seq<Element>): nat {
    if es == [] then 0 else es[0].Weight() + TotalWeight(es[1..])
  }

  // ---- paths ----

  lemma {:induction false} PathUnique(codec: Codec, store: Store, leaf: string, es: seq<Element>, fs: seq<Element>)
    requires IsPath(codec, store, leaf, es) && IsPath(codec, store, leaf, fs)
    ensures es == fs
    decreases |es|
  {
    hide Fetch;
    if !es[0].IsRoot() {
      PathUnique(codec, store, es[0].ParentCid(), es[1..], fs[1..]);
    }
    assert es == [es[0]] + es[1..] && fs == [fs[0]] + fs[1..];
  }

  /** Every suffix of a path is the path of its own head. */
  lemma {:induction false} PathSuffix(codec: Codec, store: Store, leaf: string, es: seq<Element>, k: nat)
    requires IsPath(codec, store, leaf, es) && k < |es|
    ensures IsPath(codec, store, es[k].cid, es[k..])
    ensures TotalWeight(es[k..]) <= TotalWeight(es)
    decreases |es|
  {
    hide Fetch;
    if k > 0 {
      PathSuffix(codec, store, es[0].ParentCid(), es[1..], k - 1);
      assert es[1..][k - 1..] == es[k..];
    } else {
      assert es[0..] == es;
      FetchNames(codec, store, leaf);
    }
  }

  lemma FetchNames(codec: Codec, store: Store, cid: string)
    requires Fetch(codec, store, cid).Ok?
    ensures Fetch(codec, store, cid).value.cid == cid
  {}

  /** A path never meets the same CID twice. */
  lemma PathDistinct(codec: Codec, store: Store, leaf: string, es: seq<Element>)
    requires IsPath(codec, store, leaf, es)
    ensures forall i, j | 0 <= i < j < |es| :: es[i].cid != es[j].cid
  {
    hide IsPath;
    forall i, j | 0 <= i < j < |es| ensures es[i].cid != es[j].cid {
      PathSuffix(codec, store, leaf, es, i);
      PathSuffix(codec, store, leaf, es, j);
      if es[i].cid == es[j].cid {
        PathUnique(codec, store, es[i].cid, es[i..], es[j..]);
      }
    }
  }

  /** Only the last element of a path is a root; every other one is a block naming the next CID. */
  lemma {:induction false} PathShape(codec: Codec, store: Store, leaf: string, es: seq<Element>)
    requires IsPath(codec, store, leaf, es)
    ensures es[0].cid == leaf && es[|es| - 1].IsRoot()
    ensures forall i | 0 <= i < |es| - 1 :: es[i].BlockElement? && es[i].block.prf == es[i + 1].cid
    decreases |es|
  {
    hide Fetch;
    FetchNames(codec, store, leaf);
    FetchShape(codec, store, leaf);
    if !es[0].IsRoot() {
      PathShape(codec, store, es[0].ParentCid(), es[1..]);
      assert forall i | 0 < i < |es| - 1 :: es[i] == es[1..][i - 1];
    }
  }

  lemma FetchShape(codec: Codec, store: Store, cid: string)
    requires Fetch(codec, store, cid).Ok?
    ensures Fetch(codec, store, cid).value.IsRoot() || Fetch(codec, store, cid).value.BlockElement?
  {}

  // ---- the walk against the paths ----

  lemma {:induction false} WalkFindsPath(codec: Codec, store: Store, cap: nat, cid: string, seen: set<string>,
                                         hops: nat, weight: nat)
    requires hops <= cap + 1
    ensures match Walk(codec, store, cap, cid, seen, hops, weight)
            case Err(_) => true
            case Ok(es) =>
              && IsPath(codec, store, cid, es)
              && hops + |es| - 1 <= cap && weight + TotalWeight(es) <= MAX_CHAIN_CAPS_CAVEATS
    decreases cap + 1 - hops
  {
    hide Fetch;
    var found := Walk(codec, store, cap, cid, seen, hops, weight);
    if found.Ok? {
      var elem := Fetch(codec, store, cid).value;
      if !elem.IsRoot() {
        WalkFindsPath(codec, store, cap, elem.ParentCid(), seen + {cid}, hops + 1, weight + elem.Weight());
        assert found.value[1..] ==
               Walk(codec, store, cap, elem.ParentCid(), seen + {cid}, hops + 1, weight + elem.Weight()).value;
      }
    }
  }

  lemma {:induction false} PathIsFound(codec: Codec, store: Store, cap: nat, cid: string, seen: set<string>,
                                       hops: nat, weight: nat, es: seq<Element>)
    requires IsPath(codec, store, cid, es)
    requires hops + |es| - 1 <= cap && weight + TotalWeight(es) <= MAX_CHAIN_CAPS_CAVEATS
    requires forall i | 0 <= i < |es| :: es[i].cid !in seen
    ensures Walk(codec, store, cap, cid, seen, hops, weight) == Ok(es)
    decreases |es|
  {
    PathDistinct(codec, store, cid, es);
    PathIsFoundStep(codec, store, cid, es);
    hide Fetch, Walk, Element.IsRoot, Element.Weight, Prepend;
    WalkStep(codec, store, cap, cid, seen, hops, weight, es[0]);
    if !es[0].IsRoot() {
      var rest := es[1..];
      assert forall i | 0 <= i < |rest| :: rest[i] == es[i + 1];
      PathIsFound(codec, store, cap, es[0].ParentCid(), seen + {cid}, hops + 1, weight + es[0].Weight(), rest);
      PrependHead(es);
    } else {
      assert es == [es[0]];
    }
  }

  /** One step of the walk at an element within the limits. */
  lemma WalkStep(codec: Codec, store: Store, cap: nat, cid: string, seen: set<string>, hops: nat, weight: nat,
                 elem: Element)
    requires cid != "" && cid !in seen && Fetch(codec, store, cid) == Ok(elem)
    requires hops <= cap && weight + elem.Weight() <= MAX_CHAIN_CAPS_CAVEATS
    ensures Walk(codec, store, cap, cid, seen, hops, weight) ==
            if elem.IsRoot() then Ok([elem])
            else
              Prepend([elem],
                      Walk(codec, store, cap, elem.ParentCid(), seen + {cid}, hops + 1, weight + elem.Weight()))
  {
    hide Fetch, Prepend;
  }

  lemma PrependHead(es: seq<Element>)
    requires es != []
    ensures Prepend([es[0]], Ok(es[1..])) == Ok(es)
  {
    assert es == [es[0]] + es[1..];
  }

  lemma PathIsFoundStep(codec: Codec, store: Store, cid: string, es: seq<Element>)
    requires IsPath(codec, store, cid, es)
    ensures cid != "" && es[0].cid == cid
  {}

  /**
   * A chain is built exactly when the prf path from the leaf reaches a root within the
   * clamped depth and the weight limit; distinctness of its CIDs comes for free.
   */
  lemma BuildsExactly(codec: Codec, store: Store, leaf: string, maxDepth: int, es: seq<Element>)
    ensures Build(codec, store, leaf, maxDepth) == Ok(es) <==>
            && IsPath(codec, store, leaf, es)
            && |es| - 1 <= ClampDepth(maxDepth)
            && TotalWeight(es) <= MAX_CHAIN_CAPS_CAVEATS
  {
    hide IsPath, Walk;
    WalkFindsPath(codec, store, ClampDepth(maxDepth), leaf, {}, 0, 0);
    if && IsPath(codec, store, leaf, es)
       && |es| - 1 <= ClampDepth(maxDepth)
       && TotalWeight(es) <= MAX_CHAIN_CAPS_CAVEATS {
      PathIsFound(codec, store, ClampDepth(maxDepth), leaf, {}, 0, 0, es);
    }
  }

  /** The chain of an ancestor is the corresponding suffix of the leaf's chain. */
  lemma SuffixBuilds(codec: Codec, store: Store, leaf: string, maxDepth: int, es: seq<Element>, k: nat)
    requires Build(codec, store, leaf, maxDepth) == Ok(es) && k < |es|
    ensures Build(codec, store, es[k].cid, maxDepth) == Ok(es[k..])
  {
    hide Build, IsPath;
    BuildsExactly(codec, store, leaf, maxDepth, es);
    PathSuffix(codec, store, leaf, es, k);
    BuildsExactly(codec, store, es[k].cid, maxDepth, es[k..]);
  }

  ghost predicate Extends(store: Store, larger: Store) {
    forall c | c in store :: c in larger && larger[c] == store[c]
  }

  lemma {:induction false} PathInLarger(codec: Codec, store: Store, larger: Store, leaf: string, es: seq<Element>)
    requires IsPath(codec, store, leaf, es) && Extends(store, larger)
    ensures IsPath(codec, larger, leaf, es)
    decreases |es|
  {
    FetchInLarger(codec, store, larger, leaf);
    hide Fetch;
    if !es[0].IsRoot() {
      PathInLarger(codec, store, larger, es[0].ParentCid(), es[1..]);
    }
  }

  lemma FetchInLarger(codec: Codec, store: Store, larger: Store, cid: string)
    requires Fetch(codec, store, cid).Ok? && Extends(store, larger)
    ensures Fetch(codec, larger, cid) == Fetch(codec, store, cid)
  {}

  /** Adding credentials or raising the cap never changes a chain that is already built. */
  lemma BuildMonotone(codec: Codec, store: Store, larger: Store, leaf: string, maxDepth: int, higher: int,
                      es: seq<Element>)
    requires Build(codec, store, leaf, maxDepth) == Ok(es)
    requires Extends(store, larger) && ClampDepth(maxDepth) <= ClampDepth(higher)
    ensures Build(codec, larger, leaf, higher) == Ok(es)
  {
    hide Build, IsPath, ClampDepth;
    BuildsExactly(codec, store, leaf, maxDepth, es);
    PathInLarger(codec, store, larger, leaf, es);
    BuildsExactly(codec, larger, leaf, higher, es);
  }

  /** Every credential is stored under its own hash. */
  ghost predicate Addressed(codec: Codec, store: Store) {
    forall c | c in store :: codec.cid(store[c]) == c
  }

  /** With a collision-free hash, storing under the hash never replaces anything. */
  lemma PutExtends(codec: Codec, store: Store, raw: Bytes)
    requires GoodHash(codec) && Addressed(codec, store)
    ensures Extends(store, store[codec.cid(raw) := raw]) && Addressed(codec, store[codec.cid(raw) := raw])
  {
    if codec.cid(raw) in store { assert codec.cid(store[codec.cid(raw)]) == codec.cid(raw); }
  }

  // ---- why a walk stops ----

  /** The first check that cid fails, coming after the elements of a partial walk. */
  ghost function Fault(codec: Codec, store: Store, cap: nat, before: seq<Element>, cid: string): Option<ChainError> {
    if cid == "" then Some(ChainBroken)
    else if exists i :: 0 <= i < |before| && before[i].cid == cid then Some(CircularChain)
    else
      match Fetch(codec, store, cid)
      case Err(e) => Some(e)
      case Ok(elem) =>
        if TotalWeight(before + [elem]) > MAX_CHAIN_CAPS_CAVEATS then Some(ChainTooWide)
        else if |before| > cap then Some(ChainTooDeep)
        else None
  }

  /** A faultless walk from leaf over the given blocks, about to look at next. */
  ghost predicate Partial(codec: Codec, store: Store, cap: nat, leaf: string, before: seq<Element>, next: string) {
    if before == [] then next == leaf
    else
      var init, last := before[..|before| - 1], before[|before| - 1];
      && Partial(codec, store, cap, leaf, init, last.cid)
      && Fault(codec, store, cap, init, last.cid) == None
      && Fetch(codec, store, last.cid) == Ok(last)
      && !last.IsRoot() && next == last.ParentCid()
  }

  ghost function SeenIn(before: seq<Element>): set<string> {
    set i | 0 <= i < |before| :: before[i].cid
  }

  lemma {:induction false} WeightSnoc(es: seq<Element>, e: Element)
    ensures TotalWeight(es + [e]) == TotalWeight(es) + e.Weight()
  {
    if es == [] {
      assert [] + [e] == [e];
    } else {
      WeightSnoc(es[1..], e);
      assert (es + [e])[1..] == es[1..] + [e];
    }
  }

  /** From any partial walk, the rest of the walk either builds a chain or ends at the first fault. */
  lemma {:induction false} WalkEnds(codec: Codec, store: Store, cap: nat, leaf: string, before: seq<Element>,
                                    cid: string)
    requires |before| <= cap + 1 && Partial(codec, store, cap, leaf, before, cid)
    ensures match Walk(codec, store, cap, cid, SeenIn(before), |before|, TotalWeight(before))
            case Ok(_) => true
            case Err(e) =>
              exists es, next ::
                Partial(codec, store, cap, leaf, es, next) && Fault(codec, store, cap, es, next) == Some(e)
    decreases cap + 1 - |before|
  {
    hide Fetch, Partial;
    var seen := SeenIn(before);
    if cid == "" || cid in seen || Fetch(codec, store, cid).Err? {
    } else {
      var elem := Fetch(codec, store, cid).value;
      WeightSnoc(before, elem);
      if Fault(codec, store, cap, before, cid) == None && !elem.IsRoot() {
        var longer := before + [elem];
        FetchNames(codec, store, cid);
        PartialSnoc(codec, store, cap, leaf, before, elem);
        SeenSnoc(before, elem);
        WalkEnds(codec, store, cap, leaf, longer, elem.ParentCid());
      }
    }
  }

  lemma SeenSnoc(before: seq<Element>, elem: Element)
    ensures SeenIn(before + [elem]) == SeenIn(before) + {elem.cid}
  {
    var longer := before + [elem];
    forall c ensures c in SeenIn(longer) <==> c in SeenIn(before) + {elem.cid} {
      if c in SeenIn(before) {
        var i :| 0 <= i < |before| && before[i].cid == c;
        assert longer[i].cid == c;
      }
      assert longer[|before|] == elem;
    }
  }

  lemma PartialSnoc(codec: Codec, store: Store, cap: nat, leaf: string, before: seq<Element>, elem: Element)
    requires Partial(codec, store, cap, leaf, before, elem.cid)
    requires Fault(codec, store, cap, before, elem.cid) == None
    requires Fetch(codec, store, elem.cid) == Ok(elem) && !elem.IsRoot()
    ensures Partial(codec, store, cap, leaf, before + [elem], elem.ParentCid())
  {
    hide Fetch, Fault;
    assert (before + [elem])[..|before|] == before;
  }

  lemma StageStep(codec: Codec, store: Store, cap: nat, init: seq<Element>, last: Element)
    requires Fault(codec, store, cap, init, last.cid) == None
    requires Fetch(codec, store, last.cid) == Ok(last) && !last.IsRoot()
    ensures |init| <= cap
    ensures Walk(codec, store, cap, last.cid, SeenIn(init), |init|, TotalWeight(init)) ==
            Prepend([last], Walk(codec, store, cap, last.ParentCid(), SeenIn(init) + {last.cid}, |init| + 1,
                                 TotalWeight(init) + last.Weight()))
  {
    hide Fetch, TotalWeight;
    WeightSnoc(init, last);
  }

  /** A partial walk is a stage of the walk from the leaf. */
  lemma {:induction false} PartialIsStage(codec: Codec, store: Store, cap: nat, leaf: string, before: seq<Element>,
                                          next: string)
    requires Partial(codec, store, cap, leaf, before, next)
    ensures |before| <= cap + 1
    ensures Walk(codec, store, cap, leaf, {}, 0, 0) ==
            Prepend(before, Walk(codec, store, cap, next, SeenIn(before), |before|, TotalWeight(before)))
    decreases |before|
  {
    hide Fetch, Prepend, TotalWeight, SeenIn;
    if before == [] {
      PartialEmpty(codec, store, cap, leaf);
      PrependEmpty(Walk(codec, store, cap, leaf, {}, 0, 0));
    } else {
      var init, last := before[..|before| - 1], before[|before| - 1];
      assert before == init + [last];
      PartialIsStage(codec, store, cap, leaf, init, last.cid);
      WeightSnoc(init, last);
      SeenSnoc(init, last);
      StageStep(codec, store, cap, init, last);
      PrependSnoc(init, last, Walk(codec, store, cap, next, SeenIn(before), |before|, TotalWeight(before)));
    }
  }

  /** A walk fails exactly with the first fault met along the prf links. */
  lemma FailsAtFirstFault(codec: Codec, store: Store, leaf: string, maxDepth: int, e: ChainError)
    ensures Build(codec, store, leaf, maxDepth) == Err(e) <==>
            exists es, next ::
              && Partial(codec, store, ClampDepth(maxDepth), leaf, es, next)
              && Fault(codec, store, ClampDepth(maxDepth), es, next) == Some(e)
  {
    hide Partial, Fault, Walk;
    var cap := ClampDepth(maxDepth);
    if Build(codec, store, leaf, maxDepth) == Err(e) {
      PartialEmpty(codec, store, cap, leaf);
      WalkEnds(codec, store, cap, leaf, [], leaf);
    }
    forall es, next | Partial(codec, store, cap, leaf, es, next) && Fault(codec, store, cap, es, next) == Some(e)
      ensures Build(codec, store, leaf, maxDepth) == Err(e)
    {
      PartialIsStage(codec, store, cap, leaf, es, next);
      FaultStops(codec, store, cap, es, next, e);
    }
  }

  lemma PartialEmpty(codec: Codec, store: Store, cap: nat, leaf: string)
    ensures Partial(codec, store, cap, leaf, [], leaf) && SeenIn([]) == {} && TotalWeight([]) == 0
  {}

  lemma FaultStops(codec: Codec, store: Store, cap: nat, before: seq<Element>, next: string, e: ChainError)
    requires |before| <= cap + 1 && Fault(codec, store, cap, before, next) == Some(e)
    ensures Walk(codec, store, cap, next, SeenIn(before), |before|, TotalWeight(before)) == Err(e)
  {
    hide Fetch;
    if Fetch(codec, store, next).Ok? { WeightSnoc(before, Fetch(codec, store, next).value); }
  }

  ghost function Successor(links: seq<Element>, back: nat, i: nat): Element
    requires i < |links| && back < |links|
  {
    if i + 1 == |links| then links[back] else links[i + 1]
  }

  /** Stored blocks, each naming the next, the last one naming one that came before: a tail, then a cycle. */
  ghost predicate LeadsIntoCycle(codec: Codec, store: Store, links: seq<Element>, back: nat) {
    && back < |links|
    && forall i | 0 <= i < |links| ::
         && !links[i].IsRoot() && Fetch(codec, store, links[i].cid) == Ok(links[i])
         && links[i].ParentCid() == Successor(links, back, i).cid
  }

  /** A CID whose prf links run into a cycle, or lie on one, has no chain, whatever the depth. */
  lemma CycleNeverBuilds(codec: Codec, store: Store, links: seq<Element>, back: nat, maxDepth: int)
    requires LeadsIntoCycle(codec, store, links, back)
    ensures Build(codec, store, links[0].cid, maxDepth).Err?
  {
    hide Build, IsPath, Fetch;
    var built := Build(codec, store, links[0].cid, maxDepth);
    if built.Ok? {
      var es := built.value;
      BuildsExactly(codec, store, links[0].cid, maxDepth, es);
      PathFollows(codec, store, links, back, es, back);
      PathFollows(codec, store, links, back, es, |links|);
      PathUnique(codec, store, links[back].cid, es[back..], es[|links|..]);
    }
  }

  /** A path that starts on such links runs along them and comes back to where the cycle begins. */
  lemma {:induction false} PathFollows(codec: Codec, store: Store, links: seq<Element>, back: nat, es: seq<Element>,
                                       k: nat)
    requires LeadsIntoCycle(codec, store, links, back) && k <= |links|
    requires IsPath(codec, store, links[0].cid, es)
    ensures k <= |es| && IsPath(codec, store, (if k < |links| then links[k] else links[back]).cid, es[k..])
  {
    hide IsPath, Fetch;
    if k == 0 {
      assert es[0..] == es;
    } else {
      PathFollows(codec, store, links, back, es, k - 1);
      PathStep(codec, store, links[k - 1], es[k - 1..]);
      assert es[k - 1..][1..] == es[k..];
    }
  }

  lemma PathStep(codec: Codec, store: Store, e: Element, es: seq<Element>)
    requires IsPath(codec, store, e.cid, es) && !e.IsRoot() && Fetch(codec, store, e.cid) == Ok(e)
    ensures es != [] && IsPath(codec, store, e.ParentCid(), es[1..])
  {
    hide Fetch;
  }
}
