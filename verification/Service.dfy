/**
 * The service as a state machine: credentials are stored and registered, subjects are
 * revoked and reinstated, chains are verified; and what holds over every run of it.
 */
module Service {
  import opened Wrappers
  import opened Chain
  import opened ChainPaths
  import opened Registration
  import opened Revocation
  import opened Cascading
  import Attenuation
  import Pop
  import Steps
  import Verifying = Verifier

  /** What the service is configured with. */
  datatype Env = Env(codec: Codec, verifier: Verifier, signer: Signer, maxChainDepth: int)

  ghost predicate GoodEnv(env: Env) { GoodHash(env.codec) && GoodSigner(env.signer, env.verifier) }

  datatype State = State(credentials: Store, order: seq<string>, index: Index, revocations: Latest, listSeq: int)

  const INITIAL := State(map[], [], map[], map[], 0)

  datatype Action =
    | Issue(token: Bytes)
    | Delegate(block: Bytes)
    | Post(entry: Entry)
    | Compromise(cid: string)
    | ApplyList(list: RevocationList, pub: Bytes)
    | Reconcile
    // the stages of the above that other requests may come between
    | StoreOnly(raw: Bytes)
    | RegisterPair(credential: string, chainCid: string)

  // ---- the actions ----

  function Put(codec: Codec, s: State, raw: Bytes): State {
    var cid := codec.cid(raw);
    s.(credentials := s.credentials[cid := raw],
       order := if cid in s.credentials then s.order else s.order + [cid])
  }

  /** A root is registered under its own CID. */
  function IssueStep(codec: Codec, s: State, token: Bytes): State {
    var cid := codec.cid(token);
    Put(codec, s, token).(index := RegisterAll(s.index, cid, [cid]))
  }

  /** A delegation is stored first; it is registered under its whole chain only if that chain can be built. */
  function DelegateStep(codec: Codec, maxDepth: int, s: State, block: Bytes): State {
    var cid, stored := codec.cid(block), Put(codec, s, block);
    match Build(codec, stored.credentials, cid, maxDepth)
    case Err(_) => stored
    case Ok(es) => stored.(index := RegisterAll(s.index, cid, CidsOf(es)))
  }

  ghost function Step(env: Env, s: State, a: Action): State {
    match a
    case Issue(token) => IssueStep(env.codec, s, token)
    case Delegate(block) => DelegateStep(env.codec, env.maxChainDepth, s, block)
    case Post(e) =>
      if RevokeError(env.verifier, s.revocations, e).Some? then s
      else s.(revocations := s.revocations[e.Key() := e])
    case Compromise(cid) =>
      if cid == "" then s else s.(revocations := Cascaded(env.signer, s.revocations, s.index, cid))
    case ApplyList(list, pub) =>
      if ListError(env.verifier, s.listSeq, list, pub).Some? then s
      else s.(revocations := ApplyAll(s.revocations, list.entries), listSeq := list.sequence)
    case Reconcile => s.(index := ReconcileAll(env.codec, s.credentials, s.index, s.order).0)
    case StoreOnly(raw) => Put(env.codec, s, raw)
    case RegisterPair(d, c) =>
      if Registrable(env.codec, s.credentials, d, c) then s.(index := RegisterOne(s.index, d, c)) else s
  }

  /** What handlers register: a stored credential under itself or under a CID on the chain just built for it. */
  ghost predicate Registrable(codec: Codec, store: Store, d: string, c: string) {
    d in store && (d == c || Resolves(codec, store, d, c))
  }

  ghost function Run(env: Env, s: State, actions: seq<Action>): State
    decreases |actions|
  {
    if actions == [] then s else Step(env, Run(env, s, actions[..|actions| - 1]), actions[|actions| - 1])
  }

  // ---- the invariant ----

  /** The order lists the stored credentials, each once. */
  ghost predicate Enumerates(order: seq<string>, store: Store) {
    && (forall c :: c in order <==> c in store)
    && (forall i, j | 0 <= i < j < |order| :: order[i] != order[j])
  }

  /** A credential is registered only under its own CID and under CIDs on its prf path. */
  ghost predicate Sound(codec: Codec, store: Store, ix: Index) {
    forall c, d | Has(ix, c, d) :: d in store && (c == d || Resolves(codec, store, d, c))
  }

  ghost predicate Inv(codec: Codec, s: State) {
    && Addressed(codec, s.credentials)
    && Enumerates(s.order, s.credentials)
    && Sound(codec, s.credentials, s.index)
  }

  lemma ResolvesInLarger(codec: Codec, store: Store, larger: Store, d: string, c: string)
    requires Extends(store, larger) && Resolves(codec, store, d, c)
    ensures Resolves(codec, larger, d, c)
  {
    hide Build;
    BuildMonotone(codec, store, larger, d, HARD_MAX_DEPTH, HARD_MAX_DEPTH,
                  Build(codec, store, d, HARD_MAX_DEPTH).value);
  }

  lemma SoundInLarger(codec: Codec, store: Store, larger: Store, ix: Index)
    requires Extends(store, larger) && Sound(codec, store, ix)
    ensures Sound(codec, larger, ix)
  {
    hide Has, Resolves;
    forall c, d | Has(ix, c, d) ensures d in larger && (c == d || Resolves(codec, larger, d, c)) {
      if c != d { ResolvesInLarger(codec, store, larger, d, c); }
    }
  }

  /** Any chain built under some cap is the chain at the hard cap. */
  lemma BuiltAtHardCap(codec: Codec, store: Store, d: string, maxDepth: int)
    requires Build(codec, store, d, maxDepth).Ok?
    ensures Build(codec, store, d, HARD_MAX_DEPTH) == Build(codec, store, d, maxDepth)
  {
    hide Build;
    BuildMonotone(codec, store, store, d, maxDepth, HARD_MAX_DEPTH, Build(codec, store, d, maxDepth).value);
  }

  lemma PutKeepsInv(codec: Codec, s: State, raw: Bytes)
    requires GoodHash(codec) && Inv(codec, s)
    ensures Inv(codec, Put(codec, s, raw)) && Extends(s.credentials, Put(codec, s, raw).credentials)
  {
    hide Sound;
    PutExtends(codec, s.credentials, raw);
    SoundInLarger(codec, s.credentials, Put(codec, s, raw).credentials, s.index);
  }

  lemma IssueKeepsInv(codec: Codec, s: State, token: Bytes)
    requires GoodHash(codec) && Inv(codec, s)
    ensures Inv(codec, IssueStep(codec, s, token))
  {
    hide Has, Resolves, RegisterAll, Put, Enumerates;
    PutKeepsInv(codec, s, token);
    PutStores(codec, s, token);
    RegisterAllPairs(s.index, codec.cid(token), [codec.cid(token)]);
  }

  lemma PutStores(codec: Codec, s: State, raw: Bytes)
    ensures codec.cid(raw) in Put(codec, s, raw).credentials && Put(codec, s, raw).index == s.index
  {}

  lemma DelegateKeepsInv(codec: Codec, maxDepth: int, s: State, block: Bytes)
    requires GoodHash(codec) && Inv(codec, s)
    ensures Inv(codec, DelegateStep(codec, maxDepth, s, block))
  {
    hide Has, RegisterAll, Put, Enumerates, Build, CidsOf;
    var cid, stored := codec.cid(block), Put(codec, s, block);
    PutKeepsInv(codec, s, block);
    PutStores(codec, s, block);
    var built := Build(codec, stored.credentials, cid, maxDepth);
    if built.Ok? {
      BuiltAtHardCap(codec, stored.credentials, cid, maxDepth);
      RegisterAllPairs(s.index, cid, CidsOf(built.value));
    }
  }

  lemma StepKeepsInv(env: Env, s: State, a: Action)
    requires GoodHash(env.codec) && Inv(env.codec, s)
    ensures Inv(env.codec, Step(env, s, a)) && Extends(s.credentials, Step(env, s, a).credentials)
  {
    hide GoodHash, Resolves, Has, Put, IssueStep, DelegateStep, ReconcileAll, Cascaded, ApplyAll, RevokeError;
    match a
    case Issue(token) =>
      IssueKeepsInv(env.codec, s, token);
      StoredByStep(env, s, a, token);
    case Delegate(block) =>
      DelegateKeepsInv(env.codec, env.maxChainDepth, s, block);
      StoredByStep(env, s, a, block);
    case Reconcile => ReconcilePairs(env.codec, s.credentials, s.index, s.order);
    case StoreOnly(raw) => PutKeepsInv(env.codec, s, raw);
    case RegisterPair(d, c) => RegisterPairs(s.index, d, c);
    case _ =>
  }

  lemma RegisterPairs(ix: Index, d: string, c: string)
    ensures forall x, y :: Has(RegisterOne(ix, d, c), x, y) <==> Has(ix, x, y) || (x == c && y == d)
  {}

  lemma StoredByStep(env: Env, s: State, a: Action, raw: Bytes)
    requires GoodHash(env.codec) && Inv(env.codec, s)
    requires a == Issue(raw) || a == Delegate(raw)
    ensures Extends(s.credentials, Step(env, s, a).credentials)
  {
    hide Sound, Build, RegisterAll;
    PutExtends(env.codec, s.credentials, raw);
  }

  /** Every reachable state keeps the invariant, and no credential is ever lost or changed. */
  lemma {:induction false} RunKeepsInv(env: Env, s: State, actions: seq<Action>)
    requires GoodHash(env.codec) && Inv(env.codec, s)
    ensures Inv(env.codec, Run(env, s, actions)) && Extends(s.credentials, Run(env, s, actions).credentials)
    decreases |actions|
  {
    hide Inv, GoodHash, Step;
    if actions != [] {
      RunKeepsInv(env, s, actions[..|actions| - 1]);
      StepKeepsInv(env, Run(env, s, actions[..|actions| - 1]), actions[|actions| - 1]);
    }
  }

  lemma InitialInv(codec: Codec)
    ensures Inv(codec, INITIAL)
  {}

  /** So every state the service can reach from nothing keeps the invariant. */
  lemma ReachableInv(env: Env, actions: seq<Action>)
    requires GoodHash(env.codec)
    ensures Inv(env.codec, Run(env, INITIAL, actions))
  {
    hide Inv, Run, GoodHash;
    InitialInv(env.codec);
    RunKeepsInv(env, INITIAL, actions);
  }

  // ---- handlers as runs of their stages ----

  lemma {:induction false} RunConcat(env: Env, s: State, xs: seq<Action>, ys: seq<Action>)
    ensures Run(env, s, xs + ys) == Run(env, Run(env, s, xs), ys)
    decreases |ys|
  {
    hide Step;
    if ys == [] {
      assert xs + ys == xs;
    } else {
      assert (xs + ys)[..|xs + ys| - 1] == xs + ys[..|ys| - 1];
      RunConcat(env, s, xs, ys[..|ys| - 1]);
    }
  }

  lemma RunOne(env: Env, s: State, a: Action)
    ensures Run(env, s, [a]) == Step(env, s, a)
  {
    hide Step;
    assert [a][..0] == [] && Run(env, s, []) == s;
  }

  function PairActions(d: string, cids: seq<string>): seq<Action> {
    seq(|cids|, i requires 0 <= i < |cids| => RegisterPair(d, cids[i]))
  }

  /** Registering under a chain is registering pair by pair. */
  lemma {:induction false} PairsRegister(env: Env, s: State, d: string, cids: seq<string>)
    requires forall c | c in cids :: Registrable(env.codec, s.credentials, d, c)
    ensures Run(env, s, PairActions(d, cids)) == s.(index := RegisterAll(s.index, d, cids))
    decreases |cids|
  {
    hide Registrable, RegisterOne;
    var pairs := PairActions(d, cids);
    if cids == [] {
      assert pairs == [];
    } else {
      var init := cids[..|cids| - 1];
      assert pairs[..|pairs| - 1] == PairActions(d, init);
      PairsRegister(env, s, d, init);
    }
  }

  /** A delegation is a store and then registrations, with room for other requests in between. */
  lemma DelegateInStages(env: Env, s: State, block: Bytes)
    ensures exists stages ::
              && Run(env, s, [StoreOnly(block)] + stages) == Step(env, s, Delegate(block))
              && forall a | a in stages :: a.RegisterPair?
  {
    hide Build, Run, RegisterAll, CidsOf, Put;
    var cid, stored := env.codec.cid(block), Put(env.codec, s, block);
    var built := Build(env.codec, stored.credentials, cid, env.maxChainDepth);
    var stages := if built.Ok? then PairActions(cid, CidsOf(built.value)) else [];
    RunOne(env, s, StoreOnly(block));
    RunConcat(env, s, [StoreOnly(block)], stages);
    PutStores(env.codec, s, block);
    if built.Ok? {
      BuiltAtHardCap(env.codec, stored.credentials, cid, env.maxChainDepth);
      PairsRegister(env, stored, cid, CidsOf(built.value));
    } else {
      RunNothing(env, stored);
    }
    assert Run(env, s, [StoreOnly(block)] + stages) == Step(env, s, Delegate(block));
  }

  /** So is the issue of a root. */
  lemma IssueInStages(env: Env, s: State, token: Bytes)
    ensures Run(env, s, [StoreOnly(token), RegisterPair(env.codec.cid(token), env.codec.cid(token))])
            == Step(env, s, Issue(token))
  {
    hide Run, RegisterAll, Put;
    var cid, stored := env.codec.cid(token), Put(env.codec, s, token);
    RunOne(env, s, StoreOnly(token));
    PutStores(env.codec, s, token);
    PairsRegister(env, stored, cid, [cid]);
    RunConcat(env, s, [StoreOnly(token)], PairActions(cid, [cid]));
    assert [StoreOnly(token)] + PairActions(cid, [cid]) == [StoreOnly(token), RegisterPair(cid, cid)];
  }

  lemma RunNothing(env: Env, s: State)
    ensures Run(env, s, []) == s
  {}

  /** The stages of a reconciliation pass over some credentials. */
  ghost function PassActions(codec: Codec, store: Store, cids: seq<string>): seq<Action>
    decreases |cids|
  {
    if cids == [] then []
    else
      var d, built := cids[|cids| - 1], Build(codec, store, cids[|cids| - 1], HARD_MAX_DEPTH);
      PassActions(codec, store, cids[..|cids| - 1]) + if built.Ok? then PairActions(d, CidsOf(built.value)) else []
  }

  /** And a reconciliation pass is registrations only, in some order that requests may interrupt. */
  lemma {:induction false} PassInStages(env: Env, s: State, cids: seq<string>)
    requires forall d | d in cids :: d in s.credentials
    ensures Run(env, s, PassActions(env.codec, s.credentials, cids))
            == s.(index := ReconcileAll(env.codec, s.credentials, s.index, cids).0)
    decreases |cids|
  {
    hide Build, Run, RegisterAll, CidsOf;
    if cids == [] {
      RunNothing(env, s);
    } else {
      var init, d := cids[..|cids| - 1], cids[|cids| - 1];
      assert cids == init + [d];
      PassInStages(env, s, init);
      var built := Build(env.codec, s.credentials, d, HARD_MAX_DEPTH);
      var more := if built.Ok? then PairActions(d, CidsOf(built.value)) else [];
      var middle := s.(index := ReconcileAll(env.codec, s.credentials, s.index, init).0);
      RunConcat(env, s, PassActions(env.codec, s.credentials, init), more);
      if built.Ok? {
        PairsRegister(env, middle, d, CidsOf(built.value));
      } else {
        RunNothing(env, middle);
      }
    }
  }

  /** The posts of a cascade over some descendants. */
  function CascadePosts(signer: Signer, m: Latest, origin: string, ds: seq<string>): seq<Action>
    decreases |ds|
  {
    if ds == [] then []
    else
      var init, d := ds[..|ds| - 1], ds[|ds| - 1];
      var before := CascadeOver(signer, m, origin, init);
      CascadePosts(signer, m, origin, init) + [Post(CascadeEntry(signer, before, origin, d))]
  }

  lemma PostsNext(env: Env, s: State, cid: string, scope: Scope, status: Status, origin: string)
    requires GoodSigner(env.signer, env.verifier) && Permitted(scope, status) && cid != ""
    ensures var e := NextEntry(env.signer, s.revocations, cid, scope, status, origin);
            Step(env, s, Post(e)) == s.(revocations := s.revocations[cid := e])
  {}

  lemma {:induction false} PostsCascade(env: Env, s: State, origin: string, ds: seq<string>)
    requires GoodSigner(env.signer, env.verifier) && "" !in ds
    ensures Run(env, s, CascadePosts(env.signer, s.revocations, origin, ds))
            == s.(revocations := CascadeOver(env.signer, s.revocations, origin, ds))
    decreases |ds|
  {
    hide GoodSigner, NextEntry, Step;
    if ds != [] {
      var init, d := ds[..|ds| - 1], ds[|ds| - 1];
      assert ds == init + [d];
      PostsCascade(env, s, origin, init);
      var posts := CascadePosts(env.signer, s.revocations, origin, ds);
      assert posts[..|posts| - 1] == CascadePosts(env.signer, s.revocations, origin, init);
      var before := s.(revocations := CascadeOver(env.signer, s.revocations, origin, init));
      PostsNext(env, before, d, CredentialScope, Cascade, origin);
    }
  }

  /** A cascade is posts only, one entry at a time, and requests may come between any two. */
  lemma CompromiseInStages(env: Env, s: State, cid: string)
    requires GoodSigner(env.signer, env.verifier) && cid != "" && !Has(s.index, cid, "")
    ensures exists posts: seq<Action> ::
              Run(env, s, posts) == Step(env, s, Compromise(cid)) && forall a | a in posts :: a.Post?
  {
    hide Run, GoodSigner, Has, Descendants, CascadeOver, CascadePosts;
    var primary := PrimaryEntry(env.signer, s.revocations, cid);
    var denied := s.(revocations := s.revocations[cid := primary]);
    var more := CascadePosts(env.signer, denied.revocations, cid, Descendants(s.index, cid));
    PostsNext(env, s, cid, SubtreeScope, Compromised, cid);
    RunOne(env, s, Post(primary));
    RunConcat(env, s, [Post(primary)], more);
    PostsCascade(env, denied, cid, Descendants(s.index, cid));
    OnlyPosts(env.signer, denied.revocations, cid, Descendants(s.index, cid));
    assert Run(env, s, [Post(primary)] + more) == Step(env, s, Compromise(cid));
  }

  lemma {:induction false} OnlyPosts(signer: Signer, m: Latest, origin: string, ds: seq<string>)
    ensures forall a | a in CascadePosts(signer, m, origin, ds) :: a.Post?
    decreases |ds|
  {
    if ds != [] { OnlyPosts(signer, m, origin, ds[..|ds| - 1]); }
  }

  // ---- reconciliation and cascade ----

  /** After a pass, the registered descendants of c are exactly the stored credentials that resolve through it. */
  lemma ReconciledExactly(env: Env, s: State, c: string, d: string)
    requires Inv(env.codec, s)
    ensures d in Descendants(Step(env, s, Reconcile).index, c) <==>
            d != c && d in s.credentials && Resolves(env.codec, s.credentials, d, c)
  {
    hide Resolves, Has, ReconcileAll;
    ReconcilePairs(env.codec, s.credentials, s.index, s.order);
  }

  /** An immediately repeated pass finds nothing to do. */
  lemma ReconcileTwice(env: Env, s: State)
    ensures Step(env, Step(env, s, Reconcile), Reconcile) == Step(env, s, Reconcile)
    ensures ReconcileAll(env.codec, s.credentials, Step(env, s, Reconcile).index, s.order).1.repairsApplied == 0
  {
    hide ReconcileAll;
    SecondPassIsIdle(env.codec, s.credentials, s.index, s.order);
  }

  /** The latest word on a subject is a denying one. */
  predicate Denied(m: Latest, subject: string) { subject in m && Denying(m[subject].status) }

  /** A cascade right after a pass denies the compromised credential and everything that resolves through it. */
  lemma CascadeCovers(env: Env, s: State, c: string, d: string)
    requires GoodEnv(env) && Inv(env.codec, s) && c != ""
    requires d == c || (d in s.credentials && Resolves(env.codec, s.credentials, d, c))
    ensures Denied(Step(env, Step(env, s, Reconcile), Compromise(c)).revocations, d)
  {
    hide Resolves, Has, ReconcileAll, Cascaded, GoodHash, GoodSigner;
    ReconciledExactly(env, s, c, d);
    CascadeDenies(env.signer, env.verifier, s.revocations, Step(env, s, Reconcile).index, c);
  }

  // ---- revocation over runs ----

  /** What an action submits to the revocation cache, when it is accepted. */
  ghost function Submits(env: Env, s: State, a: Action): seq<Entry> {
    match a
    case Post(e) => if RevokeError(env.verifier, s.revocations, e).Some? then [] else [e]
    case ApplyList(l, pub) => if ListError(env.verifier, s.listSeq, l, pub).Some? then [] else l.entries
    case _ => []
  }

  /** The action carries an accepted entry for k with a higher sequence and a status that does not deny. */
  ghost predicate Lifts(env: Env, s: State, a: Action, k: string) {
    exists e | e in Submits(env, s, a) ::
      e.Key() == k && !Denying(e.status) && (k in s.revocations ==> e.sequence > s.revocations[k].sequence)
  }

  lemma StaysDenied(env: Env, s: State, a: Action, k: string)
    requires GoodEnv(env) && k != "" && Denied(s.revocations, k) && !Lifts(env, s, a, k)
    ensures Denied(Step(env, s, a).revocations, k)
  {
    hide ReconcileAll, IssueStep, DelegateStep, Cascaded, GoodHash, GoodSigner, Entry.Key, Has;
    match a
    case Post(e) =>
      if RevokeError(env.verifier, s.revocations, e).None? && e.Key() == k {
        assert e in Submits(env, s, a);
      }
    case ApplyList(l, pub) =>
      if ListError(env.verifier, s.listSeq, l, pub).None? {
        ApplyAllOutcome(s.revocations, l.entries, k);
      }
    case Compromise(cid) => CascadeDenies(env.signer, env.verifier, s.revocations, s.index, cid);
    case Issue(token) => OnlyStores(env, s, a, token);
    case Delegate(block) => OnlyStores(env, s, a, block);
    case StoreOnly(raw) => OnlyStores(env, s, a, raw);
    case Reconcile =>
    case RegisterPair(_, _) =>
  }

  lemma OnlyStores(env: Env, s: State, a: Action, raw: Bytes)
    requires a == Issue(raw) || a == Delegate(raw) || a == StoreOnly(raw)
    ensures Step(env, s, a).revocations == s.revocations && Step(env, s, a).listSeq == s.listSeq
  {
    hide Build, RegisterAll;
  }

  ghost predicate NeverLifted(env: Env, s: State, actions: seq<Action>, k: string) {
    forall i | 0 <= i < |actions| :: !Lifts(env, Run(env, s, actions[..i]), actions[i], k)
  }

  lemma {:induction false} DeniedOverRun(env: Env, s: State, actions: seq<Action>, k: string)
    requires GoodEnv(env) && k != "" && Denied(s.revocations, k) && NeverLifted(env, s, actions, k)
    ensures Denied(Run(env, s, actions).revocations, k)
    decreases |actions|
  {
    hide GoodEnv, Denied, Lifts, Step;
    if actions != [] {
      var init, last := actions[..|actions| - 1], actions[|actions| - 1];
      assert forall i | 0 <= i < |init| :: init[i] == actions[i] && init[..i] == actions[..i];
      DeniedOverRun(env, s, init, k);
      StaysDenied(env, Run(env, s, init), last, k);
    }
  }

  /** The service's revocation lookups, which never fail. */
  function LookupIn(m: Latest, subject: string): Steps.Lookup {
    match StatusOf(m, subject)
    case None => Steps.Active
    case Some(e) => Steps.Found(e.status)
  }

  /** What a walk sees that runs while the actions do: each credential as it was at some moment. */
  ghost predicate ReadsDuring(env: Env, s: State, actions: seq<Action>, store: Store) {
    && Extends(s.credentials, store)
    && forall c | c in store :: ReadAt(env, s, actions, c, store[c])
  }

  ghost predicate ReadAt(env: Env, s: State, actions: seq<Action>, c: string, raw: Bytes) {
    exists n :: 0 <= n <= |actions| && c in Run(env, s, actions[..n]).credentials
                && Run(env, s, actions[..n]).credentials[c] == raw
  }

  /** The verification looks k up at some moment of the actions. */
  ghost predicate LooksUpDuring(env: Env, s: State, actions: seq<Action>, x: Verifying.Inputs, k: string) {
    x.revocations.Some? &&
    exists n :: 0 <= n <= |actions| && x.revocations.value(k) == LookupIn(Run(env, s, actions[..n]).revocations, k)
  }

  /** In particular, one that reads the state after the actions does. */
  lemma ReadsAfterwards(env: Env, s: State, actions: seq<Action>, x: Verifying.Inputs, k: string)
    requires GoodHash(env.codec) && Inv(env.codec, s) && x.store == Run(env, s, actions).credentials
    requires x.revocations.Some? && x.revocations.value(k) == LookupIn(Run(env, s, actions).revocations, k)
    ensures ReadsDuring(env, s, actions, x.store) && LooksUpDuring(env, s, actions, x, k)
  {
    hide Inv, GoodHash, Run;
    RunKeepsInv(env, s, actions);
    assert actions[..|actions|] == actions;
    forall c | c in x.store ensures ReadAt(env, s, actions, c, x.store[c]) {}
  }

  lemma ReadIsAddressed(env: Env, s: State, actions: seq<Action>, store: Store)
    requires GoodHash(env.codec) && Inv(env.codec, s) && ReadsDuring(env, s, actions, store)
    ensures Addressed(env.codec, store)
  {
    hide Inv, GoodHash, Run;
    forall c | c in store ensures env.codec.cid(store[c]) == c {
      assert ReadAt(env, s, actions, c, store[c]);
      var n :| 0 <= n <= |actions| && c in Run(env, s, actions[..n]).credentials
               && Run(env, s, actions[..n]).credentials[c] == store[c];
      RunKeepsInv(env, s, actions[..n]);
      InvAddresses(env.codec, Run(env, s, actions[..n]));
    }
  }

  lemma InvAddresses(codec: Codec, s: State)
    requires Inv(codec, s)
    ensures Addressed(codec, s.credentials)
  {}

  ghost function ChainThen(cfg: Steps.Config, inv: Pop.Invocation, x: Verifying.Inputs)
    : Result<seq<Element>, ChainError>
  {
    Build(cfg.codec, Verifying.EffectiveStore(cfg.codec, x.store, x.inline), inv.delegation, cfg.maxChainDepth)
  }

  /** One denied subject on a chain is enough to refuse it. */
  lemma DeniedIsRefused(m: Latest, cfg: Steps.Config, inv: Pop.Invocation, x: Verifying.Inputs, nonces: Pop.Nonces,
                        k: string)
    requires x.revocations.Some? && x.revocations.value(k) == LookupIn(m, k) && Denied(m, k)
    requires ChainThen(cfg, inv, x).Ok? ==> k in Steps.Subjects(ChainThen(cfg, inv, x).value)
    ensures !Verifying.Accepts(cfg, inv, x, nonces)
  {
    hide Build, Verifying.Authorized, Verifying.SpendsNonce;
    assert forall tier :: Steps.SubjectError(LookupIn(m, k), tier).Some?;
  }

  /**
   * Revocation safety over runs: once a subject's latest status denies, then for as long as no accepted
   * entry of higher sequence lifts it, every verification of a credential whose chain carries that
   * subject is refused: whatever happened in between, whenever the credential was stored, and at whatever
   * moment of the run the verification looks the subject up.
   */
  lemma RevocationHolds(env: Env, s: State, actions: seq<Action>, cfg: Steps.Config, inv: Pop.Invocation,
                        x: Verifying.Inputs, nonces: Pop.Nonces, k: string)
    requires GoodEnv(env) && k != "" && Denied(s.revocations, k) && NeverLifted(env, s, actions, k)
    requires LooksUpDuring(env, s, actions, x, k)
    requires ChainThen(cfg, inv, x).Ok? ==> k in Steps.Subjects(ChainThen(cfg, inv, x).value)
    ensures !Verifying.Accepts(cfg, inv, x, nonces)
  {
    hide GoodEnv, Denied, Lifts, Run, Verifying.Accepts, ChainThen;
    var n :| 0 <= n <= |actions| && x.revocations.value(k) == LookupIn(Run(env, s, actions[..n]).revocations, k);
    assert forall i | 0 <= i < n :: actions[..n][i] == actions[i] && actions[..n][..i] == actions[..i];
    DeniedOverRun(env, s, actions[..n], k);
    DeniedIsRefused(Run(env, s, actions[..n]).revocations, cfg, inv, x, nonces, k);
  }

  /**
   * A chain once built is the same chain to every later walk, one that reads the store while other requests change
   * it included, with or without an inline leaf laid over it.
   */
  lemma ChainsPersist(env: Env, s: State, actions: seq<Action>, cfg: Steps.Config, inv: Pop.Invocation,
                      x: Verifying.Inputs)
    requires GoodHash(env.codec) && Inv(env.codec, s) && cfg.codec == env.codec
    requires ReadsDuring(env, s, actions, x.store)
    requires Build(cfg.codec, s.credentials, inv.delegation, cfg.maxChainDepth).Ok?
    ensures ChainThen(cfg, inv, x) == Build(cfg.codec, s.credentials, inv.delegation, cfg.maxChainDepth)
  {
    hide Build, Inv, ReadAt;
    ReadIsAddressed(env, s, actions, x.store);
    if x.inline.Some? { PutExtends(env.codec, x.store, x.inline.value.raw); }
    BuildMonotone(cfg.codec, s.credentials, Verifying.EffectiveStore(cfg.codec, x.store, x.inline), inv.delegation,
                  cfg.maxChainDepth, cfg.maxChainDepth,
                  Build(cfg.codec, s.credentials, inv.delegation, cfg.maxChainDepth).value);
  }

  /** So a credential that carries a denied subject at some point is refused from then on. */
  lemma RevokedStaysRefused(env: Env, s: State, actions: seq<Action>, cfg: Steps.Config,
                            inv: Pop.Invocation, x: Verifying.Inputs, nonces: Pop.Nonces, k: string)
    requires GoodEnv(env) && Inv(env.codec, s) && cfg.codec == env.codec
    requires k != "" && Denied(s.revocations, k) && NeverLifted(env, s, actions, k)
    requires Build(cfg.codec, s.credentials, inv.delegation, cfg.maxChainDepth).Ok?
    requires k in Steps.Subjects(Build(cfg.codec, s.credentials, inv.delegation, cfg.maxChainDepth).value)
    requires ReadsDuring(env, s, actions, x.store) && LooksUpDuring(env, s, actions, x, k)
    ensures !Verifying.Accepts(cfg, inv, x, nonces)
  {
    hide GoodHash, GoodSigner, Inv, Denied, NeverLifted, Build, Verifying.Accepts, ChainThen, ReadsDuring,
         LooksUpDuring;
    ChainsPersist(env, s, actions, cfg, inv, x);
    RevocationHolds(env, s, actions, cfg, inv, x, nonces, k);
  }

  /**
   * The same for everything below it: whatever was or will be delegated from a credential that carries a denied
   * subject is refused, even when it is stored only later.
   */
  lemma DescendantsStayRefused(env: Env, s: State, actions: seq<Action>, cfg: Steps.Config, inv: Pop.Invocation,
                               x: Verifying.Inputs, nonces: Pop.Nonces, k: string, c: string, i: nat)
    requires GoodEnv(env) && Inv(env.codec, s) && cfg.codec == env.codec
    requires k != "" && Denied(s.revocations, k) && NeverLifted(env, s, actions, k)
    requires Build(cfg.codec, s.credentials, c, cfg.maxChainDepth).Ok?
    requires k in Steps.Subjects(Build(cfg.codec, s.credentials, c, cfg.maxChainDepth).value)
    requires ReadsDuring(env, s, actions, x.store) && LooksUpDuring(env, s, actions, x, k)
    requires ChainThen(cfg, inv, x).Ok? ==>
               i < |ChainThen(cfg, inv, x).value| && ChainThen(cfg, inv, x).value[i].cid == c
    ensures !Verifying.Accepts(cfg, inv, x, nonces)
  {
    hide GoodHash, GoodSigner, Inv, Denied, NeverLifted, Build, Verifying.Accepts, Steps.Subjects, ReadsDuring,
         LooksUpDuring;
    var chain := ChainThen(cfg, inv, x);
    if chain.Ok? {
      ChainsPersist(env, s, actions, cfg, inv.(delegation := c), x);
      SuffixBuilds(cfg.codec, Verifying.EffectiveStore(cfg.codec, x.store, x.inline), inv.delegation, cfg.maxChainDepth,
                   chain.value, i);
      SubjectsOfSuffix(chain.value, i, k);
    }
    RevocationHolds(env, s, actions, cfg, inv, x, nonces, k);
  }

  lemma SubjectsOfSuffix(es: seq<Element>, i: nat, k: string)
    requires i <= |es| && k in Steps.Subjects(es[i..])
    ensures k in Steps.Subjects(es)
  {
    assert forall e | e in es[i..] :: e in es;
  }

  /** An accepted invocation was authorized through its chain, and so may every delegator of it. */
  lemma AcceptedIsAuthorized(cfg: Steps.Config, inv: Pop.Invocation, x: Verifying.Inputs, nonces: Pop.Nonces, k: nat)
    requires Verifying.Accepts(cfg, inv, x, nonces) && k < |Verifying.ChainOf(cfg, inv, x)|
    ensures var es := Verifying.ChainOf(cfg, inv, x);
            var store := Verifying.EffectiveStore(cfg.codec, x.store, x.inline);
            var w := Attenuation.World(store, x.revocations, x.now5, x.now8);
            var cap := Verifying.Authorized(cfg, inv, x, es).value;
            && Attenuation.Authorizes(cfg, w, es[k].cid, inv.request, es[k..], cap)
            && Steps.Root(es).TokenElement? && cap in Steps.Root(es).token.att
  {
    hide Build, Steps.BeforeRevocation, Steps.AfterRevocation, Steps.RevocationClear, Verifying.SpendsNonce;
    var es := Verifying.ChainOf(cfg, inv, x);
    var w := Attenuation.World(Verifying.EffectiveStore(cfg.codec, x.store, x.inline), x.revocations, x.now5, x.now8);
    var cap := Verifying.Authorized(cfg, inv, x, es).value;
    Attenuation.DelegatorsMayToo(cfg, w, inv.delegation, inv.request, es, cap, k);
  }
}
