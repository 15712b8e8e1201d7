/**
 * The registration index, which answers "whose chain contains this credential", and
 * the reconciliation pass that repairs it from the stored credentials.
 */
module Registration {
  import opened Wrappers
  import opened Chain
  import Lex
  import Utf8

  /** Chain CID to the credentials registered under it. */
  type Index = map<string, set<string>>

  predicate Has(ix: Index, chainCid: string, credential: string) {
    chainCid in ix && credential in ix[chainCid]
  }

  function Related(ix: Index, chainCid: string): set<string> { if chainCid in ix then ix[chainCid] else {} }

  function RegisterOne(ix: Index, credential: string, chainCid: string): Index {
    ix[chainCid := Related(ix, chainCid) + {credential}]
  }

  function RegisterAll(ix: Index, credential: string, chainCids: seq<string>): Index
    decreases |chainCids|
  {
    if chainCids == [] then ix
    else RegisterOne(RegisterAll(ix, credential, chainCids[..|chainCids| - 1]), credential, chainCids[|chainCids| - 1])
  }

  /** Registration adds exactly the pairs it names. */
  lemma {:induction false} RegisterAllPairs(ix: Index, credential: string, chainCids: seq<string>)
    ensures forall c, d :: Has(RegisterAll(ix, credential, chainCids), c, d) <==>
                           Has(ix, c, d) || (d == credential && c in chainCids)
    decreases |chainCids|
  {
    if chainCids != [] {
      var init, last := chainCids[..|chainCids| - 1], chainCids[|chainCids| - 1];
      RegisterAllPairs(ix, credential, init);
      assert chainCids == init + [last];
      var before, r := RegisterAll(ix, credential, init), RegisterAll(ix, credential, chainCids);
      forall c, d ensures Has(r, c, d) <==> Has(before, c, d) || (d == credential && c == last) {}
      forall c ensures c in chainCids <==> c in init || c == last {}
    }
  }

  /** The order in which sort.Strings puts identifiers: by their octets. */
  function OctetKey(s: string): seq<nat> {
    seq(|Utf8.Encode(s)|, i requires 0 <= i < |Utf8.Encode(s)| => Utf8.Encode(s)[i])
  }

  lemma OctetKeyInjective()
    ensures Lex.InjectiveKey(OctetKey)
  {
    forall a, b | OctetKey(a) == OctetKey(b) ensures a == b {
      assert forall i | 0 <= i < |Utf8.Encode(a)| :: Utf8.Encode(a)[i] == OctetKey(a)[i];
      assert forall i | 0 <= i < |Utf8.Encode(b)| :: Utf8.Encode(b)[i] == OctetKey(b)[i];
      assert |Utf8.Encode(a)| == |OctetKey(a)| && |Utf8.Encode(b)| == |OctetKey(b)|;
      assert Utf8.Encode(a) == Utf8.Encode(b);
      Utf8.EncodeInjective(a, b);
    }
  }

  ghost function Descendants(ix: Index, cid: string): (ds: seq<string>)
    ensures forall d :: d in ds <==> d != cid && Has(ix, cid, d)
  {
    OctetKeyInjective();
    Lex.SortedEnumerates(Related(ix, cid) - {cid}, OctetKey);
    Lex.Sorted(Related(ix, cid) - {cid}, OctetKey)
  }

  class MemoryRegistrationIndex {
    var index: Index

    constructor ()
      ensures index == map[]
    {
      index := map[];
    }

    method Register(credential: string, chainCids: seq<string>)
      modifies this
      ensures index == RegisterAll(old(index), credential, chainCids)
    {
      for i := 0 to |chainCids|
        invariant index == RegisterAll(old(index), credential, chainCids[..i])
      {
        assert chainCids[..i + 1][..i] == chainCids[..i];
        var c := chainCids[i];
        if c !in index { index := index[c := {}]; }
        index := index[c := index[c] + {credential}];
      }
      assert chainCids[..|chainCids|] == chainCids;
    }

    method Contains(credential: string, chainCid: string) returns (r: bool)
      ensures r == Has(index, chainCid, credential)
    {
      return chainCid in index && credential in index[chainCid];
    }

    /** The credentials registered under cid but for itself, in a fixed order. */
    method FindDescendants(cid: string) returns (ds: seq<string>)
      ensures ds == Descendants(index, cid)
    {
      OctetKeyInjective();
      var found: set<string> := {};
      if cid in index { found := index[cid]; }
      ds := Lex.SortSet(found - {cid}, OctetKey);
    }
  }

  // ---- reconciliation ----

  function CidsOf(es: seq<Element>): seq<string> { seq(|es|, i requires 0 <= i < |es| => es[i].cid) }

  /** How many of the CIDs a credential is not yet registered under, counting as each is added. */
  function Missing(ix: Index, credential: string, cids: seq<string>): nat
    decreases |cids|
  {
    if cids == [] then 0
    else
      var init, last := cids[..|cids| - 1], cids[|cids| - 1];
      Missing(ix, credential, init) + if Has(RegisterAll(ix, credential, init), last, credential) then 0 else 1
  }

  datatype Report = Report(credentialsWalked: nat, repairsApplied: nat, errors: nat)

  /** One credential: its whole chain is registered, or an error is counted. */
  function ReconcileOne(codec: Codec, store: Store, ix: Index, r: Report, cid: string): (Index, Report) {
    match Build(codec, store, cid, HARD_MAX_DEPTH)
    case Err(_) => (ix, Report(r.credentialsWalked + 1, r.repairsApplied, r.errors + 1))
    case Ok(es) =>
      (RegisterAll(ix, cid, CidsOf(es)),
       Report(r.credentialsWalked + 1, r.repairsApplied + Missing(ix, cid, CidsOf(es)), r.errors))
  }

  function ReconcileAll(codec: Codec, store: Store, ix: Index, cids: seq<string>): (Index, Report)
    decreases |cids|
  {
    if cids == [] then (ix, Report(0, 0, 0))
    else
      var (before, r) := ReconcileAll(codec, store, ix, cids[..|cids| - 1]);
      ReconcileOne(codec, store, before, r, cids[|cids| - 1])
  }

  /** Registering what is already registered changes nothing. */
  lemma RegisterAgain(ix: Index, credential: string, chainCid: string)
    requires Has(ix, chainCid, credential)
    ensures RegisterOne(ix, credential, chainCid) == ix
  {
    assert Related(ix, chainCid) + {credential} == ix[chainCid];
  }

  /** The elements of one chain: a pair that is missing is registered and counted. */
  method RegisterMissing(index: MemoryRegistrationIndex, cid: string, cids: seq<string>) returns (repairs: nat)
    modifies index
    ensures index.index == RegisterAll(old(index.index), cid, cids)
    ensures repairs == Missing(old(index.index), cid, cids)
  {
    repairs := 0;
    for j := 0 to |cids|
      invariant index.index == RegisterAll(old(index.index), cid, cids[..j])
      invariant repairs == Missing(old(index.index), cid, cids[..j])
    {
      assert cids[..j + 1][..j] == cids[..j];
      ghost var before := index.index;
      var present := index.Contains(cid, cids[j]);
      if present {
        RegisterAgain(before, cid, cids[j]);
        continue;
      }
      index.Register(cid, [cids[j]]);
      assert [cids[j]][..0] == [];
      assert RegisterAll(before, cid, [cids[j]]) == RegisterOne(before, cid, cids[j]);
      repairs := repairs + 1;
    }
    assert cids[..|cids|] == cids;
  }

  /** The pass as it runs: every listed credential is walked at the hard cap. */
  method Reconcile(codec: Codec, store: Store, credentials: seq<string>, index: MemoryRegistrationIndex)
    returns (report: Report)
    modifies index
    ensures (index.index, report) == ReconcileAll(codec, store, old(index.index), credentials)
  {
    hide Build, RegisterAll, Missing;
    report := Report(0, 0, 0);
    for i := 0 to |credentials|
      invariant (index.index, report) == ReconcileAll(codec, store, old(index.index), credentials[..i])
    {
      assert credentials[..i + 1][..i] == credentials[..i];
      var cid := credentials[i];
      var built := BuildChain(codec, store, cid, HARD_MAX_DEPTH);
      if built.Err? {
        report := Report(report.credentialsWalked + 1, report.repairsApplied, report.errors + 1);
      } else {
        var repairs := RegisterMissing(index, cid, CidsOf(built.value));
        report := Report(report.credentialsWalked + 1, report.repairsApplied + repairs, report.errors);
      }
    }
    assert credentials[..|credentials|] == credentials;
  }

  // ---- what a pass achieves ----

  /** d is a stored credential whose chain, walked at the hard cap, contains c. */
  ghost predicate Resolves(codec: Codec, store: Store, d: string, c: string) {
    && Build(codec, store, d, HARD_MAX_DEPTH).Ok?
    && c in CidsOf(Build(codec, store, d, HARD_MAX_DEPTH).value)
  }

  /** A pass adds exactly the pairs that the chains of the listed credentials call for. */
  lemma {:induction false} ReconcilePairs(codec: Codec, store: Store, ix: Index, cids: seq<string>)
    ensures forall c, d :: Has(ReconcileAll(codec, store, ix, cids).0, c, d) <==>
                           Has(ix, c, d) || (d in cids && Resolves(codec, store, d, c))
    decreases |cids|
  {
    hide Build, RegisterAll, Has, CidsOf;
    if cids != [] {
      var init, last := cids[..|cids| - 1], cids[|cids| - 1];
      ReconcilePairs(codec, store, ix, init);
      assert cids == init + [last];
      var built := Build(codec, store, last, HARD_MAX_DEPTH);
      if built.Ok? {
        RegisterAllPairs(ReconcileAll(codec, store, ix, init).0, last, CidsOf(built.value));
      }
    }
  }

  lemma {:induction false} NothingMissing(ix: Index, credential: string, cids: seq<string>)
    requires forall c | c in cids :: Has(ix, c, credential)
    ensures Missing(ix, credential, cids) == 0 && RegisterAll(ix, credential, cids) == ix
    decreases |cids|
  {
    if cids != [] {
      var init, last := cids[..|cids| - 1], cids[|cids| - 1];
      assert cids == init + [last];
      NothingMissing(ix, credential, init);
      RegisterAgain(ix, credential, last);
    }
  }

  /** Where every pair is in place already, a pass repairs nothing. */
  lemma {:induction false} NothingToRepair(codec: Codec, store: Store, ix: Index, cids: seq<string>)
    requires forall c, d | d in cids && Resolves(codec, store, d, c) :: Has(ix, c, d)
    ensures ReconcileAll(codec, store, ix, cids).0 == ix
    ensures ReconcileAll(codec, store, ix, cids).1.repairsApplied == 0
    decreases |cids|
  {
    hide Build, RegisterAll, Has, CidsOf, Missing;
    if cids != [] {
      var init, last := cids[..|cids| - 1], cids[|cids| - 1];
      assert cids == init + [last];
      NothingToRepair(codec, store, ix, init);
      var built := Build(codec, store, last, HARD_MAX_DEPTH);
      if built.Ok? {
        NothingMissing(ix, last, CidsOf(built.value));
      }
    }
  }

  /** Reconciliation is idempotent: a second pass changes nothing and reports no repair. */
  lemma SecondPassIsIdle(codec: Codec, store: Store, ix: Index, cids: seq<string>)
    ensures var once := ReconcileAll(codec, store, ix, cids).0;
            && ReconcileAll(codec, store, once, cids).0 == once
            && ReconcileAll(codec, store, once, cids).1.repairsApplied == 0
  {
    hide ReconcileAll, Resolves, Has;
    ReconcilePairs(codec, store, ix, cids);
    NothingToRepair(codec, store, ReconcileAll(codec, store, ix, cids).0, cids);
  }
}
