/** The explicit cascade: a compromised credential and every registered descendant are denied. */
module Cascading {
  import opened Wrappers
  import opened Registration
  import opened Revocation
  import Audit
  import Jcs

  /** How the platform signs: the entry for a subject, a scope, a status, an origin and a sequence number. */
  datatype Signer = Signer(mint: (Subject, Scope, Status, string, int) -> Entry)

  /** What the platform may set: any known status, with any known scope. */
  predicate Permitted(scope: Scope, status: Status) { !status.OtherStatus? && !scope.OtherScope? }

  /** Entries minted for what the platform may set say what was asked for, and verify. */
  ghost predicate GoodSigner(s: Signer, v: Verifier) {
    forall subject, scope, status, origin, n | Permitted(scope, status) ::
      var e := s.mint(subject, scope, status, origin, n);
      e.subject == subject && e.status == status && e.sequence == n && v.entryOk(e)
  }

  datatype CascadeReport = CascadeReport(primary: Entry, cascade: seq<Entry>)

  datatype CascadeFailure = Refused(error: RevocationError) | PushFailed

  /** The entry that follows the latest one of a credential. */
  function NextEntry(s: Signer, m: Latest, cid: string, scope: Scope, status: Status, origin: string): Entry {
    s.mint(Subject(cid, ""), scope, status, origin, SeqOf(m, cid) + 1)
  }

  function PrimaryEntry(s: Signer, m: Latest, cid: string): Entry {
    NextEntry(s, m, cid, SubtreeScope, Compromised, cid)
  }

  function CascadeEntry(s: Signer, m: Latest, origin: string, d: string): Entry {
    NextEntry(s, m, d, CredentialScope, Cascade, origin)
  }

  /** The latest entries once each descendant of the list has been denied in turn. */
  function CascadeOver(s: Signer, m: Latest, origin: string, ds: seq<string>): Latest
    decreases |ds|
  {
    if ds == [] then m
    else
      var before, d := CascadeOver(s, m, origin, ds[..|ds| - 1]), ds[|ds| - 1];
      before[d := CascadeEntry(s, before, origin, d)]
  }

  /** The entries posted on the way. */
  function CascadeEntries(s: Signer, m: Latest, origin: string, ds: seq<string>): (es: seq<Entry>)
    ensures |es| == |ds|
    decreases |ds|
  {
    if ds == [] then []
    else
      var init, d := ds[..|ds| - 1], ds[|ds| - 1];
      CascadeEntries(s, m, origin, init) + [CascadeEntry(s, CascadeOver(s, m, origin, init), origin, d)]
  }

  /** What a cascade reports and pushes: the primary entry, then one per descendant, in octet order. */
  ghost function ReportOf(s: Signer, m: Latest, ix: Index, cid: string): CascadeReport {
    var primary := PrimaryEntry(s, m, cid);
    CascadeReport(primary, CascadeEntries(s, m[cid := primary], cid, Descendants(ix, cid)))
  }

  /** The latest entries after the cascade of a compromised credential. */
  ghost function Cascaded(s: Signer, m: Latest, ix: Index, cid: string): Latest {
    CascadeOver(s, m[cid := PrimaryEntry(s, m, cid)], cid, Descendants(ix, cid))
  }

  /** Mints and posts the next entry of a credential; only the empty CID is refused. */
  method PostNext(cache: MemoryRevocationCache, v: Verifier, s: Signer, cid: string, scope: Scope, status: Status,
                  origin: string)
    returns (r: Result<Entry, RevocationError>)
    requires GoodSigner(s, v) && Permitted(scope, status)
    modifies cache`entries
    ensures cid == "" ==> r == Err(MissingSubject) && cache.entries == old(cache.entries)
    ensures cid != "" ==> r == Ok(NextEntry(s, old(cache.entries), cid, scope, status, origin))
                          && cache.entries == old(cache.entries)[cid := r.value]
  {
    var n := cache.CurrentSeq(cid);
    if cid == "" { return Err(MissingSubject); }
    var entry := s.mint(Subject(cid, ""), scope, status, origin, n + 1);
    var refused := cache.Revoke(v, entry);
    match refused
    case Some(e) => return Err(e);
    case None => return Ok(entry);
  }

  // ---- the record ----

  function StatusText(status: Status): string {
    match status
    case Revoked => "REVOKED"
    case Suspended => "SUSPENDED"
    case Reinstated => "REINSTATED"
    case Compromised => "COMPROMISED"
    case Decommissioned => "DECOMMISSIONED"
    case Cascade => "CASCADE"
    case OtherStatus(text) => text
  }

  function PostedEvent(cid: string): Audit.Event {
    Audit.Event("REVOCATION_POSTED", "", cid, "", 0,
                Audit.Fields(map["status" := Jcs.Str(StatusText(Compromised)), "scope" := Jcs.Str("subtree")]))
  }

  function CascadeEvent(cid: string, descendants: nat): Audit.Event {
    Audit.Event("COMPROMISE_CASCADE", "", cid, "", 0,
                Audit.Fields(map["compromised" := Jcs.Str(cid), "descendants" := Jcs.Num(descendants)]))
  }

  /** The log goes on with the given events, one entry each. */
  predicate Records(before: seq<Audit.Entry>, after: seq<Audit.Entry>, events: seq<Audit.Event>) {
    && |after| == |before| + |events| && before <= after
    && forall i | 0 <= i < |events| :: after[|before| + i].event == events[i]
  }

  /** One event for the log, when there is one. */
  method Note(log: Audit.MemoryAuditLog?, h: Audit.Hasher, e: Audit.Event, clock: int)
    requires log != null ==> log.Valid(h) && Audit.GoodHasher(h)
    requires e.payload.Fields? && e.ts == 0
    modifies log
    ensures log != null ==> log.Valid(h) && Records(old(log.entries), log.entries, [e.(ts := clock)])
  {
    hide Audit.GoodHasher, Audit.Linked, Audit.IncreasingUpTo;
    if log != null { var logged := log.Append(h, e, clock); }
  }

  lemma RecordsBoth(a: seq<Audit.Entry>, b: seq<Audit.Entry>, c: seq<Audit.Entry>, e: Audit.Event, f: Audit.Event)
    requires Records(a, b, [e]) && Records(b, c, [f])
    ensures Records(a, c, [e, f])
  {
    assert c[|a|] == b[|a|] && b[|a|].event == [e][0];
    assert c[|b| + 0].event == [f][0];
    forall i | 0 <= i < 2 ensures c[|a| + i].event == [e, f][i] {}
  }

  // ---- the cascade ----

  /** Denies each descendant in turn. */
  method PostEach(cache: MemoryRevocationCache, v: Verifier, s: Signer, origin: string, ds: seq<string>)
    returns (r: Result<seq<Entry>, RevocationError>)
    requires GoodSigner(s, v)
    modifies cache`entries
    ensures "" !in ds ==>
              && r == Ok(CascadeEntries(s, old(cache.entries), origin, ds))
              && cache.entries == CascadeOver(s, old(cache.entries), origin, ds)
  {
    hide GoodSigner, NextEntry;
    ghost var start := cache.entries;
    var posted: seq<Entry> := [];
    for i := 0 to |ds|
      invariant cache.entries == CascadeOver(s, start, origin, ds[..i])
      invariant posted == CascadeEntries(s, start, origin, ds[..i])
    {
      assert ds[..i + 1][..i] == ds[..i];
      assert ds[i] in ds;
      var entry := PostNext(cache, v, s, ds[i], CredentialScope, Cascade, origin);
      if entry.Err? { return Err(entry.error); }
      posted := posted + [entry.value];
    }
    assert ds[..|ds|] == ds;
    return Ok(posted);
  }

  /**
   * The cascade as it runs; each step looks up the current sequence and posts the next. The entries stay posted
   * when the emergency channel then refuses the batch; all that is missing is the closing record in the log.
   */
  method ExecuteCascade(cid: string, index: MemoryRegistrationIndex, cache: MemoryRevocationCache, v: Verifier,
                        s: Signer, push: Option<seq<Entry> -> bool>, log: Audit.MemoryAuditLog?, h: Audit.Hasher,
                        clock: int, clock2: int)
    returns (r: Result<CascadeReport, CascadeFailure>)
    requires GoodSigner(s, v) && (log != null ==> log.Valid(h) && Audit.GoodHasher(h))
    modifies cache`entries, log
    ensures cid == "" ==> r == Err(Refused(MissingSubject)) && cache.entries == old(cache.entries)
    ensures cid != "" && !Has(index.index, cid, "") ==>
              var report := ReportOf(s, old(cache.entries), index.index, cid);
              var pushed := push.None? || push.value([report.primary] + report.cascade);
              && cache.entries == Cascaded(s, old(cache.entries), index.index, cid)
              && r == (if pushed then Ok(report) else Err(PushFailed))
    ensures log != null ==> log.Valid(h)
    ensures log != null && cid == "" ==> log.entries == old(log.entries)
    ensures log != null && cid != "" && !Has(index.index, cid, "") ==>
              var posted := PostedEvent(cid).(ts := clock);
              var closed := CascadeEvent(cid, |Descendants(index.index, cid)|).(ts := clock2);
              Records(old(log.entries), log.entries, if r.Ok? then [posted, closed] else [posted])
  {
    hide Has, Descendants, GoodSigner, NextEntry, CascadeEntries, CascadeOver, Records, PostedEvent, CascadeEvent,
         Audit.GoodHasher, Audit.Linked, Audit.IncreasingUpTo;
    EventsHaveFields(cid);
    var primary := PostNext(cache, v, s, cid, SubtreeScope, Compromised, cid);
    if primary.Err? { return Err(Refused(primary.error)); }
    Note(log, h, PostedEvent(cid), clock);
    ghost var noted := if log != null then log.entries else [];
    var ds := index.FindDescendants(cid);
    var posted := PostEach(cache, v, s, cid, ds);
    if posted.Err? { return Err(Refused(posted.error)); }
    if push.Some? && !push.value([primary.value] + posted.value) { return Err(PushFailed); }
    Note(log, h, CascadeEvent(cid, |ds|), clock2);
    if log != null {
      RecordsBoth(old(log.entries), noted, log.entries, PostedEvent(cid).(ts := clock),
                  CascadeEvent(cid, |ds|).(ts := clock2));
    }
    return Ok(CascadeReport(primary.value, posted.value));
  }

  lemma EventsHaveFields(cid: string)
    ensures PostedEvent(cid).payload.Fields? && PostedEvent(cid).ts == 0
    ensures forall n :: CascadeEvent(cid, n).payload.Fields? && CascadeEvent(cid, n).ts == 0
  {}

  /** What a cascade over a list leaves for each subject. */
  lemma {:induction false} CascadeOverDenies(s: Signer, v: Verifier, m: Latest, origin: string, ds: seq<string>)
    requires GoodSigner(s, v)
    ensures forall d | d in ds :: d in CascadeOver(s, m, origin, ds) && CascadeOver(s, m, origin, ds)[d].status.Cascade?
    ensures forall k | k in m ::
              k in CascadeOver(s, m, origin, ds)
              && if k in ds then CascadeOver(s, m, origin, ds)[k].sequence > m[k].sequence
                 else CascadeOver(s, m, origin, ds)[k] == m[k]
    ensures forall k | k in CascadeOver(s, m, origin, ds) :: k in m || k in ds
    decreases |ds|
  {
    if ds != [] {
      var init, d := ds[..|ds| - 1], ds[|ds| - 1];
      assert ds == init + [d];
      CascadeOverDenies(s, v, m, origin, init);
    }
  }

  /**
   * After a cascade the credential is COMPROMISED and each registered descendant is CASCADE, all
   * denying and with higher sequence numbers than before; nobody else is touched.
   */
  lemma CascadeDenies(s: Signer, v: Verifier, m: Latest, ix: Index, cid: string)
    requires GoodSigner(s, v)
    ensures var r := Cascaded(s, m, ix, cid);
            && cid in r && r[cid].status.Compromised?
            && (forall d | d != cid && Has(ix, cid, d) :: d in r && r[d].status.Cascade?)
            && (forall k | k in m && (k == cid || Has(ix, cid, k)) :: k in r && r[k].sequence > m[k].sequence)
            && (forall k | k != cid && !Has(ix, cid, k) :: (k in r <==> k in m) && (k in m ==> r[k] == m[k]))
  {
    hide Has, Descendants, CascadeOver;
    CascadeOverDenies(s, v, m[cid := PrimaryEntry(s, m, cid)], cid, Descendants(ix, cid));
  }
}
