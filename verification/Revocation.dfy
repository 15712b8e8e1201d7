/**
 * Revocation: signed entries and lists, the cache that keeps the latest entry per
 * subject, and what that cache holds after any run of updates.
 */
module Revocation {
  import opened Wrappers

  /** Statuses are strings on the wire; anything unknown is kept as it came. */
  datatype Status =
    | Revoked
    | Suspended
    | Reinstated
    | Compromised
    | Decommissioned
    | Cascade
    | OtherStatus(text: string)

  /** A status for which verification is refused. */
  predicate Denying(s: Status) {
    s.Revoked? || s.Decommissioned? || s.Suspended? || s.Compromised? || s.Cascade?
  }

  datatype Scope = CredentialScope | SubtreeScope | IdentityScope | OtherScope(text: string)

  datatype Subject = Subject(cid: string, did: string) {
    function Key(): string { if cid != "" then cid else did }
  }

  datatype Auth = Auth(did: string, basis: string, proof: string)

  datatype Entry = Entry(
    typ: string, sequence: int, subject: Subject, scope: Scope, status: Status, authority: Auth,
    iat: int, prev: string, sig: string)
  {
    function Key(): string { subject.Key() }
  }

  datatype RevocationList = RevocationList(
    typ: string, schemaVersion: string, issuedAt: int, expiresAt: int, issuer: string,
    sequence: int, entries: seq<Entry>, previous: string, sig: string)

  datatype RevocationError = MissingSubject | BadSignature | SequenceRollback

  type Latest = map<string, Entry>

  /** Which entries and lists carry a valid signature and an authority entitled to them. */
  datatype Verifier = Verifier(entryOk: Entry -> bool, listOk: (RevocationList, Bytes) -> bool)

  // ---- one entry, one list ----

  /** The latest entries once e is taken into account: only a higher sequence replaces. */
  function Apply(m: Latest, e: Entry): Latest {
    if e.Key() == "" || (e.Key() in m && e.sequence <= m[e.Key()].sequence) then m else m[e.Key() := e]
  }

  function ApplyAll(m: Latest, es: seq<Entry>): Latest
    decreases |es|
  {
    if es == [] then m else Apply(ApplyAll(m, es[..|es| - 1]), es[|es| - 1])
  }

  function RevokeError(v: Verifier, m: Latest, e: Entry): Option<RevocationError> {
    if e.Key() == "" then Some(MissingSubject)
    else if !v.entryOk(e) then Some(BadSignature)
    else if e.Key() in m && e.sequence <= m[e.Key()].sequence then Some(SequenceRollback)
    else None
  }

  function ListError(v: Verifier, listSeq: int, list: RevocationList, pub: Bytes): Option<RevocationError> {
    if !v.listOk(list, pub) then Some(BadSignature)
    else if list.sequence <= listSeq then Some(SequenceRollback)
    else None
  }

  /** The status lookup of verification: nothing on record, or reinstated, is active. */
  function StatusOf(m: Latest, subject: string): Option<Entry> {
    if subject !in m || m[subject].status.Reinstated? then None else Some(m[subject])
  }

  function SeqOf(m: Latest, subject: string): int { if subject in m then m[subject].sequence else 0 }

  class MemoryRevocationCache {
    var entries: Latest
    var listSeq: int

    constructor ()
      ensures entries == map[] && listSeq == 0
    {
      entries, listSeq := map[], 0;
    }

    method GetStatus(subject: string) returns (r: Option<Entry>)
      ensures r == StatusOf(entries, subject)
    {
      if subject !in entries || entries[subject].status.Reinstated? { return None; }
      return Some(entries[subject]);
    }

    method CurrentSeq(subject: string) returns (n: int)
      ensures n == SeqOf(entries, subject)
    {
      if subject in entries { return entries[subject].sequence; }
      return 0;
    }

    method Revoke(v: Verifier, e: Entry) returns (err: Option<RevocationError>)
      modifies this`entries
      ensures err == RevokeError(v, old(entries), e)
      ensures err.Some? ==> entries == old(entries)
      ensures err.None? ==> entries == old(entries)[e.Key() := e]
      ensures err.None? && e.Key() in old(entries) ==> e.sequence > old(entries)[e.Key()].sequence
    {
      var key := e.Key();
      if key == "" { return Some(MissingSubject); }
      if !v.entryOk(e) { return Some(BadSignature); }
      if key in entries && e.sequence <= entries[key].sequence { return Some(SequenceRollback); }
      entries := entries[key := e];
      return None;
    }

    method UpdateFromList(v: Verifier, list: RevocationList, pub: Bytes) returns (err: Option<RevocationError>)
      modifies this
      ensures err == ListError(v, old(listSeq), list, pub)
      ensures err.Some? ==> entries == old(entries) && listSeq == old(listSeq)
      ensures err.None? ==> entries == ApplyAll(old(entries), list.entries)
      ensures err.None? ==> listSeq == list.sequence && listSeq > old(listSeq)
    {
      if !v.listOk(list, pub) { return Some(BadSignature); }
      if list.sequence <= listSeq { return Some(SequenceRollback); }
      for i := 0 to |list.entries|
        invariant entries == ApplyAll(old(entries), list.entries[..i])
        invariant listSeq == old(listSeq)
      {
        var e := list.entries[i];
        var key := e.Key();
        assert list.entries[..i + 1][..i] == list.entries[..i];
        if key == "" { continue; }
        if key in entries && e.sequence <= entries[key].sequence { continue; }
        entries := entries[key := e];
      }
      assert list.entries[..|list.entries|] == list.entries;
      listSeq := list.sequence;
      return None;
    }
  }

  // ---- the latest entry, over a history ----

  /** es[i] is the first entry of highest sequence for its subject. */
  predicate IsBest(es: seq<Entry>, i: int) {
    && 0 <= i < |es|
    && forall j | 0 <= j < |es| && es[j].Key() == es[i].Key() ::
         es[j].sequence <= es[i].sequence && (j < i ==> es[j].sequence < es[i].sequence)
  }

  /** m keeps, for every named subject of the history, its best entry, and nothing else. */
  ghost predicate KeepsBest(m: Latest, history: seq<Entry>) {
    && (forall i | 0 <= i < |history| && history[i].Key() != "" :: history[i].Key() in m)
    && (forall k | k in m ::
          && k != ""
          && exists i :: 0 <= i < |history| && IsBest(history, i) && history[i] == m[k] && history[i].Key() == k)
  }

  lemma ApplyKeepsBest(m: Latest, history: seq<Entry>, e: Entry)
    requires KeepsBest(m, history)
    ensures KeepsBest(Apply(m, e), history + [e])
  {
    hide Entry.Key, IsBest;
    var r, longer := Apply(m, e), history + [e];
    forall i | 0 <= i < |longer| && longer[i].Key() != "" ensures longer[i].Key() in r {
      if i < |history| { assert longer[i] == history[i]; }
    }
    forall k | k in r
      ensures k != "" && exists i :: 0 <= i < |longer| && IsBest(longer, i) && longer[i] == r[k] && longer[i].Key() == k
    {
      if k == e.Key() && r != m {
        BestReplaced(m, history, e);
      } else {
        var i :| 0 <= i < |history| && IsBest(history, i) && history[i] == m[k] && history[i].Key() == k;
        BestStays(history, i, e);
      }
    }
  }

  lemma BestStays(history: seq<Entry>, i: int, e: Entry)
    requires IsBest(history, i)
    requires e.Key() == history[i].Key() ==> e.sequence <= history[i].sequence
    ensures IsBest(history + [e], i) && (history + [e])[i] == history[i]
  {
    hide Entry.Key;
    var longer := history + [e];
    assert forall j | 0 <= j < |history| :: longer[j] == history[j];
  }

  lemma BestReplaced(m: Latest, history: seq<Entry>, e: Entry)
    requires KeepsBest(m, history)
    requires e.Key() != "" && (e.Key() in m ==> e.sequence > m[e.Key()].sequence)
    ensures IsBest(history + [e], |history|)
  {
    hide Entry.Key;
    forall j | 0 <= j < |history| && history[j].Key() == e.Key() ensures history[j].sequence < e.sequence {
      var i :| 0 <= i < |history| && IsBest(history, i) && history[i] == m[e.Key()] && history[i].Key() == e.Key();
    }
  }

  lemma {:induction false} ApplyAllKeepsBest(m: Latest, history: seq<Entry>, es: seq<Entry>)
    requires KeepsBest(m, history)
    ensures KeepsBest(ApplyAll(m, es), history + es)
    decreases |es|
  {
    if es == [] {
      assert history + es == history;
    } else {
      var init, last := es[..|es| - 1], es[|es| - 1];
      ApplyAllKeepsBest(m, history, init);
      ApplyKeepsBest(ApplyAll(m, init), history + init, last);
      assert history + es == (history + init) + [last];
    }
  }

  // ---- runs ----

  datatype Call = RevokeCall(entry: Entry) | ListCall(list: RevocationList, pub: Bytes)

  datatype CacheState = CacheState(entries: Latest, listSeq: int)

  predicate Accepted(v: Verifier, s: CacheState, c: Call) {
    match c
    case RevokeCall(e) => RevokeError(v, s.entries, e).None?
    case ListCall(l, pub) => ListError(v, s.listSeq, l, pub).None?
  }

  /** What a call submits. */
  function Submitted(c: Call): seq<Entry> {
    match c
    case RevokeCall(e) => [e]
    case ListCall(l, _) => l.entries
  }

  /** The state after one call, as the methods leave it. */
  function CacheStep(v: Verifier, s: CacheState, c: Call): CacheState {
    if !Accepted(v, s, c) then s
    else
      match c
      case RevokeCall(e) => CacheState(s.entries[e.Key() := e], s.listSeq)
      case ListCall(l, _) => CacheState(ApplyAll(s.entries, l.entries), l.sequence)
  }

  function CacheRun(v: Verifier, calls: seq<Call>): CacheState
    decreases |calls|
  {
    if calls == [] then CacheState(map[], 0)
    else CacheStep(v, CacheRun(v, calls[..|calls| - 1]), calls[|calls| - 1])
  }

  /** The entries submitted by the accepted calls of a run, in order. */
  function History(v: Verifier, calls: seq<Call>): seq<Entry>
    decreases |calls|
  {
    if calls == [] then []
    else
      var init, last := calls[..|calls| - 1], calls[|calls| - 1];
      History(v, init) + if Accepted(v, CacheRun(v, init), last) then Submitted(last) else []
  }

  /** After any run, the cache holds each subject's highest-sequence accepted entry, first among equals. */
  lemma {:induction false} LatestWins(v: Verifier, calls: seq<Call>)
    ensures KeepsBest(CacheRun(v, calls).entries, History(v, calls))
    decreases |calls|
  {
    if calls != [] {
      var init, last := calls[..|calls| - 1], calls[|calls| - 1];
      LatestWins(v, init);
      var s, h := CacheRun(v, init), History(v, init);
      if !Accepted(v, s, last) {
        assert h + [] == h;
      } else if last.RevokeCall? {
        ApplyKeepsBest(s.entries, h, last.entry);
      } else {
        ApplyAllKeepsBest(s.entries, h, last.list.entries);
      }
    }
  }

  lemma {:induction false} ApplyAllRaises(m: Latest, es: seq<Entry>, k: string)
    requires k in m
    ensures k in ApplyAll(m, es)
    ensures ApplyAll(m, es)[k] == m[k] || ApplyAll(m, es)[k].sequence > m[k].sequence
    decreases |es|
  {
    if es != [] { ApplyAllRaises(m, es[..|es| - 1], k); }
  }

  /** A step never forgets a subject; it keeps its entry or replaces it by a strictly higher one. */
  lemma CacheStepRaises(v: Verifier, s: CacheState, c: Call, k: string)
    requires k in s.entries
    ensures k in CacheStep(v, s, c).entries
    ensures CacheStep(v, s, c).entries[k] == s.entries[k]
            || CacheStep(v, s, c).entries[k].sequence > s.entries[k].sequence
  {
    if Accepted(v, s, c) && c.ListCall? { ApplyAllRaises(s.entries, c.list.entries, k); }
  }

  // ---- order inside a list ----

  /** What a list makes of one subject: the cached entry or a strictly higher listed one, and the highest there is. */
  ghost predicate IsOutcome(m: Latest, es: seq<Entry>, r: Latest, k: string) {
    && (k in r <==> k in m || exists e :: e in es && e.Key() == k && k != "")
    && (k in r ==>
          && ((k in m && r[k] == m[k]) ||
              (r[k] in es && r[k].Key() == k && k != "" && (k in m ==> r[k].sequence > m[k].sequence)))
          && forall e | e in es && e.Key() == k && k != "" :: e.sequence <= r[k].sequence)
  }

  lemma {:induction false} ApplyAllOutcome(m: Latest, es: seq<Entry>, k: string)
    ensures IsOutcome(m, es, ApplyAll(m, es), k)
    decreases |es|
  {
    if es != [] {
      var init, last := es[..|es| - 1], es[|es| - 1];
      ApplyAllOutcome(m, init, k);
      assert es == init + [last];
      assert forall e :: e in es <==> e in init || e == last;
    }
  }

  /** e and f are different entries of one subject that share its highest listed sequence, above the cached one. */
  predicate TopTie(m: Latest, es: seq<Entry>, e: Entry, f: Entry) {
    && e in es && f in es && e != f
    && e.Key() == f.Key() && e.Key() != "" && e.sequence == f.sequence
    && (forall g | g in es && g.Key() == e.Key() :: g.sequence <= e.sequence)
    && (e.Key() in m ==> e.sequence > m[e.Key()].sequence)
  }

  ghost predicate HasTopTie(m: Latest, es: seq<Entry>) {
    exists e, f :: TopTie(m, es, e, f)
  }

  /** Without a tie at the top, the same entries in any order, and any number of times each, have one outcome. */
  lemma SameOutcome(m: Latest, es: seq<Entry>, fs: seq<Entry>)
    requires !HasTopTie(m, es)
    requires forall e :: e in es <==> e in fs
    ensures ApplyAll(m, es) == ApplyAll(m, fs)
  {
    hide ApplyAll, Entry.Key;
    var r, s := ApplyAll(m, es), ApplyAll(m, fs);
    forall k
      ensures k in r <==> k in s
      ensures k in r ==> r[k] == s[k]
    {
      ApplyAllOutcome(m, es, k);
      ApplyAllOutcome(m, fs, k);
      if k in r {
        assert r[k] == s[k] || TopTie(m, es, r[k], s[k]);
      }
    }
  }

  /** An entry that nothing in the rest of the list outdoes holds its subject from the front. */
  lemma {:induction false} FirstHolds(m: Latest, e: Entry, rest: seq<Entry>)
    requires e.Key() != "" && (e.Key() in m ==> e.sequence > m[e.Key()].sequence)
    requires forall g | g in rest && g.Key() == e.Key() :: g.sequence <= e.sequence
    ensures e.Key() in ApplyAll(m, [e] + rest) && ApplyAll(m, [e] + rest)[e.Key()] == e
    decreases |rest|
  {
    hide Entry.Key;
    var all := [e] + rest;
    if rest == [] {
      assert all == [e] && all[..0] == [];
      assert ApplyAll(m, []) == m;
    } else {
      var init, last := rest[..|rest| - 1], rest[|rest| - 1];
      assert all[..|all| - 1] == [e] + init && all[|all| - 1] == last && last in rest;
      FirstHolds(m, e, init);
    }
  }

  /** The list with one of its entries moved to the front. */
  lemma MoveToFront(es: seq<Entry>, e: Entry) returns (rest: seq<Entry>)
    requires e in es
    ensures multiset([e] + rest) == multiset(es) && forall g :: g in [e] + rest <==> g in es
  {
    var i :| 0 <= i < |es| && es[i] == e;
    rest := es[..i] + es[i + 1..];
    assert es == es[..i] + [e] + es[i + 1..];
    forall g ensures g in [e] + rest <==> g in es {
      assert g in multiset([e] + rest) <==> g in multiset(es);
    }
  }

  ghost predicate OrderIrrelevant(m: Latest, es: seq<Entry>) {
    forall fs | multiset(fs) == multiset(es) :: ApplyAll(m, fs) == ApplyAll(m, es)
  }

  /**
   * The order of a list matters exactly when two different entries of a subject tie at its highest
   * listed sequence and beat what is cached.
   */
  lemma ListOrderIrrelevant(m: Latest, es: seq<Entry>)
    ensures OrderIrrelevant(m, es) <==> !HasTopTie(m, es)
  {
    hide ApplyAll, TopTie;
    if !HasTopTie(m, es) {
      forall fs | multiset(fs) == multiset(es) ensures ApplyAll(m, fs) == ApplyAll(m, es) {
        forall e ensures e in es <==> e in fs {
          assert e in multiset(es) <==> e in multiset(fs);
        }
        SameOutcome(m, es, fs);
      }
    } else {
      var e, f :| TopTie(m, es, e, f);
      var es1, es2 := TieIsDecidedByOrder(m, es, e, f);
      assert ApplyAll(m, es1)[e.Key()] != ApplyAll(m, es2)[e.Key()];
    }
  }

  /** Of two tied entries, whichever is listed first wins. */
  lemma TieIsDecidedByOrder(m: Latest, es: seq<Entry>, e: Entry, f: Entry) returns (es1: seq<Entry>, es2: seq<Entry>)
    requires TopTie(m, es, e, f)
    ensures e != f && multiset(es1) == multiset(es) && multiset(es2) == multiset(es)
    ensures e.Key() in ApplyAll(m, es1) && ApplyAll(m, es1)[e.Key()] == e
    ensures e.Key() in ApplyAll(m, es2) && ApplyAll(m, es2)[e.Key()] == f
  {
    hide ApplyAll, Entry.Key;
    var rest1 := MoveToFront(es, e);
    var rest2 := MoveToFront(es, f);
    FirstHolds(m, e, rest1);
    FirstHolds(m, f, rest2);
    es1, es2 := [e] + rest1, [f] + rest2;
  }
}
