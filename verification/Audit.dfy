/** The hash-linked audit log: appending, checking, and what the last hash pins down. */
module Audit {
  import opened Wrappers
  import opened Jcs
  import Canonicalizer
  import Text

  /** An event's payload: JSON fields, or something the canonicalizer refuses (a fraction, say). */
  datatype Payload = Fields(fields: map<string, Value>) | Unserializable

  /** What a caller supplies; ts 0 asks for the clock, a missing payload is empty. */
  datatype Event = Event(
    eventType: string, agentId: string, credCid: string, chainHash: string, ts: int, payload: Payload)

  datatype Entry = Entry(id: string, seqNo: int, prevHash: string, hash: string, event: Event)

  /** The serializer and the digest, as a hexadecimal string. */
  datatype Hasher = Hasher(canonical: Value -> Bytes, digest: Bytes -> string)

  /** Canonical serialization, and a collision-free digest of at least the identifier's length. */
  ghost predicate GoodHasher(h: Hasher) {
    && (forall v :: h.canonical(v) == Canonicalizer.CanonicalBytes(v))
    && (forall a, b :: h.digest(a) == h.digest(b) ==> a == b)
    && (forall a :: |h.digest(a)| >= 12)
  }

  /** The object an entry's hash is taken over. */
  function HashedObject(seqNo: int, prevHash: string, e: Event): Value
    requires e.payload.Fields?
  {
    Obj(map[
          "seq" := Num(seqNo),
          "ts" := Num(e.ts),
          "prev_hash" := Str(prevHash),
          "event_type" := Str(e.eventType),
          "agent_id" := Str(e.agentId),
          "cred_cid" := Str(e.credCid),
          "chain_hash" := Str(e.chainHash),
          "payload" := Obj(e.payload.fields)
        ])
  }

  function EntryHash(h: Hasher, seqNo: int, prevHash: string, e: Event): Option<string> {
    if e.payload.Unserializable? then None else Some(h.digest(h.canonical(HashedObject(seqNo, prevHash, e))))
  }

  /** Equal hashes come only from equal fields. */
  lemma HashBinds(h: Hasher, m: int, p: string, e: Event, n: int, q: string, f: Event)
    requires GoodHasher(h) && EntryHash(h, m, p, e).Some?
    requires EntryHash(h, m, p, e) == EntryHash(h, n, q, f)
    ensures m == n && p == q && e == f
  {
    hide HashedObject, Canonicalizer.CanonicalBytes;
    var a, b := HashedObject(m, p, e), HashedObject(n, q, f);
    assert h.canonical(a) == h.canonical(b);
    Canonicalizer.CanonicalInjective(a, b);
    Lookups(m, p, e);
    Lookups(n, q, f);
  }

  lemma Lookups(seqNo: int, prevHash: string, e: Event)
    requires e.payload.Fields?
    ensures var o := HashedObject(seqNo, prevHash, e);
            && Lookup(o, "seq") == Some(Num(seqNo)) && Lookup(o, "ts") == Some(Num(e.ts))
            && Lookup(o, "prev_hash") == Some(Str(prevHash)) && Lookup(o, "event_type") == Some(Str(e.eventType))
            && Lookup(o, "agent_id") == Some(Str(e.agentId)) && Lookup(o, "cred_cid") == Some(Str(e.credCid))
            && Lookup(o, "chain_hash") == Some(Str(e.chainHash)) && Lookup(o, "payload") == Some(Obj(e.payload.fields))
  {
    assert "agent_id"[0] != "cred_cid"[0] && "event_type"[0] != "chain_hash"[0];
  }

  function Lookup(v: Value, name: string): Option<Value> {
    if v.Obj? && name in v.fields then Some(v.fields[name]) else None
  }

  // ---- linkage ----

  function LastHash(es: seq<Entry>): string { if es == [] then "" else es[|es| - 1].hash }

  /** Every entry carries the hash of its own fields and the hash of the entry before it. */
  predicate Linked(h: Hasher, es: seq<Entry>)
    decreases |es|
  {
    es == [] ||
    var init, last := es[..|es| - 1], es[|es| - 1];
    && Linked(h, init)
    && last.prevHash == LastHash(init)
    && EntryHash(h, last.seqNo, last.prevHash, last.event) == Some(last.hash)
  }

  predicate IncreasingUpTo(es: seq<Entry>, top: int) {
    && (forall i | 0 <= i < |es| :: 0 < es[i].seqNo <= top)
    && (forall i, j | 0 <= i < j < |es| :: es[i].seqNo < es[j].seqNo)
  }

  lemma {:induction false} LinkedPrefix(h: Hasher, es: seq<Entry>, n: nat)
    requires Linked(h, es) && n <= |es|
    ensures Linked(h, es[..n])
    decreases |es|
  {
    if n < |es| {
      assert es[..|es| - 1][..n] == es[..n];
      LinkedPrefix(h, es[..|es| - 1], n);
    } else {
      assert es[..n] == es;
    }
  }

  /** An entry that carries the last hash and its own extends the linkage. */
  lemma LinkedSnoc(h: Hasher, es: seq<Entry>, e: Entry)
    requires Linked(h, es) && e.prevHash == LastHash(es)
    requires EntryHash(h, e.seqNo, e.prevHash, e.event) == Some(e.hash)
    ensures Linked(h, es + [e]) && LastHash(es + [e]) == e.hash
  {
    hide EntryHash;
    assert (es + [e])[..|es|] == es;
  }

  lemma IncreasingMore(es: seq<Entry>, top: int)
    requires 0 <= top && IncreasingUpTo(es, top)
    ensures IncreasingUpTo(es, top + 1)
  {}

  lemma IncreasingSnoc(es: seq<Entry>, e: Entry)
    requires 0 < e.seqNo && IncreasingUpTo(es, e.seqNo - 1)
    ensures IncreasingUpTo(es + [e], e.seqNo)
  {}

  lemma HashIsLong(h: Hasher, seqNo: int, prevHash: string, e: Event)
    requires GoodHasher(h)
    ensures var hash := EntryHash(h, seqNo, prevHash, e);
            (hash.Some? <==> e.payload.Fields?) && (hash.Some? ==> |hash.value| >= 12)
  {
    hide HashedObject;
  }

  class MemoryAuditLog {
    var entries: seq<Entry>
    var lastHash: string
    var counter: int

    /** Linked from the first entry to the recorded last hash, with sequence numbers that never repeat. */
    ghost predicate Valid(h: Hasher)
      reads this
    {
      Linked(h, entries) && lastHash == LastHash(entries) && 0 <= counter && IncreasingUpTo(entries, counter)
    }

    constructor ()
      ensures entries == [] && lastHash == "" && counter == 0
      ensures forall h :: Valid(h)
    {
      entries, lastHash, counter := [], "", 0;
    }

    /** A refused event uses up a sequence number and changes nothing else. */
    method Append(h: Hasher, e: Event, clock: int) returns (ok: bool)
      requires Valid(h) && GoodHasher(h)
      modifies this
      ensures Valid(h) && counter == old(counter) + 1
      ensures ok == e.payload.Fields?
      ensures !ok ==> entries == old(entries) && lastHash == old(lastHash)
      ensures ok ==> |entries| == |old(entries)| + 1 && old(entries) <= entries
      ensures ok ==> entries[|old(entries)|].event == e.(ts := if e.ts == 0 then clock else e.ts)
      ensures ok ==> entries[|old(entries)|].seqNo == counter
    {
      hide Linked, IncreasingUpTo, EntryHash, GoodHasher;
      counter := counter + 1;
      var event := e.(ts := if e.ts == 0 then clock else e.ts);
      var hash := EntryHash(h, counter, lastHash, event);
      IncreasingMore(entries, counter - 1);
      HashIsLong(h, counter, lastHash, event);
      if hash.None? { return false; }
      var id := "ae_" + Text.Itoa(counter) + "_" + hash.value[..12];
      var entry := Entry(id, counter, lastHash, hash.value, event);
      LinkedSnoc(h, entries, entry);
      IncreasingSnoc(entries, entry);
      entries := entries + [entry];
      lastHash := hash.value;
      return true;
    }

    method VerifyChain(h: Hasher) returns (ok: bool)
      ensures ok == Linked(h, entries)
    {
      var prev := "";
      for i := 0 to |entries|
        invariant Linked(h, entries[..i]) && prev == LastHash(entries[..i])
      {
        assert entries[..i + 1][..i] == entries[..i];
        var e := entries[i];
        var hash := EntryHash(h, e.seqNo, e.prevHash, e.event);
        if e.prevHash != prev || hash != Some(e.hash) {
          if Linked(h, entries) { LinkedPrefix(h, entries, i + 1); }
          return false;
        }
        prev := e.hash;
      }
      assert entries[..|entries|] == entries;
      return true;
    }
  }

  // ---- the log a last hash stands for ----

  /** Everything of an entry but its derived identifier. */
  predicate SameRecord(a: Entry, b: Entry) {
    a.seqNo == b.seqNo && a.prevHash == b.prevHash && a.hash == b.hash && a.event == b.event
  }

  /** Two intact logs that end in the same hash have the same length and record the same events. */
  lemma {:induction false} LastHashPinsLog(h: Hasher, es: seq<Entry>, fs: seq<Entry>)
    requires GoodHasher(h) && Linked(h, es) && Linked(h, fs) && LastHash(es) == LastHash(fs)
    ensures |es| == |fs| && forall i | 0 <= i < |es| :: SameRecord(es[i], fs[i])
    decreases |es|
  {
    hide EntryHash;
    HashNotEmpty(h, es);
    HashNotEmpty(h, fs);
    if es != [] {
      var a, b := es[|es| - 1], fs[|fs| - 1];
      HashBinds(h, a.seqNo, a.prevHash, a.event, b.seqNo, b.prevHash, b.event);
      LastHashPinsLog(h, es[..|es| - 1], fs[..|fs| - 1]);
    }
  }

  lemma HashNotEmpty(h: Hasher, es: seq<Entry>)
    requires GoodHasher(h) && Linked(h, es)
    ensures es != [] ==>
              LastHash(es) != "" && EntryHash(h, es[|es| - 1].seqNo, es[|es| - 1].prevHash, es[|es| - 1].event).Some?
  {
    if es != [] { assert |LastHash(es)| >= 12; }
  }
}
