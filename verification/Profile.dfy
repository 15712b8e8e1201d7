/** The I-JSON profile on documents: which keep to it, and which fault is met first in one that does not. */
module Profile {
  import opened Wrappers
  import opened Json
  import opened Jcs

  /** The I-JSON profile on a document: integers only, and no key twice in one object. */
  predicate InProfile(d: Doc) {
    match d
    case DNum(lit) => IsInteger(lit)
    case DArr(items) => forall i | 0 <= i < |items| :: InProfile(items[i])
    case DObj(ms) => DistinctKeys(ms) && forall i | 0 <= i < |ms| :: InProfile(ms[i].value)
    case _ => true
  }

  /** A fault against the profile. */
  datatype Fault = DuplicateKey(key: string) | NonInteger(lit: string)

  /** The first fault of a document in reading order: a key is looked at before its value. */
  function FaultOf(d: Doc): Option<Fault>
    decreases d, 2, 0
  {
    match d
    case DNum(lit) => if IsInteger(lit) then None else Some(NonInteger(lit))
    case DArr(_) => ItemFault(d, 0)
    case DObj(_) => MemberFault(d, 0)
    case _ => None
  }

  function ItemFault(d: Doc, i: nat): Option<Fault>
    requires d.DArr? && i <= |d.items|
    decreases d, 1, |d.items| - i
  {
    if i == |d.items| then None
    else if FaultOf(d.items[i]).Some? then FaultOf(d.items[i])
    else ItemFault(d, i + 1)
  }

  predicate KeyRepeats(ms: seq<Member>, i: nat)
    requires i < |ms|
  {
    exists j :: 0 <= j < i && DecodeString(ms[j].key) == DecodeString(ms[i].key)
  }

  function MemberFault(d: Doc, i: nat): Option<Fault>
    requires d.DObj? && i <= |d.members|
    decreases d, 1, |d.members| - i
  {
    if i == |d.members| then None
    else if KeyRepeats(d.members, i) then Some(DuplicateKey(DecodeString(d.members[i].key)))
    else if FaultOf(d.members[i].value).Some? then FaultOf(d.members[i].value)
    else MemberFault(d, i + 1)
  }

  /** A document keeps to the profile exactly when it has no fault. */
  lemma {:induction false} FaultsExactly(d: Doc)
    ensures FaultOf(d).None? <==> InProfile(d)
    decreases d, 2, 0
  {
    hide DecodeString, IsInteger;
    match d
    case DArr(_) => ItemFaults(d, 0);
    case DObj(_) => MemberFaults(d, 0);
    case _ =>
  }

  lemma {:induction false} ItemFaults(d: Doc, i: nat)
    requires d.DArr? && i <= |d.items|
    ensures ItemFault(d, i).None? <==> forall k | i <= k < |d.items| :: InProfile(d.items[k])
    decreases d, 1, |d.items| - i
  {
    hide DecodeString, IsInteger;
    if i < |d.items| {
      FaultsExactly(d.items[i]);
      ItemFaults(d, i + 1);
    }
  }

  lemma {:induction false} MemberFaults(d: Doc, i: nat)
    requires d.DObj? && i <= |d.members|
    ensures MemberFault(d, i).None? <==>
            forall k | i <= k < |d.members| :: !KeyRepeats(d.members, k) && InProfile(d.members[k].value)
    decreases d, 1, |d.members| - i
  {
    hide DecodeString, IsInteger, KeyRepeats;
    if i < |d.members| {
      FaultsExactly(d.members[i].value);
      MemberFaults(d, i + 1);
    }
  }
}
