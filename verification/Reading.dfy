/**
 * JSON text read token by token: the first error there is in reading order, be it a fault in the syntax or one
 * against the profile.
 */
module Reading {
  import opened Wrappers
  import opened Json
  import opened Jcs
  import opened Profile

  datatype ReadError = BadSyntax | Outside(f: Fault)

  /** The text after the first value, or the first error on the way through it. */
  function ReadValue(s: string): (r: Result<string, ReadError>)
    ensures r.Ok? ==> |r.value| < |s|
    decreases |s|, 1
  {
    var t := SkipSpace(s);
    if t == "" then Err(BadSyntax)
    else if t[0] == '{' then
      var u := SkipSpace(t[1..]);
      if u != "" && u[0] == '}' then Ok(u[1..]) else ReadMembers(t[1..], {})
    else if t[0] == '[' then
      var u := SkipSpace(t[1..]);
      if u != "" && u[0] == ']' then Ok(u[1..]) else ReadItems(t[1..])
    else if t[0] == '"' then
      if ParseString(t[1..]).None? then Err(BadSyntax) else Ok(ParseString(t[1..]).value.1)
    else if StartsWith(t, "true") then Ok(t[4..])
    else if StartsWith(t, "false") then Ok(t[5..])
    else if StartsWith(t, "null") then Ok(t[4..])
    else
      match NumberEnd(t)
      case None => Err(BadSyntax)
      case Some(n) => if IsInteger(t[..n]) then Ok(t[n..]) else Err(Outside(NonInteger(t[..n])))
  }

  function ReadItems(s: string): (r: Result<string, ReadError>)
    ensures r.Ok? ==> |r.value| < |s|
    decreases |s|, 2
  {
    match ReadValue(s)
    case Err(e) => Err(e)
    case Ok(after) =>
      var t := SkipSpace(after);
      if t == "" then Err(BadSyntax)
      else if t[0] == ']' then Ok(t[1..])
      else if t[0] == ',' then ReadItems(t[1..])
      else Err(BadSyntax)
  }

  /** Members, given the keys read before them in the same object; a key is judged as soon as it is read. */
  function ReadMembers(s: string, seen: set<string>): (r: Result<string, ReadError>)
    ensures r.Ok? ==> |r.value| < |s|
    decreases |s|, 2
  {
    match ReadKey(s)
    case None => Err(BadSyntax)
    case Some((key, afterKey)) =>
      if key in seen then Err(Outside(DuplicateKey(key)))
      else
        match ReadAfterColon(afterKey)
        case Err(e) => Err(e)
        case Ok(after) =>
          var t := SkipSpace(after);
          if t == "" then Err(BadSyntax)
          else if t[0] == '}' then Ok(t[1..])
          else if t[0] == ',' then ReadMembers(t[1..], seen + {key})
          else Err(BadSyntax)
  }

  function ReadKey(s: string): (r: Option<(string, string)>)
    ensures r.Some? ==> |r.value.1| < |s|
  {
    var t := SkipSpace(s);
    if t == "" || t[0] != '"' then None
    else
      match ParseString(t[1..])
      case None => None
      case Some((key, rest)) => Some((DecodeString(key), rest))
  }

  function ReadAfterColon(s: string): (r: Result<string, ReadError>)
    ensures r.Ok? ==> |r.value| < |s|
    decreases |s|, 2
  {
    var u := SkipSpace(s);
    if u == "" || u[0] != ':' then Err(BadSyntax) else ReadValue(u[1..])
  }

  // ---- the reader and the grammar ----

  /** What reading says, put in terms of what parsing gives. */
  ghost predicate Agrees(fault: Option<Fault>, rest: string, r: Result<string, ReadError>) {
    r == if fault.None? then Ok(rest) else Err(Outside(fault.value))
  }

  lemma {:induction false} ItemFaultShift(d: Doc, ds: seq<Doc>, i: nat)
    requires i <= |ds|
    ensures ItemFault(DArr([d] + ds), i + 1) == ItemFault(DArr(ds), i)
    decreases |ds| - i
  {
    hide FaultOf;
    if i < |ds| {
      ItemFaultShift(d, ds, i + 1);
      assert ([d] + ds)[i + 1] == ds[i];
    }
  }

  lemma FirstItemFault(d: Doc, ds: seq<Doc>)
    ensures ItemFault(DArr([d] + ds), 0) == if FaultOf(d).Some? then FaultOf(d) else ItemFault(DArr(ds), 0)
  {
    hide FaultOf;
    ItemFaultShift(d, ds, 0);
    assert ([d] + ds)[0] == d;
  }

  ghost function KeysOf(ms: seq<Member>): set<string> { set m | m in ms :: DecodeString(m.key) }

  lemma NextFault(before: seq<Member>, m: Member, rest: seq<Member>)
    ensures var all := before + [m] + rest;
            MemberFault(DObj(all), |before|) ==
            if DecodeString(m.key) in KeysOf(before) then Some(DuplicateKey(DecodeString(m.key)))
            else if FaultOf(m.value).Some? then FaultOf(m.value)
            else MemberFault(DObj(all), |before| + 1)
  {
    hide FaultOf, DecodeString;
    var all := before + [m] + rest;
    assert all[|before|] == m;
    assert KeyRepeats(all, |before|) <==> DecodeString(m.key) in KeysOf(before) by {
      assert forall j | 0 <= j < |before| :: all[j] == before[j];
    }
  }

  /**
   * Reading agrees with parsing: on well-formed text it gives the first fault of the tree, or the text after it
   * when there is none; on any other text it gives an error.
   */
  lemma {:induction false} ReadExactly(s: string)
    ensures match ParseValue(s)
            case Some((d, rest)) => Agrees(FaultOf(d), rest, ReadValue(s))
            case None => ReadValue(s).Err?
    decreases |s|, 1
  {
    hide DecodeString, IsInteger, ItemFault, MemberFault, ParseItems, ParseMembers, ReadItems, ReadMembers;
    var t := SkipSpace(s);
    if t != "" && t[0] == '{' {
      ReadMembersExactly(t[1..], []);
      NothingBefore(t[1..]);
      EmptyHasNoFault();
    } else if t != "" && t[0] == '[' {
      ReadItemsExactly(t[1..]);
      EmptyHasNoFault();
    }
  }

  lemma EmptyHasNoFault()
    ensures ItemFault(DArr([]), 0).None? && MemberFault(DObj([]), 0).None?
  {}

  lemma NothingBefore(s: string)
    ensures KeysOf([]) == {}
    ensures ParseMembers(s).Some? ==> [] + ParseMembers(s).value.0 == ParseMembers(s).value.0
  {}

  lemma {:induction false} ReadItemsExactly(s: string)
    ensures match ParseItems(s)
            case Some((ds, rest)) => Agrees(ItemFault(DArr(ds), 0), rest, ReadItems(s))
            case None => ReadItems(s).Err?
    decreases |s|, 2
  {
    hide ParseValue, ReadValue, FaultOf, ItemFault;
    ReadExactly(s);
    if ParseValue(s).Some? {
      var (d, after) := ParseValue(s).value;
      var t := SkipSpace(after);
      FirstItemFault(d, []);
      EmptyHasNoFault();
      assert [d] + [] == [d];
      if t != "" && t[0] == ',' {
        ReadItemsExactly(t[1..]);
        if ParseItems(t[1..]).Some? { FirstItemFault(d, ParseItems(t[1..]).value.0); }
      }
    }
  }

  lemma {:induction false} ReadMembersExactly(s: string, before: seq<Member>)
    ensures match ParseMembers(s)
            case Some((ms, rest)) =>
              Agrees(MemberFault(DObj(before + ms), |before|), rest, ReadMembers(s, KeysOf(before)))
            case None => ReadMembers(s, KeysOf(before)).Err?
    decreases |s|, 2
  {
    hide ParseValue, ReadValue, FaultOf, MemberFault, DecodeString;
    MemberRead(s);
    if ParseMember(s).Some? {
      var (m, after) := ParseMember(s).value;
      var t := SkipSpace(after);
      if t != "" && t[0] == ',' {
        ReadMembersExactly(t[1..], before + [m]);
        KeysSnoc(before, m);
        if ParseMembers(t[1..]).Some? {
          var more := ParseMembers(t[1..]).value.0;
          NextFault(before, m, more);
          assert before + ([m] + more) == before + [m] + more;
        }
      } else if t != "" && t[0] == '}' {
        NextFault(before, m, []);
        assert before + [m] + [] == before + [m];
        NoneLeft(before + [m]);
      }
    }
  }

  lemma NoneLeft(ms: seq<Member>)
    ensures MemberFault(DObj(ms), |ms|).None?
  {}

  lemma KeysSnoc(before: seq<Member>, m: Member)
    ensures KeysOf(before + [m]) == KeysOf(before) + {DecodeString(m.key)}
  {
    hide DecodeString;
    assert forall x :: x in before + [m] <==> x in before || x == m;
  }

  /** One member, read and parsed. */
  lemma {:induction false} MemberRead(s: string)
    ensures ReadKey(s).None? ==> ParseMember(s).None?
    ensures ReadKey(s).Some? ==>
              match ParseMember(s)
              case Some((m, after)) =>
                DecodeString(m.key) == ReadKey(s).value.0
                && Agrees(FaultOf(m.value), after, ReadAfterColon(ReadKey(s).value.1))
              case None => ReadAfterColon(ReadKey(s).value.1).Err?
    decreases |s|, 1
  {
    hide ParseValue, ReadValue, FaultOf, DecodeString;
    if ReadKey(s).Some? {
      var u := SkipSpace(ReadKey(s).value.1);
      if u != "" { ReadExactly(u[1..]); }
    }
  }
}
