/**
 * The canonicalizer as it runs: buffers that are appended to, a set of seen keys,
 * and a member list that is sorted before it is written. Each method is tied to
 * the value the syntax tree denotes and to the canonical text of that value.
 */
module JcsWriter {
  import opened Wrappers
  import opened Text
  import opened Json
  import opened Jcs
  import opened Profile
  import Lex

  // ---- strings and numbers ----

  lemma {:induction false} EscapeSnoc(s: string, c: char)
    ensures EscapeAll(s + [c]) == EscapeAll(s) + EscapeChar(c)
  {
    hide EscapeChar;
    if s == "" {
      assert "" + [c] == [c] && [c][1..] == "";
      assert EscapeAll([c]) == EscapeChar(c) + "";
    } else {
      EscapeSnoc(s[1..], c);
      assert (s + [c])[1..] == s[1..] + [c];
    }
  }

  method WriteString(out: string, s: string) returns (r: string)
    ensures r == out + PrintString(s)
  {
    hide EscapeChar;
    r := out + "\"";
    for i := 0 to |s|
      invariant r == out + ("\"" + EscapeAll(s[..i]))
    {
      EscapeSnoc(s[..i], s[i]);
      assert s[..i + 1] == s[..i] + [s[i]];
      r := r + EscapeChar(s[i]);
    }
    assert s[..|s|] == s;
    r := r + "\"";
  }

  /** A literal of the number grammar, and nothing more. */
  predicate NumberLiteral(lit: string) { NumberEnd(lit) == Some(|lit|) }

  /** What the grammar leaves once point and exponent markers are excluded. */
  lemma IntegerLiteral(lit: string)
    requires NumberLiteral(lit)
    ensures IsInteger(lit) <==> IntegerOf(lit).Some?
    ensures IsInteger(lit) ==> PrintInt(IntegerOf(lit).value) == if lit == "-0" then "0" else lit
  {
    var sign := if lit[0] == '-' then 1 else 0;
    var i := IntEnd(lit, sign);
    var digits := if lit[0] == '-' then lit[1..] else lit;
    IntEndDigits(lit, sign);
    if i == |lit| {
      assert forall k | 0 <= k < |digits| :: digits[k] == lit[sign + k];
      WholeLiteral(lit, digits);
    } else {
      assert lit[i] == '.' || lit[i] == 'e' || lit[i] == 'E';
      assert lit[i] in lit && !IsInteger(lit);
      assert !IsDigit(digits[i - sign]) && !AllDigits(digits);
    }
  }

  lemma WholeLiteral(lit: string, digits: string)
    requires digits != "" && AllDigits(digits) && (digits[0] == '0' ==> digits == "0")
    requires lit == digits || lit == "-" + digits
    ensures IsInteger(lit) && IntegerOf(lit).Some?
    ensures PrintInt(IntegerOf(lit).value) == if lit == "-0" then "0" else lit
  {
    hide NumberEnd;
    ItoaOfParse(digits);
    assert lit[0] == '-' ==> lit[1..] == digits;
    forall c | c in lit ensures c != '.' && c != 'e' && c != 'E' {
      if c in digits { var k :| 0 <= k < |digits| && digits[k] == c; }
    }
    assert ParseDigits("0") == 0 by { ParseOfItoa(0); }
  }

  lemma IntEndDigits(s: string, i: nat)
    requires i <= |s|
    ensures var j := IntEnd(s, i); (forall k | i <= k < j :: IsDigit(s[k])) && (i < j && s[i] == '0' ==> j == i + 1)
  {
    DigitsEndDigits(s, i);
  }

  lemma {:induction false} DigitsEndDigits(s: string, i: nat)
    requires i <= |s|
    ensures forall k | i <= k < DigitsEnd(s, i) :: IsDigit(s[k])
    decreases |s| - i
  {
    if i < |s| && IsDigit(s[i]) { DigitsEndDigits(s, i + 1); }
  }

  method WriteNumber(out: string, lit: string) returns (r: Option<string>)
    requires NumberLiteral(lit)
    ensures r == match IntegerOf(lit) case None => None case Some(n) => Some(out + PrintInt(n))
  {
    IntegerLiteral(lit);
    for i := 0 to |lit|
      invariant forall c | c in lit[..i] :: c != '.' && c != 'e' && c != 'E'
    {
      assert lit[i] in lit && lit[..i + 1] == lit[..i] + [lit[i]];
      if lit[i] == '.' || lit[i] == 'e' || lit[i] == 'E' { return None; }
    }
    assert lit[..|lit|] == lit;
    return Some(out + if lit == "-0" then "0" else lit);
  }

  // ---- member order ----

  /** One member, decorated with its UTF-16 key and its canonical value text. */
  datatype Entry = Entry(key: string, key16: seq<nat>, text: string)

  predicate InOrder(es: seq<Entry>) {
    forall i, j | 0 <= i < j < |es| :: Lex.Compare(es[i].key16, es[j].key16) < 0
  }

  /** Puts e among entries that are already in order. */
  method Insert(es: seq<Entry>, e: Entry) returns (r: seq<Entry>)
    requires InOrder(es) && forall i | 0 <= i < |es| :: es[i].key16 != e.key16
    ensures InOrder(r) && multiset(r) == multiset(es) + multiset{e}
  {
    hide InOrder, Lex.Compare;
    var pos := 0;
    while pos < |es|
      invariant 0 <= pos <= |es|
      invariant forall i | 0 <= i < pos :: Lex.Compare(es[i].key16, e.key16) < 0
    {
      var c := Lex.CompareUnits(es[pos].key16, e.key16);
      if c >= 0 { break; }
      pos := pos + 1;
    }
    r := es[..pos] + [e] + es[pos..];
    InsertKeepsOrder(es, e, pos);
    InsertKeepsElements(es, e, pos);
  }

  lemma InsertKeepsElements<T>(es: seq<T>, e: T, pos: nat)
    requires pos <= |es|
    ensures multiset(es[..pos] + [e] + es[pos..]) == multiset(es) + multiset{e}
  {
    assert es == es[..pos] + es[pos..];
  }

  lemma InsertKeepsOrder(es: seq<Entry>, e: Entry, pos: nat)
    requires pos <= |es| && InOrder(es)
    requires forall i | 0 <= i < pos :: Lex.Compare(es[i].key16, e.key16) < 0
    requires pos < |es| ==> es[pos].key16 != e.key16 && Lex.Compare(es[pos].key16, e.key16) >= 0
    ensures InOrder(es[..pos] + [e] + es[pos..])
  {
    hide Lex.Compare;
    forall k | pos <= k < |es| ensures Lex.Compare(e.key16, es[k].key16) < 0 {
      Lex.CompareZero(es[pos].key16, e.key16);
      Lex.CompareFlip(es[pos].key16, e.key16);
      if k > pos { Lex.CompareTransitive(e.key16, es[pos].key16, es[k].key16); }
    }
    var r := es[..pos] + [e] + es[pos..];
    forall i, j | 0 <= i < j < |r| ensures Lex.Compare(r[i].key16, r[j].key16) < 0 {
      assert i < pos ==> r[i] == es[i];
      assert i > pos ==> r[i] == es[i - 1];
      assert j < pos ==> r[j] == es[j];
      assert j > pos ==> r[j] == es[j - 1];
    }
  }

  method SortEntries(es: seq<Entry>) returns (r: seq<Entry>)
    requires forall i, j | 0 <= i < j < |es| :: es[i].key16 != es[j].key16
    ensures InOrder(r) && multiset(r) == multiset(es)
  {
    r := [];
    for i := 0 to |es|
      invariant InOrder(r) && multiset(r) == multiset(es[..i])
    {
      forall k | 0 <= k < |r| ensures r[k].key16 != es[i].key16 {
        assert r[k] in multiset(r);
        assert r[k] in es[..i];
      }
      r := Insert(r, es[i]);
      assert es[..i + 1] == es[..i] + [es[i]];
    }
    assert es[..|es|] == es;
  }

  // ---- separated lists ----

  /** The items separated by commas. */
  function CommaList(items: seq<string>): string {
    if items == [] then "" else Join(items, ',')
  }

  lemma {:induction false} JoinSnoc(items: seq<string>, last: string)
    requires items != []
    ensures Join(items + [last], ',') == Join(items, ',') + "," + last
  {
    if |items| > 1 {
      JoinSnoc(items[1..], last);
      assert (items + [last])[1..] == items[1..] + [last];
    } else {
      assert (items + [last])[1..] == [last];
    }
  }

  ghost function ItemTexts(v: Value): seq<string>
    requires v.Arr?
  {
    seq(|v.items|, i requires 0 <= i < |v.items| => Print(v.items[i]))
  }

  lemma {:induction false} ItemsAsList(v: Value, i: nat)
    requires v.Arr? && i < |v.items|
    ensures PrintItems(v, i) == Join(ItemTexts(v)[i..], ',') + "]"
    decreases |v.items| - i
  {
    hide Print;
    var texts := ItemTexts(v)[i..];
    if i + 1 < |v.items| {
      ItemsAsList(v, i + 1);
      assert texts[1..] == ItemTexts(v)[i + 1..];
    }
  }

  ghost function FieldText(v: Value, k: string): string
    requires v.Obj? && k in v.fields
  {
    PrintString(k) + ":" + Print(v.fields[k])
  }

  ghost function FieldTexts(v: Value, ks: seq<string>): seq<string>
    requires v.Obj? && forall k | k in ks :: k in v.fields
  {
    seq(|ks|, i requires 0 <= i < |ks| => FieldText(v, ks[i]))
  }

  lemma {:induction false} FieldsAsList(v: Value, ks: seq<string>)
    requires v.Obj? && ks != [] && forall k | k in ks :: k in v.fields
    ensures PrintFields(v, ks) == Join(FieldTexts(v, ks), ',') + "}"
  {
    hide Print, PrintString;
    if |ks| > 1 {
      FieldsAsList(v, ks[1..]);
      assert FieldTexts(v, ks)[1..] == FieldTexts(v, ks[1..]);
    }
  }

  lemma ArrayAsList(v: Value)
    requires v.Arr?
    ensures Print(v) == "[" + CommaList(ItemTexts(v)) + "]"
  {
    if v.items != [] {
      ItemsAsList(v, 0);
      assert ItemTexts(v)[0..] == ItemTexts(v);
    }
  }

  lemma ObjectAsList(v: Value)
    requires v.Obj?
    ensures Print(v) == "{" + CommaList(FieldTexts(v, SortedKeys(v.fields))) + "}"
  {
    var ks := SortedKeys(v.fields);
    if v.fields != map[] {
      assert ks != [] by { var k :| k in v.fields; assert k in ks; }
      FieldsAsList(v, ks);
    } else {
      assert forall k :: k !in ks;
      assert ks == [];
    }
  }

  // ---- documents ----

  /** The canonical text of what a document denotes. */
  ghost function CanonicalText(d: Doc): Option<string> {
    match Denote(d)
    case None => None
    case Some(v) => Some(Print(v))
  }

  /** Every number of the document is a literal of the grammar, as any parsed document's is. */
  predicate GrammarNumbers(d: Doc) {
    match d
    case DNum(lit) => NumberLiteral(lit)
    case DArr(items) => forall i | 0 <= i < |items| :: GrammarNumbers(items[i])
    case DObj(ms) => forall i | 0 <= i < |ms| :: GrammarNumbers(ms[i].value)
    case _ => true
  }

  /** A document whose numbers are well formed denotes a value exactly when it keeps to the profile. */
  lemma {:induction false} DenotesExactly(d: Doc)
    requires GrammarNumbers(d)
    ensures Denote(d).Some? <==> InProfile(d)
  {
    hide DecodeString, DistinctKeys, IntegerOf, IsInteger, FieldMap, NumberLiteral;
    match d
    case DNum(lit) => IntegerLiteral(lit);
    case DArr(items) => forall i | 0 <= i < |items| { DenotesExactly(items[i]); }
    case DObj(ms) => forall i | 0 <= i < |ms| { DenotesExactly(ms[i].value); }
    case _ =>
  }

  lemma TextIsFaultless(d: Doc)
    requires GrammarNumbers(d) && CanonicalText(d).Some?
    ensures FaultOf(d).None?
  {
    hide InProfile, FaultOf;
    DenotesExactly(d);
    FaultsExactly(d);
  }

  lemma CommaListSnoc(items: seq<string>, last: string)
    ensures CommaList(items + [last]) == CommaList(items) + (if items == [] then "" else ",") + last
  {
    if items == [] {
      assert [] + [last] == [last];
    } else {
      JoinSnoc(items, last);
    }
  }

  /** The canonical text of everything but arrays and objects. */
  lemma ScalarText(d: Doc)
    ensures d.DNull? ==> CanonicalText(d) == Some("null")
    ensures d.DBool? ==> CanonicalText(d) == Some(if d.b then "true" else "false")
    ensures d.DNum? && IntegerOf(d.lit).None? ==> CanonicalText(d) == None
    ensures d.DNum? && IntegerOf(d.lit).Some? ==> CanonicalText(d) == Some(PrintInt(IntegerOf(d.lit).value))
    ensures d.DStr? ==> CanonicalText(d) == Some(PrintString(DecodeString(d.pieces)))
  {
    hide DecodeString, IntegerOf, PrintInt, PrintString;
  }

  /** The canonical text of a document, or its first fault. */
  method CanonicalizeDoc(d: Doc) returns (r: Result<string, Fault>)
    requires GrammarNumbers(d)
    ensures r.Ok? ==> CanonicalText(d) == Some(r.value)
    ensures r.Err? ==> CanonicalText(d) == None && FaultOf(d) == Some(r.error)
    decreases d, 1
  {
    hide Denote, Print, DecodeString, IntegerOf, PrintInt, PrintString, IsInteger, NumberLiteral;
    ScalarText(d);
    match d
    case DNull => return Ok("null");
    case DBool(b) => return Ok(if b then "true" else "false");
    case DNum(lit) =>
      IntegerLiteral(lit);
      var text := WriteNumber("", lit);
      assert forall s: string :: "" + s == s;
      return if text.None? then Err(NonInteger(lit)) else Ok(text.value);
    case DStr(ps) =>
      var s := WriteString("", DecodeString(ps));
      assert "" + PrintString(DecodeString(ps)) == PrintString(DecodeString(ps));
      return Ok(s);
    case DArr(items) => r := CanonicalizeArray(d);
    case DObj(ms) => r := CanonicalizeObject(d);
  }

  method CanonicalizeArray(d: Doc) returns (r: Result<string, Fault>)
    requires d.DArr? && GrammarNumbers(d)
    ensures r.Ok? ==> CanonicalText(d) == Some(r.value)
    ensures r.Err? ==> CanonicalText(d) == None && FaultOf(d) == Some(r.error)
    decreases d, 0
  {
    hide CanonicalText, CommaList, ItemFault, GrammarNumbers, InProfile;
    var items, out := d.items, "[";
    ItemNumbers(d);
    CommaListEmpty();
    ghost var texts: seq<string> := [];
    for i := 0 to |items|
      invariant |texts| == i && out == "[" + CommaList(texts)
      invariant forall j | 0 <= j < i :: CanonicalText(items[j]) == Some(texts[j])
      invariant FaultOf(d) == ItemFault(d, i)
    {
      var text := CanonicalizeDoc(items[i]);
      NextItem(d, i);
      if text.Err? {
        ItemWithoutValue(d, i);
        return Err(text.error);
      }
      TextIsFaultless(items[i]);
      CommaListSnoc(texts, text.value);
      out := out + (if i > 0 then "," else "") + text.value;
      texts := texts + [text.value];
    }
    TextOfItems(d, texts);
    return Ok(out + "]");
  }

  lemma ItemNumbers(d: Doc)
    requires d.DArr? && GrammarNumbers(d)
    ensures forall i | 0 <= i < |d.items| :: GrammarNumbers(d.items[i])
  {}

  lemma NextItem(d: Doc, i: nat)
    requires d.DArr? && i < |d.items|
    ensures ItemFault(d, i) == if FaultOf(d.items[i]).Some? then FaultOf(d.items[i]) else ItemFault(d, i + 1)
  {
    hide FaultOf;
  }

  lemma ItemWithoutValue(d: Doc, i: nat)
    requires d.DArr? && i < |d.items| && CanonicalText(d.items[i]) == None
    ensures CanonicalText(d) == None
  {
    hide Print;
  }

  /** The canonical text of an array whose items have the given ones. */
  lemma TextOfItems(d: Doc, texts: seq<string>)
    requires d.DArr? && |texts| == |d.items|
    requires forall i | 0 <= i < |texts| :: CanonicalText(d.items[i]) == Some(texts[i])
    ensures CanonicalText(d) == Some("[" + CommaList(texts) + "]")
  {
    hide Print, CommaList;
    var v := Denote(d).value;
    assert ItemTexts(v) == texts;
    ArrayAsList(v);
  }

  method CanonicalizeObject(d: Doc) returns (r: Result<string, Fault>)
    requires d.DObj? && GrammarNumbers(d)
    ensures r.Ok? ==> CanonicalText(d) == Some(r.value)
    ensures r.Err? ==> CanonicalText(d) == None && FaultOf(d) == Some(r.error)
    decreases d, 0
  {
    hide Denote, Print, Utf16, InOrder, EntryOf, DecodeString, MemberFault, DistinctKeys, InProfile;
    var ms := d.members;
    NoMembers(ms);
    assert forall i | 0 <= i < |ms| :: GrammarNumbers(ms[i].value);
    var seen: set<string> := {};
    var entries: seq<Entry> := [];
    for i := 0 to |ms|
      invariant |entries| == i && seen == (set j | 0 <= j < i :: DecodeString(ms[j].key))
      invariant DistinctKeys(ms[..i])
      invariant forall j | 0 <= j < i :: EntryOf(ms[j], entries[j])
      invariant FaultOf(d) == MemberFault(d, i)
    {
      NextMember(d, i);
      var key := DecodeString(ms[i].key);
      if key in seen {
        RepeatedKey(ms, i);
        return Err(DuplicateKey(key));
      }
      seen := seen + {key};
      DistinctKeysSnoc(ms, i);
      var text := CanonicalizeDoc(ms[i].value);
      if text.Err? {
        MemberWithoutValue(ms, i);
        return Err(text.error);
      }
      TextIsFaultless(ms[i].value);
      entries := entries + [Entry(key, Utf16(key), text.value)];
      EntryOfMember(ms[i], text.value);
    }
    assert ms[..|ms|] == ms;
    DistinctEntries(ms, entries);
    var sorted := SortEntries(entries);
    ghost var v := Denote(d).value;
    ObjectOfEntries(ms, entries, sorted, v);
    var out := WriteEntries(sorted, v);
    return Ok(out);
  }

  lemma NoMembers(ms: seq<Member>)
    ensures DistinctKeys(ms[..0])
  {}

  /** What looking at one member of an object adds to the search for a fault. */
  lemma NextMember(d: Doc, i: nat)
    requires d.DObj? && i < |d.members|
    ensures var m := d.members[i];
            MemberFault(d, i) ==
            if KeyRepeats(d.members, i) then Some(DuplicateKey(DecodeString(m.key)))
            else if FaultOf(m.value).Some? then FaultOf(m.value)
            else MemberFault(d, i + 1)
  {
    hide DecodeString, FaultOf;
  }

  /** The object that sorted entries spell out. */
  lemma ObjectOfEntries(ms: seq<Member>, entries: seq<Entry>, sorted: seq<Entry>, v: Value)
    requires |entries| == |ms| && forall j | 0 <= j < |ms| :: EntryOf(ms[j], entries[j])
    requires Denote(DObj(ms)) == Some(v) && InOrder(sorted) && multiset(sorted) == multiset(entries)
    ensures v.Obj? && |sorted| == |SortedKeys(v.fields)|
    ensures forall i | 0 <= i < |sorted| ::
              sorted[i].key == SortedKeys(v.fields)[i] && FieldEntry(v, sorted[i])
  {
    hide Denote, EntryOf, InOrder, SortedKeys, FieldEntry;
    EntriesAreFields(ms, entries, sorted, v);
    SortedEntries(sorted, v);
  }

  /** The sorted entries as an object literal. */
  method WriteEntries(sorted: seq<Entry>, ghost v: Value) returns (out: string)
    requires v.Obj? && |sorted| == |SortedKeys(v.fields)|
    requires forall i | 0 <= i < |sorted| ::
               sorted[i].key == SortedKeys(v.fields)[i] && FieldEntry(v, sorted[i])
    ensures out == Print(v)
  {
    hide Print, PrintString, SortedKeys, CommaList, FieldEntry, FieldText;
    out := "{";
    ghost var texts := FieldTexts(v, SortedKeys(v.fields));
    assert CommaList([]) == "" by { CommaListEmpty(); }
    for i := 0 to |sorted|
      invariant out == "{" + CommaList(texts[..i])
    {
      FieldEntryText(v, sorted[i]);
      assert texts[..i + 1] == texts[..i] + [texts[i]];
      CommaListSnoc(texts[..i], texts[i]);
      out := WriteEntry(out, sorted[i], i == 0);
      Regroup("{", CommaList(texts[..i]), if i == 0 then "" else ",", texts[i]);
    }
    assert texts[..|sorted|] == texts;
    ObjectAsList(v);
    out := out + "}";
  }

  method WriteEntry(out: string, e: Entry, first: bool) returns (r: string)
    ensures r == out + (if first then "" else ",") + (PrintString(e.key) + ":" + e.text)
  {
    hide PrintString;
    r := if first then out else out + ",";
    r := WriteString(r, e.key);
    r := r + ":" + e.text;
  }

  lemma FieldEntryText(v: Value, e: Entry)
    requires FieldEntry(v, e)
    ensures FieldText(v, e.key) == PrintString(e.key) + ":" + e.text
  {}

  lemma CommaListEmpty()
    ensures CommaList([]) == ""
  {}

  lemma Regroup(a: string, b: string, c: string, d: string)
    ensures (a + b) + c + d == a + (b + c + d)
  {}

  lemma RepeatedKey(ms: seq<Member>, i: nat)
    requires i < |ms| && exists j :: 0 <= j < i && DecodeString(ms[j].key) == DecodeString(ms[i].key)
    ensures Denote(DObj(ms)) == None
  {}

  lemma MemberWithoutValue(ms: seq<Member>, i: nat)
    requires i < |ms| && CanonicalText(ms[i].value) == None
    ensures Denote(DObj(ms)) == None
  {}

  lemma DistinctKeysSnoc(ms: seq<Member>, i: nat)
    requires i < |ms| && DistinctKeys(ms[..i])
    requires forall j | 0 <= j < i :: DecodeString(ms[j].key) != DecodeString(ms[i].key)
    ensures DistinctKeys(ms[..i + 1])
  {}

  lemma EntryOfMember(m: Member, text: string)
    requires CanonicalText(m.value) == Some(text)
    ensures EntryOf(m, Entry(DecodeString(m.key), Utf16(DecodeString(m.key)), text))
  {}

  ghost predicate EntryOf(m: Member, e: Entry) {
    e.key == DecodeString(m.key) && e.key16 == Utf16(e.key) && CanonicalText(m.value) == Some(e.text)
  }

  lemma DistinctEntries(ms: seq<Member>, es: seq<Entry>)
    requires |es| == |ms| && DistinctKeys(ms) && forall j | 0 <= j < |ms| :: EntryOf(ms[j], es[j])
    ensures forall i, j | 0 <= i < j < |es| :: es[i].key16 != es[j].key16
    ensures Denote(DObj(ms)).Some?
  {
    forall i, j | 0 <= i < j < |es| ensures es[i].key16 != es[j].key16 {
      if es[i].key16 == es[j].key16 { Utf16Injective(es[i].key, es[j].key); }
    }
  }

  /** An entry that carries one field of an object value. */
  ghost predicate FieldEntry(v: Value, e: Entry) {
    v.Obj? && e.key in v.fields && e.key16 == Utf16(e.key) && e.text == Print(v.fields[e.key])
  }

  lemma SameElements<T>(xs: seq<T>, ys: seq<T>)
    requires multiset(xs) == multiset(ys)
    ensures forall x :: x in xs <==> x in ys
  {
    forall x ensures x in xs <==> x in ys {
      assert x in multiset(xs) <==> x in multiset(ys);
    }
  }

  /** The entries are the fields of the value, each key once or more. */
  lemma EntriesAreFields(ms: seq<Member>, es: seq<Entry>, sorted: seq<Entry>, v: Value)
    requires |es| == |ms| && forall j | 0 <= j < |ms| :: EntryOf(ms[j], es[j])
    requires multiset(sorted) == multiset(es)
    requires Denote(DObj(ms)) == Some(v)
    ensures v.Obj?
    ensures forall i | 0 <= i < |sorted| :: FieldEntry(v, sorted[i])
    ensures forall k | k in v.fields :: exists i :: 0 <= i < |sorted| && sorted[i].key == k
  {
    hide Denote, Print, Utf16;
    DenoteObjectParts(ms);
    SameElements(sorted, es);
    forall i | 0 <= i < |sorted| ensures FieldEntry(v, sorted[i]) {
      assert sorted[i] in sorted;
      var j :| 0 <= j < |es| && es[j] == sorted[i];
      assert EntryOf(ms[j], es[j]);
    }
    forall k | k in v.fields ensures exists i :: 0 <= i < |sorted| && sorted[i].key == k {
      var j :| 0 <= j < |ms| && DecodeString(ms[j].key) == k;
      assert EntryOf(ms[j], es[j]) && es[j] in sorted;
    }
  }

  /** The sorted entries are the object's fields in canonical key order. */
  lemma SortedEntries(sorted: seq<Entry>, v: Value)
    requires v.Obj? && InOrder(sorted)
    requires forall i | 0 <= i < |sorted| :: FieldEntry(v, sorted[i])
    requires forall k | k in v.fields :: exists i :: 0 <= i < |sorted| && sorted[i].key == k
    ensures |sorted| == |SortedKeys(v.fields)|
    ensures forall i | 0 <= i < |sorted| :: sorted[i].key == SortedKeys(v.fields)[i]
  {
    hide Print, Utf16, Lex.Compare, Lex.Sorted;
    var ks := seq(|sorted|, i requires 0 <= i < |sorted| => sorted[i].key);
    assert forall i | 0 <= i < |sorted| :: ks[i] == sorted[i].key && sorted[i].key16 == Utf16(ks[i]);
    assert Lex.StrictlySorted(ks, Utf16);
    forall k ensures k in ks <==> k in v.fields {
      if k in v.fields {
        var i :| 0 <= i < |sorted| && sorted[i].key == k;
        assert ks[i] == k;
      }
    }
    Utf16IsKey();
    Lex.SortedUnique(v.fields.Keys, Utf16, ks);
  }

  // ---- the numbers of a parsed document ----

  lemma {:induction false} DigitsEndPrefix(t: string, n: nat, i: nat)
    requires i <= n <= |t| && DigitsEnd(t, i) <= n
    ensures DigitsEnd(t[..n], i) == DigitsEnd(t, i)
    decreases n - i
  {
    if i < n && IsDigit(t[i]) { DigitsEndPrefix(t, n, i + 1); }
  }

  lemma IntEndPrefix(t: string, n: nat, i: nat)
    requires i <= n <= |t| && IntEnd(t, i) <= n
    ensures IntEnd(t[..n], i) == IntEnd(t, i)
  {
    if i < |t| && t[i] == '0' {
      assert t[..n][i] == '0';
    } else {
      DigitsEndPrefix(t, n, i);
    }
  }

  lemma FractionEndPrefix(t: string, n: nat, i: nat)
    requires i <= n <= |t| && FractionEnd(t, i).Some? && FractionEnd(t, i).value <= n
    ensures FractionEnd(t[..n], i) == FractionEnd(t, i)
  {
    if i < |t| && t[i] == '.' { DigitsEndPrefix(t, n, i + 1); }
  }

  lemma ExponentEndPrefix(t: string, n: nat, i: nat)
    requires i <= n <= |t| && ExponentEnd(t, i) == Some(n)
    ensures ExponentEnd(t[..n], i) == Some(n)
  {
    if i < |t| && (t[i] == 'e' || t[i] == 'E') {
      var k := if i + 1 < |t| && (t[i + 1] == '+' || t[i + 1] == '-') then i + 2 else i + 1;
      DigitsEndPrefix(t, n, k);
    }
  }

  lemma NumberPrefix(t: string)
    requires NumberEnd(t).Some?
    ensures NumberLiteral(t[..NumberEnd(t).value])
  {
    hide IntEnd, FractionEnd, ExponentEnd;
    var n := NumberEnd(t).value;
    var sign := if t[0] == '-' then 1 else 0;
    var i := IntEnd(t, sign);
    IntEndPrefix(t, n, sign);
    FractionEndPrefix(t, n, i);
    ExponentEndPrefix(t, n, FractionEnd(t, i).value);
  }

  lemma {:induction false} ParsedNumbers(s: string)
    requires ParseValue(s).Some?
    ensures GrammarNumbers(ParseValue(s).value.0)
    decreases |s|, 1
  {
    var t := SkipSpace(s);
    var d := ParseValue(s).value.0;
    if d.DObj? && d.members != [] { ParsedMembers(t[1..]); }
    if d.DArr? && d.items != [] { ParsedItems(t[1..]); }
    if d.DNum? { NumberPrefix(t); }
  }

  lemma {:induction false} ParsedItems(s: string)
    requires ParseItems(s).Some?
    ensures GrammarNumbers(DArr(ParseItems(s).value.0))
    decreases |s|, 2
  {
    ParsedNumbers(s);
    var (d, afterValue) := ParseValue(s).value;
    var t := SkipSpace(afterValue);
    if t[0] == ',' { ParsedItems(t[1..]); }
  }

  lemma {:induction false} ParsedMembers(s: string)
    requires ParseMembers(s).Some?
    ensures GrammarNumbers(DObj(ParseMembers(s).value.0))
    decreases |s|, 2
  {
    var (m, afterValue) := ParseMember(s).value;
    var u := SkipSpace(ParseString(SkipSpace(s)[1..]).value.1);
    ParsedNumbers(u[1..]);
    var t := SkipSpace(afterValue);
    if t[0] == ',' { ParsedMembers(t[1..]); }
  }
}
