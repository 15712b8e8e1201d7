/**
 * Parsing canonical text gives back the value that was printed. Everything else
 * about the canonical form (one text per value, idempotence) follows from this.
 */
module JcsRoundTrip {
  import opened Wrappers
  import opened Text
  import opened Json
  import opened Jcs
  import opened EscapePairs

  // ---- strings ----

  function PieceFor(c: char): Piece {
    if c == '"' || c == '\\' || c == '\t' || c == '\n' || c == '\r' || c as int in {0x08, 0x0C} then Short(c)
    else if c as int < 0x20 then Unit(c as int)
    else Plain(c)
  }

  function PiecesFor(s: string): seq<Piece> {
    if s == "" then [] else [PieceFor(s[0])] + PiecesFor(s[1..])
  }

  lemma {:induction false} DecodePieces(s: string)
    ensures DecodeString(PiecesFor(s)) == s
    ensures Paired(PiecesFor(s))
  {
    if s != "" {
      DecodePieces(s[1..]);
      assert PiecesFor(s)[1..] == PiecesFor(s[1..]);
      assert s == [s[0]] + s[1..];
    }
  }

  lemma ParseEscape(c: char, rest: string)
    ensures ParseString(EscapeChar(c) + rest) == ConsPiece(PieceFor(c), ParseString(rest))
  {
    var e := EscapeChar(c);
    var s := e + rest;
    if |e| == 1 {
      assert s[0] == c && s[1..] == rest;
    } else if |e| == 2 {
      assert s[0] == '\\' && s[1] == e[1] && s[2..] == rest;
    } else {
      assert s[0] == '\\' && s[1] == 'u' && s[6..] == rest;
      var h := s[2..];
      assert h[0] == '0' && h[1] == '0';
      assert h[2] == LowerHexDigit(c as int / 16) && h[3] == LowerHexDigit(c as int % 16);
      assert Hex4(h) == Some(c as int);
    }
  }

  lemma {:induction false} ParseOfEscapes(s: string, rest: string)
    ensures ParseString(EscapeAll(s) + "\"" + rest) == Some((PiecesFor(s), rest))
  {
    if s == "" {
      assert (EscapeAll(s) + "\"" + rest)[1..] == rest;
    } else {
      hide ParseString, EscapeChar, PieceFor;
      ParseOfEscapes(s[1..], rest);
      var tail := EscapeAll(s[1..]) + "\"" + rest;
      ParseEscape(s[0], tail);
      assert EscapeAll(s) + "\"" + rest == EscapeChar(s[0]) + tail;
    }
  }

  /** A printed string, behind its opening quote, reads back as itself. */
  lemma ParseOfString(s: string, rest: string)
    ensures PrintString(s) + rest != "" && (PrintString(s) + rest)[0] == '"'
    ensures ParseString((PrintString(s) + rest)[1..]) == Some((PiecesFor(s), rest))
  {
    hide ParseString, EscapeAll, PiecesFor;
    ParseOfEscapes(s, rest);
    Quoted(EscapeAll(s), rest);
  }

  lemma Quoted(body: string, rest: string)
    ensures ("\"" + body + "\"" + rest)[1..] == body + "\"" + rest
  {}

  // ---- numbers ----

  /** What may follow a value inside a document that is printed canonically. */
  predicate Delimited(rest: string) {
    rest == "" || rest[0] == ',' || rest[0] == ']' || rest[0] == '}'
  }

  lemma {:induction false} DigitsEndAt(s: string, i: nat, j: nat)
    requires i <= j <= |s| && (forall k | i <= k < j :: IsDigit(s[k]))
    requires j < |s| ==> !IsDigit(s[j])
    ensures DigitsEnd(s, i) == j
    decreases j - i
  {
    if i < j { DigitsEndAt(s, i + 1, j); }
  }

  lemma ParseOfInt(n: int, rest: string)
    requires Delimited(rest)
    ensures NumberEnd(PrintInt(n) + rest) == Some(|PrintInt(n)|)
    ensures IntegerOf(PrintInt(n)) == Some(n)
  {
    hide NumberEnd, IntegerOf;
    IntegerOfInt(n);
    if n < 0 {
      NumberEndAt("-", Itoa(0 - n), rest);
    } else {
      NumberEndAt("", Itoa(n), rest);
      assert "" + Itoa(n) == Itoa(n);
    }
  }

  lemma IntegerOfInt(n: int)
    ensures IntegerOf(PrintInt(n)) == Some(n)
  {
    hide Itoa, ParseDigits;
    var m: nat := if n < 0 then 0 - n else n;
    ParseOfItoa(m);
    if n < 0 {
      assert ("-" + Itoa(m))[1..] == Itoa(m);
    } else {
      assert IsDigit(Itoa(m)[0]);
    }
  }

  lemma NumberEndAt(sign: string, ds: string, rest: string)
    requires sign == "" || sign == "-"
    requires ds != "" && (forall k | 0 <= k < |ds| :: IsDigit(ds[k])) && (ds == "0" || ds[0] != '0')
    requires Delimited(rest)
    ensures NumberEnd(sign + ds + rest) == Some(|sign + ds|)
  {
    var s := sign + ds + rest;
    var end := |sign + ds|;
    assert forall k | |sign| <= k < end :: s[k] == ds[k - |sign|];
    assert s[|sign|] == ds[0];
    assert end < |s| ==> s[end] == rest[0];
    if ds != "0" { DigitsEndAt(s, |sign|, end); }
    assert s[0] == '-' <==> sign == "-";
    assert IntEnd(s, |sign|) == end;
  }

  // ---- values ----

  predicate StartsValue(c: char) {
    c == 'n' || c == 't' || c == 'f' || c == '-' || IsDigit(c) || c == '"' || c == '[' || c == '{'
  }

  lemma IntHead(n: int)
    ensures PrintInt(n) != "" && (IsDigit(PrintInt(n)[0]) || PrintInt(n)[0] == '-')
  {}

  lemma PrintHead(v: Value, rest: string)
    ensures var s := Print(v) + rest;
            s != "" && StartsValue(s[0]) && SkipSpace(s) == s
  {
    if v.Num? { IntHead(v.n); }
  }

  lemma ParseOfWord(v: Value, rest: string) returns (d: Doc)
    requires v.Null? || v.Bool?
    ensures ParseValue(Print(v) + rest) == Some((d, rest)) && Denote(d) == Some(v) && DocPaired(d)
  {
    PrintHead(v, rest);
    var s := Print(v) + rest;
    match v
    case Null =>
      d := DNull;
      assert s[..4] == "null" && s[4..] == rest;
    case Bool(b) =>
      d := DBool(b);
      if b {
        assert s[..4] == "true" && s[4..] == rest;
      } else {
        assert s[..5] == "false" && s[5..] == rest;
      }
  }

  lemma StartsWithHead(s: string, prefix: string)
    requires prefix != "" && StartsWith(s, prefix)
    ensures s[0] == prefix[0]
  {
    assert s[0] == s[..|prefix|][0];
  }

  lemma ParseOfNumber(n: int, rest: string)
    requires Delimited(rest)
    ensures ParseValue(PrintInt(n) + rest) == Some((DNum(PrintInt(n)), rest))
    ensures Denote(DNum(PrintInt(n))) == Some(Num(n))
  {
    hide PrintInt, IntegerOf, NumberEnd;
    var s := PrintInt(n) + rest;
    PrintHead(Num(n), rest);
    ParseOfInt(n, rest);
    IntHead(n);
    assert s[..|PrintInt(n)|] == PrintInt(n) && s[|PrintInt(n)|..] == rest;
    assert s[0] == PrintInt(n)[0] && (IsDigit(s[0]) || s[0] == '-');
    if StartsWith(s, "true") { StartsWithHead(s, "true"); }
    if StartsWith(s, "false") { StartsWithHead(s, "false"); }
    if StartsWith(s, "null") { StartsWithHead(s, "null"); }
  }

  lemma ParseOfStringValue(str: string, rest: string)
    ensures ParseValue(PrintString(str) + rest) == Some((DStr(PiecesFor(str)), rest))
    ensures Denote(DStr(PiecesFor(str))) == Some(Str(str)) && Paired(PiecesFor(str))
  {
    PrintHead(Str(str), rest);
    ParseOfString(str, rest);
    DecodePieces(str);
  }

  /** Reading a printed value: it yields a tree that denotes the value, and stops where it ended. */
  lemma {:induction false} ParseOfPrint(v: Value, rest: string) returns (d: Doc)
    requires Delimited(rest)
    ensures ParseValue(Print(v) + rest) == Some((d, rest))
    ensures Denote(d) == Some(v) && DocPaired(d)
    decreases v, 1, 0
  {
    match v
    case Null => d := ParseOfWord(v, rest);
    case Bool(b) => d := ParseOfWord(v, rest);
    case Num(n) => d := DNum(PrintInt(n)); ParseOfNumber(n, rest);
    case Str(str) => d := DStr(PiecesFor(str)); ParseOfStringValue(str, rest);
    case Arr(items) => d := ParseOfArray(v, rest);
    case Obj(fields) => d := ParseOfObject(v, rest);
  }

  lemma {:induction false} ParseOfArray(v: Value, rest: string) returns (d: Doc)
    requires v.Arr?
    ensures ParseValue(Print(v) + rest) == Some((d, rest))
    ensures Denote(d) == Some(v) && DocPaired(d)
    decreases v, 0, |v.items| + 1
  {
    hide Print, PrintItems, ParseValue, ParseItems, Denote, DocPaired;
    PrintOfArray(v);
    if v.items == [] {
      d := DArr([]);
      EmptyArrayText(rest);
      EmptyArray();
    } else {
      var ds := ParseOfItems(v, 0, rest);
      d := DArr(ds);
      ItemsHead(v, 0, rest);
      ArrayText(PrintItems(v, 0), ds, rest);
      DenoteArray(ds, v.items);
      ArrayPaired(ds);
    }
  }

  lemma PrintOfArray(v: Value)
    requires v.Arr?
    ensures Print(v) == if v.items == [] then "[]" else "[" + PrintItems(v, 0)
  {
    hide PrintItems;
  }

  lemma EmptyArray()
    ensures Denote(DArr([])) == Some(Arr([])) && DocPaired(DArr([]))
  {
    DenoteArray([], []);
  }

  lemma ArrayPaired(ds: seq<Doc>)
    requires forall i | 0 <= i < |ds| :: DocPaired(ds[i])
    ensures DocPaired(DArr(ds))
  {}

  lemma EmptyArrayText(rest: string)
    ensures ParseValue("[]" + rest) == Some((DArr([]), rest))
  {
    var s := "[]" + rest;
    assert s[1..] == "]" + rest && s[1..][1..] == rest;
  }

  lemma ArrayText(body: string, ds: seq<Doc>, rest: string)
    requires ParseItems(body + rest) == Some((ds, rest))
    requires body + rest != "" && SkipSpace(body + rest) == body + rest && (body + rest)[0] != ']'
    ensures ParseValue("[" + body + rest) == Some((DArr(ds), rest))
  {
    hide ParseItems;
    assert ("[" + body + rest)[1..] == body + rest;
  }

  lemma {:induction false} ParseOfObject(v: Value, rest: string) returns (d: Doc)
    requires v.Obj?
    ensures ParseValue(Print(v) + rest) == Some((d, rest))
    ensures Denote(d) == Some(v) && DocPaired(d)
    decreases v, 0, |SortedKeys(v.fields)| + 1
  {
    hide Print, PrintFields, ParseValue, ParseMembers, Denote, DecodeString, DocPaired;
    PrintOfObject(v);
    if v.fields == map[] {
      d := DObj([]);
      EmptyObjectText(rest);
      EmptyObject();
    } else {
      var ks := SortedKeys(v.fields);
      SomeKey(v);
      var ms := ParseOfFields(v, ks, rest);
      d := DObj(ms);
      FieldsHead(v, ks, rest);
      ObjectText(PrintFields(v, ks), ms, rest);
      DenoteSorted(v, ks, ms);
    }
  }

  lemma PrintOfObject(v: Value)
    requires v.Obj?
    ensures Print(v) == if v.fields == map[] then "{}" else "{" + PrintFields(v, SortedKeys(v.fields))
  {
    hide PrintFields;
  }

  lemma EmptyObject()
    ensures Denote(DObj([])) == Some(Obj(map[])) && DocPaired(DObj([]))
  {
    DenoteObject([], map[]);
  }

  lemma SomeKey(v: Value)
    requires v.Obj? && v.fields != map[]
    ensures SortedKeys(v.fields) != []
  {
    hide SortedKeys;
    var k :| k in v.fields;
    assert k in SortedKeys(v.fields);
  }

  lemma EmptyObjectText(rest: string)
    ensures ParseValue("{}" + rest) == Some((DObj([]), rest))
  {
    var s := "{}" + rest;
    assert s[1..] == "}" + rest && s[1..][1..] == rest;
  }

  lemma ObjectText(body: string, ms: seq<Member>, rest: string)
    requires ParseMembers(body + rest) == Some((ms, rest))
    requires body + rest != "" && (body + rest)[0] == '"'
    ensures ParseValue("{" + body + rest) == Some((DObj(ms), rest))
  {
    hide ParseMembers;
    assert ("{" + body + rest)[1..] == body + rest;
  }

  lemma ItemsHead(v: Value, i: nat, rest: string)
    requires v.Arr? && i < |v.items|
    ensures var s := PrintItems(v, i) + rest;
            s != "" && SkipSpace(s) == s && s[0] != ']'
  {
    var tail := (if i + 1 == |v.items| then "]" else "," + PrintItems(v, i + 1)) + rest;
    PrintHead(v.items[i], tail);
    assert PrintItems(v, i) + rest == Print(v.items[i]) + tail;
  }

  lemma FieldsHead(v: Value, ks: seq<string>, rest: string)
    requires v.Obj? && ks != [] && forall k | k in ks :: k in v.fields
    ensures var s := PrintFields(v, ks) + rest;
            s != "" && SkipSpace(s) == s && s[0] == '"'
  {
    assert (PrintFields(v, ks) + rest)[0] == PrintString(ks[0])[0];
  }

  lemma {:induction false} ParseOfItems(v: Value, i: nat, rest: string) returns (ds: seq<Doc>)
    requires v.Arr? && i < |v.items|
    ensures ParseItems(PrintItems(v, i) + rest) == Some((ds, rest))
    ensures |ds| == |v.items| - i
    ensures forall j | 0 <= j < |ds| :: Denote(ds[j]) == Some(v.items[i + j]) && DocPaired(ds[j])
    decreases v, 0, |v.items| - i
  {
    hide ParseItems, ParseValue, Denote, Print;
    var item := Print(v.items[i]);
    if i + 1 == |v.items| {
      var d := ParseOfPrint(v.items[i], "]" + rest);
      LastItem(item, d, rest);
      ds := [d];
      assert PrintItems(v, i) == item + "]";
    } else {
      var more := PrintItems(v, i + 1);
      var d := ParseOfPrint(v.items[i], "," + more + rest);
      var es := ParseOfItems(v, i + 1, rest);
      MoreItems(item, d, more, es, rest);
      ds := [d] + es;
      assert PrintItems(v, i) + rest == item + ("," + more + rest);
    }
  }

  lemma LastItem(item: string, d: Doc, rest: string)
    requires ParseValue(item + ("]" + rest)) == Some((d, "]" + rest))
    ensures ParseItems(item + "]" + rest) == Some(([d], rest))
  {
    hide ParseValue;
    assert item + "]" + rest == item + ("]" + rest);
    assert ("]" + rest)[1..] == rest;
  }

  lemma MoreItems(item: string, d: Doc, more: string, ds: seq<Doc>, rest: string)
    requires ParseValue(item + ("," + more + rest)) == Some((d, "," + more + rest))
    requires ParseItems(more + rest) == Some((ds, rest))
    ensures ParseItems(item + ("," + more + rest)) == Some(([d] + ds, rest))
  {
    hide ParseValue;
    assert ("," + more + rest)[1..] == more + rest;
  }

  lemma {:induction false} ParseOfFields(v: Value, ks: seq<string>, rest: string) returns (ms: seq<Member>)
    requires v.Obj? && ks != [] && forall k | k in ks :: k in v.fields
    ensures ParseMembers(PrintFields(v, ks) + rest) == Some((ms, rest))
    ensures |ms| == |ks|
    ensures forall j | 0 <= j < |ms| ::
              DecodeString(ms[j].key) == ks[j] && Denote(ms[j].value) == Some(v.fields[ks[j]])
    ensures DocPaired(DObj(ms))
    decreases v, 0, |ks|
  {
    hide ParseMembers, ParseMember, ParseValue, Denote, DecodeString, Print, PrintString;
    var k := ks[0];
    var field := PrintString(k) + ":" + Print(v.fields[k]);
    if |ks| == 1 {
      var tail := "}" + rest;
      var d := ParseOfPrint(v.fields[k], tail);
      var m := ParseOfField(k, v.fields[k], d, tail);
      LastMember(field, m, rest);
      ms := [m];
      MembersPaired(m, []);
      assert [m] + [] == [m];
      assert PrintFields(v, ks) == field + "}";
    } else {
      var more := PrintFields(v, ks[1..]);
      var tail := "," + more + rest;
      var d := ParseOfPrint(v.fields[k], tail);
      var m := ParseOfField(k, v.fields[k], d, tail);
      var ns := ParseOfFields(v, ks[1..], rest);
      MoreMembers(field, m, more, ns, rest);
      ms := [m] + ns;
      MembersPaired(m, ns);
      assert PrintFields(v, ks) == field + ("," + more);
      assert PrintFields(v, ks) + rest == field + tail;
    }
  }

  lemma LastMember(field: string, m: Member, rest: string)
    requires ParseMember(field + ("}" + rest)) == Some((m, "}" + rest))
    ensures ParseMembers(field + "}" + rest) == Some(([m], rest))
  {
    hide ParseMember;
    assert field + "}" + rest == field + ("}" + rest);
    assert ("}" + rest)[1..] == rest;
  }

  lemma MoreMembers(field: string, m: Member, more: string, ms: seq<Member>, rest: string)
    requires ParseMember(field + ("," + more + rest)) == Some((m, "," + more + rest))
    requires ParseMembers(more + rest) == Some((ms, rest))
    ensures ParseMembers(field + ("," + more + rest)) == Some(([m] + ms, rest))
  {
    hide ParseMember;
    assert ("," + more + rest)[1..] == more + rest;
  }

  lemma ParseOfField(k: string, v: Value, d: Doc, tail: string) returns (m: Member)
    requires ParseValue(Print(v) + tail) == Some((d, tail)) && Denote(d) == Some(v) && DocPaired(d)
    ensures ParseMember(PrintString(k) + ":" + Print(v) + tail) == Some((m, tail))
    ensures DecodeString(m.key) == k && Denote(m.value) == Some(v)
    ensures Paired(m.key) && DocPaired(m.value)
  {
    hide ParseValue, ParseString, Denote, Print, DecodeString, DocPaired, Paired, EscapeAll, PiecesFor;
    var afterKey := ":" + (Print(v) + tail);
    FieldRegroup(PrintString(k), Print(v), tail);
    ParseOfString(k, afterKey);
    DecodePieces(k);
    MemberText(PrintString(k) + afterKey, PiecesFor(k), Print(v) + tail, d, tail);
    m := Member(PiecesFor(k), d);
  }

  lemma FieldRegroup(key: string, value: string, tail: string)
    ensures key + ":" + value + tail == key + (":" + (value + tail))
  {}

  /** A member is a string literal, a colon and a value. */
  lemma MemberText(s: string, key: seq<Piece>, body: string, d: Doc, tail: string)
    requires s != "" && s[0] == '"' && ParseString(s[1..]) == Some((key, ":" + body))
    requires ParseValue(body) == Some((d, tail))
    ensures ParseMember(s) == Some((Member(key, d), tail))
  {
    hide ParseValue, ParseString;
    assert (":" + body)[1..] == body;
    assert SkipSpace(s) == s && SkipSpace(":" + body) == ":" + body;
  }

  /** Members listed in sorted key order denote exactly the object they were printed from. */
  lemma DenoteSorted(v: Value, ks: seq<string>, ms: seq<Member>)
    requires v.Obj? && ks == SortedKeys(v.fields) && |ms| == |ks|
    requires forall j | 0 <= j < |ms| ::
               DecodeString(ms[j].key) == ks[j] && Denote(ms[j].value) == Some(v.fields[ks[j]])
    ensures Denote(DObj(ms)) == Some(v)
  {
    forall i, j | 0 <= i < j < |ms| ensures DecodeString(ms[i].key) != DecodeString(ms[j].key) {
      assert Lex.Before(Utf16, ks[i], ks[j]);
      Lex.CompareZero(Utf16(ks[i]), Utf16(ks[i]));
    }
    forall k | k in v.fields ensures exists i :: 0 <= i < |ms| && DecodeString(ms[i].key) == k {
      assert k in ks;
      var j :| 0 <= j < |ks| && ks[j] == k;
      assert DecodeString(ms[j].key) == k;
    }
    DenoteObject(ms, v.fields);
  }

  // ---- consequences ----

  lemma DocumentOfPrint(v: Value) returns (d: Doc)
    ensures ParseDocument(Print(v)) == Some(d) && Denote(d) == Some(v) && DocPaired(d)
  {
    d := ParseOfPrint(v, "");
    assert Print(v) + "" == Print(v);
  }

  /** One canonical text per value. */
  lemma PrintInjective(v: Value, w: Value)
    requires Print(v) == Print(w)
    ensures v == w
  {
    var d := DocumentOfPrint(v);
    var e := DocumentOfPrint(w);
  }
}
