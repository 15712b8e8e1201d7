/**
 * What the text-level check means for a document: it accepts exactly when every
 * surrogate escape in every string is the high half of a pair followed by its low half.
 */
module EscapePairs {
  import opened Wrappers
  import opened Json
  import opened TextEncoding
  import Jcs

  /** Each surrogate unit belongs to an ordered pair. */
  predicate Paired(ps: seq<Piece>) {
    if ps == [] then true
    else if ps[0].Unit? && Jcs.IsHighSurrogate(ps[0].u) then
      |ps| > 1 && ps[1].Unit? && Jcs.IsLowSurrogate(ps[1].u) && Paired(ps[2..])
    else if ps[0].Unit? && Jcs.IsLowSurrogate(ps[0].u) then false
    else Paired(ps[1..])
  }

  predicate DocPaired(d: Doc) {
    match d
    case DStr(ps) => Paired(ps)
    case DArr(items) => forall i | 0 <= i < |items| :: DocPaired(items[i])
    case DObj(ms) => forall i | 0 <= i < |ms| :: Paired(ms[i].key) && DocPaired(ms[i].value)
    case _ => true
  }

  /** Accept and go on when ok, otherwise report the unpaired surrogate. */
  function Then(ok: bool, next: Option<EncodingError>): Option<EncodingError> {
    if ok then next else Some(LoneSurrogate)
  }

  lemma {:induction false} ScanString(s: string)
    requires ParseString(s).Some?
    ensures var (ps, rest) := ParseString(s).value;
            Scan(s, true) == Then(Paired(ps), Scan(rest, false))
    decreases |s|
  {
    var (ps, rest) := ParseString(s).value;
    if s[0] == '"' {
    } else if s[0] != '\\' {
      ScanString(s[1..]);
      assert ps[1..] == ParseString(s[1..]).value.0;
    } else if s[1] != 'u' {
      ScanString(s[2..]);
      assert ps[1..] == ParseString(s[2..]).value.0;
    } else {
      ScanString(s[6..]);
      var more := ParseString(s[6..]).value.0;
      assert ps == [Unit(Hex4(s[2..]).value)] + more && ps[1..] == more;
      if Jcs.IsHighSurrogate(ps[0].u) {
        ScanPair(s[6..]);
        if LowHalfAt(s[6..]) {
          assert s[6..][6..] == s[12..];
          ScanString(s[12..]);
          assert ps[2..] == more[1..];
        }
      }
    }
  }

  /** The text continues with a low half exactly when the next piece is a low surrogate unit. */
  lemma ScanPair(t: string)
    requires ParseString(t).Some?
    ensures var (ps, rest) := ParseString(t).value;
            LowHalfAt(t) <==> ps != [] && ps[0].Unit? && Jcs.IsLowSurrogate(ps[0].u)
    ensures LowHalfAt(t) ==>
              ParseString(t[6..]) == Some((ParseString(t).value.0[1..], ParseString(t).value.1))
  {
    if t[0] == '\\' && t[1] == 'u' {
      var (ps, rest) := ParseString(t[6..]).value;
      assert ParseString(t).value.0 == [Unit(Hex4(t[2..]).value)] + ps;
    }
  }

  lemma {:induction false} ScanSkip(s: string, n: nat)
    requires n <= |s| && forall i | 0 <= i < n :: s[i] != '"'
    ensures Scan(s, false) == Scan(s[n..], false)
  {
    if n > 0 {
      ScanSkip(s[1..], n - 1);
      assert s[1..][n - 1..] == s[n..];
    } else {
      assert s[0..] == s;
    }
  }

  lemma {:induction false} ScanSpace(s: string)
    ensures Scan(s, false) == Scan(SkipSpace(s), false)
  {
    if s != "" && IsSpace(s[0]) { ScanSpace(s[1..]); }
  }

  lemma ScanToken(t: string)
    requires t != "" && t[0] != '"'
    ensures Scan(t, false) == Scan(t[1..], false)
  {}

  lemma WordHasNoQuote(t: string, word: string)
    requires StartsWith(t, word) && '"' !in word
    ensures Scan(t, false) == Scan(t[|word|..], false)
  {
    assert forall i | 0 <= i < |word| :: t[i] == t[..|word|][i] == word[i] && word[i] in word;
    ScanSkip(t, |word|);
  }

  lemma {:induction false} ScanValue(s: string)
    requires ParseValue(s).Some?
    ensures var (d, rest) := ParseValue(s).value;
            Scan(s, false) == Then(DocPaired(d), Scan(rest, false))
    decreases |s|, 1
  {
    var (d, rest) := ParseValue(s).value;
    var t := SkipSpace(s);
    ScanSpace(s);
    if t[0] == '{' {
      var u := SkipSpace(t[1..]);
      ScanSpace(t[1..]);
      if !(u != "" && u[0] == '}') { ScanMembers(t[1..]); }
    } else if t[0] == '[' {
      var u := SkipSpace(t[1..]);
      ScanSpace(t[1..]);
      if !(u != "" && u[0] == ']') { ScanItems(t[1..]); }
    } else if t[0] == '"' {
      ScanString(t[1..]);
    } else if StartsWith(t, "true") {
      WordHasNoQuote(t, "true");
    } else if StartsWith(t, "false") {
      WordHasNoQuote(t, "false");
    } else if StartsWith(t, "null") {
      WordHasNoQuote(t, "null");
    } else {
      ScanSkip(t, NumberEnd(t).value);
    }
  }

  lemma {:induction false} ScanItems(s: string)
    requires ParseItems(s).Some?
    ensures var (ds, rest) := ParseItems(s).value;
            Scan(s, false) == Then(DocPaired(DArr(ds)), Scan(rest, false))
    decreases |s|, 2
  {
    ScanValue(s);
    var (d, afterValue) := ParseValue(s).value;
    var t := SkipSpace(afterValue);
    ScanSpace(afterValue);
    ScanToken(t);
    if t[0] == ',' {
      ScanItems(t[1..]);
      ItemsPaired(d, ParseItems(t[1..]).value.0);
    } else {
      ItemsPaired(d, []);
      assert [d] + [] == [d];
    }
  }

  lemma ItemsPaired(d: Doc, ds: seq<Doc>)
    ensures DocPaired(DArr([d] + ds)) <==> DocPaired(d) && DocPaired(DArr(ds))
  {
    var all := [d] + ds;
    assert all[0] == d;
    assert forall i | 0 <= i < |ds| :: all[i + 1] == ds[i];
    assert forall i | 1 <= i < |all| :: all[i] == ds[i - 1];
  }

  lemma MembersPaired(m: Member, ms: seq<Member>)
    ensures DocPaired(DObj([m] + ms)) <==> Paired(m.key) && DocPaired(m.value) && DocPaired(DObj(ms))
  {
    var all := [m] + ms;
    assert all[0] == m;
    assert forall i | 0 <= i < |ms| :: all[i + 1] == ms[i];
    assert forall i | 1 <= i < |all| :: all[i] == ms[i - 1];
  }

  lemma {:induction false} ScanMembers(s: string)
    requires ParseMembers(s).Some?
    ensures var (ms, rest) := ParseMembers(s).value;
            Scan(s, false) == Then(DocPaired(DObj(ms)), Scan(rest, false))
    decreases |s|, 2
  {
    ScanMember(s);
    var (m, afterValue) := ParseMember(s).value;
    var t := SkipSpace(afterValue);
    ScanSpace(afterValue);
    ScanToken(t);
    if t[0] == ',' {
      ScanMembers(t[1..]);
      MembersPaired(m, ParseMembers(t[1..]).value.0);
    } else {
      MembersPaired(m, []);
      assert [m] + [] == [m];
    }
  }

  lemma {:induction false} ScanMember(s: string)
    requires ParseMember(s).Some?
    ensures var (m, rest) := ParseMember(s).value;
            Scan(s, false) == Then(Paired(m.key) && DocPaired(m.value), Scan(rest, false))
    decreases |s|, 1
  {
    var t := SkipSpace(s);
    ScanSpace(s);
    ScanString(t[1..]);
    var (key, afterKey) := ParseString(t[1..]).value;
    var u := SkipSpace(afterKey);
    ScanSpace(afterKey);
    ScanToken(u);
    ScanValue(u[1..]);
  }

  /** On well-formed JSON the scan accepts exactly the documents whose surrogate escapes are paired. */
  lemma ScanDocument(text: string)
    requires ParseDocument(text).Some?
    ensures Scan(text, false) == Then(DocPaired(ParseDocument(text).value), None)
  {
    ScanValue(text);
    var (d, rest) := ParseValue(text).value;
    ScanSpace(rest);
  }

  /** The same for the check on the encoded document. */
  lemma EncodingAccepts(data: Bytes)
    requires Utf8.Decode(data).Some? && ParseDocument(Utf8.Decode(data).value).Some?
    ensures EncodingErrorOf(data).None? <==> DocPaired(ParseDocument(Utf8.Decode(data).value).value)
  {
    var text := Utf8.Decode(data).value;
    Utf8.EncodeOfDecode(data);
    ScanAgrees(text, false);
    ScanDocument(text);
  }

  /**
   * Why the check is needed: without it three different documents would denote
   * the same string, since a decoder replaces an unpaired surrogate by U+FFFD.
   */
  lemma ReplacementCollides()
    ensures Jcs.DecodeString([Unit(0xD800)]) == Jcs.DecodeString([Unit(0xDFFF)])
            == Jcs.DecodeString([Plain(0xFFFD as char)])
    ensures !Paired([Unit(0xD800)]) && !Paired([Unit(0xDFFF)]) && Paired([Plain(0xFFFD as char)])
  {
    assert [Unit(0xD800)][1..] == [] && [Unit(0xDFFF)][1..] == [] && [Plain(0xFFFD as char)][1..] == [];
  }
}
