/** Byte-string helpers of the Go standard library that the URI profile relies on. */
module Text {
  import opened Positional

  /** strings.IndexByte */
  function IndexOf(s: string, c: char): (i: int)
    ensures -1 <= i < |s|
    ensures i < 0 <==> c !in s
    ensures i >= 0 ==> s[i] == c && c !in s[..i]
  {
    if s == "" then -1
    else if s[0] == c then 0
    else
      assert s == [s[0]] + s[1..];
      var r := IndexOf(s[1..], c);
      assert r >= 0 ==> s[..r + 1] == [s[0]] + s[1..][..r];
      if r < 0 then -1 else r + 1
  }

  lemma IndexOfUnique(s: string, c: char, n: nat)
    requires n < |s| && s[n] == c && c !in s[..n]
    ensures IndexOf(s, c) == n
  {
    var i := IndexOf(s, c);
    assert forall k | 0 <= k < n :: s[k] in s[..n];
    assert forall k | 0 <= k < i :: s[k] in s[..i];
  }

  /** strings.LastIndexByte */
  function LastIndexOf(s: string, c: char): (i: int)
    ensures -1 <= i < |s|
    ensures i < 0 <==> c !in s
    ensures i >= 0 ==> s[i] == c && c !in s[i + 1..]
  {
    if s == "" then -1
    else if s[|s| - 1] == c then |s| - 1
    else
      var init := s[..|s| - 1];
      assert s == init + [s[|s| - 1]];
      var r := LastIndexOf(init, c);
      assert r >= 0 ==> s[r + 1..] == init[r + 1..] + [s[|s| - 1]];
      r
  }

  lemma LastIndexOfUnique(s: string, c: char, n: nat)
    requires n < |s| && s[n] == c && c !in s[n + 1..]
    ensures LastIndexOf(s, c) == n
  {
    var i := LastIndexOf(s, c);
    assert forall k | n < k < |s| :: s[k] in s[n + 1..];
    assert forall k | i < k < |s| :: s[k] in s[i + 1..];
  }

  /** strings.Split for a one-character separator. */
  function Split(s: string, c: char): (segs: seq<string>)
    ensures |segs| > 0
    ensures forall seg | seg in segs :: c !in seg
    decreases |s|
  {
    var i := IndexOf(s, c);
    if i < 0 then [s] else [s[..i]] + Split(s[i + 1..], c)
  }

  function Join(segs: seq<string>, c: char): string
    requires |segs| > 0
  {
    if |segs| == 1 then segs[0] else segs[0] + [c] + Join(segs[1..], c)
  }

  lemma {:induction false} JoinOfSplit(s: string, c: char)
    ensures Join(Split(s, c), c) == s
    decreases |s|
  {
    var i := IndexOf(s, c);
    if i >= 0 {
      JoinOfSplit(s[i + 1..], c);
      assert s == s[..i] + [c] + s[i + 1..];
      assert Split(s, c)[1..] == Split(s[i + 1..], c);
    }
  }

  /** A separator after a segment that has none is where the split is made. */
  lemma SplitAfter(seg: string, c: char, rest: string)
    requires c !in seg
    ensures Split(seg + [c] + rest, c) == [seg] + Split(rest, c)
  {
    hide IndexOf;
    var s, n := seg + [c] + rest, |seg|;
    assert s[n] == c && s[..n] == seg && s[n + 1..] == rest;
    IndexOfUnique(s, c, n);
  }

  lemma {:induction false} SplitOfJoin(segs: seq<string>, c: char)
    requires |segs| > 0
    requires forall seg | seg in segs :: c !in seg
    ensures Split(Join(segs, c), c) == segs
  {
    if |segs| == 1 {
      assert IndexOf(segs[0], c) < 0;
    } else {
      hide Split, IndexOf;
      SplitAfter(segs[0], c, Join(segs[1..], c));
      SplitOfJoin(segs[1..], c);
      assert segs == [segs[0]] + segs[1..];
    }
  }

  predicate IsDigit(c: char) { '0' <= c <= '9' }

  predicate AllDigits(s: string) { forall i | 0 <= i < |s| :: IsDigit(s[i]) }

  function DigitChar(d: nat): (c: char)
    requires d < 10
    ensures IsDigit(c)
  {
    ('0' as int + d) as char
  }

  function DigitValue(c: char): (d: nat)
    requires IsDigit(c)
    ensures d < 10
  {
    c as int - '0' as int
  }

  /** strconv.Itoa on a natural number. */
  function Itoa(n: nat): (s: string)
    ensures |s| > 0 && AllDigits(s)
    ensures n > 0 ==> s[0] != '0'
  {
    if n == 0 then "0"
    else
      var ds := Digits(10, n);
      seq(|ds|, i requires 0 <= i < |ds| => DigitChar(ds[i]))
  }

  function ParseDigits(s: string): nat
    requires AllDigits(s)
  {
    Value(10, seq(|s|, i requires 0 <= i < |s| => DigitValue(s[i])))
  }

  lemma ParseOfItoa(n: nat)
    ensures ParseDigits(Itoa(n)) == n
  {
    var ds := if n == 0 then [0] else Digits(10, n);
    var s := Itoa(n);
    assert |s| == |ds| && forall i | 0 <= i < |s| :: DigitValue(s[i]) == ds[i];
    assert seq(|s|, i requires 0 <= i < |s| => DigitValue(s[i])) == ds;
    ValueOfDigits(10, n);
  }

  /** A digit string without a superfluous leading zero is the numeral of its value. */
  lemma ItoaOfParse(s: string)
    requires |s| > 0 && AllDigits(s)
    requires s == "0" || s[0] != '0'
    ensures Itoa(ParseDigits(s)) == s
  {
    var ds := seq(|s|, i requires 0 <= i < |s| => DigitValue(s[i]));
    if s == "0" {
      assert ds == [0];
      assert Value(10, ds[..0]) == 0;
    } else {
      assert ds[0] > 0;
      DigitsOfValue(10, ds);
      ValuePositive(10, ds);
      assert Itoa(ParseDigits(s)) == s;
    }
  }
}
