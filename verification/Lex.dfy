/** Lexicographic order on code-unit sequences, and sorted enumeration of finite sets. */
module Lex {

  /** Negative, zero or positive, as a comparison of two code-unit sequences. */
  function Compare(a: seq<nat>, b: seq<nat>): (r: int)
    ensures -1 <= r <= 1
  {
    if a == [] then (if b == [] then 0 else -1)
    else if b == [] then 1
    else if a[0] < b[0] then -1
    else if a[0] > b[0] then 1
    else Compare(a[1..], b[1..])
  }

  lemma {:induction false} CompareZero(a: seq<nat>, b: seq<nat>)
    ensures Compare(a, b) == 0 <==> a == b
  {
    if a != [] && b != [] && a[0] == b[0] {
      CompareZero(a[1..], b[1..]);
      assert a == [a[0]] + a[1..] && b == [b[0]] + b[1..];
    }
  }

  lemma {:induction false} CompareFlip(a: seq<nat>, b: seq<nat>)
    ensures Compare(b, a) == 0 - Compare(a, b)
  {
    if a != [] && b != [] && a[0] == b[0] {
      CompareFlip(a[1..], b[1..]);
    }
  }

  lemma {:induction false} CompareTransitive(a: seq<nat>, b: seq<nat>, c: seq<nat>)
    requires Compare(a, b) <= 0 && Compare(b, c) <= 0
    ensures Compare(a, c) <= 0
    ensures Compare(a, b) < 0 || Compare(b, c) < 0 ==> Compare(a, c) < 0
  {
    if a != [] && b != [] && c != [] && a[0] == b[0] == c[0] {
      CompareTransitive(a[1..], b[1..], c[1..]);
    }
  }

  /** The comparison loop: the first differing unit decides, then the length. */
  method CompareUnits(a: seq<nat>, b: seq<nat>) returns (r: int)
    ensures r == Compare(a, b)
  {
    var i := 0;
    while i < |a| && i < |b|
      invariant 0 <= i <= |a| && i <= |b|
      invariant Compare(a, b) == Compare(a[i..], b[i..])
    {
      if a[i] != b[i] {
        return if a[i] < b[i] then -1 else 1;
      }
      assert a[i..][1..] == a[i + 1..] && b[i..][1..] == b[i + 1..];
      i := i + 1;
    }
    if |a| < |b| { return -1; }
    if |a| > |b| { return 1; }
    return 0;
  }

  // ---- sorted enumeration of a set of strings under a key ----

  ghost predicate InjectiveKey(key: string -> seq<nat>) {
    forall a, b :: key(a) == key(b) ==> a == b
  }

  predicate Before(key: string -> seq<nat>, a: string, b: string) {
    Compare(key(a), key(b)) < 0
  }

  predicate StrictlySorted(ks: seq<string>, key: string -> seq<nat>) {
    forall i, j | 0 <= i < j < |ks| :: Before(key, ks[i], ks[j])
  }

  predicate IsLeast(x: string, s: set<string>, key: string -> seq<nat>) {
    x in s && forall y | y in s && y != x :: Before(key, x, y)
  }

  lemma {:induction false} LeastExists(s: set<string>, key: string -> seq<nat>)
    requires s != {} && InjectiveKey(key)
    ensures exists x :: IsLeast(x, s, key)
  {
    var x :| x in s;
    var rest := s - {x};
    if rest == {} {
      assert forall y | y in s :: y == x || y in rest;
      assert IsLeast(x, s, key);
    } else {
      LeastExists(rest, key);
      var y :| IsLeast(y, rest, key);
      CompareZero(key(x), key(y));
      CompareFlip(key(x), key(y));
      if Before(key, y, x) {
        assert IsLeast(y, s, key);
      } else {
        forall z | z in s && z != x ensures Before(key, x, z) {
          assert z in rest;
          if z != y {
            assert Before(key, y, z);
            CompareTransitive(key(x), key(y), key(z));
          }
        }
        assert IsLeast(x, s, key);
      }
    }
  }

  /** The elements of s in increasing key order. */
  ghost function Sorted(s: set<string>, key: string -> seq<nat>): (ks: seq<string>)
    requires InjectiveKey(key)
  {
    if s == {} then []
    else
      var x := Least(s, key);
      [x] + Sorted(s - {x}, key)
  }

  ghost function Least(s: set<string>, key: string -> seq<nat>): (x: string)
    requires s != {} && InjectiveKey(key)
    ensures IsLeast(x, s, key)
  {
    LeastExists(s, key);
    var x :| IsLeast(x, s, key);
    x
  }

  lemma {:induction false} SortedEnumerates(s: set<string>, key: string -> seq<nat>)
    requires InjectiveKey(key)
    ensures StrictlySorted(Sorted(s, key), key)
    ensures forall x :: x in Sorted(s, key) <==> x in s
    ensures |Sorted(s, key)| == |s|
    decreases s
  {
    if s != {} {
      hide Compare;
      var x := Least(s, key);
      SortedEnumerates(s - {x}, key);
      assert forall y | y in Sorted(s - {x}, key) :: Before(key, x, y);
    }
  }

  /** A strictly sorted list starts with the least of its elements, and goes on with the rest. */
  lemma HeadAndTail(s: set<string>, key: string -> seq<nat>, ks: seq<string>)
    requires InjectiveKey(key) && s != {}
    requires StrictlySorted(ks, key) && forall x :: x in ks <==> x in s
    ensures ks != [] && ks[0] == Least(s, key)
    ensures StrictlySorted(ks[1..], key) && forall x :: x in ks[1..] <==> x in s - {ks[0]}
  {
    hide Compare;
    var x := Least(s, key);
    assert x in ks;
    var i :| 0 <= i < |ks| && ks[i] == x;
    if i > 0 {
      assert ks[0] in s && Before(key, ks[0], x);
      CompareFlip(key(ks[0]), key(x));
    }
    CompareZero(key(x), key(x));
    forall y ensures y in ks[1..] <==> y in s - {x} {
      if y in ks[1..] {
        var j :| 0 <= j < |ks[1..]| && ks[1..][j] == y;
        assert Before(key, ks[0], ks[j + 1]);
      }
    }
  }

  /** Any strictly sorted list of exactly the elements of s is the sorted enumeration. */
  lemma {:induction false} SortedUnique(s: set<string>, key: string -> seq<nat>, ks: seq<string>)
    requires InjectiveKey(key)
    requires StrictlySorted(ks, key) && forall x :: x in ks <==> x in s
    ensures ks == Sorted(s, key)
    decreases s
  {
    hide StrictlySorted, InjectiveKey;
    if ks == [] {
      assert forall x :: x !in s;
    } else {
      assert ks[0] in s;
      HeadAndTail(s, key, ks);
      SortedUnique(s - {ks[0]}, key, ks[1..]);
      assert ks == [ks[0]] + ks[1..];
    }
  }

  // ---- sorting a set as it runs ----

  lemma InsertionSorted(ks: seq<string>, x: string, pos: nat, key: string -> seq<nat>)
    requires InjectiveKey(key) && StrictlySorted(ks, key) && x !in ks && pos <= |ks|
    requires forall i | 0 <= i < pos :: Before(key, ks[i], x)
    requires pos < |ks| ==> !Before(key, ks[pos], x)
    ensures StrictlySorted(ks[..pos] + [x] + ks[pos..], key)
  {
    forall k | pos <= k < |ks| ensures Before(key, x, ks[k]) {
      CompareZero(key(ks[pos]), key(x));
      CompareFlip(key(ks[pos]), key(x));
      if k > pos { CompareTransitive(key(x), key(ks[pos]), key(ks[k])); }
    }
    var r := ks[..pos] + [x] + ks[pos..];
    forall i, j | 0 <= i < j < |r| ensures Before(key, r[i], r[j]) {
      assert i < pos ==> r[i] == ks[i];
      assert i > pos ==> r[i] == ks[i - 1];
      assert j < pos ==> r[j] == ks[j];
      assert j > pos ==> r[j] == ks[j - 1];
    }
  }

  method InsertSorted(ks: seq<string>, x: string, key: string -> seq<nat>) returns (r: seq<string>)
    requires InjectiveKey(key) && StrictlySorted(ks, key) && x !in ks
    ensures StrictlySorted(r, key)
    ensures forall y :: y in r <==> y in ks || y == x
  {
    hide StrictlySorted, Compare;
    var pos := 0;
    while pos < |ks|
      invariant 0 <= pos <= |ks|
      invariant forall i | 0 <= i < pos :: Before(key, ks[i], x)
    {
      var c := CompareUnits(key(ks[pos]), key(x));
      if c >= 0 { break; }
      pos := pos + 1;
    }
    InsertionSorted(ks, x, pos, key);
    r := ks[..pos] + [x] + ks[pos..];
    assert ks == ks[..pos] + ks[pos..];
  }

  /** The elements of a set, taken in any order, as a sorted list. */
  method SortSet(s: set<string>, key: string -> seq<nat>) returns (ks: seq<string>)
    requires InjectiveKey(key)
    ensures ks == Sorted(s, key)
  {
    hide StrictlySorted, Sorted;
    ks := [];
    var left := s;
    SortedNothing(key);
    while left != {}
      invariant left <= s && StrictlySorted(ks, key)
      invariant forall y :: y in ks <==> y in s - left
      decreases |left|
    {
      var x :| x in left;
      left := left - {x};
      ks := InsertSorted(ks, x, key);
    }
    SortedUnique(s, key, ks);
  }

  lemma SortedNothing(key: string -> seq<nat>)
    ensures StrictlySorted([], key)
  {}
}
