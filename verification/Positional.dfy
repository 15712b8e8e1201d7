/** Positional notation in an arbitrary base, most significant digit first. */
module Positional {

  predicate DigitSeq(base: nat, ds: seq<nat>) {
    forall i | 0 <= i < |ds| :: ds[i] < base
  }

  /** The digits of x without leading zeros; zero has no digits. */
  function Digits(base: nat, x: nat): (ds: seq<nat>)
    requires base >= 2
    ensures DigitSeq(base, ds)
    ensures x == 0 <==> ds == []
    ensures x > 0 ==> ds[0] > 0
    decreases x
  {
    if x == 0 then []
    else
      DivSmaller(x, base);
      Digits(base, x / base) + [x % base]
  }

  function Value(base: nat, ds: seq<nat>): nat {
    if ds == [] then 0 else Value(base, ds[..|ds| - 1]) * base + ds[|ds| - 1]
  }

  function Pow(base: nat, e: nat): nat {
    if e == 0 then 1 else Pow(base, e - 1) * base
  }

  lemma DivSmaller(x: nat, base: nat)
    requires base >= 2 && x > 0
    ensures 0 <= x / base < x
  {
    assert x == x / base * base + x % base;
    assert x / base * base >= x / base * 2;
  }

  /** q and r are the quotient and remainder of q * base + r. */
  lemma DivMod(q: nat, r: nat, base: nat)
    requires r < base
    ensures (q * base + r) / base == q && (q * base + r) % base == r
  {
    var x := q * base + r;
    var d := x / base - q;
    assert x == x / base * base + x % base;
    assert d * base == r - x % base;
    assert d >= 1 ==> d * base >= base;
    assert d <= -1 ==> d * base <= 0 - base;
  }

  lemma ValueSnoc(base: nat, ds: seq<nat>, d: nat)
    ensures Value(base, ds + [d]) == Value(base, ds) * base + d
  {
    assert (ds + [d])[..|ds|] == ds;
  }

  lemma Remainder(x: nat, base: nat)
    requires base >= 2
    ensures x == x / base * base + x % base
  {}

  lemma {:induction false} ValueOfDigits(base: nat, x: nat)
    requires base >= 2
    ensures Value(base, Digits(base, x)) == x
    decreases x
  {
    if x > 0 {
      DivSmaller(x, base);
      ValueOfDigits(base, x / base);
      ValueSnoc(base, Digits(base, x / base), x % base);
      Remainder(x, base);
    }
  }

  lemma {:induction false} ValuePositive(base: nat, ds: seq<nat>)
    requires base >= 2 && ds != [] && ds[0] > 0
    ensures Value(base, ds) > 0
  {
    if |ds| > 1 {
      ValuePositive(base, ds[..|ds| - 1]);
      assert Value(base, ds[..|ds| - 1]) * base > 0;
    }
  }

  lemma {:induction false} DigitsOfValue(base: nat, ds: seq<nat>)
    requires base >= 2 && DigitSeq(base, ds)
    requires ds == [] || ds[0] > 0
    ensures Digits(base, Value(base, ds)) == ds
  {
    if ds != [] {
      var init, last := ds[..|ds| - 1], ds[|ds| - 1];
      ValuePositive(base, ds);
      DivMod(Value(base, init), last, base);
      DigitsOfValue(base, init);
      assert ds == init + [last];
    }
  }

  lemma {:induction false} LeadingZeros(base: nat, zeros: nat, ds: seq<nat>)
    ensures Value(base, seq(zeros, _ => 0) + ds) == Value(base, ds)
  {
    var s := seq(zeros, _ => 0) + ds;
    if ds != [] {
      assert s[..|s| - 1] == seq(zeros, _ => 0) + ds[..|ds| - 1];
      LeadingZeros(base, zeros, ds[..|ds| - 1]);
    } else if zeros > 0 {
      assert s[..|s| - 1] == seq(zeros - 1, _ => 0) + [];
      LeadingZeros(base, zeros - 1, []);
      assert Value(base, []) == 0;
    } else {
      assert s == [];
    }
  }
}
