/** The bank-card check of scripts/check_fixture_pii.py (lines 68-78) and what Annex B of ISO/IEC 7812-1 promises
    of it: which single errors a valid number cannot survive. */
module Luhn {

  predicate AllDigits(s: seq<nat>) {
    forall i :: 0 <= i < |s| ==> s[i] <= 9
  }

  /** The weight of one digit; a doubled digit above nine loses nine. */
  function Weight(d: nat, doubled: bool): int {
    if !doubled then d else if 2 * d > 9 then 2 * d - 9 else 2 * d
  }

  /** Whether the `n`-th digit from the right end, counted from 1, is doubled: every second one is. */
  predicate Doubles(n: nat) {
    n != 0 ==> !Doubles(n - 1)
  }

  lemma {:induction false} DoublesIsEven(n: nat)
    ensures Doubles(n) <==> n % 2 == 0
  {
    if n != 0 { DoublesIsEven(n - 1); }
  }

  /** The sum over `s` when `k` more digits stand to its right. */
  function Sum(s: seq<nat>, k: nat): int {
    if s == [] then 0 else Weight(s[0], Doubles(|s| + k)) + Sum(s[1..], k)
  }

  predicate Valid(s: seq<nat>) {
    Sum(s, 0) % 10 == 0
  }

  function DigitsOf(number: string): seq<nat>
    requires forall i :: 0 <= i < |number| ==> '0' <= number[i] <= '9'
  {
    seq(|number|, i requires 0 <= i < |number| => number[i] as int - '0' as int)
  }

  method LuhnOk(number: string) returns (ok: bool)
    requires forall i :: 0 <= i < |number| ==> '0' <= number[i] <= '9'
    ensures ok <==> Valid(DigitsOf(number))
  {
    var digits := DigitsOf(number);
    var parity := (|digits| - 2) % 2;
    var total := 0;
    for i := 0 to |digits|
      invariant total + Sum(digits[i..], 0) == Sum(digits, 0)
    {
      DoublesIsEven(|digits| - i);
      var d: int := digits[i];
      if i % 2 == parity {
        d := d * 2;
        if d > 9 {
          d := d - 9;
        }
      }
      total := total + d;
      assert digits[i..][1..] == digits[i + 1..];
    }
    ok := total % 10 == 0;
  }

  lemma {:induction false} SumConcat(a: seq<nat>, b: seq<nat>, k: nat)
    ensures Sum(a + b, k) == Sum(a, |b| + k) + Sum(b, k)
  {
    if a == [] {
      assert a + b == b;
    } else {
      assert (a + b)[1..] == a[1..] + b;
      SumConcat(a[1..], b, k);
    }
  }

  lemma SumParts(s: seq<nat>, a: seq<nat>, d: nat, b: seq<nat>, n: nat)
    requires s == a + ([d] + b) && n == |b| + 1
    ensures Sum(s, 0) == Sum(a, n) + Weight(d, Doubles(n)) + Sum(b, 0)
  {
    SumConcat(a, [d] + b, 0);
    assert ([d] + b)[1..] == b;
  }

  lemma Around(s: seq<nat>, i: nat)
    requires i < |s|
    ensures s == s[..i] + ([s[i]] + s[i + 1..])
  {
  }

  /** The sum as the part before position `i`, the digit there, and the part after. */
  lemma SumAround(s: seq<nat>, i: nat)
    requires i < |s|
    ensures Sum(s, 0) == Sum(s[..i], |s| - i) + Weight(s[i], Doubles(|s| - i)) + Sum(s[i + 1..], 0)
  {
    Around(s, i);
    SumParts(s, s[..i], s[i], s[i + 1..], |s| - i);
  }

  lemma ModShift(x: int, y: int)
    requires x % 10 == 0
    ensures y % 10 == 0 <==> (y - x) % 10 == 0
  {
  }

  lemma WeightsDiffer(a: nat, b: nat, doubled: bool)
    requires a <= 9 && b <= 9 && a != b
    ensures (Weight(a, doubled) - Weight(b, doubled)) % 10 != 0
  {
    assert -10 < Weight(a, doubled) - Weight(b, doubled) < 10;
  }

  /** Changing any one digit of a valid number makes it invalid. */
  lemma SubstitutionIsCaught(s: seq<nat>, i: nat, d: nat)
    requires AllDigits(s) && Valid(s) && i < |s| && d <= 9 && d != s[i]
    ensures !Valid(s[i := d])
  {
    var t, doubled := s[i := d], Doubles(|s| - i);
    SumAround(s, i);
    SumAround(t, i);
    assert t[..i] == s[..i] && t[i + 1..] == s[i + 1..];
    var delta := Weight(d, doubled) - Weight(s[i], doubled);
    assert Sum(t, 0) - Sum(s, 0) == delta;
    WeightsDiffer(d, s[i], doubled);
    ModShift(Sum(s, 0), Sum(t, 0));
  }

  lemma SwapChange(a: nat, b: nat, doubled: bool)
    requires a <= 9 && b <= 9
    ensures (Weight(b, doubled) + Weight(a, !doubled) - Weight(a, doubled) - Weight(b, !doubled)) % 10 == 0
            <==> a == b || (a == 0 && b == 9) || (a == 9 && b == 0)
  {
    assert -10 < (Weight(b, doubled) - Weight(b, !doubled)) - (Weight(a, doubled) - Weight(a, !doubled)) < 10;
  }

  /** Swapping two neighbouring digits of a valid number goes unnoticed exactly when they are equal or are the
      digits 0 and 9. */
  lemma SwapIsCaughtExceptZeroNine(s: seq<nat>, i: nat)
    requires AllDigits(s) && Valid(s) && i + 1 < |s|
    ensures Valid(s[i := s[i + 1]][i + 1 := s[i]])
            <==> s[i] == s[i + 1] || (s[i] == 0 && s[i + 1] == 9) || (s[i] == 9 && s[i + 1] == 0)
  {
    var a, b, doubled := s[i], s[i + 1], Doubles(|s| - i);
    var t := s[i := b][i + 1 := a];
    PairSum(s, i);
    PairSum(t, i);
    assert t[..i] == s[..i] && t[i + 2..] == s[i + 2..];
    var delta := Weight(b, doubled) + Weight(a, !doubled) - Weight(a, doubled) - Weight(b, !doubled);
    assert Sum(t, 0) - Sum(s, 0) == delta;
    SwapChange(a, b, doubled);
    ModShift(Sum(s, 0), Sum(t, 0));
  }

  lemma PairParts(s: seq<nat>, a: seq<nat>, d: nat, e: nat, b: seq<nat>, n: nat)
    requires s == a + ([d] + ([e] + b)) && n == |b| + 2
    ensures Sum(s, 0) == Sum(a, n) + Weight(d, Doubles(n)) + Weight(e, !Doubles(n)) + Sum(b, 0)
  {
    var t := [e] + b;
    SumParts(s, a, d, t, n);
    assert t == [] + t;
    SumParts(t, [], e, b, n - 1);
  }

  lemma PairSum(s: seq<nat>, i: nat)
    requires i + 1 < |s|
    ensures Sum(s, 0) == Sum(s[..i], |s| - i) + Weight(s[i], Doubles(|s| - i))
                         + Weight(s[i + 1], !Doubles(|s| - i)) + Sum(s[i + 2..], 0)
  {
    Around(s, i);
    Around(s[i + 1..], 0);
    PairParts(s, s[..i], s[i], s[i + 1], s[i + 2..], |s| - i);
  }

  function CheckDigit(payload: seq<nat>): nat {
    (10 - Sum(payload, 1) % 10) % 10
  }

  /** Every payload has exactly one valid check digit. */
  lemma OneCheckDigit(payload: seq<nat>, c: nat)
    requires c <= 9
    ensures Valid(payload + [c]) <==> c == CheckDigit(payload)
  {
    SumConcat(payload, [c], 0);
    LastDigit(c);
    CheckDigitFits(Sum(payload, 1), c);
  }

  lemma LastDigit(c: nat)
    ensures Sum([c], 0) == c
  {
    assert [c][1..] == [] && !Doubles(1);
  }

  lemma CheckDigitFits(sum: int, c: nat)
    requires c <= 9
    ensures (sum + c) % 10 == 0 <==> c == (10 - sum % 10) % 10
  {
  }

  /** Leading zeros do not matter. */
  lemma {:induction false} LeadingZeros(zeros: seq<nat>, s: seq<nat>)
    requires forall i :: 0 <= i < |zeros| ==> zeros[i] == 0
    ensures Valid(zeros + s) <==> Valid(s)
  {
    SumConcat(zeros, s, 0);
    ZerosSum(zeros, |s|);
  }

  lemma {:induction false} ZerosSum(zeros: seq<nat>, k: nat)
    requires forall i :: 0 <= i < |zeros| ==> zeros[i] == 0
    ensures Sum(zeros, k) == 0
  {
    if zeros != [] {
      ZerosSum(zeros[1..], k);
    }
  }
}
