/** The Luhn check of the DLP scanner (Annex B of ISO/IEC 7812-1), over strings of any length. */
module Luhn {
  import opened Wrappers

  const MIN_DIGITS: nat := 13

  /** The digits of a string, everything else dropped. */
  function Digits(s: string): (digits: string)
    ensures AllDigits(digits)
  {
    if s == "" then
      ""
    else
      var rest, last := Digits(s[..|s| - 1]), s[|s| - 1];
      if IsDigit(last) then rest + [last] else rest
  }

  function Value(c: char): int
    requires IsDigit(c)
  {
    c as int - '0' as int
  }

  /** A digit's contribution; every second digit from the right is doubled, nines cast out. */
  function Weight(n: int, doubled: bool): int {
    if !doubled then n else if 2 * n > 9 then 2 * n - 9 else 2 * n
  }

  /** Sums the contributions from the right; `doubled` says whether the last digit is doubled. */
  function Sum(digits: string, doubled: bool): int
    requires AllDigits(digits)
  {
    if digits == "" then
      0
    else
      Weight(Value(digits[|digits| - 1]), doubled) + Sum(digits[..|digits| - 1], !doubled)
  }

  predicate Accepts(s: string) {
    |Digits(s)| >= MIN_DIGITS && Sum(Digits(s), false) % 10 == 0
  }

  method LuhnCheck(s: string) returns (ok: bool)
    ensures ok <==> Accepts(s)
  {
    var sum, alternate := 0, false;
    var digits := "";
    var j := 0;
    while j < |s|
      invariant 0 <= j <= |s|
      invariant digits == Digits(s[..j])
    {
      assert s[..j + 1][..j] == s[..j];
      if s[j] >= '0' && s[j] <= '9' {
        digits := digits + [s[j]];
      }
      j := j + 1;
    }
    assert s[..j] == s;
    if |digits| < 13 {
      return false;
    }
    var i := |digits| - 1;
    assert digits[..i + 1] == digits;
    while i >= 0
      invariant -1 <= i < |digits|
      invariant sum + Sum(digits[..i + 1], alternate) == Sum(digits, false)
    {
      var n := digits[i] as int - '0' as int;
      if alternate {
        n := n * 2;
        if n > 9 {
          n := n - 9;
        }
      }
      assert digits[..i + 1][..i] == digits[..i];
      sum := sum + n;
      alternate := !alternate;
      i := i - 1;
    }
    ok := sum % 10 == 0;
  }

  // ---------------------------------------------------------------- what the check detects

  lemma {:induction false} DigitsOfDigits(s: string)
    requires AllDigits(s)
    ensures Digits(s) == s
  {
    if s != "" {
      DigitsOfDigits(s[..|s| - 1]);
    }
  }

  lemma AcceptsDigits(s: string)
    requires AllDigits(s)
    ensures Accepts(s) <==> |s| >= MIN_DIGITS && Sum(s, false) % 10 == 0
  {
    DigitsOfDigits(s);
  }

  /** Whether the digit `k` places left of one is doubled, given whether that one is. */
  function Alternated(k: nat, doubled: bool): bool {
    if k == 0 then doubled else Alternated(k - 1, !doubled)
  }

  lemma {:induction false} Alternates(k: nat, doubled: bool)
    ensures Alternated(k + 1, doubled) == !Alternated(k, doubled)
  {
    if k > 0 { Alternates(k - 1, !doubled); }
  }

  lemma {:induction false} SumUpdate(s: string, i: nat, c: char, doubled: bool)
    requires AllDigits(s) && i < |s| && IsDigit(c)
    ensures AllDigits(s[i := c])
    ensures var d := Alternated(|s| - 1 - i, doubled);
      Sum(s[i := c], doubled) == Sum(s, doubled) - Weight(Value(s[i]), d) + Weight(Value(c), d)
  {
    var n := |s| - 1;
    if i == n {
      assert s[n := c][..n] == s[..n];
    } else {
      assert s[i := c][..n] == s[..n][i := c];
      SumUpdate(s[..n], i, c, !doubled);
    }
  }

  /** Different digits always contribute differently, doubled or not, even modulo ten. */
  lemma WeightsDiffer(x: int, y: int, doubled: bool, sumX: int, sumY: int)
    requires 0 <= x <= 9 && 0 <= y <= 9 && x != y
    requires sumX - Weight(x, doubled) == sumY - Weight(y, doubled)
    ensures !(sumX % 10 == 0 && sumY % 10 == 0)
  {
  }

  lemma SameModTen(a: int, b: int)
    requires a % 10 == 0
    ensures b % 10 == 0 <==> (b - a) % 10 == 0
  {
  }

  /** Of two digit strings that differ in exactly one digit, at most one is accepted. */
  lemma SingleErrorIsDetected(a: string, b: string, i: nat)
    requires AllDigits(a) && AllDigits(b) && |a| == |b| && i < |a|
    requires a[i] != b[i] && forall j :: 0 <= j < |a| && j != i ==> a[j] == b[j]
    ensures !(Accepts(a) && Accepts(b))
  {
    assert a == b[i := a[i]];
    SumUpdate(b, i, a[i], false);
    WeightsDiffer(Value(a[i]), Value(b[i]), Alternated(|b| - 1 - i, false), Sum(a, false), Sum(b, false));
    AcceptsDigits(a);
    AcceptsDigits(b);
  }

  function Swapped(s: string, i: nat): string
    requires i + 1 < |s|
  {
    s[i := s[i + 1]][i + 1 := s[i]]
  }

  lemma TranspositionWeights(x: int, y: int, doubled: bool)
    requires 0 <= x <= 9 && 0 <= y <= 9
    ensures var change := Weight(y, doubled) + Weight(x, !doubled) - Weight(x, doubled) - Weight(y, !doubled);
      change % 10 == 0 <==> x == y || (x == 0 && y == 9) || (x == 9 && y == 0)
  {
  }

  lemma SwapChange(s: string, i: nat) returns (d: bool)
    requires AllDigits(s) && i + 1 < |s|
    ensures AllDigits(Swapped(s, i))
    ensures var x, y := Value(s[i]), Value(s[i + 1]);
      Sum(Swapped(s, i), false) == Sum(s, false) + (Weight(y, d) + Weight(x, !d) - Weight(x, d) - Weight(y, !d))
  {
    d := Alternated(|s| - 1 - i, false);
    SumUpdate(s, i, s[i + 1], false);
    SumUpdate(s[i := s[i + 1]], i + 1, s[i], false);
    Alternates(|s| - 2 - i, false);
  }

  /** Swapping two adjacent digits goes undetected exactly when they are equal or are 0 and 9. */
  lemma TranspositionDetectedIff(s: string, i: nat)
    requires AllDigits(s) && i + 1 < |s| && Accepts(s)
    ensures Accepts(Swapped(s, i)) <==>
      s[i] == s[i + 1] || (s[i] == '0' && s[i + 1] == '9') || (s[i] == '9' && s[i + 1] == '0')
  {
    var d := SwapChange(s, i);
    AcceptsDigits(s);
    AcceptsDigits(Swapped(s, i));
    TranspositionWeights(Value(s[i]), Value(s[i + 1]), d);
    SameModTen(Sum(s, false), Sum(Swapped(s, i), false));
  }

  /** The digit that completes a payload. */
  function CheckDigit(payload: string): char
    requires AllDigits(payload)
  {
    '0' + ((10 - Sum(payload, true) % 10) % 10) as char
  }

  /** A payload of twelve or more digits has exactly one accepting check digit. */
  lemma CheckDigitIsUnique(payload: string, c: char)
    requires AllDigits(payload) && |payload| >= MIN_DIGITS - 1 && IsDigit(c)
    ensures IsDigit(CheckDigit(payload))
    ensures Accepts(payload + [c]) <==> c == CheckDigit(payload)
  {
    AcceptsDigits(payload + [c]);
    assert (payload + [c])[..|payload|] == payload;
    Completes(Sum(payload, true), Value(c));
  }

  lemma Completes(sum: int, n: int)
    requires 0 <= n <= 9
    ensures (n + sum) % 10 == 0 <==> n == (10 - sum % 10) % 10
  {
  }
}
