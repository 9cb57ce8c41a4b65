/** The data model of apc.h: a number's magnitude is a list of decimal digits,
    most significant digit first (head = index 0, tail = last index), and the
    status codes the list operations return. This module gives the value a
    digit list denotes and the shape invariants the engines rely on. */
module Digits {

  const SUCCESS: int := 0
  const FAILURE: int := -1

  predicate IsDigit(d: int) {
    0 <= d <= 9
  }

  predicate IsDigits(s: seq<int>) {
    forall k :: 0 <= k < |s| ==> IsDigit(s[k])
  }

  /** Appending a digit keeps a digit list. */
  lemma DigitsSnoc(s: seq<int>, d: int)
    requires IsDigits(s) && IsDigit(d)
    ensures IsDigits(s + [d])
  {
    forall k | 0 <= k < |s| + 1 ensures IsDigit((s + [d])[k]) {
      if k < |s| {
        assert (s + [d])[k] == s[k];
      }
    }
  }

  /** A prefix one element longer. */
  lemma PrefixSnoc(s: seq<int>, k: nat)
    requires k < |s|
    ensures s[..k + 1] == s[..k] + [s[k]]
  {
  }

  /** At least one digit, and no leading zero unless the list is exactly [0]. */
  predicate Canonical(s: seq<int>) {
    |s| >= 1 && IsDigits(s) && (|s| > 1 ==> s[0] != 0)
  }

  /** Every digit is zero (vacuously true of the empty list). */
  predicate AllZero(s: seq<int>) {
    forall k :: 0 <= k < |s| ==> s[k] == 0
  }

  function Pow10(n: nat): (p: int)
    ensures p >= 1
  {
    if n == 0 then 1 else 10 * Pow10(n - 1)
  }

  /** The number a digit list denotes: sum of s[k] * 10^(|s|-1-k). */
  function Value(s: seq<int>): int
  {
    if |s| == 0 then 0 else 10 * Value(s[..|s| - 1]) + s[|s| - 1]
  }

  /** The digit a cursor walking towards the head reads: 0 once the list is exhausted. */
  function LastOr0(s: seq<int>): int {
    if s == [] then 0 else s[|s| - 1]
  }

  /** The list the cursor has left after stepping to `prev`. */
  function DropLast(s: seq<int>): (r: seq<int>)
    ensures s != [] ==> |r| == |s| - 1
  {
    if s == [] then [] else s[..|s| - 1]
  }

  /** C's integer division, which truncates towards zero (Dafny's `/` is
      Euclidean); only positive divisors occur. */
  function CDiv(x: int, d: int): (q: int)
    requires d > 0
    ensures x >= 0 ==> q == x / d
    ensures x < 0 ==> q == -((-x) / d)
  {
    if x >= 0 then x / d else -((-x) / d)
  }

  /** C's remainder: it takes the sign of the dividend. */
  function CMod(x: int, d: int): (m: int)
    requires d > 0
    ensures x == d * CDiv(x, d) + m
    ensures x >= 0 ==> 0 <= m < d
    ensures x < 0 ==> -d < m <= 0
  {
    x - d * CDiv(x, d)
  }

  /** A cursor standing before index i of s reads LastOr0(s[..i]) and then
      stands before index i - 1, or stays at NULL. */
  lemma CursorStep(s: seq<int>, i: nat)
    requires i <= |s|
    ensures LastOr0(s[..i]) == (if i > 0 then s[i - 1] else 0)
    ensures DropLast(s[..i]) == s[..if i > 0 then i - 1 else 0]
  {
  }

  /** Walking one more digit towards the head of s adds that digit at place k. */
  lemma ValueSuffixStep(s: seq<int>, k: nat)
    requires k < |s|
    ensures Value(s[|s| - k - 1..]) == s[|s| - 1 - k] * Pow10(k) + Value(s[|s| - k..])
  {
    assert s[|s| - k - 1..] == [s[|s| - 1 - k]] + s[|s| - k..];
    ValueCons(s[|s| - 1 - k], s[|s| - k..]);
  }

  /** Repeatedly removes a leading zero while more than one digit remains. */
  function Trim(s: seq<int>): (r: seq<int>)
    ensures |r| <= |s|
    ensures |s| >= 1 ==> |r| >= 1
    ensures |r| > 1 ==> r[0] != 0
  {
    if |s| > 1 && s[0] == 0 then Trim(s[1..]) else s
  }

  // ---------------------------------------------------------------------------
  // Facts about Value

  lemma ValueSnoc(s: seq<int>, d: int)
    ensures Value(s + [d]) == 10 * Value(s) + d
  {
    assert (s + [d])[..|s|] == s;
  }

  lemma ValueSplit(s: seq<int>)
    ensures Value(s) == 10 * Value(DropLast(s)) + LastOr0(s)
  {
  }

  lemma {:induction false} ValueCons(d: int, s: seq<int>)
    ensures Value([d] + s) == d * Pow10(|s|) + Value(s)
    decreases |s|
  {
    if s == [] {
      assert [d] + s == [d];
      assert Value([d]) == 10 * Value([]) + d;
    } else {
      var init := s[..|s| - 1];
      assert ([d] + s)[..|s|] == [d] + init;
      ValueCons(d, init);
      calc {
        Value([d] + s);
        10 * Value([d] + init) + s[|s| - 1];
        10 * (d * Pow10(|init|) + Value(init)) + s[|s| - 1];
        d * (10 * Pow10(|init|)) + (10 * Value(init) + s[|s| - 1]);
        d * Pow10(|s|) + Value(s);
      }
    }
  }

  lemma {:induction false} ValueBounds(s: seq<int>)
    requires IsDigits(s)
    ensures 0 <= Value(s) < Pow10(|s|)
  {
    if s != [] {
      ValueBounds(s[..|s| - 1]);
    }
  }

  lemma Pow10Monotone(m: nat, n: nat)
    requires m <= n
    ensures Pow10(m) <= Pow10(n)
  {
    if m < n {
      Pow10Monotone(m, n - 1);
    }
  }

  lemma {:induction false} Pow10Add(m: nat, n: nat)
    ensures Pow10(m + n) == Pow10(m) * Pow10(n)
    decreases m
  {
    if m > 0 {
      Pow10Add(m - 1, n);
      calc {
        Pow10(m + n);
        10 * Pow10(m - 1 + n);
        10 * (Pow10(m - 1) * Pow10(n));
        (10 * Pow10(m - 1)) * Pow10(n);
      }
    }
  }

  /** A list whose first digit is non-zero denotes at least 10^(|s|-1). */
  lemma LeadingDigitLowerBound(s: seq<int>)
    requires IsDigits(s) && |s| >= 1 && s[0] != 0
    ensures Value(s) >= Pow10(|s| - 1)
  {
    assert s == [s[0]] + s[1..];
    ValueCons(s[0], s[1..]);
    ValueBounds(s[1..]);
  }

  /** A list whose first digit is zero denotes less than 10^(|s|-1). */
  lemma LeadingZeroUpperBound(s: seq<int>)
    requires IsDigits(s) && |s| >= 1
    ensures s[0] == 0 ==> Value(s) < Pow10(|s| - 1)
  {
    assert s == [s[0]] + s[1..];
    ValueCons(s[0], s[1..]);
    ValueBounds(s[1..]);
  }

  /** Digit lists of one length are determined by their value. */
  lemma {:induction false} SameLengthValueInjective(s: seq<int>, t: seq<int>)
    requires IsDigits(s) && IsDigits(t) && |s| == |t|
    requires Value(s) == Value(t)
    ensures s == t
  {
    if s != [] {
      var s', t' := s[..|s| - 1], t[..|t| - 1];
      assert 10 * Value(s') + s[|s| - 1] == 10 * Value(t') + t[|t| - 1];
      SameLengthValueInjective(s', t');
      assert s == s' + [s[|s| - 1]] && t == t' + [t[|t| - 1]];
    }
  }

  /** The canonical representation of a value is unique. */
  lemma CanonicalUnique(s: seq<int>, t: seq<int>)
    requires Canonical(s) && Canonical(t)
    requires Value(s) == Value(t)
    ensures s == t
  {
    if |s| < |t| {
      Pow10Monotone(|s|, |t| - 1);
      ValueBounds(s);
      LeadingDigitLowerBound(t);
      assert false;
    } else if |t| < |s| {
      Pow10Monotone(|t|, |s| - 1);
      ValueBounds(t);
      LeadingDigitLowerBound(s);
      assert false;
    }
    SameLengthValueInjective(s, t);
  }

  /** The only canonical list denoting zero is [0]. */
  lemma CanonicalZero(s: seq<int>)
    requires Canonical(s) && Value(s) == 0
    ensures s == [0]
  {
    assert Value([0]) == 0;
    CanonicalUnique(s, [0]);
  }

  /** is_zero's test (every digit 0) decides whether a digit list denotes 0. */
  lemma {:induction false} AllZeroIffValueZero(s: seq<int>)
    requires IsDigits(s)
    ensures AllZero(s) <==> Value(s) == 0
  {
    if s != [] {
      var init := s[..|s| - 1];
      AllZeroIffValueZero(init);
      ValueBounds(init);
      if AllZero(s) {
        assert AllZero(init);
      } else if Value(s) == 0 {
        assert Value(init) == 0 && s[|s| - 1] == 0;
        assert AllZero(s) by {
          forall k | 0 <= k < |s| ensures s[k] == 0 {
            if k < |s| - 1 {
              assert s[k] == init[k];
            }
          }
        }
      }
    }
  }

  // ---------------------------------------------------------------------------
  // Facts about Trim (trim_leading_zeroes)

  /** Dropping leading zeros does not change the value. */
  lemma {:induction false} TrimValue(s: seq<int>)
    ensures Value(Trim(s)) == Value(s)
    decreases |s|
  {
    if |s| > 1 && s[0] == 0 {
      TrimValue(s[1..]);
      assert s == [0] + s[1..];
      ValueCons(0, s[1..]);
    }
  }

  /** Trim keeps a suffix and removes only zeros. */
  lemma {:induction false} TrimSuffix(s: seq<int>)
    ensures Trim(s) == s[|s| - |Trim(s)|..]
    ensures forall k :: 0 <= k < |s| - |Trim(s)| ==> s[k] == 0
    decreases |s|
  {
    if |s| > 1 && s[0] == 0 {
      TrimSuffix(s[1..]);
      assert s[1..][|s| - 1 - |Trim(s)|..] == s[|s| - |Trim(s)|..];
      forall k | 0 <= k < |s| - |Trim(s)| ensures s[k] == 0 {
        if k > 0 {
          assert s[k] == s[1..][k - 1];
        }
      }
    }
  }

  /** A non-empty digit list becomes canonical. */
  lemma TrimCanonical(s: seq<int>)
    requires IsDigits(s) && |s| >= 1
    ensures Canonical(Trim(s))
  {
    var r := Trim(s);
    TrimSuffix(s);
    var off := |s| - |r|;
    assert r == s[off..];
    forall k | 0 <= k < |r| ensures IsDigit(r[k]) {
      assert r[k] == s[off + k];
    }
  }

  /** Trimming twice is trimming once. */
  lemma TrimIdempotent(s: seq<int>)
    ensures Trim(Trim(s)) == Trim(s)
  {
  }

  /** A canonical list is left as it is. */
  lemma TrimOfCanonical(s: seq<int>)
    requires Canonical(s)
    ensures Trim(s) == s
  {
  }

  // ---------------------------------------------------------------------------
  // The canonical digits of a number

  /** The decimal digits of n, most significant first; a reference for the
      lists the engines produce. */
  function ToDigits(n: int): seq<int>
    decreases n
  {
    if n < 10 then [n] else ToDigits(n / 10) + [n % 10]
  }

  lemma {:induction false} ToDigitsCanonical(n: int)
    requires n >= 0
    ensures Canonical(ToDigits(n)) && Value(ToDigits(n)) == n
    decreases n
  {
    if n >= 10 {
      var rest := ToDigits(n / 10);
      ToDigitsCanonical(n / 10);
      ValueSnoc(rest, n % 10);
      assert |rest| == 1 ==> Value(rest) == rest[0] by {
        if |rest| == 1 {
          assert Value(rest) == 10 * Value([]) + rest[0];
        }
      }
      assert (rest + [n % 10])[0] == rest[0];
    } else {
      assert Value([n]) == 10 * Value([]) + n;
    }
  }

  lemma Pow10Order(m: nat, n: nat)
    ensures Pow10(m) < Pow10(n) ==> m < n
  {
    if n <= m {
      Pow10Monotone(n, m);
    }
  }

  /** A canonical list whose value is below 10^n has at most n digits. */
  lemma CanonicalLength(s: seq<int>, n: nat)
    requires Canonical(s) && n >= 1 && Value(s) < Pow10(n)
    ensures |s| <= n
  {
    if |s| > 1 {
      LeadingDigitLowerBound(s);
      Pow10Order(|s| - 1, n);
    }
  }

  /** A canonical list is exactly the digits of its value. */
  lemma CanonicalIsToDigits(s: seq<int>)
    requires Canonical(s)
    ensures s == ToDigits(Value(s))
  {
    ValueBounds(s);
    ToDigitsCanonical(Value(s));
    CanonicalUnique(s, ToDigits(Value(s)));
  }
}
