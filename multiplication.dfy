/** multiplication.c: long multiplication into a zero-filled accumulator
    array indexed by place value (index 0 is the ones place), a carry pass
    that reduces every place to one digit, a scan past leading zeros and the
    copy of the remaining places into the result list. */
module Multiplication {
  import opened Digits
  import opened Lists

  /** The number an accumulator denotes: sum of s[k] * 10^k (least significant first). */
  function LValue(s: seq<int>): int {
    if s == [] then 0 else s[0] + 10 * LValue(s[1..])
  }

  predicate NonNeg(s: seq<int>) {
    forall k :: 0 <= k < |s| ==> s[k] >= 0
  }

  /** Adding v at place k adds v * 10^k. */
  lemma {:induction false} LValueUpdate(s: seq<int>, k: nat, v: int)
    requires k < |s|
    ensures LValue(s[k := s[k] + v]) == LValue(s) + v * Pow10(k)
    decreases k
  {
    var t := s[k := s[k] + v];
    if k == 0 {
      assert t[1..] == s[1..];
    } else {
      assert t[1..] == s[1..][k - 1 := s[1..][k - 1] + v];
      LValueUpdate(s[1..], k - 1, v);
    }
  }

  /** The lower i places and the places from i on. */
  lemma {:induction false} LValueSplit(s: seq<int>, i: nat)
    requires i <= |s|
    ensures LValue(s) == LValue(s[..i]) + Pow10(i) * LValue(s[i..])
    decreases i
  {
    if i == 0 {
      assert s[..0] == [] && s[0..] == s;
    } else {
      LValueSplit(s[1..], i - 1);
      assert s[..i][1..] == s[1..][..i - 1];
      assert s[1..][i - 1..] == s[i..];
    }
  }

  lemma {:induction false} LValueZeros(s: seq<int>)
    requires AllZero(s)
    ensures LValue(s) == 0
    decreases |s|
  {
    if s != [] {
      LValueZeros(s[1..]);
    }
  }

  lemma {:induction false} LValueNonNeg(s: seq<int>)
    requires NonNeg(s)
    ensures LValue(s) >= 0
    decreases |s|
  {
    if s != [] {
      assert NonNeg(s[1..]);
      LValueNonNeg(s[1..]);
    }
  }

  /** The accumulator read from its top place down, as the result list holds it. */
  function Reversed(s: seq<int>): (r: seq<int>)
    ensures |r| == |s|
  {
    if s == [] then [] else Reversed(s[1..]) + [s[0]]
  }

  lemma {:induction false} ReversedAt(s: seq<int>, k: nat)
    requires k < |s|
    ensures Reversed(s)[k] == s[|s| - 1 - k]
    decreases |s|
  {
    if k < |s| - 1 {
      ReversedAt(s[1..], k);
    }
  }

  /** Read most significant first, the places denote the accumulator's number. */
  lemma {:induction false} ReversedValue(s: seq<int>)
    ensures Value(Reversed(s)) == LValue(s)
    decreases |s|
  {
    if s != [] {
      ReversedValue(s[1..]);
      ValueSnoc(Reversed(s[1..]), s[0]);
    }
  }

  /** The product of an m-digit and an n-digit number has at most m + n digits. */
  lemma ProductBound(a: seq<int>, b: seq<int>)
    requires IsDigits(a) && IsDigits(b)
    ensures 0 <= Value(a) * Value(b) < Pow10(|a| + |b|)
  {
    ValueBounds(a);
    ValueBounds(b);
    Pow10Add(|a|, |b|);
    MulStrictBound(Value(a), Value(b), Pow10(|a|), Pow10(|b|));
  }

  /** mul_number's result has at most len1 + len2 digits. */
  lemma ProductLength(a: seq<int>, b: seq<int>)
    requires IsDigits(a) && IsDigits(b) && |a| + |b| > 0
    ensures |ToDigits(Value(a) * Value(b))| <= |a| + |b|
  {
    ProductBound(a, b);
    ToDigitsCanonical(Value(a) * Value(b));
    CanonicalLength(ToDigits(Value(a) * Value(b)), |a| + |b|);
  }

  lemma MulStrictBound(x: int, y: int, px: int, py: int)
    requires 0 <= x < px && 0 <= y < py
    ensures 0 <= x * y < px * py
  {
    assert x * (py - y) >= 0;
    assert x * y <= x * py;
    assert (px - x) * py > 0;
  }

  /** One partial product of the nested loops keeps the accumulator at
      (rows done) * b + digit1 * 10^i * (columns done). */
  lemma MulCellStep(l: int, l': int, rows: int, d1: int, pi: int, w: int, d2: int, pj: int, pij: int, w': int)
    requires pij == pi * pj && w' == d2 * pj + w
    requires l == rows + d1 * pi * w && l' == l + d1 * d2 * pij
    ensures l' == rows + d1 * pi * w'
  {
    assert d1 * d2 * pij == d1 * pi * (d2 * pj);
    assert d1 * pi * w' == d1 * pi * (d2 * pj) + d1 * pi * w;
  }

  /** Arithmetic support for AddRowProducts, kept apart so the loop's proof
      has no product in it: a finished row adds digit1 * 10^i * b. */
  lemma MulRowStep(rows: int, d1: int, pi: int, vb: int, va: int)
    ensures rows * vb + d1 * pi * vb == (d1 * pi + rows) * vb
  {
  }

  /** One place of the carry pass: the place is reduced to its last digit and
      the rest moves one place up as the carry, so (places) + carry * 10^i
      keeps its value. */
  lemma CarryStep(s: seq<int>, i: nat, carry: int, total: int)
    requires i < |s| && LValue(s) + carry * Pow10(i) == total
    ensures var t := s[i] + carry;
            LValue(s[i := CMod(t, 10)]) + CDiv(t, 10) * Pow10(i + 1) == total
  {
    var t := s[i] + carry;
    var q, m := CDiv(t, 10), CMod(t, 10);
    LValueUpdate(s, i, m - s[i]);
    assert s[i := s[i] + (m - s[i])] == s[i := m];
    CarryArith(Pow10(i), m, q, carry, s[i]);
  }

  /** With no negative place, the carry pass leaves digits below place i + 1,
      non-negative places above it, and a non-negative carry. */
  lemma CarryKeepsDigits(s: seq<int>, i: nat, carry: int)
    requires i < |s| && CarryDigits(s, i, carry)
    ensures var t := s[i] + carry;
            CarryDigits(s[i := CMod(t, 10)], i + 1, CDiv(t, 10))
  {
    var s' := s[i := CMod(s[i] + carry, 10)];
    var low, high := s'[..i + 1], s'[i + 1..];
    assert s[i..][0] == s[i];
    forall k | 0 <= k < i + 1 ensures IsDigit(low[k]) {
      if k < i {
        assert low[k] == s[..i][k];
      }
    }
    forall k | 0 <= k < |high| ensures high[k] >= 0 {
      assert high[k] == s[i..][k + 1];
    }
  }

  lemma CarryArith(p: int, m: int, q: int, carry: int, d: int)
    requires d + carry == 10 * q + m
    ensures (m - d) * p + q * (10 * p) == carry * p
  {
    assert q * (10 * p) == (10 * q) * p;
    assert (m - d) * p + (10 * q) * p == (m - d + 10 * q) * p;
  }

  /** After the scan, the places from the first non-zero one down, read most
      significant first, are the canonical digits of the product. */
  lemma MulDigitsOut(s: seq<int>, top: nat, product: int)
    requires top < |s| && IsDigits(s)
    requires forall k :: top < k < |s| ==> s[k] == 0
    requires top > 0 ==> s[top] != 0
    requires LValue(s) == product
    ensures Reversed(s[..top + 1]) == ToDigits(product)
  {
    var low, high := s[..top + 1], s[top + 1..];
    LValueSplit(s, top + 1);
    forall k | 0 <= k < |high| ensures high[k] == 0 {
      assert high[k] == s[top + 1 + k];
    }
    LValueZeros(high);
    assert LValue(low) == product;
    forall k | 0 <= k < |low| ensures IsDigit(low[k]) {
      assert low[k] == s[k];
    }
    assert low[|low| - 1] == s[top];
    ReversedCanonical(low);
    ReversedValue(low);
    ValueBounds(Reversed(low));
    ToDigitsCanonical(product);
    CanonicalUnique(Reversed(low), ToDigits(product));
  }

  /** Digits whose most significant place is not a zero (unless it is the only
      one) read back to front are canonical. */
  lemma ReversedCanonical(low: seq<int>)
    requires low != [] && IsDigits(low)
    requires |low| > 1 ==> low[|low| - 1] != 0
    ensures Canonical(Reversed(low))
  {
    var r := Reversed(low);
    forall k | 0 <= k < |r| ensures IsDigit(r[k]) {
      ReversedAt(low, k);
    }
    ReversedAt(low, 0);
  }

  /** One pass of mul_number's inner loop: row i (digit i of a, counted from
      the tail) times every digit of b, each product added at place i + j. */
  method AddRowProducts(a: DList, b: DList, acc: array<int>, i: int)
    requires 0 <= i < |a.digits| && acc.Length == |a.digits| + |b.digits|
    modifies acc
    ensures LValue(acc[..]) == LValue(old(acc[..]))
              + a.digits[|a.digits| - 1 - i] * Pow10(i) * Value(b.digits)
    ensures IsDigits(a.digits) && IsDigits(b.digits) && NonNeg(old(acc[..])) ==> NonNeg(acc[..])
  {
    ghost var start := LValue(acc[..]);
    ghost var y := b.digits;
    var digit1 := a.digits[|a.digits| - 1 - i];
    ghost var nonneg := IsDigits(a.digits) && IsDigits(b.digits) && NonNeg(acc[..]);
    if nonneg {
      assert IsDigit(digit1);
    }
    var len2 := |b.digits|;
    var j := 0;
    assert y[len2 - 0..] == [];
    while j < len2
      invariant 0 <= j <= len2 && b.digits == y
      invariant LValue(acc[..]) == start + digit1 * Pow10(i) * Value(y[len2 - j..])
      invariant nonneg ==> NonNeg(acc[..])
    {
      ghost var s := acc[..];
      var digit2 := b.digits[len2 - 1 - j];
      RowCellStep(s, start, i, j, digit1, y);
      acc[i + j] := acc[i + j] + digit1 * digit2;
      assert acc[..] == s[i + j := s[i + j] + digit1 * digit2];
      if nonneg {
        CellNonNeg(s, acc[..], i + j, digit1, digit2);
      }
      j := j + 1;
    }
    assert y[len2 - j..] == y;
  }

  /** One cell of a row: adding digit1 * digit2 at place i + j extends the
      row's partial product by one more digit of b. */
  lemma RowCellStep(s: seq<int>, start: int, i: nat, j: nat, d1: int, y: seq<int>)
    requires j < |y| && i + j < |s|
    requires LValue(s) == start + d1 * Pow10(i) * Value(y[|y| - j..])
    ensures LValue(s[i + j := s[i + j] + d1 * y[|y| - 1 - j]])
            == start + d1 * Pow10(i) * Value(y[|y| - (j + 1)..])
  {
    var d2 := y[|y| - 1 - j];
    LValueUpdate(s, i + j, d1 * d2);
    Pow10Add(i, j);
    ValueSuffixStep(y, j);
    MulCellStep(LValue(s), LValue(s[i + j := s[i + j] + d1 * d2]), start, d1, Pow10(i),
                Value(y[|y| - j..]), d2, Pow10(j), Pow10(i + j), Value(y[|y| - (j + 1)..]));
  }

  /** Adding a product of digits keeps every cell non-negative. */
  lemma CellNonNeg(s: seq<int>, t: seq<int>, k: nat, d1: int, d2: int)
    requires k < |s| && NonNeg(s) && IsDigit(d1) && IsDigit(d2)
    requires t == s[k := s[k] + d1 * d2]
    ensures NonNeg(t)
  {
    assert d1 * d2 >= 0;
  }

  /** mul_number's nested loops: the accumulator ends up denoting a * b. */
  method AccumulateProducts(a: DList, b: DList, acc: array<int>)
    requires acc.Length == |a.digits| + |b.digits| && AllZero(acc[..])
    modifies acc
    ensures LValue(acc[..]) == Value(a.digits) * Value(b.digits)
    ensures IsDigits(a.digits) && IsDigits(b.digits) ==> NonNeg(acc[..])
  {
    ghost var x, y := a.digits, b.digits;
    LValueZeros(acc[..]);
    var len1 := |a.digits|;
    var i := 0;
    assert x[len1 - 0..] == [];
    while i < len1
      invariant 0 <= i <= len1
      invariant LValue(acc[..]) == Value(x[len1 - i..]) * Value(y)
      invariant IsDigits(x) && IsDigits(y) ==> NonNeg(acc[..])
    {
      AddRowProducts(a, b, acc, i);
      ValueSuffixStep(x, i);
      MulRowStep(Value(x[len1 - i..]), x[len1 - 1 - i], Pow10(i), Value(y), Value(x));
      i := i + 1;
    }
    assert x[len1 - i..] == x;
  }

  /** mul_number's carry pass: every place is reduced to its C remainder by
      10 and the C quotient carried to the next place. The accumulator's
      number is kept, counting the carry out of the top place. */
  method PropagateCarries(acc: array<int>) returns (carry: int)
    modifies acc
    ensures LValue(acc[..]) + Pow10(acc.Length) * carry == LValue(old(acc[..]))
    ensures NonNeg(old(acc[..])) ==> IsDigits(acc[..]) && carry >= 0
  {
    ghost var total := LValue(acc[..]);
    ghost var nonneg := NonNeg(acc[..]);
    carry := 0;
    var i := 0;
    assert acc[..][..0] == [] && acc[..][0..] == acc[..];
    while i < acc.Length
      invariant 0 <= i <= acc.Length
      invariant LValue(acc[..]) + carry * Pow10(i) == total
      invariant nonneg ==> CarryDigits(acc[..], i, carry)
    {
      ghost var s, c := acc[..], carry;
      CarryStep(s, i, c, total);
      if nonneg {
        CarryKeepsDigits(s, i, c);
      }
      acc[i] := acc[i] + carry;
      carry := CDiv(acc[i], 10);
      acc[i] := CMod(acc[i], 10);
      assert acc[..] == s[i := CMod(s[i] + c, 10)];
      i := i + 1;
    }
    CarryDone(acc[..], carry, nonneg);
  }

  /** The carry pass's shape invariant for non-negative cells. */
  ghost predicate CarryDigits(s: seq<int>, i: nat, carry: int)
    requires i <= |s|
  {
    carry >= 0 && IsDigits(s[..i]) && NonNeg(s[i..])
  }

  /** When every place is settled, the invariants are the carry pass's
      contract. */
  lemma CarryDone(s: seq<int>, carry: int, nonneg: bool)
    requires nonneg ==> CarryDigits(s, |s|, carry)
    ensures nonneg ==> IsDigits(s) && carry >= 0
  {
    assert s[..|s|] == s && s[|s|..] == [];
  }

  /** mul_number's scan for the most significant non-zero place, which stops
      at place 0 (or at -1 for an empty accumulator). */
  method FirstDigitIndex(acc: array<int>) returns (f: int)
    ensures -1 <= f < acc.Length && (acc.Length > 0 ==> f >= 0)
    ensures forall k :: f < k < acc.Length ==> acc[k] == 0
    ensures f > 0 ==> acc[f] != 0
  {
    f := acc.Length - 1;
    while f > 0 && acc[f] == 0
      invariant -1 <= f < acc.Length && (acc.Length > 0 ==> f >= 0)
      invariant forall k :: f < k < acc.Length ==> acc[k] == 0
      decreases f
    {
      f := f - 1;
    }
  }

  /** mul_number's final loop: places f down to 0 are appended to r. */
  method AppendPlaces(acc: array<int>, f: int, r: DList)
    requires -1 <= f < acc.Length
    modifies r
    ensures r.digits == old(r.digits) + Reversed(acc[..f + 1])
  {
    ghost var r0 := r.digits;
    var k := f;
    while k >= 0
      invariant -1 <= k <= f
      invariant r.digits == r0 + Reversed(acc[k + 1..f + 1])
    {
      assert acc[k..f + 1][1..] == acc[k + 1..f + 1];
      var inserted := r.InsertLast(acc[k]);
      k := k - 1;
    }
    assert acc[0..f + 1] == acc[..f + 1];
  }

  /** mul_number: accumulates every digit product at the sum of the two places,
      propagates carries place by place, skips the top zero places (keeping
      place 0) and appends the remaining places, most significant first. For
      digit lists that is the canonical product; with two NULL operands
      nothing is appended. */
  method MulNumber(a: DList, b: DList, r: DList) returns (status: int)
    modifies r
    ensures status == SUCCESS
    ensures |old(a.digits)| + |old(b.digits)| == 0 ==> r.digits == old(r.digits)
    ensures IsDigits(old(a.digits)) && IsDigits(old(b.digits)) && |old(a.digits)| + |old(b.digits)| > 0 ==>
              r.digits == old(r.digits) + ToDigits(Value(old(a.digits)) * Value(old(b.digits)))
  {
    ghost var x, y := a.digits, b.digits;
    var len1 := a.Length();
    var len2 := b.Length();
    var acc := new int[len1 + len2](_ => 0);
    assert AllZero(acc[..]);
    AccumulateProducts(a, b, acc);
    var carry := PropagateCarries(acc);
    if IsDigits(x) && IsDigits(y) {
      ProductBound(x, y);
      LValueNonNeg(acc[..]);
      NoCarryOut(LValue(acc[..]), Pow10(acc.Length), carry);
    }
    var firstDigitIndex := FirstDigitIndex(acc);
    AppendPlaces(acc, firstDigitIndex, r);
    if IsDigits(x) && IsDigits(y) && acc.Length > 0 {
      MulDigitsOut(acc[..], firstDigitIndex, Value(x) * Value(y));
    }
    status := SUCCESS;
  }

  /** A non-negative carry out of the top place would exceed the bound. */
  lemma NoCarryOut(low: int, p: int, carry: int)
    requires p >= 1 && low >= 0 && carry >= 0
    ensures low + p * carry < p ==> carry == 0
  {
    if carry > 0 {
      assert p * carry == p + p * (carry - 1);
      assert p * (carry - 1) >= 0;
    }
  }
}
