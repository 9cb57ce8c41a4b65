/** Subtraction.c: the magnitude comparison that orders the operands (and
    swaps them when the first is smaller), the operand swap, and column
    subtraction with borrow followed by leading-zero trimming. */
module Subtraction {
  import opened Digits
  import opened Lists

  // ---------------------------------------------------------------------------
  // compare_numbers

  /** The digit-by-digit test compare_numbers makes on lists of equal length:
      the first position where they differ decides. */
  function LexLess(a: seq<int>, b: seq<int>): bool
    decreases |a|
  {
    if a == [] || b == [] then false
    else if a[0] < b[0] then true
    else if a[0] > b[0] then false
    else LexLess(a[1..], b[1..])
  }

  /** compare_numbers' verdict "the first number is smaller": it is shorter, or
      as long and smaller at the first differing digit. */
  predicate Less(a: seq<int>, b: seq<int>) {
    |a| < |b| || (|a| == |b| && LexLess(a, b))
  }

  /** On digit lists of one length the digit-by-digit test is the order of values. */
  lemma {:induction false} LexLessValue(a: seq<int>, b: seq<int>)
    requires IsDigits(a) && IsDigits(b) && |a| == |b|
    ensures LexLess(a, b) <==> Value(a) < Value(b)
    decreases |a|
  {
    if a != [] {
      var p := Pow10(|a| - 1);
      assert a == [a[0]] + a[1..] && b == [b[0]] + b[1..];
      ValueCons(a[0], a[1..]);
      ValueCons(b[0], b[1..]);
      ValueBounds(a[1..]);
      ValueBounds(b[1..]);
      if a[0] < b[0] {
        DigitPlaceOrder(a[0], b[0], p, Value(a[1..]), Value(b[1..]));
      } else if a[0] > b[0] {
        DigitPlaceOrder(b[0], a[0], p, Value(b[1..]), Value(a[1..]));
      } else {
        LexLessValue(a[1..], b[1..]);
      }
    }
  }

  /** A smaller leading digit makes a smaller number, whatever follows it. */
  lemma DigitPlaceOrder(x: int, y: int, p: int, u: int, v: int)
    requires x < y && p >= 1 && 0 <= u < p && 0 <= v < p
    ensures x * p + u < y * p + v
  {
    var d := y - x - 1;
    assert d * p >= 0;
    assert y * p == x * p + p + d * p;
  }

  /** On canonical numbers compare_numbers' verdict is the order of values. */
  lemma LessIffValueLess(a: seq<int>, b: seq<int>)
    requires Canonical(a) && Canonical(b)
    ensures Less(a, b) <==> Value(a) < Value(b)
  {
    if |a| < |b| {
      Pow10Monotone(|a|, |b| - 1);
      ValueBounds(a);
      LeadingDigitLowerBound(b);
    } else if |b| < |a| {
      Pow10Monotone(|b|, |a| - 1);
      ValueBounds(b);
      LeadingDigitLowerBound(a);
    } else {
      LexLessValue(a, b);
    }
  }

  /** swap_lists: the two (head, tail) pairs trade places. */
  method SwapLists(l1: DList, l2: DList)
    modifies l1, l2
    ensures l1.digits == old(l2.digits) && l2.digits == old(l1.digits)
  {
    var temp := l1.digits;
    l1.digits := l2.digits;
    l2.digits := temp;
  }

  /** compare_numbers: reports whether the first number is smaller and, if so,
      swaps the operands so that the larger one comes first. */
  method CompareNumbers(l1: DList, l2: DList) returns (swapped: bool)
    modifies l1, l2
    ensures swapped <==> Less(old(l1.digits), old(l2.digits))
    ensures swapped ==> l1.digits == old(l2.digits) && l2.digits == old(l1.digits)
    ensures !swapped ==> l1.digits == old(l1.digits) && l2.digits == old(l2.digits)
  {
    var len1 := l1.Length();
    var len2 := l2.Length();
    if len1 < len2 {
      SwapLists(l1, l2);
      return true;
    } else if len1 > len2 {
      return false;
    }
    ghost var x, y := l1.digits, l2.digits;
    var k := 0;
    while k < |l1.digits| && k < |l2.digits|
      invariant l1.digits == x && l2.digits == y
      invariant 0 <= k <= |x| == |y|
      invariant LexLess(x, y) == LexLess(x[k..], y[k..])
    {
      LexLessStep(x, y, k);
      if l1.digits[k] < l2.digits[k] {
        SwapLists(l1, l2);
        return true;
      } else if l1.digits[k] > l2.digits[k] {
        return false;
      }
      k := k + 1;
    }
    swapped := false;
  }

  /** One step of compare_numbers' digit loop. */
  lemma LexLessStep(a: seq<int>, b: seq<int>, k: nat)
    requires k < |a| && k < |b|
    ensures LexLess(a[k..], b[k..])
            == if a[k] < b[k] then true
               else if a[k] > b[k] then false
               else LexLess(a[k + 1..], b[k + 1..])
  {
    assert a[k..][1..] == a[k + 1..] && b[k..][1..] == b[k + 1..];
  }

  // ---------------------------------------------------------------------------
  // sub_number

  /** One column of sub_number: a pending borrow of 1 is taken from the first
      digit, then 10 is borrowed when it is below the second digit. The result
      is (digit written, borrow for the next column). */
  function SubStep(digit1: int, digit2: int, borrow: int): (step: (int, int))
    ensures step.0 - 10 * step.1 == digit1 - digit2 - (if borrow == 1 then 1 else 0)
    ensures step.1 == 0 || step.1 == 1
    ensures IsDigit(digit1) && IsDigit(digit2) ==> IsDigit(step.0)
  {
    var d1 := if borrow == 1 then digit1 - 1 else digit1;
    if d1 < digit2 then (d1 + 10 - digit2, 1) else (d1 - digit2, 0)
  }

  /** The body of sub_number's column loop: the pending borrow is taken from
      the first digit, then 10 is borrowed if it is below the second. */
  method SubtractColumn(digit1: int, digit2: int, borrow: int) returns (resultDigit: int, borrowOut: int)
    requires borrow == 0 || borrow == 1
    ensures (resultDigit, borrowOut) == SubStep(digit1, digit2, borrow)
  {
    var d1 := digit1;
    borrowOut := borrow;
    if borrowOut == 1 {
      d1 := d1 - 1;
      borrowOut := 0;
    }
    if d1 < digit2 {
      d1 := d1 + 10;
      borrowOut := 1;
    }
    resultDigit := d1 - digit2;
  }

  /** The digits sub_number writes for the columns of a (minuend) and b, from
      their last digits with an incoming borrow; columns stop with a, and the
      final borrow is dropped. */
  function SubColumns(a: seq<int>, b: seq<int>, borrow: int): (r: seq<int>)
    ensures |r| == |a|
    decreases |a|
  {
    if a == [] then []
    else
      var step := SubStep(a[|a| - 1], LastOr0(b), borrow);
      SubColumns(DropLast(a), DropLast(b), step.1) + [step.0]
  }

  /** Subtracting digit lists gives digit lists. */
  lemma {:induction false} SubColumnsDigits(a: seq<int>, b: seq<int>, borrow: int)
    requires IsDigits(a) && IsDigits(b)
    ensures IsDigits(SubColumns(a, b, borrow))
    decreases |a|
  {
    if a != [] {
      var step := SubStep(a[|a| - 1], LastOr0(b), borrow);
      assert IsDigits(DropLast(a)) && IsDigits(DropLast(b));
      SubColumnsDigits(DropLast(a), DropLast(b), step.1);
    }
  }

  /** When the minuend is at least as long and the difference is not negative,
      the columns denote the difference. */
  lemma {:induction false} SubColumnsValue(a: seq<int>, b: seq<int>, borrow: int)
    requires IsDigits(a) && IsDigits(b) && |b| <= |a| && (borrow == 0 || borrow == 1)
    requires Value(a) >= Value(b) + borrow
    ensures Value(SubColumns(a, b, borrow)) == Value(a) - Value(b) - borrow
    decreases |a|
  {
    if a != [] {
      var step := SubStep(a[|a| - 1], LastOr0(b), borrow);
      var a', b' := DropLast(a), DropLast(b);
      ValueSplit(a);
      ValueSplit(b);
      assert IsDigits(a') && IsDigits(b') && IsDigit(LastOr0(b));
      assert 10 * (Value(a') - Value(b') - step.1) + step.0 == Value(a) - Value(b) - borrow;
      SubColumnsValue(a', b', step.1);
      ValueSnoc(SubColumns(a', b', step.1), step.0);
    }
  }

  /** The operands in the order sub_number subtracts them: larger magnitude first. */
  function Ordered(x: seq<int>, y: seq<int>): (pair: (seq<int>, seq<int>)) {
    if Less(x, y) then (y, x) else (x, y)
  }

  /** What sub_number leaves in an empty result for canonical operands: the
      canonical magnitude of their difference. */
  lemma SubMagnitude(x: seq<int>, y: seq<int>)
    requires Canonical(x) && Canonical(y)
    ensures var (a, b) := Ordered(x, y);
            var r := Trim(SubColumns(a, b, 0));
            Canonical(r) && Value(r) == if Value(x) < Value(y) then Value(y) - Value(x) else Value(x) - Value(y)
  {
    var (a, b) := Ordered(x, y);
    LessIffValueLess(x, y);
    LessIffValueLess(y, x);
    assert |b| <= |a| && Value(a) >= Value(b);
    SubColumnsDigits(a, b, 0);
    SubColumnsValue(a, b, 0);
    var s := SubColumns(a, b, 0);
    TrimValue(s);
    TrimCanonical(s);
  }

  /** sub_number: orders the operands (swapping them in place when the first is
      smaller), writes a - b column by column at the head of r, trims r's
      leading zeros and reports whether the operands were swapped. */
  method SubNumber(a: DList, b: DList, r: DList) returns (isNegative: bool)
    requires r != a && r != b
    modifies a, b, r
    ensures isNegative <==> Less(old(a.digits), old(b.digits))
    ensures (a.digits, b.digits) == Ordered(old(a.digits), old(b.digits))
    ensures r.digits == Trim(SubColumns(a.digits, b.digits, 0) + old(r.digits))
  {
    isNegative := CompareNumbers(a, b);
    ghost var x0, y0 := a.digits, b.digits;
    ghost var target := SubColumns(x0, y0, 0) + r.digits;
    var i, j := |a.digits|, |b.digits|;
    assert x0[..i] == x0 && y0[..j] == y0;
    var borrow := 0;
    while i > 0
      invariant a.digits == x0 && b.digits == y0
      invariant 0 <= i <= |x0| && 0 <= j <= |y0| && (borrow == 0 || borrow == 1)
      invariant SubColumns(x0[..i], y0[..j], borrow) + r.digits == target
    {
      ghost var x, y, w, rest := x0[..i], y0[..j], borrow, r.digits;
      CursorStep(x0, i);
      CursorStep(y0, j);
      var digit2 := if j > 0 then b.digits[j - 1] else 0;
      var resultDigit;
      resultDigit, borrow := SubtractColumn(a.digits[i - 1], digit2, borrow);
      var inserted := r.InsertFirst(resultDigit);
      SubColumnsPeel(x, y, w, rest);
      i := i - 1;
      if j > 0 {
        j := j - 1;
      }
      assert x0[..i] == DropLast(x) && y0[..j] == DropLast(y);
    }
    assert x0[..i] == [];
    assert r.digits == target;
    r.TrimLeadingZeroes();
  }

  /** One column of sub_number: its digit goes in front of what the later
      columns already wrote. */
  lemma SubColumnsPeel(a: seq<int>, b: seq<int>, borrow: int, rest: seq<int>)
    requires a != []
    ensures var step := SubStep(a[|a| - 1], LastOr0(b), borrow);
            SubColumns(a, b, borrow) + rest
            == SubColumns(DropLast(a), DropLast(b), step.1) + ([step.0] + rest)
  {
  }
}
