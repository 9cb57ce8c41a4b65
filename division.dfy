/** division.c: the non-destructive comparison, list copy and trimmed
    subtraction helpers, and long division by repeated subtraction, one
    dividend digit brought down at a time. */
module Division {
  import opened Digits
  import opened Lists
  import opened Subtraction

  /** is_greater_or_equal: the first number is longer, or as long and not
      smaller at the first differing digit (equal lists count as greater or
      equal). Neither list is changed. */
  method IsGreaterOrEqual(l1: DList, l2: DList) returns (ge: bool)
    ensures ge <==> !Less(l1.digits, l2.digits)
  {
    var len1 := l1.Length();
    var len2 := l2.Length();
    if len1 > len2 {
      return true;
    }
    if len1 < len2 {
      return false;
    }
    var k := 0;
    while k < |l1.digits| && k < |l2.digits|
      invariant 0 <= k <= |l1.digits| == |l2.digits|
      invariant LexLess(l1.digits, l2.digits) == LexLess(l1.digits[k..], l2.digits[k..])
    {
      LexLessStep(l1.digits, l2.digits, k);
      if l1.digits[k] > l2.digits[k] {
        return true;
      }
      if l1.digits[k] < l2.digits[k] {
        return false;
      }
      k := k + 1;
    }
    ge := true;
  }

  /** copy_list: dest becomes a node-by-node copy of src (dest is reset first;
      src is read from its own head, so a copy onto itself keeps the digits). */
  method CopyList(src: DList, dest: DList)
    modifies dest
    ensures dest.digits == old(src.digits)
  {
    var s := src.digits;
    dest.digits := [];
    if s == [] {
      return;
    }
    var k := 0;
    while k < |s|
      invariant 0 <= k <= |s|
      invariant dest.digits == s[..k]
    {
      assert s[..k + 1] == s[..k] + [s[k]];
      var inserted := dest.InsertLast(s[k]);
      k := k + 1;
    }
    assert s[..k] == s;
  }

  /** subtract_lists: result is cleared, then receives l1 - l2 column by
      column and is trimmed. */
  method SubtractLists(l1: DList, l2: DList, result: DList)
    requires result != l1 && result != l2
    modifies result
    ensures result.digits == Trim(SubColumns(l1.digits, l2.digits, 0))
  {
    var cleared := result.DeleteList();
    ghost var x0, y0 := l1.digits, l2.digits;
    ghost var target := SubColumns(x0, y0, 0);
    var i, j := |l1.digits|, |l2.digits|;
    assert x0[..i] == x0 && y0[..j] == y0;
    var borrow := 0;
    while i > 0
      invariant 0 <= i <= |x0| && 0 <= j <= |y0|
      invariant borrow == 0 || borrow == 1
      invariant SubColumns(x0[..i], y0[..j], borrow) + result.digits == target
    {
      ghost var x, y, w, rest := x0[..i], y0[..j], borrow, result.digits;
      CursorStep(x0, i);
      CursorStep(y0, j);
      ghost var step := SubStep(x0[i - 1], LastOr0(y), w);
      var digit1 := l1.digits[i - 1];
      var digit2 := if j > 0 then l2.digits[j - 1] else 0;
      if borrow != 0 {
        digit1 := digit1 - 1;
        borrow := 0;
      }
      if digit1 < digit2 {
        digit1 := digit1 + 10;
        borrow := 1;
      }
      var resDigit := digit1 - digit2;
      assert resDigit == step.0 && borrow == step.1;
      var inserted := result.InsertFirst(resDigit);
      SubColumnsPeel(x, y, w, rest);
      i := i - 1;
      if j > 0 {
        j := j - 1;
      }
      assert x0[..i] == DropLast(x) && y0[..j] == DropLast(y);
    }
    assert x0[..i] == [];
    assert result.digits == target;
    result.TrimLeadingZeroes();
  }

  /** Subtracting a canonical number from a canonical number that is not
      smaller gives the canonical difference. */
  lemma SubCanonical(a: seq<int>, b: seq<int>)
    requires Canonical(a) && Canonical(b) && Value(a) >= Value(b)
    ensures Canonical(Trim(SubColumns(a, b, 0)))
    ensures Value(Trim(SubColumns(a, b, 0))) == Value(a) - Value(b)
  {
    LessIffValueLess(a, b);
    SubColumnsDigits(a, b, 0);
    SubColumnsValue(a, b, 0);
    TrimValue(SubColumns(a, b, 0));
    TrimCanonical(SubColumns(a, b, 0));
  }

  /** A digit list that compare_numbers calls smaller than a non-zero
      canonical one denotes a smaller number. */
  lemma LessImpliesValueLess(a: seq<int>, b: seq<int>)
    requires IsDigits(a) && Canonical(b) && Value(b) != 0
    requires Less(a, b)
    ensures Value(a) < Value(b)
  {
    if |a| < |b| {
      ValueBounds(a);
      if |b| > 1 {
        Pow10Monotone(|a|, |b| - 1);
        LeadingDigitLowerBound(b);
      } else {
        assert a == [];
        ValueBounds(b);
      }
    } else {
      LexLessValue(a, b);
    }
  }

  /** Quotient and remainder are determined by the division identity. */
  lemma DivModUnique(n: int, d: int, q: int, r: int)
    requires d > 0 && 0 <= r < d && n == q * d + r
    ensures q == n / d && r == n % d
  {
    SameQuotient(d, q, r, n / d, n % d);
  }

  /** Two quotient-remainder pairs of one number agree. */
  lemma SameQuotient(d: int, q: int, r: int, q': int, r': int)
    requires d > 0 && 0 <= r < d && 0 <= r' < d
    requires q * d + r == q' * d + r'
    ensures q == q'
  {
    MulSign(q - q', d);
    assert (q - q') * d == r' - r;
  }

  /** A non-zero multiple of d is at least d away from 0. */
  lemma MulSign(k: int, d: int)
    requires d > 0
    ensures k >= 1 ==> k * d >= d
    ensures k <= -1 ==> k * d <= -d
  {
    assert k * d == d + (k - 1) * d;
    assert k * d == -d + (k + 1) * d;
  }

  /** Arithmetic support for SubtractWhileFits, kept apart so the loop's proof
      has no product in it: one more subtraction adds one divisor to the
      count's multiple. */
  lemma MulSucc(count: int, vb: int)
    ensures (count + 1) * vb == count * vb + vb
  {
  }

  /** One bring-down step of long division keeps the division identity for
      the dividend digits read so far. */
  lemma BringDown(prefix: seq<int>, d: int, qd: seq<int>, vb: int, vp: int, count: int, vp': int)
    requires Value(prefix) == Value(qd) * vb + vp
    requires vp' == 10 * vp + d - count * vb
    ensures Value(prefix + [d]) == Value(qd + [count]) * vb + vp'
  {
    ValueSnoc(prefix, d);
    ValueSnoc(qd, count);
    BringDownArith(Value(prefix), Value(qd), Value(prefix + [d]), Value(qd + [count]), vb, vp, count, d, vp');
  }

  /** The arithmetic of one bring-down step. */
  lemma BringDownArith(p: int, q: int, p': int, q': int, vb: int, vp: int, count: int, d: int, vp': int)
    requires p == q * vb + vp && vp' == 10 * vp + d - count * vb
    requires p' == 10 * p + d && q' == 10 * q + count
    ensures p' == q' * vb + vp'
  {
    assert (10 * q + count) * vb == 10 * (q * vb) + count * vb;
  }

  /** The count of subtractions is a single digit when the partial remainder
      was below ten times the divisor. */
  lemma QuotientDigitBound(count: int, vb: int, rest: int, total: int)
    requires vb > 0 && count >= 0 && rest >= 0
    requires total == count * vb + rest && total < 10 * vb
    ensures count <= 9
  {
    MulSign(count - 9, vb);
    assert count * vb == 9 * vb + (count - 9) * vb;
  }

  /** div_number's inner loop (one quotient digit): the divisor is subtracted
      from the partial remainder while it is not smaller, through a temporary
      list that is copied back each time; the count of subtractions is
      returned. */
  method SubtractWhileFits(partial: DList, b: DList) returns (quotientDigit: int)
    requires partial != b
    requires Canonical(partial.digits) && Canonical(b.digits) && Value(b.digits) > 0
    modifies partial
    ensures Canonical(partial.digits) && quotientDigit >= 0
    ensures Value(old(partial.digits)) == quotientDigit * Value(b.digits) + Value(partial.digits)
    ensures Value(partial.digits) < Value(b.digits)
  {
    ghost var start := Value(partial.digits);
    ghost var y, vb := b.digits, Value(b.digits);
    quotientDigit := 0;
    var temp := new DList();
    var fits := IsGreaterOrEqual(partial, b);
    LessIffValueLess(partial.digits, b.digits);
    while fits
      invariant b.digits == y && temp != partial && temp != b
      invariant Canonical(partial.digits) && quotientDigit >= 0
      invariant start == quotientDigit * vb + Value(partial.digits)
      invariant fits <==> Value(partial.digits) >= vb
      decreases Value(partial.digits)
    {
      ghost var before, count := Value(partial.digits), quotientDigit;
      SubtractLists(partial, b, temp);
      SubCanonical(partial.digits, b.digits);
      var cleared := partial.DeleteList();
      CopyList(temp, partial);
      quotientDigit := quotientDigit + 1;
      cleared := temp.DeleteList();
      assert Value(partial.digits) == before - vb;
      MulSucc(count, vb);
      ValueBounds(partial.digits);
      fits := IsGreaterOrEqual(partial, b);
      LessIffValueLess(partial.digits, b.digits);
    }
  }

  /** div_number's main loop: each dividend digit is appended to the partial
      remainder, which is trimmed; the quotient digit is 0 when the partial is
      smaller than the divisor and otherwise the number of subtractions that
      fit. Afterwards dividend = quotient digits * divisor + partial, with the
      partial below the divisor. */
  method BringDownDigits(a: DList, b: DList, q: DList, partial: DList)
    requires q != a && q != b && partial != a && partial != b && partial != q
    requires IsDigits(a.digits) && Canonical(b.digits) && Value(b.digits) > 0
    requires q.digits == [] && partial.digits == []
    modifies q, partial
    ensures |q.digits| == |a.digits| && IsDigits(q.digits)
    ensures Value(a.digits) == Value(q.digits) * Value(b.digits) + Value(partial.digits)
    ensures Value(partial.digits) < Value(b.digits)
    ensures a.digits != [] ==> Canonical(partial.digits)
  {
    ghost var x, vb := a.digits, Value(b.digits);
    var k := 0;
    assert x[..0] == [];
    while k < |a.digits|
      invariant a.digits == x && 0 <= k <= |x|
      invariant |q.digits| == k && IsDigits(q.digits)
      invariant Value(x[..k]) == Value(q.digits) * vb + Value(partial.digits)
      invariant 0 <= Value(partial.digits) < vb
      invariant partial.digits == [] || Canonical(partial.digits)
      invariant k > 0 ==> partial.digits != []
    {
      ghost var qd, p := q.digits, partial.digits;
      ghost var vp := Value(p);
      assert IsDigit(x[k]);
      var inserted := partial.InsertLast(a.digits[k]);
      partial.TrimLeadingZeroes();
      ValueSnoc(p, x[k]);
      DigitsSnoc(p, x[k]);
      TrimCanonical(p + [x[k]]);
      ghost var total := Value(partial.digits);
      assert total == 10 * vp + x[k];
      assert total < 10 * vb;
      var fits := IsGreaterOrEqual(partial, b);
      LessIffValueLess(partial.digits, b.digits);
      var quotientDigit := 0;
      if fits {
        quotientDigit := SubtractWhileFits(partial, b);
        ValueBounds(partial.digits);
        QuotientDigitBound(quotientDigit, vb, Value(partial.digits), total);
      }
      DigitsSnoc(qd, quotientDigit);
      inserted := q.InsertLast(quotientDigit);
      PrefixSnoc(x, k);
      BringDown(x[..k], x[k], qd, vb, vp, quotientDigit, Value(partial.digits));
      k := k + 1;
    }
    assert x[..k] == x;
  }

  /** div_number: FAILURE for a NULL or single-zero divisor, leaving quotient
      and remainder untouched. Otherwise quotient and remainder are cleared;
      a dividend that compares smaller than the divisor gives quotient 0 (a
      copy of the dividend for '%') and the dividend as remainder; else the
      digits are brought down one by one, the quotient and remainder are
      trimmed, and for '%' the quotient list is replaced by the remainder. */
  method DivNumber(a: DList, b: DList, q: DList, rem: DList, ch: char) returns (status: int)
    requires q != a && q != b && rem != a && rem != b && q != rem
    requires IsDigits(a.digits) && (b.digits == [] || Canonical(b.digits))
    modifies q, rem
    ensures status == FAILURE <==> b.digits == [] || b.digits == [0]
    ensures status == SUCCESS || status == FAILURE
    ensures status == SUCCESS ==> Value(b.digits) > 0
    ensures status == FAILURE ==> q.digits == old(q.digits) && rem.digits == old(rem.digits)
    ensures status == SUCCESS ==>
              IsDigits(rem.digits) && Value(rem.digits) == Value(a.digits) % Value(b.digits)
    ensures status == SUCCESS && Less(a.digits, b.digits) ==> rem.digits == a.digits
    ensures status == SUCCESS && !Less(a.digits, b.digits) ==>
              rem.digits == ToDigits(Value(a.digits) % Value(b.digits))
    ensures status == SUCCESS && Canonical(a.digits) ==>
              rem.digits == ToDigits(Value(a.digits) % Value(b.digits))
    ensures status == SUCCESS && ch != '%' ==>
              q.digits == ToDigits(Value(a.digits) / Value(b.digits))
    ensures status == SUCCESS && ch == '%' ==> q.digits == rem.digits
  {
    if b.digits == [] || (b.digits[0] == 0 && |b.digits| == 1) {
      assert b.digits != [] ==> b.digits == [0];
      return FAILURE;
    }
    ghost var x, vb := a.digits, Value(b.digits);
    ValueBounds(b.digits);
    if vb == 0 {
      CanonicalZero(b.digits);
    }
    var cleared := q.DeleteList();
    cleared := rem.DeleteList();

    var ge := IsGreaterOrEqual(a, b);
    if !ge {
      LessImpliesValueLess(x, b.digits);
      ValueBounds(x);
      DivModUnique(Value(x), vb, 0, Value(x));
      if ch == '%' {
        CopyList(a, q);
      } else {
        var inserted := q.InsertLast(0);
        assert Value([0]) == 0;
      }
      CopyList(a, rem);
      if Canonical(x) {
        CanonicalIsToDigits(x);
      }
      return SUCCESS;
    }

    var partial := new DList();
    BringDownDigits(a, b, q, partial);
    assert x != [];
    ValueBounds(partial.digits);
    DivModUnique(Value(x), vb, Value(q.digits), Value(partial.digits));
    ghost var qd := q.digits;
    q.TrimLeadingZeroes();
    TrimCanonical(qd);
    CanonicalIsToDigits(q.digits);
    CopyList(partial, rem);
    rem.TrimLeadingZeroes();
    CanonicalIsToDigits(rem.digits);
    if ch == '%' {
      cleared := q.DeleteList();
      CopyList(rem, q);
    }
    cleared := partial.DeleteList();
    status := SUCCESS;
  }
}
