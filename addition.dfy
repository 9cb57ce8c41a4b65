/** Addition.c: column addition from the tails towards the heads, one result
    digit inserted at the head per column, and a final carry digit. */
module Addition {
  import opened Digits
  import opened Lists

  /** update_result_add's arithmetic: a column sum above 9 is split into its
      ones digit and the carry result / 10; otherwise it is written as it is
      and the carry is 0. The result is (digit written, new carry). */
  function AddStep(result: int): (step: (int, int))
    ensures step.0 + 10 * step.1 == result
    ensures 0 <= result <= 19 ==> IsDigit(step.0) && 0 <= step.1 <= 1
  {
    if result > 9 then (result % 10, result / 10) else (result, 0)
  }

  /** The digits add_number produces for the columns of a and b, processed
      from their last digits with an incoming carry; a non-zero carry left
      when both are exhausted becomes a leading digit. */
  function AddColumns(a: seq<int>, b: seq<int>, carry: int): seq<int>
    decreases |a| + |b|
  {
    if a == [] && b == [] then
      (if carry != 0 then [carry] else [])
    else
      var step := AddStep(carry + LastOr0(a) + LastOr0(b));
      AddColumns(DropLast(a), DropLast(b), step.1) + [step.0]
  }

  /** The column sums denote the sum of the operands and the incoming carry. */
  lemma {:induction false} AddColumnsValue(a: seq<int>, b: seq<int>, carry: int)
    ensures Value(AddColumns(a, b, carry)) == Value(a) + Value(b) + carry
    decreases |a| + |b|
  {
    if a == [] && b == [] {
      if carry != 0 {
        assert Value([carry]) == 10 * Value([]) + carry;
      }
    } else {
      var step := AddStep(carry + LastOr0(a) + LastOr0(b));
      AddColumnsValue(DropLast(a), DropLast(b), step.1);
      ValueSnoc(AddColumns(DropLast(a), DropLast(b), step.1), step.0);
      ValueSplit(a);
      ValueSplit(b);
    }
  }

  /** Adding digit lists with a carry of 0 or 1 gives digits, as many as the
      longer operand, or one more when a leading carry 1 was added. */
  lemma {:induction false} AddColumnsShape(a: seq<int>, b: seq<int>, carry: int)
    requires IsDigits(a) && IsDigits(b) && 0 <= carry <= 1
    ensures var r := AddColumns(a, b, carry);
            var longest := if |a| < |b| then |b| else |a|;
            IsDigits(r) && (|r| == longest || (|r| == longest + 1 && r[0] == 1))
    decreases |a| + |b|
  {
    if a == [] && b == [] {
    } else {
      var step := AddStep(carry + LastOr0(a) + LastOr0(b));
      var a', b' := DropLast(a), DropLast(b);
      assert IsDigits(a') && IsDigits(b');
      AddColumnsShape(a', b', step.1);
      var rest := AddColumns(a', b', step.1);
      assert AddColumns(a, b, carry) == rest + [step.0];
    }
  }

  /** The sum of two canonical numbers is canonical and has their value. */
  lemma AddCanonical(a: seq<int>, b: seq<int>)
    requires Canonical(a) && Canonical(b)
    ensures Canonical(AddColumns(a, b, 0))
    ensures Value(AddColumns(a, b, 0)) == Value(a) + Value(b)
  {
    var r := AddColumns(a, b, 0);
    AddColumnsValue(a, b, 0);
    AddColumnsShape(a, b, 0);
    var big, small := if |a| < |b| then b else a, if |a| < |b| then a else b;
    if |r| == |big| && |big| > 1 {
      LeadingDigitLowerBound(big);
      ValueBounds(small);
      LeadingZeroUpperBound(r);
    }
  }

  /** The column sums do not depend on the order of the operands. */
  lemma {:induction false} AddColumnsCommutative(a: seq<int>, b: seq<int>, carry: int)
    ensures AddColumns(a, b, carry) == AddColumns(b, a, carry)
    decreases |a| + |b|
  {
    if a == [] && b == [] {
    } else {
      var step := AddStep(carry + LastOr0(a) + LastOr0(b));
      assert step == AddStep(carry + LastOr0(b) + LastOr0(a));
      AddColumnsCommutative(DropLast(a), DropLast(b), step.1);
    }
  }

  /** One column of add_number: the digit it writes goes in front of what the
      later columns already wrote. */
  lemma AddColumnsPeel(a: seq<int>, b: seq<int>, carry: int, rest: seq<int>)
    requires a != [] || b != []
    ensures var step := AddStep(carry + LastOr0(a) + LastOr0(b));
            AddColumns(a, b, carry) + rest
            == AddColumns(DropLast(a), DropLast(b), step.1) + ([step.0] + rest)
  {
  }

  /** update_result_add: inserts the column's digit at the head of the result
      and hands back the new carry. */
  method UpdateResultAdd(l: DList, result: int) returns (carry: int, status: int)
    modifies l
    ensures l.digits == [AddStep(result).0] + old(l.digits)
    ensures carry == AddStep(result).1
    ensures status == SUCCESS
  {
    var resultDigit;
    if result > 9 {
      resultDigit := result % 10;
      carry := result / 10;
    } else {
      resultDigit := result;
      carry := 0;
    }
    status := l.InsertFirst(resultDigit);
  }

  /** add_number: walks both operands from the tail, inserting each column's
      digit at the head of r, and finally a non-zero carry. Whatever r held
      stays behind the new digits. */
  method AddNumber(a: DList, b: DList, r: DList) returns (status: int)
    requires r != a && r != b
    modifies r
    ensures r.digits == AddColumns(a.digits, b.digits, 0) + old(r.digits)
    ensures status == SUCCESS
  {
    ghost var x0, y0 := a.digits, b.digits;
    ghost var target := AddColumns(x0, y0, 0) + r.digits;
    var carry := 0;
    var i, j := |a.digits|, |b.digits|;
    assert x0[..i] == x0 && y0[..j] == y0;
    while i > 0 || j > 0
      invariant a.digits == x0 && b.digits == y0
      invariant 0 <= i <= |x0| && 0 <= j <= |y0|
      invariant AddColumns(x0[..i], y0[..j], carry) + r.digits == target
      decreases i + j
    {
      ghost var x, y, c, rest := x0[..i], y0[..j], carry, r.digits;
      CursorStep(x0, i);
      CursorStep(y0, j);
      var digitSum := carry;
      if i > 0 {
        digitSum := digitSum + a.digits[i - 1];
        i := i - 1;
      }
      if j > 0 {
        digitSum := digitSum + b.digits[j - 1];
        j := j - 1;
      }
      assert digitSum == c + LastOr0(x) + LastOr0(y);
      assert x0[..i] == DropLast(x) && y0[..j] == DropLast(y);
      var inserted;
      carry, inserted := UpdateResultAdd(r, digitSum);
      AddColumnsPeel(x, y, c, rest);
      assert r.digits == [AddStep(c + LastOr0(x) + LastOr0(y)).0] + rest;
    }
    assert x0[..i] == [] && y0[..j] == [];
    if carry != 0 {
      var inserted := r.InsertFirst(carry);
    }
    status := SUCCESS;
  }
}
