/** main.c: operand validation, the operator and sign dispatch around the
    digit-list engines, and the rule that a minus is shown only in front of a
    non-zero magnitude. The box drawing is left out; what main prints is
    modelled as an Outcome: the reason it stops with exit status 1, or the
    signed result(s) it shows. */
module Calculator {
  import opened Digits
  import opened Lists
  import opened Addition
  import opened Subtraction
  import opened Multiplication
  import opened Division

  // ---------------------------------------------------------------------------
  // is_valid_number

  /** A numeral main accepts: an optional '-' followed by at least one
      decimal digit and nothing else. */
  predicate ValidNumeral(text: string) {
    |text| > 0 && Body(text) != [] && AllDecimal(Body(text))
  }

  /** is_valid_number: rejects the empty string and a lone '-', then scans the
      characters after the optional '-' and rejects the first non-digit. */
  method IsValidNumber(str: string) returns (valid: bool)
    ensures valid <==> ValidNumeral(str)
  {
    if |str| == 0 {
      return false;
    }
    var i := 0;
    if str[0] == '-' {
      i := 1;
    }
    if i >= |str| {
      return false;
    }
    ghost var start := i;
    assert Body(str) == str[start..];
    while i < |str|
      invariant start <= i <= |str|
      invariant forall k :: start <= k < i ==> '0' <= str[k] <= '9'
    {
      if str[i] < '0' || str[i] > '9' {
        assert Body(str)[i - start] == str[i];
        return false;
      }
      i := i + 1;
    }
    return true;
  }

  // ---------------------------------------------------------------------------
  // strlen

  /** The number of bytes c takes in UTF-8, the encoding of the arguments. */
  function Utf8Width(c: char): (n: nat)
    ensures 1 <= n <= 4
    ensures n == 1 <==> c as int < 0x80
  {
    if c as int < 0x80 then 1
    else if c as int < 0x800 then 2
    else if c as int < 0x10000 then 3
    else 4
  }

  /** strlen: the number of bytes before the NUL terminator, that is the
      length of the text's UTF-8 encoding. */
  function StrLen(text: string): (n: nat)
    ensures n >= |text|
  {
    if text == [] then 0 else Utf8Width(text[0]) + StrLen(text[1..])
  }

  /** A text is one byte long exactly when it is one ASCII character: an
      operator such as the heavy plus sign U+2795 is three bytes long. */
  lemma StrLenOne(text: string)
    ensures StrLen(text) == 1 <==> |text| == 1 && text[0] as int < 0x80
  {
    if |text| == 1 {
      assert text[1..] == [];
    }
  }

  // ---------------------------------------------------------------------------
  // What main shows

  /** A signed result as main prints it: a minus flag and the magnitude list. */
  datatype Display = Display(negative: bool, magnitude: seq<int>)

  /** Why main stops with exit status 1 before showing a result. */
  datatype Failure =
    | Usage               // argc != 4
    | OperatorFormat      // the operator argument is not one character
    | FirstOperand        // is_valid_number rejects argv[1]
    | SecondOperand       // is_valid_number rejects argv[3]
    | UnknownOperator     // not one of + - x /
    | DivisionByZero      // div_number returned FAILURE

  datatype Outcome =
    | Failed(reason: Failure)
    | Result(result: Display)
    | DivisionResult(quotient: Display, remainder: Display)

  function Abs(n: int): (m: nat)
    ensures m == n || m == -n
  {
    if n < 0 then -n else n
  }

  /** The Display of an integer: its canonical digits, and a minus exactly when
      it is negative. */
  function Show(n: int): Display {
    Display(n < 0, ToDigits(Abs(n)))
  }

  /** The integer a Display denotes. */
  function Denotes(d: Display): int {
    if d.negative then -Value(d.magnitude) else Value(d.magnitude)
  }

  /** A shown result is canonical, denotes the number, and never reads as a
      negative zero. */
  lemma ShowFacts(n: int)
    ensures Canonical(Show(n).magnitude)
    ensures Denotes(Show(n)) == n
    ensures Show(n).negative ==> Value(Show(n).magnitude) != 0
  {
    ToDigitsCanonical(Abs(n));
  }

  /** A minus exactly on a non-zero magnitude is the only way to show a number:
      main's zero/minus rule makes its Display the one Show gives. */
  lemma ShowUnique(d: Display)
    requires Canonical(d.magnitude)
    requires d.negative ==> Value(d.magnitude) != 0
    ensures d == Show(Denotes(d))
  {
    ValueBounds(d.magnitude);
    CanonicalIsToDigits(d.magnitude);
  }

  /** Truncating division, as C's `/` on int: the quotient of the magnitudes,
      negative when the signs differ. */
  function TruncDiv(n: int, d: int): int
    requires d != 0
  {
    if (n < 0) == (d < 0) then Abs(n) / Abs(d) else -(Abs(n) / Abs(d))
  }

  /** C's `%`: what is left of n after TruncDiv. */
  function TruncMod(n: int, d: int): int
    requires d != 0
  {
    n - d * TruncDiv(n, d)
  }

  /** With a positive divisor these are the CDiv and CMod the digit engines use. */
  lemma TruncAgreesWithC(n: int, d: int)
    requires d > 0
    ensures TruncDiv(n, d) == CDiv(n, d) && TruncMod(n, d) == CMod(n, d)
  {
  }

  /** The identity C guarantees for `/` and `%`: the remainder is smaller than
      the divisor in magnitude and takes the dividend's sign. */
  lemma TruncDivMod(n: int, d: int)
    requires d != 0
    ensures n == d * TruncDiv(n, d) + TruncMod(n, d)
    ensures Abs(TruncMod(n, d)) < Abs(d)
    ensures n >= 0 ==> TruncMod(n, d) >= 0
    ensures n < 0 ==> TruncMod(n, d) <= 0
  {
    var q, r := Abs(n) / Abs(d), Abs(n) % Abs(d);
    assert Abs(n) == Abs(d) * q + r;
    SignedDivision(n, d, q, r);
  }

  /** The four sign cases of TruncDivMod. */
  lemma SignedDivision(n: int, d: int, q: int, r: int)
    requires d != 0 && Abs(n) == Abs(d) * q + r && 0 <= r < Abs(d)
    ensures TruncDiv(n, d) == (if (n < 0) == (d < 0) then q else -q)
    ensures TruncMod(n, d) == (if n < 0 then -r else r)
  {
    DivModUnique(Abs(n), Abs(d), q, r);
    NegMul(d, q);
    if n < 0 && d < 0 {
      assert TruncMod(n, d) == n - d * q;
    } else if n < 0 {
      assert TruncMod(n, d) == n - d * (-q);
    } else if d < 0 {
      assert TruncMod(n, d) == n - d * (-q);
    } else {
      assert TruncMod(n, d) == n - d * q;
    }
  }

  /** Arithmetic support for SignedDivision: negation moves through a product. */
  lemma NegMul(a: int, b: int)
    ensures (-a) * b == -(a * b) && a * (-b) == -(a * b)
  {
  }

  /** What main shows for valid operands and a supported operator: the signed
      sum, difference, product, or C's truncating quotient and remainder. */
  function Evaluate(op: char, n1: int, n2: int): Outcome
    requires op in "+-x/"
  {
    if op == '+' then Result(Show(n1 + n2))
    else if op == '-' then Result(Show(n1 - n2))
    else if op == 'x' then Result(Show(n1 * n2))
    else if n2 == 0 then Failed(DivisionByZero)
    else DivisionResult(Show(TruncDiv(n1, n2)), Show(TruncMod(n1, n2)))
  }

  /** main's checks in their order (argument count, operator length, the
      operands, the operator set, with 'X' read as 'x'), then Evaluate. The
      operator is one byte long exactly when it is one ASCII character. */
  function Expected(argv: seq<string>): Outcome {
    if |argv| != 4 then Failed(Usage)
    else if |argv[2]| != 1 || argv[2][0] as int >= 0x80 then Failed(OperatorFormat)
    else
      var op := if argv[2][0] == 'X' then 'x' else argv[2][0];
      if !ValidNumeral(argv[1]) then Failed(FirstOperand)
      else if !ValidNumeral(argv[3]) then Failed(SecondOperand)
      else if op !in "+-x/" then Failed(UnknownOperator)
      else Evaluate(op, NumeralValue(argv[1]), NumeralValue(argv[3]))
  }

  // ---------------------------------------------------------------------------
  // The sign dispatch

  /** main's sign for a magnitude difference: with a positive first number the
      result is negative when the operands were swapped, and the other way
      round with a negative first number. */
  function SubtractionSign(sign1: int, isNegative: bool): (s: int)
    ensures s == 1 || s == -1
    ensures sign1 == 1 || sign1 == -1 ==> (s == sign1 <==> !isNegative)
  {
    if sign1 == 1 then (if isNegative then -1 else 1)
    else (if isNegative then 1 else -1)
  }

  /** The sign of a magnitude difference: SubtractionSign on |v1 - v2| is
      v1 - v2 under sign1, whichever magnitude is larger. */
  lemma SubtractionSignCorrect(sign1: int, v1: int, v2: int, isNegative: bool)
    requires sign1 == 1 || sign1 == -1
    requires isNegative <==> v1 < v2
    ensures Signed(SubtractionSign(sign1, isNegative), if v1 < v2 then v2 - v1 else v1 - v2)
            == Signed(sign1, v1 - v2)
  {
  }

  /** The sign of a product or a quotient: +1 exactly when the operand signs agree. */
  function ProductSign(sign1: int, sign2: int): (s: int)
    ensures s == 1 <==> sign1 == sign2
  {
    if sign1 == sign2 then 1 else -1
  }

  /** ProductSign is the sign of the product of signed magnitudes. */
  lemma ProductSignCorrect(sign1: int, sign2: int, v1: int, v2: int)
    requires (sign1 == 1 || sign1 == -1) && (sign2 == 1 || sign2 == -1)
    ensures Signed(sign1, v1) * Signed(sign2, v2) == Signed(ProductSign(sign1, sign2), v1 * v2)
  {
    if sign1 == -1 && sign2 == -1 {
      assert (-v1) * (-v2) == v1 * v2;
    } else if sign1 == -1 {
      assert (-v1) * v2 == -(v1 * v2);
    } else if sign2 == -1 {
      assert v1 * (-v2) == -(v1 * v2);
    }
  }

  /** For signed magnitudes, C's quotient is the magnitude quotient with the
      product sign, and C's remainder the magnitude remainder with the
      dividend's sign. */
  lemma SignedQuotient(sign1: int, sign2: int, v1: int, v2: int)
    requires (sign1 == 1 || sign1 == -1) && (sign2 == 1 || sign2 == -1)
    requires v1 >= 0 && v2 > 0
    ensures TruncDiv(Signed(sign1, v1), Signed(sign2, v2)) == Signed(ProductSign(sign1, sign2), v1 / v2)
    ensures TruncMod(Signed(sign1, v1), Signed(sign2, v2)) == Signed(sign1, v1 % v2)
  {
    var n, d := Signed(sign1, v1), Signed(sign2, v2);
    var q, r := v1 / v2, v1 % v2;
    assert Abs(n) == v1 && Abs(d) == v2;
    SignedDivision(n, d, q, r);
    QuotientOfZero(v1, v2);
  }

  /** Arithmetic support for SignedQuotient and Divide: the magnitude quotient and
      remainder are not negative, and both are 0 for a zero dividend. */
  lemma QuotientOfZero(v1: int, v2: int)
    requires v1 >= 0 && v2 > 0
    ensures v1 / v2 >= 0 && v1 % v2 >= 0
    ensures v1 == 0 ==> v1 / v2 == 0 && v1 % v2 == 0
  {
  }

  /** How main shows a result list (main.c's Step 6, and each line of the
      division output): a minus only when the sign is -1 and is_zero is false. */
  method ShowList(l: DList, resultSign: int) returns (d: Display)
    requires Canonical(l.digits) && (resultSign == 1 || resultSign == -1)
    ensures d == Show(Signed(resultSign, Value(l.digits)))
  {
    var zero := l.IsZero();
    d := Display(resultSign == -1 && !zero, l.digits);
    ValueBounds(l.digits);
    CanonicalIsToDigits(l.digits);
  }

  /** The stored form of a valid numeral: a canonical list whose value, with
      the sign stored_num returns, is the numeral's value. */
  lemma StoredValid(text: string)
    requires ValidNumeral(text)
    ensures Canonical(StoredDigitsOf(text)) && (SignOf(text) == 1 || SignOf(text) == -1)
    ensures NumeralValue(text) == Signed(SignOf(text), Value(StoredDigitsOf(text)))
  {
    StoredDigitsOfFacts(text);
  }

  // ---------------------------------------------------------------------------
  // The switch

  /** add_number into a fresh result list: the canonical sum of the magnitudes. */
  method SumOfMagnitudes(l1: DList, l2: DList) returns (l3: DList)
    requires Canonical(l1.digits) && Canonical(l2.digits)
    ensures Canonical(l3.digits) && Value(l3.digits) == Value(l1.digits) + Value(l2.digits)
  {
    AddCanonical(l1.digits, l2.digits);
    l3 := new DList();
    var status := AddNumber(l1, l2, l3);
    assert l3.digits == AddColumns(l1.digits, l2.digits, 0);
  }

  /** sub_number into a fresh result list: the canonical difference of the
      magnitudes, larger minus smaller, and whether the operands were swapped. */
  method DifferenceOfMagnitudes(l1: DList, l2: DList) returns (l3: DList, isNegative: bool)
    requires l1 != l2
    requires Canonical(l1.digits) && Canonical(l2.digits)
    modifies l1, l2
    ensures isNegative <==> Value(old(l1.digits)) < Value(old(l2.digits))
    ensures Canonical(l3.digits)
    ensures Value(l3.digits) == if isNegative then Value(old(l2.digits)) - Value(old(l1.digits))
                                else Value(old(l1.digits)) - Value(old(l2.digits))
  {
    SubMagnitude(l1.digits, l2.digits);
    LessIffValueLess(l1.digits, l2.digits);
    l3 := new DList();
    isNegative := SubNumber(l1, l2, l3);
    assert SubColumns(l1.digits, l2.digits, 0) + [] == SubColumns(l1.digits, l2.digits, 0);
  }

  /** case '+': equal signs add the magnitudes under sign1; different signs
      subtract them and take SubtractionSign. */
  method Plus(l1: DList, l2: DList, sign1: int, sign2: int) returns (d: Display)
    requires l1 != l2
    requires Canonical(l1.digits) && Canonical(l2.digits)
    requires (sign1 == 1 || sign1 == -1) && (sign2 == 1 || sign2 == -1)
    modifies l1, l2
    ensures d == Show(Signed(sign1, Value(old(l1.digits))) + Signed(sign2, Value(old(l2.digits))))
  {
    ghost var v1, v2 := Value(l1.digits), Value(l2.digits);
    var l3, resultSign;
    if sign1 == sign2 {
      l3 := SumOfMagnitudes(l1, l2);
      resultSign := sign1;
    } else {
      var isNegative;
      l3, isNegative := DifferenceOfMagnitudes(l1, l2);
      resultSign := SubtractionSign(sign1, isNegative);
      SubtractionSignCorrect(sign1, v1, v2, isNegative);
    }
    assert Signed(resultSign, Value(l3.digits)) == Signed(sign1, v1) + Signed(sign2, v2);
    d := ShowList(l3, resultSign);
  }

  /** case '-': different signs add the magnitudes under sign1; equal signs
      subtract them and take SubtractionSign. */
  method Minus(l1: DList, l2: DList, sign1: int, sign2: int) returns (d: Display)
    requires l1 != l2
    requires Canonical(l1.digits) && Canonical(l2.digits)
    requires (sign1 == 1 || sign1 == -1) && (sign2 == 1 || sign2 == -1)
    modifies l1, l2
    ensures d == Show(Signed(sign1, Value(old(l1.digits))) - Signed(sign2, Value(old(l2.digits))))
  {
    ghost var v1, v2 := Value(l1.digits), Value(l2.digits);
    var l3, resultSign;
    if sign1 != sign2 {
      l3 := SumOfMagnitudes(l1, l2);
      resultSign := sign1;
    } else {
      var isNegative;
      l3, isNegative := DifferenceOfMagnitudes(l1, l2);
      resultSign := SubtractionSign(sign1, isNegative);
      SubtractionSignCorrect(sign1, v1, v2, isNegative);
    }
    assert Signed(resultSign, Value(l3.digits)) == Signed(sign1, v1) - Signed(sign2, v2);
    d := ShowList(l3, resultSign);
  }

  /** case 'x': the product of the magnitudes under ProductSign. */
  method Times(l1: DList, l2: DList, sign1: int, sign2: int) returns (d: Display)
    requires Canonical(l1.digits) && Canonical(l2.digits)
    requires (sign1 == 1 || sign1 == -1) && (sign2 == 1 || sign2 == -1)
    ensures d == Show(Signed(sign1, Value(l1.digits)) * Signed(sign2, Value(l2.digits)))
  {
    ghost var v1, v2 := Value(l1.digits), Value(l2.digits);
    ghost var product := v1 * v2;
    ValueBounds(l1.digits);
    ValueBounds(l2.digits);
    ToDigitsCanonical(product);
    var l3 := new DList();
    var status := MulNumber(l1, l2, l3);
    assert l3.digits == [] + ToDigits(product) == ToDigits(product);
    var resultSign := ProductSign(sign1, sign2);
    ProductSignCorrect(sign1, sign2, v1, v2);
    assert Signed(resultSign, Value(l3.digits)) == Signed(sign1, v1) * Signed(sign2, v2);
    d := ShowList(l3, resultSign);
  }

  /** case '/': div_number with '/'; FAILURE for a zero divisor, otherwise the
      quotient under ProductSign and the remainder under the dividend's sign. */
  method Divide(l1: DList, l2: DList, sign1: int, sign2: int) returns (out: Outcome)
    requires Canonical(l1.digits) && Canonical(l2.digits)
    requires (sign1 == 1 || sign1 == -1) && (sign2 == 1 || sign2 == -1)
    ensures out == Evaluate('/', Signed(sign1, Value(l1.digits)), Signed(sign2, Value(l2.digits)))
  {
    var l3 := new DList();
    var remainder := new DList();
    ghost var v1, v2 := Value(l1.digits), Value(l2.digits);
    ghost var n1, n2 := Signed(sign1, v1), Signed(sign2, v2);
    ValueBounds(l1.digits);
    ValueBounds(l2.digits);
    if v2 == 0 {
      CanonicalZero(l2.digits);
    }
    var status := DivNumber(l1, l2, l3, remainder, '/');
    if status == FAILURE {
      assert l2.digits == [0] && Value([0]) == 0;
      assert n2 == 0;
      return Failed(DivisionByZero);
    }
    assert v2 > 0 && n2 != 0;
    QuotientOfZero(v1, v2);
    ToDigitsCanonical(v1 / v2);
    ToDigitsCanonical(v1 % v2);
    assert Value(l3.digits) == v1 / v2 && Value(remainder.digits) == v1 % v2;
    var resultSign := ProductSign(sign1, sign2);
    SignedQuotient(sign1, sign2, v1, v2);
    var quotient := ShowList(l3, resultSign);
    assert quotient == Show(TruncDiv(n1, n2));
    var rest := ShowList(remainder, sign1);
    assert rest == Show(TruncMod(n1, n2));
    out := DivisionResult(quotient, rest);
  }

  /** The switch of main on stored operands: the case for op runs on the
      two lists and their signs. */
  method Dispatch(op: char, l1: DList, l2: DList, sign1: int, sign2: int) returns (out: Outcome)
    requires op in "+-x/" && l1 != l2
    requires Canonical(l1.digits) && Canonical(l2.digits)
    requires (sign1 == 1 || sign1 == -1) && (sign2 == 1 || sign2 == -1)
    modifies l1, l2
    ensures out == Evaluate(op, Signed(sign1, Value(old(l1.digits))), Signed(sign2, Value(old(l2.digits))))
  {
    ghost var n1 := Signed(sign1, Value(l1.digits));
    ghost var n2 := Signed(sign2, Value(l2.digits));
    if op == '+' {
      var d := Plus(l1, l2, sign1, sign2);
      out := Result(d);
      assert out == Evaluate(op, n1, n2);
    } else if op == '-' {
      var d := Minus(l1, l2, sign1, sign2);
      out := Result(d);
      assert out == Evaluate(op, n1, n2);
    } else if op == 'x' {
      var d := Times(l1, l2, sign1, sign2);
      out := Result(d);
      assert out == Evaluate(op, n1, n2);
    } else {
      out := Divide(l1, l2, sign1, sign2);
      assert out == Evaluate(op, n1, n2);
    }
  }

  /** Steps 4 and 5 of main: both numerals are stored in fresh lists and the
      operator's case runs on them. */
  method Calculate(op: char, text1: string, text2: string) returns (out: Outcome)
    requires ValidNumeral(text1) && ValidNumeral(text2) && op in "+-x/"
    ensures out == Evaluate(op, NumeralValue(text1), NumeralValue(text2))
  {
    var l1 := new DList();
    var l2 := new DList();
    var sign1 := StoredNum(l1, text1);
    var sign2 := StoredNum(l2, text2);
    StoredValid(text1);
    StoredValid(text2);
    assert Signed(sign1, Value(l1.digits)) == NumeralValue(text1);
    assert Signed(sign2, Value(l2.digits)) == NumeralValue(text2);
    out := Dispatch(op, l1, l2, sign1, sign2);
  }

  /** main: argv holds the program name and the three inputs. */
  method Run(argv: seq<string>) returns (out: Outcome)
    ensures out == Expected(argv)
  {
    if |argv| != 4 {
      return Failed(Usage);
    }
    if StrLen(argv[2]) != 1 {
      StrLenOne(argv[2]);
      return Failed(OperatorFormat);
    }
    StrLenOne(argv[2]);
    var op := argv[2][0];
    if op == 'X' {
      op := 'x';
    }
    var valid := IsValidNumber(argv[1]);
    if !valid {
      return Failed(FirstOperand);
    }
    valid := IsValidNumber(argv[3]);
    if !valid {
      return Failed(SecondOperand);
    }
    if op != '+' && op != '-' && op != 'x' && op != '/' {
      return Failed(UnknownOperator);
    }
    out := Calculate(op, argv[1], argv[3]);
  }
}
