# Arbitrary-precision calculator: a verified model of the digit-list engines

The calculator takes `operand1 operator operand2` on the command line and
prints the signed sum, difference, product, or quotient and remainder of two
decimal integers of any length. Each magnitude is a doubly linked list of
decimal digits, most significant digit first. The sign is kept apart as +1 or
-1.

The model follows the program's files:

- `digits.dfy` (module `Digits`): the value of a digit list, the canonical
  form (digits 0..9, at least one digit, no leading zero unless the list is
  `[0]`), leading-zero trimming, C's truncating `/` and `%`, and the reference
  digits `ToDigits(n)` of a natural number.
- `lists.dfy` (module `Lists`): the list primitives of function.c. A
  `(head, tail)` pointer pair is the class `DList` with one field `digits`:
  the head is index 0, the tail the last index, and a NULL head is `[]`. The
  module also holds `stored_num`, `trim_leading_zeroes`, `is_zero`,
  `get_list_length` and `get_formatted_width`.
- `addition.dfy`, `subtraction.dfy`, `multiplication.dfy`, `division.dfy`:
  the four engines as methods over `DList` objects. Each is tied to a
  recursive specification function (`AddColumns`, `SubColumns`, `LValue` of
  the accumulator, the long-division invariant) whose value properties are
  proved as lemmas. Multiplication keeps the calloc'd accumulator as an
  `array<int>`, mutated in place.
- `calculator.dfy` (module `Calculator`): main.c's validation
  (`is_valid_number`), its checks in order, the operator and sign dispatch,
  and the rule that a minus is printed only before a non-zero magnitude.
  What main prints is modelled as an `Outcome`: the reason it stops with
  exit status 1, or the signed result(s) it shows.

The top-level theorem is `Calculator.Run`: for every argument vector, the
outcome equals `Expected(argv)`. That function is an independent,
integer-level reference: C's truncating quotient and remainder of the
numerals' values, shown without negative zero.

## Model

| member | source | states |
|---|---|---|
| Lists.DList.constructor | main.c:103-105 | a fresh list pair is NULL (empty) |
| Lists.DList.InsertLast | function.c:15-42 | the list becomes old ++ [data] (head = tail = the new node when it was empty); SUCCESS |
| Lists.DList.InsertFirst | function.c:51-76 | the list becomes [data] ++ old; the tail digit is unchanged unless the list was empty; SUCCESS |
| Lists.DList.DeleteFirst | function.c:84-108 | FAILURE and nothing changes on an empty list; otherwise element 0 is dropped; the list is NULL afterwards exactly when it had at most one node |
| Lists.DList.DeleteList | function.c:116-139 | head and tail are NULL afterwards; SUCCESS |
| Lists.DList.Length | function.c:199-208 | the count is the number of nodes |
| Lists.DList.IsZero | function.c:424-439 | true iff every digit is 0 (so true for NULL); for digit lists, iff the value is 0 |
| Lists.DList.TrimLeadingZeroes | function.c:407-417 | the list becomes Trim(old): leading zeros are deleted while a next node exists; the value is unchanged |
| Digits.Trim | function.c:407-417 | the trimmed list is no longer, keeps at least one digit of a non-empty list, and has no leading zero unless it has one digit |
| Digits.TrimValue | function.c:407-417 | trimming preserves the value |
| Digits.TrimSuffix | function.c:407-417 | trimming removes only a prefix of zeros |
| Digits.TrimCanonical | function.c:407-417 | trimming a non-empty digit list gives a canonical list |
| Digits.TrimIdempotent | function.c:407-417 | trimming twice equals trimming once |
| Digits.TrimOfCanonical | function.c:407-417 | a canonical list is left as it is |
| Digits.CanonicalUnique | function.c:407-417 | two canonical lists with one value are equal |
| Digits.CanonicalIsToDigits | function.c:407-417 | a canonical list is exactly the decimal digits of its value |
| Digits.ToDigitsCanonical | multiplication.c:67-78 | the reference digits of n >= 0 are canonical and denote n |
| Digits.AllZeroIffValueZero | function.c:424-439 | a digit list is all zeros iff its value is 0 |
| Digits.CanonicalZero | function.c:424-439 | the only canonical zero is [0] |
| Digits.CDiv | multiplication.c:62 | C's `/`: truncation toward zero |
| Digits.CMod | multiplication.c:63 | C's `%`: x = d * (x / d) + x % d, with the remainder taking x's sign |
| Lists.StoredNum | function.c:358-394 | the sign is -1 iff the text starts with '-'; the list is StoredDigitsOf(text) |
| Lists.SkipEndFacts | function.c:370-373 | the zero-skipping loop stops on a character that is not a '0' followed by more text, or at the end when nothing follows the sign |
| Lists.SkipZerosAt | function.c:370-373 | the digits after the skipped zeros are the trimmed character digits, and empty only for empty text |
| Lists.DigitsBetweenIsCharDigits | function.c:381-385 | the copy loop appends character minus '0' for each remaining character |
| Lists.CopiedDigits | function.c:370-387 | the copied digits are the trimmed character digits of the text after the sign, and empty exactly when nothing follows the sign |
| Lists.StoredNumLoops | function.c:364-393 | the loops store the copied digits, or [0] when none were copied |
| Lists.StoredDigitsOfFacts | function.c:388-393 | the stored list is never NULL, denotes the numeral's magnitude, and is canonical for decimal text |
| Lists.SkipLeadingZeroChar | function.c:370-373 | skipping a '0' that is not the last character changes neither the trimmed digits nor the value |
| Lists.NoLeadingZeroChar | function.c:370-373 | when the skip loop stops, the remaining characters need no further trimming |
| Lists.CharDigitsAt | function.c:383 | the k-th stored digit is the k-th character minus '0' |
| Lists.CharDigitsSnoc | function.c:381-385 | appending a character appends its digit |
| Lists.DecimalCharDigits | function.c:381-385 | text of '0'..'9' characters gives digits 0..9 |
| Lists.GroupedDigitsLength | function.c:160-192 | the grouped text has one character per digit plus a comma per full group of three after the first |
| Lists.FormattedWidth | function.c:216-226 | get_formatted_width is at least 1, and for a non-NULL list at least one cell per digit plus one for a minus |
| Lists.FormattedWidthIsTextLength | function.c:216-226 | get_formatted_width (1 for NULL, otherwise len + (len-1)/3 + minus) is the length of what print_list_formatted writes, plus one for a minus |
| Addition.AddStep | Addition.c:78-89 | digit + 10 * carry equals the column sum; for sums 0..19 the digit is 0..9 and the carry 0 or 1 |
| Addition.UpdateResultAdd | Addition.c:74-93 | the column digit is inserted at the head and the carry is returned |
| Addition.AddNumber | Addition.c:20-62 | r becomes AddColumns(a, b, 0) ++ old r; the operands are only read |
| Addition.AddColumnsValue | Addition.c:33-59 | the columns denote value(a) + value(b) + carry |
| Addition.AddColumnsShape | Addition.c:33-59 | the result is digits, as long as the longer operand or one longer with a leading 1 (e.g. 99 + 1 = 100) |
| Addition.AddCanonical | Addition.c:20-62 | for canonical operands the sum is canonical (so no trim is needed) and denotes value(a) + value(b) |
| Addition.AddColumnsCommutative | Addition.c:33-52 | the column sums do not depend on the operand order |
| Addition.AddColumnsPeel | Addition.c:33-52 | each column's digit goes in front of what the later columns wrote |
| Subtraction.SwapLists | Subtraction.c:147-155 | the two (head, tail) pairs trade places and nothing else changes |
| Subtraction.CompareNumbers | Subtraction.c:90-136 | returns 1 iff the first list is shorter, or as long and smaller at the first differing digit; swaps the pairs exactly then; equal lists do not move |
| Subtraction.LexLessStep | Subtraction.c:115-132 | one step of the digit loop: the first differing digit decides |
| Subtraction.LexLessValue | Subtraction.c:111-135 | on digit lists of one length, the digit-by-digit verdict is the order of values |
| Subtraction.LessIffValueLess | Subtraction.c:97-135 | on canonical lists, compare_numbers' verdict is value(a) < value(b) |
| Subtraction.SubStep | Subtraction.c:45-60 | digit - 10 * borrow' = digit1 - digit2 - borrow; the borrow stays 0 or 1; digits give a digit |
| Subtraction.SubtractColumn | Subtraction.c:45-60 | the borrow handling of one column computes SubStep |
| Subtraction.SubNumber | Subtraction.c:22-76 | returns 1 iff the original a < b; the operands end up larger first; r becomes Trim(SubColumns(larger, smaller) ++ old r) |
| Subtraction.SubColumnsDigits | Subtraction.c:39-69 | subtracting digit lists writes digits |
| Subtraction.SubColumnsValue | Subtraction.c:39-69 | when the minuend is no shorter and no smaller, the columns denote the difference |
| Subtraction.SubColumnsPeel | Subtraction.c:39-69 | each column's digit goes in front of what the later columns wrote |
| Subtraction.SubMagnitude | Subtraction.c:22-76 | for canonical operands the result is canonical and denotes the absolute difference (equal operands give [0]) |
| Multiplication.AccumulateProducts | multiplication.c:45-55 | starting from zeros, the accumulator (least significant place first) denotes value(a) * value(b), with no negative cell |
| Multiplication.AddRowProducts | multiplication.c:47-54 | one row adds digit i of a times 10^i times value(b) |
| Multiplication.RowCellStep | multiplication.c:53 | one cell adds digit1 * digit2 * 10^(i+j) |
| Multiplication.CellNonNeg | multiplication.c:53 | a product of digits keeps the cells non-negative |
| Multiplication.LValueUpdate | multiplication.c:53 | adding v at place k adds v * 10^k to the accumulator |
| Multiplication.PropagateCarries | multiplication.c:58-64 | the carry pass keeps the value (cells + carry * 10^len) and leaves only digits and a non-negative carry |
| Multiplication.CarryStep | multiplication.c:61-63 | one place keeps cells + carry * 10^i unchanged |
| Multiplication.CarryKeepsDigits | multiplication.c:61-63 | one place leaves a digit behind and a non-negative carry |
| Multiplication.CarryDone | multiplication.c:59-64 | after the last place every cell is a digit |
| Multiplication.ProductBound | multiplication.c:30-31 | the product of an m-digit and an n-digit number is below 10^(m+n) |
| Multiplication.ProductLength | multiplication.c:30-31 | the result has at most len1 + len2 digits |
| Multiplication.NoCarryOut | multiplication.c:58-64 | hence the final carry is 0 |
| Multiplication.FirstDigitIndex | multiplication.c:67-71 | the scan stops at the highest non-zero place, never below index 0 |
| Multiplication.AppendPlaces | multiplication.c:75-78 | the places from there down to 0 are appended, most significant first |
| Multiplication.ReversedAt | multiplication.c:75-78 | the appended list reads the places from the top |
| Multiplication.ReversedValue | multiplication.c:75-78 | read from the top, the places denote the accumulator's value |
| Multiplication.ReversedCanonical | multiplication.c:67-78 | places with a non-zero top (or a single place) read from the top are canonical |
| Multiplication.MulDigitsOut | multiplication.c:67-78 | the appended list is exactly the canonical digits of the product |
| Multiplication.MulNumber | multiplication.c:22-83 | for digit lists, r becomes old r ++ ToDigits(value(a) * value(b)) (a zero operand gives [0]); two NULL operands append nothing; SUCCESS |
| Division.IsGreaterOrEqual | division.c:13-40 | returns 1 iff not (shorter, or as long and smaller at the first differing digit); equal lists give 1 |
| Division.CopyList | division.c:48-62 | the destination holds the source's digits (NULL gives NULL) |
| Division.SubtractLists | division.c:74-114 | the result is cleared, then receives Trim(SubColumns(l1, l2)) |
| Division.SubCanonical | division.c:74-114 | when l1 >= l2 (canonical), the result is canonical and denotes the difference |
| Division.LessImpliesValueLess | division.c:153 | a digit list that compares smaller than a canonical divisor has a smaller value |
| Division.SubtractWhileFits | division.c:195-214 | repeated subtraction counts how often the divisor fits: old partial = count * divisor + new partial with new partial < divisor, canonical |
| Division.QuotientDigitBound | division.c:195-217 | since the partial was below 10 * divisor, each quotient digit is 0..9 |
| Division.BringDown | division.c:180-218 | bringing down one digit keeps prefix = quotient * divisor + partial |
| Division.BringDownDigits | division.c:180-219 | after the digit walk, value(a) = value(q) * value(b) + value(partial), partial < divisor, q one digit per dividend digit |
| Division.DivModUnique | division.c:180-226 | those facts determine quotient and remainder as value(a) / value(b) and value(a) % value(b) |
| Division.DivNumber | division.c:137-240 | FAILURE iff the divisor is NULL or [0], touching nothing; else the quotient is ToDigits(a / b); a dividend that compares smaller than the divisor is copied as the remainder unchanged (leading zeros and all), otherwise the remainder is the trimmed ToDigits(a % b); in '%' mode the primary result is the remainder |
| Calculator.IsValidNumber | main.c:20-43 | accepts exactly an optional '-' followed by one or more decimal digits (so "-0" is accepted) |
| Calculator.Utf8Width | main.c:65 | a character takes 1 to 4 bytes, and 1 exactly when it is ASCII |
| Calculator.StrLen | main.c:65 | strlen counts the bytes of the text's UTF-8 encoding, at least one per character |
| Calculator.StrLenOne | main.c:65-70 | a text is one byte long exactly when it is one ASCII character, so a one-character non-ASCII operator fails the format check |
| Calculator.ShowFacts | main.c:315-330 | what is shown for n is canonical, denotes n, and never a negative zero |
| Calculator.ShowUnique | main.c:315-330 | a canonical display without negative zero is the display of the number it denotes |
| Calculator.TruncAgreesWithC | main.c:243-302 | for a positive divisor, the signed quotient and remainder agree with the CDiv and CMod used by the carry pass |
| Calculator.TruncDivMod | main.c:243-302 | C's quotient and remainder: n = d * q + r with abs(r) < abs(d), and r takes n's sign |
| Calculator.SignedDivision | main.c:257-263 | truncating division of signed numbers is the magnitudes' division with sign rules applied |
| Calculator.SubtractionSign | main.c:213-214 | main's sign for a magnitude difference (the same rule again at main.c:231-232) is ±1, and keeps sign1 exactly when sub_number did not swap the operands |
| Calculator.SubtractionSignCorrect | main.c:210-214 | the sign main gives a magnitude difference is the sign of the true signed difference |
| Calculator.ProductSign | main.c:240 | the sign is +1 iff the operand signs are equal |
| Calculator.ProductSignCorrect | main.c:236-241 | that sign applied to the magnitudes' product gives the signed product |
| Calculator.SignedQuotient | main.c:243-302 | the quotient of the magnitudes with ProductSign, and the remainder with the dividend's sign, are C's quotient and remainder of the signed operands |
| Calculator.StoredValid | main.c:108-109 | a valid numeral is stored as a canonical magnitude with a sign of ±1 whose signed value is the numeral's |
| Calculator.ShowList | main.c:315-330 | a minus is shown only when the sign is -1 and the list is not zero; the display is Show of the signed value |
| Calculator.SumOfMagnitudes | main.c:203 | add_number's result is canonical and denotes the sum of the magnitudes |
| Calculator.DifferenceOfMagnitudes | main.c:209-210 | sub_number's result is canonical and denotes the absolute difference; the flag says whether the first was smaller |
| Calculator.Plus | main.c:200-216 | '+' shows the signed sum |
| Calculator.Minus | main.c:218-234 | '-' shows the signed difference |
| Calculator.Times | main.c:236-241 | 'x' shows the signed product |
| Calculator.Divide | main.c:243-302 | '/' fails on a zero divisor, else shows C's truncating quotient and the remainder with the dividend's sign |
| Calculator.Dispatch | main.c:198-312 | the switch computes Evaluate of the signed operands |
| Calculator.Calculate | main.c:108-312 | for valid numerals and a supported operator, the outcome is Evaluate of their values |
| Calculator.Run | main.c:49-330 | the outcome follows main's checks in their order (argument count, operator length in bytes with 'X' read as 'x', first and second operand, operator set), then Evaluate |

## Left out

- Printing: the box layout, borders, padding, emoji labels and `printf` diagnostics in main.c and function.c, and `get_string_display_width`. What main shows is modelled as `Outcome` values (`Display` = sign and digits); `print_list_formatted` appears only as the text whose length `get_formatted_width` predicts.
- Memory: `malloc`/`calloc` never fail in the model, so the allocating primitives (InsertFirst, InsertLast, StoredNum, CopyList, MulNumber's accumulator) never fail for lack of memory. `free` and leaks (such as `copy_list` overwriting a non-empty destination) disappear with Dafny's garbage-collected objects.
- Machine integers: `int` overflow of the multiplication accumulator and of `len1 + len2` is not modelled; integers are unbounded.
- Node links: `prev`/`next` pointers and node identity are not modelled. A list is its digit sequence, and swapping (head, tail) pairs exchanges two `digits` fields.
- Division.DivNumber: requires the divisor to be NULL or canonical, as `stored_num` produces it. For a divisor such as [0, 0] the C loop would subtract zero forever.
- The engines require that the result list is a different object from the operands. main never aliases them.
- Arguments are Unicode text whose C form is its UTF-8 encoding; `strlen` counts those bytes. C strings are modelled without their NUL terminator: `data[i + 1] != '\0'` is `i + 1 < |data|`. Text with an embedded NUL is not modelled.
- The unused `op1`/`op2` parameters of `sub_number` and `compare_numbers`.
- Multiplication.MulNumber: says nothing about the digits appended when an operand holds non-digits, which main never passes.
- '%' mode of `div_number` is modelled (its `ch` parameter), but main never passes '%'. main.c:94-100 accepts '+', '-', 'x' (or 'X') and '/'; '*' and '%' are rejected.
