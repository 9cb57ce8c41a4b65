/** function.c: the doubly linked digit list and its primitives, the parser
    that turns a numeral into a list, leading-zero trimming, the zero test and
    the display-width helper.

    A `DList` object stands for one (head, tail) pointer pair owned by a
    caller: its `digits` are the data fields from head to tail. A NULL head
    (and tail) is the empty sequence; the tail node is the last index. The
    operations of function.c rebind *head and *tail in place, so here they
    are methods that reassign `digits`. */
module Lists {
  import opened Digits

  class DList {
    var digits: seq<int>

    /** A pair of NULL pointers. */
    constructor ()
      ensures digits == []
    {
      digits := [];
    }

    /** dl_insert_last: a new tail node; on an empty list it is also the head. */
    method InsertLast(data: int) returns (status: int)
      modifies this
      ensures digits == old(digits) + [data]
      ensures status == SUCCESS
    {
      digits := digits + [data];
      status := SUCCESS;
    }

    /** dl_insert_first: a new head node; the tail moves only when the list was empty. */
    method InsertFirst(data: int) returns (status: int)
      modifies this
      ensures digits == [data] + old(digits)
      ensures old(digits) != [] ==> digits[|digits| - 1] == old(digits)[|old(digits)| - 1]
      ensures status == SUCCESS
    {
      digits := [data] + digits;
      status := SUCCESS;
    }

    /** dl_delete_first: FAILURE on an empty list; otherwise the head node goes,
        and the list (head and tail) becomes NULL exactly when it had one node. */
    method DeleteFirst() returns (status: int)
      modifies this
      ensures old(digits) == [] ==> status == FAILURE && digits == []
      ensures old(digits) != [] ==> status == SUCCESS && digits == old(digits)[1..]
      ensures digits == [] <==> |old(digits)| <= 1
    {
      if digits == [] {
        return FAILURE;
      }
      digits := digits[1..];
      status := SUCCESS;
    }

    /** dl_delete_list: frees every node and leaves head and tail NULL. */
    method DeleteList() returns (status: int)
      modifies this
      ensures digits == []
      ensures status == SUCCESS
    {
      digits := [];
      status := SUCCESS;
    }

    /** get_list_length: counts the nodes from head to NULL. */
    method Length() returns (count: int)
      ensures count == |digits|
    {
      count := 0;
      var rest := digits;
      while rest != []
        invariant count + |rest| == |digits|
        invariant rest == digits[count..]
      {
        count := count + 1;
        rest := rest[1..];
      }
    }

    /** is_zero: true for a NULL list and for a list of zeros only. */
    method IsZero() returns (zero: bool)
      ensures zero <==> AllZero(digits)
      ensures IsDigits(digits) ==> (zero <==> Value(digits) == 0)
    {
      if IsDigits(digits) {
        AllZeroIffValueZero(digits);
      }
      if digits == [] {
        return true;
      }
      var i := 0;
      while i < |digits|
        invariant 0 <= i <= |digits|
        invariant forall k :: 0 <= k < i ==> digits[k] == 0
      {
        if digits[i] != 0 {
          return false;
        }
        i := i + 1;
      }
      zero := true;
    }

    /** trim_leading_zeroes: deletes the head while it is 0 and has a successor. */
    method TrimLeadingZeroes()
      modifies this
      ensures digits == Trim(old(digits))
      ensures Value(digits) == Value(old(digits))
    {
      TrimValue(digits);
      if digits == [] {
        return;
      }
      while |digits| > 1 && digits[0] == 0
        invariant Trim(digits) == Trim(old(digits))
        decreases |digits|
      {
        var status := DeleteFirst();
      }
    }
  }

  // ---------------------------------------------------------------------------
  // stored_num

  /** The magnitude part of a numeral: the text after an optional leading '-'. */
  function Body(text: string): string {
    if |text| > 0 && text[0] == '-' then text[1..] else text
  }

  /** The sign stored_num reports: -1 exactly when the text starts with '-'. */
  function SignOf(text: string): int {
    if |text| > 0 && text[0] == '-' then -1 else 1
  }

  /** Each character minus '0', as stored_num computes `data[i] - '0'`. */
  function CharDigits(text: string): (r: seq<int>)
    ensures |r| == |text|
  {
    if text == [] then [] else [text[0] as int - '0' as int] + CharDigits(text[1..])
  }

  /** The k-th stored digit is the k-th character minus '0'. */
  lemma {:induction false} CharDigitsAt(text: string, k: nat)
    requires k < |text|
    ensures CharDigits(text)[k] == text[k] as int - '0' as int
    decreases k
  {
    if k > 0 {
      CharDigitsAt(text[1..], k - 1);
    }
  }

  predicate AllDecimal(text: string) {
    forall k :: 0 <= k < |text| ==> '0' <= text[k] <= '9'
  }

  /** The integer a numeral denotes (independent of how it is stored). */
  function NumeralValue(text: string): int {
    Signed(SignOf(text), Value(CharDigits(Body(text))))
  }

  /** A magnitude under a sign of +1 or -1, as main combines them. */
  function Signed(sign: int, v: int): int {
    if sign == -1 then -v else v
  }

  /** Skipping one leading '0' that is not the last character changes neither
      the trimmed digits nor the value. */
  lemma SkipLeadingZeroChar(text: string)
    requires |text| > 1 && text[0] == '0'
    ensures Trim(CharDigits(text)) == Trim(CharDigits(text[1..]))
    ensures Value(CharDigits(text)) == Value(CharDigits(text[1..]))
  {
    assert CharDigits(text) == [0] + CharDigits(text[1..]);
    ValueCons(0, CharDigits(text[1..]));
  }

  /** Once no skippable '0' is left, trimming the digits changes nothing. */
  lemma NoLeadingZeroChar(text: string)
    requires !(|text| > 1 && text[0] == '0')
    ensures Trim(CharDigits(text)) == CharDigits(text)
  {
    var d := CharDigits(text);
    if |d| > 1 {
      CharDigitsAt(text, 0);
    }
  }

  /** Skipping the '0's of data[lo..e], each of which had a successor, leaves
      the trimmed digits of data[lo..]; they are empty only when data[lo..] is. */
  lemma {:induction false} SkipZerosAt(data: string, lo: nat, e: nat)
    requires lo <= e <= |data| && (e < |data| || e == lo)
    requires forall k :: lo <= k < e ==> data[k] == '0'
    requires !(e + 1 < |data| && data[e] == '0')
    ensures CharDigits(data[e..]) == Trim(CharDigits(data[lo..]))
    ensures CharDigits(data[e..]) == [] <==> lo == |data|
    decreases e - lo
  {
    if e == lo {
      NoLeadingZeroChar(data[lo..]);
    } else {
      SkipLeadingZeroChar(data[lo..]);
      assert data[lo..][1..] == data[lo + 1..];
      SkipZerosAt(data, lo + 1, e);
    }
  }

  /** stored_num: returns the sign and rebuilds `l` from the numeral's characters,
      skipping leading '0's but never the last character, and storing 0 when no
      character is left. */
  method StoredNum(l: DList, data: string) returns (sign: int)
    modifies l
    ensures sign == SignOf(data)
    ensures l.digits == StoredDigitsOf(data)
  {
    var i := 0;
    sign := 1;
    if |data| > 0 && data[0] == '-' {
      sign := -1;
      i := i + 1;
    }
    ghost var first := i;
    while i + 1 < |data| && data[i] == '0'
      invariant first <= i <= |data|
      invariant SkipEnd(data, i) == SkipEnd(data, first)
      decreases |data| - i
    {
      i := i + 1;
    }
    ghost var start := i;
    l.digits := [];
    while i < |data|
      invariant start <= i <= |data|
      invariant l.digits == DigitsBetween(data, start, i)
    {
      var status := l.InsertLast(data[i] as int - '0' as int);
      i := i + 1;
    }
    StoredNumLoops(data);
    if l.digits == [] {
      var status := l.InsertLast(0);
    }
  }

  /** Where stored_num's zero-skipping loop, started at index i, stops. */
  function SkipEnd(data: string, i: nat): (e: nat)
    requires i <= |data|
    ensures i <= e <= |data|
    decreases |data| - i
  {
    if i + 1 < |data| && data[i] == '0' then SkipEnd(data, i + 1) else i
  }

  /** The digits stored_num's copying loop appends for data[lo..hi]. */
  function DigitsBetween(data: string, lo: nat, hi: nat): (r: seq<int>)
    requires lo <= hi <= |data|
    decreases hi - lo
  {
    if hi == lo then [] else DigitsBetween(data, lo, hi - 1) + [data[hi - 1] as int - '0' as int]
  }

  lemma {:induction false} DigitsBetweenIsCharDigits(data: string, lo: nat, hi: nat)
    requires lo <= hi <= |data|
    ensures DigitsBetween(data, lo, hi) == CharDigits(data[lo..hi])
    decreases hi - lo
  {
    if hi > lo {
      DigitsBetweenIsCharDigits(data, lo, hi - 1);
      assert data[lo..hi] == data[lo..hi - 1] + [data[hi - 1]];
      CharDigitsSnoc(data[lo..hi - 1], data[hi - 1]);
    }
  }

  /** The zero-skipping loop passes only '0's, stops before the last character
      and before any '0' that is not last, and moves only if it can stop inside. */
  lemma {:induction false} SkipEndFacts(data: string, i: nat)
    requires i <= |data|
    ensures SkipEnd(data, i) < |data| || SkipEnd(data, i) == i
    ensures forall k :: i <= k < SkipEnd(data, i) ==> data[k] == '0'
    ensures !(SkipEnd(data, i) + 1 < |data| && data[SkipEnd(data, i)] == '0')
    decreases |data| - i
  {
    if i + 1 < |data| && data[i] == '0' {
      SkipEndFacts(data, i + 1);
    }
  }

  /** Both loops of stored_num together: the copied digits are the trimmed
      digits of the body, and they are empty only for an empty body. */
  lemma StoredNumLoops(data: string)
    ensures var first := if |data| > 0 && data[0] == '-' then 1 else 0;
            var copied := DigitsBetween(data, SkipEnd(data, first), |data|);
            StoredDigitsOf(data) == if copied == [] then [0] else copied
  {
    var first := if |data| > 0 && data[0] == '-' then 1 else 0;
    assert Body(data) == data[first..];
    CopiedDigits(data, first);
  }

  /** The digits copied after the zero-skipping loop started at `first` are
      the trimmed digits of data[first..], empty only when it is. */
  lemma CopiedDigits(data: string, first: nat)
    requires first <= |data|
    ensures var copied := DigitsBetween(data, SkipEnd(data, first), |data|);
            copied == Trim(CharDigits(data[first..])) && (copied == [] <==> first == |data|)
  {
    var e := SkipEnd(data, first);
    SkipEndFacts(data, first);
    DigitsBetweenIsCharDigits(data, e, |data|);
    SliceToEnd(data, e);
    SkipZerosAt(data, first, e);
  }

  /** A slice up to the length is the suffix. */
  lemma SliceToEnd(data: string, e: nat)
    requires e <= |data|
    ensures data[e..|data|] == data[e..]
  {
  }

  /** The list stored_num builds for a numeral: its trimmed digits, or [0] when
      nothing follows the sign. */
  function StoredDigitsOf(data: string): seq<int> {
    if Body(data) == [] then [0] else Trim(CharDigits(Body(data)))
  }

  /** The stored list is never NULL, denotes the numeral's magnitude, and is
      canonical whenever the numeral's body is decimal. */
  lemma StoredDigitsOfFacts(data: string)
    ensures |StoredDigitsOf(data)| >= 1
    ensures Value(StoredDigitsOf(data)) == Value(CharDigits(Body(data)))
    ensures AllDecimal(Body(data)) ==> Canonical(StoredDigitsOf(data))
  {
    var body := Body(data);
    if body == [] {
      assert Value([0]) == 0;
    } else {
      TrimValue(CharDigits(body));
      if AllDecimal(body) {
        DecimalCharDigits(body);
        TrimCanonical(CharDigits(body));
      }
    }
  }

  lemma DecimalCharDigits(text: string)
    requires AllDecimal(text)
    ensures IsDigits(CharDigits(text))
  {
    var d := CharDigits(text);
    forall k | 0 <= k < |d| ensures IsDigit(d[k]) {
      CharDigitsAt(text, k);
    }
  }

  lemma {:induction false} CharDigitsSnoc(text: string, c: char)
    ensures CharDigits(text + [c]) == CharDigits(text) + [c as int - '0' as int]
    decreases |text|
  {
    if text == [] {
      assert text + [c] == [c];
    } else {
      assert (text + [c])[1..] == text[1..] + [c];
      CharDigitsSnoc(text[1..], c);
    }
  }

  // ---------------------------------------------------------------------------
  // get_formatted_width

  /** The character printf("%d") writes for a digit. */
  function DigitChar(d: int): char
    requires IsDigit(d)
  {
    (d + '0' as int) as char
  }

  /** The digits as print_list_formatted writes them: a ',' after a digit whenever
      the number of digits still to come is a positive multiple of three. */
  function GroupedDigits(s: seq<int>): string
    requires IsDigits(s)
  {
    if s == [] then ""
    else [DigitChar(s[0])] + (if |s| > 1 && (|s| - 1) % 3 == 0 then "," else "") + GroupedDigits(s[1..])
  }

  /** What print_list_formatted writes for a list: "0" for a NULL list. */
  function FormattedText(s: seq<int>): string
    requires IsDigits(s)
  {
    if s == [] then "0" else GroupedDigits(s)
  }

  /** get_formatted_width: 1 for a NULL list, otherwise digits + commas + an optional minus. */
  function FormattedWidth(digits: seq<int>, hasMinus: bool): (w: int)
    ensures w >= 1
    ensures digits != [] ==> w >= |digits| + (if hasMinus then 1 else 0)
  {
    if digits == [] then 1
    else
      var count := |digits|;
      var commas := if count > 0 then (count - 1) / 3 else 0;
      count + commas + (if hasMinus then 1 else 0)
  }

  lemma {:induction false} GroupedDigitsLength(s: seq<int>)
    requires IsDigits(s) && |s| >= 1
    ensures |GroupedDigits(s)| == |s| + (|s| - 1) / 3
    decreases |s|
  {
    if |s| > 1 {
      GroupedDigitsLength(s[1..]);
    }
  }

  /** The width is the length of the text print_list_formatted writes, plus one
      for a minus sign; a NULL list is "0" and never gets the minus. */
  lemma FormattedWidthIsTextLength(digits: seq<int>, hasMinus: bool)
    requires IsDigits(digits)
    ensures FormattedWidth(digits, hasMinus)
            == |FormattedText(digits)| + (if hasMinus && digits != [] then 1 else 0)
  {
    if digits != [] {
      GroupedDigitsLength(digits);
    }
  }
}
