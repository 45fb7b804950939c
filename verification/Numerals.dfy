/** Digit conversion, digit grouping and money printing of the storefront. */
module Numerals {
  import opened Wrappers

  const SEPARATOR: char := '\U{066C}'
  const DECIMAL_MARK: char := '\U{066B}'
  const TOMAN: string := " \U{062A}\U{0648}\U{0645}\U{0627}\U{0646}"
  const RIALS_PER_TOMAN: nat := 10

  predicate LatinDigit(c: char) { '0' <= c <= '9' }
  predicate PersianDigit(c: char) { '\U{06F0}' <= c <= '\U{06F9}' }
  predicate ArabicDigit(c: char) { '\U{0660}' <= c <= '\U{0669}' }

  function Persian(c: char): char {
    if LatinDigit(c) then '\U{06F0}' + (c - '0') else c
  }

  function LatinFromPersian(c: char): char {
    if PersianDigit(c) then '0' + (c - '\U{06F0}') else c
  }

  function LatinFromArabic(c: char): char {
    if ArabicDigit(c) then '0' + (c - '\U{0660}') else c
  }

  function Replace(s: string, f: char -> char): (r: string)
    ensures |r| == |s| && forall i :: 0 <= i < |s| ==> r[i] == f(s[i])
  {
    if s == [] then [] else [f(s[0])] + Replace(s[1..], f)
  }

  /** Convert Western digits to Persian digits. */
  function ToPersianDigits(input: string): string {
    Replace(input, Persian)
  }

  /** Convert Persian and then Arabic-Indic digits to Western digits. */
  function ToLatinDigits(input: string): string {
    Replace(Replace(input, LatinFromPersian), LatinFromArabic)
  }

  predicate WithoutEasternDigits(s: string) {
    forall c <- s :: !PersianDigit(c) && !ArabicDigit(c)
  }

  lemma LatinOfPersian(c: char)
    ensures LatinFromArabic(LatinFromPersian(Persian(c))) == c <==> !PersianDigit(c) && !ArabicDigit(c)
  {
  }

  /** Reading back what was converted gives the text exactly when it had no Eastern digits. */
  lemma LatinInvertsPersian(s: string)
    ensures ToLatinDigits(ToPersianDigits(s)) == s <==> WithoutEasternDigits(s)
  {
    hide Persian, LatinFromPersian, LatinFromArabic, PersianDigit, ArabicDigit;
    var r := ToLatinDigits(ToPersianDigits(s));
    forall i | 0 <= i < |s|
      ensures r[i] == s[i] <==> !PersianDigit(s[i]) && !ArabicDigit(s[i])
    {
      LatinOfPersian(s[i]);
    }
  }

  /** The value of a digit of any of the three scripts. */
  function AnyDigit(c: char): Option<nat> {
    if '0' <= c <= '9' then Some((c - '0') as nat)
    else if '\U{06F0}' <= c <= '\U{06F9}' then Some((c - '\U{06F0}') as nat)
    else if '\U{0660}' <= c <= '\U{0669}' then Some((c - '\U{0660}') as nat)
    else None
  }

  /** Conversion keeps every digit's value; the target script has them all, and the rest stays. */
  lemma ConversionKeepsDigits(s: string, i: nat)
    requires i < |s|
    ensures |ToPersianDigits(s)| == |s| && |ToLatinDigits(s)| == |s|
    ensures AnyDigit(ToPersianDigits(s)[i]) == AnyDigit(s[i]) && AnyDigit(ToLatinDigits(s)[i]) == AnyDigit(s[i])
    ensures !LatinDigit(ToPersianDigits(s)[i]) && (!LatinDigit(s[i]) ==> ToPersianDigits(s)[i] == s[i])
    ensures AnyDigit(s[i]).Some? ==> '0' <= ToLatinDigits(s)[i] <= '9'
    ensures AnyDigit(s[i]).None? ==> ToLatinDigits(s)[i] == s[i]
  {
  }

  predicate Digits(s: string) {
    s != [] && forall c <- s :: LatinDigit(c)
  }

  /** A digit with the separator that goes before it, given how many digits follow from it on. */
  function Mark(digit: char, first: bool, remaining: nat): string {
    if !first && remaining % 3 == 0 then [SEPARATOR, digit] else [digit]
  }

  /** A separator before every position but the first that a multiple of three digits follows. */
  function InsertSeparators(digits: string, p: nat): string
    requires p <= |digits|
    decreases |digits| - p
  {
    if p == |digits| then []
    else Mark(digits[p], p == 0, |digits| - p) + InsertSeparators(digits, p + 1)
  }

  /** Group an integer's digits in thousands; other text is left alone. */
  function GroupThousands(input: string): string
  {
    var negative := |input| > 0 && input[0] == '-';
    var digits := if negative then input[1..] else input;
    if !Digits(digits) then input
    else (if negative then "-" else "") + InsertSeparators(digits, 0)
  }

  function WithoutSeparators(s: string): string {
    if s == [] then []
    else (if s[0] == SEPARATOR then [] else [s[0]]) + WithoutSeparators(s[1..])
  }

  lemma {:induction false} RemovalDistributes(a: string, b: string)
    ensures WithoutSeparators(a + b) == WithoutSeparators(a) + WithoutSeparators(b)
  {
    if a == [] {
      assert a + b == b;
    } else {
      assert (a + b)[1..] == a[1..] + b;
      RemovalDistributes(a[1..], b);
    }
  }

  lemma MarkRemoved(digit: char, first: bool, remaining: nat)
    requires digit != SEPARATOR
    ensures WithoutSeparators(Mark(digit, first, remaining)) == [digit]
  {
    assert WithoutSeparators([digit]) == [digit] + WithoutSeparators([]);
    assert [SEPARATOR, digit][1..] == [digit];
  }

  lemma {:induction false} SeparatorsRemoved(digits: string, p: nat)
    requires p <= |digits| && SEPARATOR !in digits
    ensures WithoutSeparators(InsertSeparators(digits, p)) == digits[p..]
    decreases |digits| - p
  {
    if p < |digits| {
      MarkRemoved(digits[p], p == 0, |digits| - p);
      RemovalDistributes(Mark(digits[p], p == 0, |digits| - p), InsertSeparators(digits, p + 1));
      SeparatorsRemoved(digits, p + 1);
    }
  }

  predicate Integer(s: string) {
    Digits(s) || (|s| > 0 && s[0] == '-' && Digits(s[1..]))
  }

  /** Removing the separators undoes the grouping, on any text that has none of its own. */
  lemma UngroupInverts(s: string)
    requires SEPARATOR !in s
    ensures WithoutSeparators(GroupThousands(s)) == s
  {
    if Integer(s) {
      var negative := s[0] == '-';
      var digits := if negative then s[1..] else s;
      SeparatorsRemoved(digits, 0);
      RemovalDistributes(if negative then "-" else "", InsertSeparators(digits, 0));
      NothingToRemove(if negative then "-" else "");
    } else {
      NothingToRemove(s);
    }
  }

  lemma {:induction false} NothingToRemove(s: string)
    requires SEPARATOR !in s
    ensures WithoutSeparators(s) == s
  {
    if s != [] {
      NothingToRemove(s[1..]);
    }
  }

  /** Grouping from the right, three digits at a time. */
  function Groups(digits: string): string {
    if |digits| <= 3 then digits
    else Groups(digits[..|digits| - 3]) + ['\U{066C}'] + digits[|digits| - 3..]
  }

  lemma MarkShift(digit: char, first: bool, remaining: nat)
    requires remaining >= 3
    ensures Mark(digit, first, remaining) == Mark(digit, first, remaining - 3)
  {
  }

  /** Dropping three last digits leaves the marks of the others alone. */
  lemma {:induction false} SeparatorsOfPrefix(digits: string, p: nat)
    requires p + 3 < |digits|
    ensures InsertSeparators(digits, p)
         == InsertSeparators(digits[..|digits| - 3], p) + ([SEPARATOR] + digits[|digits| - 3..])
    decreases |digits| - p
  {
    hide *;
    var n := |digits| - 3;
    var front, last := digits[..n], [SEPARATOR] + digits[n..];
    var mark := SameMark(digits, front, p);
    if p + 1 < n {
      SeparatorsOfPrefix(digits, p + 1);
    } else {
      LastGroup(digits);
      NothingAtEnd(front);
    }
    assert mark + (InsertSeparators(front, p + 1) + last) == (mark + InsertSeparators(front, p + 1)) + last;
  }

  lemma SameMark(digits: string, front: string, p: nat) returns (mark: string)
    requires p < |front| && |digits| == |front| + 3 && front == digits[..|front|]
    ensures InsertSeparators(digits, p) == mark + InsertSeparators(digits, p + 1)
    ensures InsertSeparators(front, p) == mark + InsertSeparators(front, p + 1)
  {
    MarkShift(digits[p], p == 0, |digits| - p);
    hide Mark;
    mark := Mark(front[p], p == 0, |front| - p);
  }

  lemma NothingAtEnd(digits: string)
    ensures InsertSeparators(digits, |digits|) == []
  {
  }

  lemma LastMarks(digits: string, k: nat)
    requires 1 <= k <= 2 && k < |digits|
    ensures InsertSeparators(digits, |digits| - k) == digits[|digits| - k..]
    decreases k
  {
    if k == 2 {
      LastMarks(digits, 1);
    }
  }

  lemma LastGroup(digits: string)
    requires |digits| > 3
    ensures InsertSeparators(digits, |digits| - 3) == [SEPARATOR] + digits[|digits| - 3..]
  {
    LastMarks(digits, 2);
  }

  lemma ShortGroup(digits: string)
    requires |digits| <= 3
    ensures InsertSeparators(digits, 0) == digits
  {
    if |digits| > 1 {
      LastMarks(digits, |digits| - 1);
    }
  }

  /** The separators stand exactly every three digits from the right. */
  lemma {:induction false} GroupedByThousands(digits: string)
    ensures InsertSeparators(digits, 0) == Groups(digits)
  {
    if |digits| <= 3 {
      ShortGroup(digits);
    } else {
      SeparatorsOfPrefix(digits, 0);
      GroupedByThousands(digits[..|digits| - 3]);
    }
  }

  /**
   * Whole numbers, with or without a minus sign, are grouped every three digits from the right;
   * any other text is left as it is.
   */
  lemma GroupsExactly(s: string)
    ensures Digits(s) ==> GroupThousands(s) == Groups(s) && GroupThousands("-" + s) == "-" + Groups(s)
    ensures !Integer(s) ==> GroupThousands(s) == s
  {
    assert ("-" + s)[1..] == s;
    if Digits(s) {
      assert s[0] in s;
      GroupedByThousands(s);
      assert "" + Groups(s) == Groups(s);
    }
  }

  function DigitValue(c: char): nat
    requires LatinDigit(c)
  {
    (c - '0') as int
  }

  /** The number a string of digits denotes. */
  function Value(digits: string): nat
    requires forall c <- digits :: LatinDigit(c)
  {
    if digits == [] then 0
    else 10 * Value(digits[..|digits| - 1]) + DigitValue(digits[|digits| - 1])
  }

  /** The shortest digits of a number. */
  function Decimal(n: nat): (digits: string)
    ensures Digits(digits)
  {
    var last := '0' + (n % 10) as char;
    if n < 10 then [last] else Decimal(n / 10) + [last]
  }

  lemma {:induction false} ValueOfDecimal(n: nat)
    ensures Value(Decimal(n)) == n
  {
    var digits := Decimal(n);
    if n < 10 {
      assert digits[..|digits| - 1] == [];
    } else {
      assert digits[..|digits| - 1] == Decimal(n / 10);
      ValueOfDecimal(n / 10);
    }
  }

  /** What the printers are given: text, or a number with its text. */
  datatype Amount = Text(text: string) | Number(text: string, safeAndNotNegative: bool)

  /** A whole number grouped and in Persian digits. */
  function FormatPersianNumber(input: string): string {
    ToPersianDigits(GroupThousands(input))
  }

  /** A Rial amount in Toman, to the tenth. */
  function FormatToman(input: Amount): string
  {
    if (input.Number? && !input.safeAndNotNegative) || !Digits(input.text) then
      ToPersianDigits(input.text)
    else
      var rials := Value(input.text);
      var whole := FormatPersianNumber(Decimal(rials / RIALS_PER_TOMAN));
      var remainder := rials % RIALS_PER_TOMAN;
      var fraction := if remainder == 0 then "" else [DECIMAL_MARK] + ToPersianDigits(Decimal(remainder));
      whole + fraction + TOMAN
  }

  /** Reads a printed Toman amount back to Rials, for text made only of digits, marks and the unit. */
  function ReadToman(printed: string): Option<nat>
  {
    if |printed| < |TOMAN| || printed[|printed| - |TOMAN|..] != TOMAN then None
    else ReadNumber(WithoutSeparators(ToLatinDigits(printed[..|printed| - |TOMAN|])))
  }

  function ReadNumber(s: string): Option<nat>
  {
    if Digits(s) then Some(10 * Value(s))
    else if |s| >= 3 && s[|s| - 2] == DECIMAL_MARK && Digits(s[..|s| - 2]) && LatinDigit(s[|s| - 1]) then
      Some(10 * Value(s[..|s| - 2]) + DigitValue(s[|s| - 1]))
    else None
  }

  lemma {:induction false} ReplaceDistributes(a: string, b: string, f: char -> char)
    ensures Replace(a + b, f) == Replace(a, f) + Replace(b, f)
  {
  }

  lemma PrintedDigits(s: string)
    requires WithoutEasternDigits(s)
    ensures ToLatinDigits(ToPersianDigits(s)) == s
  {
    LatinInvertsPersian(s);
  }

  lemma {:induction false} GroupedHasNoEasternDigits(digits: string, p: nat)
    requires p <= |digits| && forall c <- digits :: LatinDigit(c)
    ensures WithoutEasternDigits(InsertSeparators(digits, p))
    decreases |digits| - p
  {
    if p < |digits| {
      var mark := Mark(digits[p], p == 0, |digits| - p);
      assert digits[p] in digits;
      assert forall c <- mark :: c == SEPARATOR || c == digits[p];
      GroupedHasNoEasternDigits(digits, p + 1);
    }
  }

  lemma PlainWithoutSeparators(whole: string, tail: string)
    requires SEPARATOR !in whole && SEPARATOR !in tail
    ensures WithoutSeparators(GroupThousands(whole) + tail) == whole + tail
  {
    RemovalDistributes(GroupThousands(whole), tail);
    UngroupInverts(whole);
    NothingToRemove(tail);
  }

  /** The tenth of a Toman that is left over, in Latin digits. */
  function Tail(rials: nat): string {
    if rials % 10 == 0 then "" else [DECIMAL_MARK] + Decimal(rials % 10)
  }

  function PlainToman(rials: nat): string {
    GroupThousands(Decimal(rials / 10)) + Tail(rials)
  }

  lemma PersianDistributes(a: string, b: string)
    ensures ToPersianDigits(a + b) == ToPersianDigits(a) + ToPersianDigits(b)
  {
    ReplaceDistributes(a, b, Persian);
  }

  lemma MarkStays()
    ensures ToPersianDigits([DECIMAL_MARK]) == [DECIMAL_MARK]
  {
    assert Persian(DECIMAL_MARK) == DECIMAL_MARK;
  }

  /** The printed amount is one conversion of its plain text. */
  lemma PrintedPlain(text: string)
    requires Digits(text)
    ensures FormatToman(Text(text)) == ToPersianDigits(PlainToman(Value(text))) + TOMAN
  {
    var rials := Value(text);
    hide Digits, GroupThousands, Decimal, Value, ToPersianDigits;
    var whole, remainder := GroupThousands(Decimal(rials / 10)), rials % 10;
    if remainder == 0 {
      assert whole + "" == whole;
      assert ToPersianDigits(whole) + "" == ToPersianDigits(whole);
    } else {
      PersianDistributes(whole, [DECIMAL_MARK] + Decimal(remainder));
      PersianDistributes([DECIMAL_MARK], Decimal(remainder));
      MarkStays();
    }
  }

  lemma PlainHasNoEasternDigits(rials: nat)
    ensures WithoutEasternDigits(PlainToman(rials))
  {
    var whole := Decimal(rials / 10);
    assert WithoutEasternDigits(Tail(rials)) by { hide Decimal, GroupThousands; }
    assert WithoutEasternDigits(GroupThousands(whole)) by {
      GroupedHasNoEasternDigits(whole, 0);
      hide Decimal;
      assert whole[0] in whole;
    }
    hide Decimal, GroupThousands, Tail;
  }

  lemma NoSeparators(rials: nat)
    ensures SEPARATOR !in Decimal(rials / 10) && SEPARATOR !in Tail(rials)
  {
    hide Decimal;
    assert !LatinDigit(SEPARATOR);
  }

  lemma ReadPlain(rials: nat)
    ensures ReadNumber(WithoutSeparators(PlainToman(rials))) == Some(rials)
  {
    var whole := Decimal(rials / 10);
    NoSeparators(rials);
    hide ReadNumber, Value, Decimal, Digits;
    PlainWithoutSeparators(whole, Tail(rials));
    ValueOfDecimal(rials / 10);
    if rials % 10 == 0 {
      assert whole + "" == whole;
      ReadWhole(whole);
    } else {
      ReadWithTenth(whole, rials % 10);
    }
  }

  lemma ReadWhole(whole: string)
    requires Digits(whole)
    ensures ReadNumber(whole) == Some(10 * Value(whole))
  {
  }

  lemma ReadWithTenth(whole: string, tenth: nat)
    requires Digits(whole) && tenth < 10
    ensures ReadNumber(whole + ([DECIMAL_MARK] + Decimal(tenth))) == Some(10 * Value(whole) + tenth)
  {
    var s := whole + ([DECIMAL_MARK] + Decimal(tenth));
    assert Decimal(tenth) == ['0' + tenth as char];
    assert DigitValue('0' + tenth as char) == tenth;
    hide Value, Decimal, DigitValue;
    assert s[..|s| - 2] == whole && s[|s| - 2] == DECIMAL_MARK;
    assert s[|s| - 1] == '0' + tenth as char;
    assert !Digits(s) by { assert s[|s| - 2] in s; }
  }

  lemma ReadSuffixed(plain: string)
    requires WithoutEasternDigits(plain)
    ensures ReadToman(ToPersianDigits(plain) + TOMAN) == ReadNumber(WithoutSeparators(plain))
  {
    PrintedDigits(plain);
    hide ToPersianDigits, ToLatinDigits, ReadNumber, WithoutSeparators, WithoutEasternDigits;
    var printed := ToPersianDigits(plain) + TOMAN;
    assert printed[..|printed| - |TOMAN|] == ToPersianDigits(plain);
    assert printed[|printed| - |TOMAN|..] == TOMAN;
  }

  /** Reading what was printed recovers the exact Rial value, for every string of digits. */
  lemma ReadInvertsFormat(text: string)
    requires Digits(text)
    ensures ReadToman(FormatToman(Text(text))) == Some(Value(text))
  {
    hide FormatToman, ReadToman, PlainToman, ReadNumber, WithoutEasternDigits, Value;
    PrintedPlain(text);
    PlainHasNoEasternDigits(Value(text));
    ReadSuffixed(PlainToman(Value(text)));
    ReadPlain(Value(text));
  }

  /** Amounts print the same exactly when they are the same number of Rials. */
  lemma FormatIsInjective(a: string, b: string)
    requires Digits(a) && Digits(b)
    ensures FormatToman(Text(a)) == FormatToman(Text(b)) <==> Value(a) == Value(b)
  {
    ReadInvertsFormat(a);
    ReadInvertsFormat(b);
  }

  /**
   * The printed amount: whole Tomans in Persian digits grouped every three, the tenth if there is
   * one, and the unit. Text that is not a number, and numbers that are negative or not safe, only
   * have their digits converted.
   */
  lemma TomanExactly(text: string)
    requires Digits(text)
    ensures var rials := Value(text);
      FormatToman(Text(text)) == FormatToman(Number(text, true))
      && FormatToman(Text(text))
         == ToPersianDigits(Groups(Decimal(rials / 10)))
            + (if rials % 10 == 0 then "" else ['\U{066B}'] + ToPersianDigits(Decimal(rials % 10)))
            + " \U{062A}\U{0648}\U{0645}\U{0627}\U{0646}"
  {
    var rials := Value(text);
    hide Digits, Value, Decimal, ToPersianDigits, Groups, GroupThousands;
    GroupsExactly(Decimal(rials / 10));
  }

  lemma OtherAmounts(text: string, safeAndNotNegative: bool)
    ensures !Digits(text) ==> FormatToman(Text(text)) == ToPersianDigits(text)
    ensures !Digits(text) || !safeAndNotNegative ==>
      FormatToman(Number(text, safeAndNotNegative)) == ToPersianDigits(text)
  {
  }
}
