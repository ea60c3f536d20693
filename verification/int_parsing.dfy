/** Python's `int(s)` on a string, restricted to ASCII: surrounding spaces and
    the control characters tab to carriage return are stripped, then an optional sign and decimal digits follow, with single
    underscores allowed between digits. Anything else raises ValueError. */
module IntParsing {
  import opened PyRuntime
  import opened MaybeContainer

  /** The ASCII characters `int()` strips around a number: space and tab to
      carriage return. The separators 28..31 count as space for `str.isspace`
      but not here, so `int("\x1c7")` raises ValueError. */
  predicate IsSpace(c: char) {
    c == ' ' || ('\t' <= c <= '\r')
  }

  predicate IsDigit(c: char) { '0' <= c <= '9' }

  function DigitValue(c: char): nat
    requires IsDigit(c)
  {
    (c as int) - ('0' as int)
  }

  /** `s` without its leading space. */
  function StripLeft(s: string): (r: string)
    ensures |r| > 0 ==> !IsSpace(r[0])
    decreases |s|
  {
    if |s| > 0 && IsSpace(s[0]) then StripLeft(s[1..]) else s
  }

  /** `s` without its trailing space. */
  function StripRight(s: string): (r: string)
    ensures |r| > 0 ==> !IsSpace(r[|r| - 1])
    decreases |s|
  {
    if |s| > 0 && IsSpace(s[|s| - 1]) then StripRight(s[..|s| - 1]) else s
  }

  /** The stripping `int()` applies before it reads the number. */
  function Strip(s: string): string {
    StripRight(StripLeft(s))
  }

  /** `StripLeft` removes exactly the leading space: what it leaves is a
      suffix of `s` and everything cut off is space. */
  lemma {:induction false} StripLeftSpec(s: string)
    ensures |StripLeft(s)| <= |s| && StripLeft(s) == s[|s| - |StripLeft(s)|..]
    ensures forall i :: 0 <= i < |s| - |StripLeft(s)| ==> IsSpace(s[i])
    decreases |s|
  {
    if |s| > 0 && IsSpace(s[0]) {
      StripLeftSpec(s[1..]);
    }
  }

  /** `StripRight` removes exactly the trailing space: what it leaves is a
      prefix of `s` and everything cut off is space. */
  lemma {:induction false} StripRightSpec(s: string)
    ensures |StripRight(s)| <= |s| && StripRight(s) == s[..|StripRight(s)|]
    ensures forall i :: |StripRight(s)| <= i < |s| ==> IsSpace(s[i])
    decreases |s|
  {
    if |s| > 0 && IsSpace(s[|s| - 1]) {
      StripRightSpec(s[..|s| - 1]);
    }
  }

  /** `Strip(s)` is the slice of `s` after its `a` leading spaces, with only
      space after it and no space at either end of it. */
  lemma StripSlice(s: string) returns (a: nat)
    ensures a + |Strip(s)| <= |s| && Strip(s) == s[a..a + |Strip(s)|]
    ensures forall i :: 0 <= i < a ==> IsSpace(s[i])
    ensures forall i :: a + |Strip(s)| <= i < |s| ==> IsSpace(s[i])
    ensures |Strip(s)| > 0 ==> !IsSpace(Strip(s)[0]) && !IsSpace(Strip(s)[|Strip(s)| - 1])
  {
    var l := StripLeft(s);
    StripLeftSpec(s);
    StripRightSpec(l);
    a := |s| - |l|;
  }

  /** Only digits and underscores. */
  predicate DigitChars(s: string) {
    forall i :: 0 <= i < |s| ==> IsDigit(s[i]) || s[i] == '_'
  }

  /** Decimal digits, with single underscores allowed between two digits. */
  predicate DigitGroups(s: string) {
    && DigitChars(s)
    && |s| > 0
    && IsDigit(s[0])
    && IsDigit(s[|s| - 1])
    && forall i :: 0 <= i < |s| - 1 && s[i] == '_' ==> IsDigit(s[i + 1])
  }

  /** The value of a string of digits and underscores, the underscores ignored. */
  function DecimalValue(s: string): nat
    requires DigitChars(s)
    decreases |s|
  {
    if |s| == 0 then 0
    else if s[|s| - 1] == '_' then DecimalValue(s[..|s| - 1])
    else DecimalValue(s[..|s| - 1]) * 10 + DigitValue(s[|s| - 1])
  }

  /** `int(s)`. */
  function IntOf(s: string): (r: Outcome<int>)
    ensures r.Raised? ==> r.error == ValueError
  {
    var t := Strip(s);
    if |t| > 0 && (t[0] == '-' || t[0] == '+') && DigitGroups(t[1..]) then
      var n: int := DecimalValue(t[1..]);
      Returned(if t[0] == '-' then -n else n)
    else if DigitGroups(t) then Returned(DecimalValue(t))
    else Raised(ValueError)
  }

  /** `to_int_or_none(s)`: `int(s)` with its ValueError caught as `Nothing`. */
  function ToIntOrNone(s: string): (r: Maybe<int>)
    ensures r.Just? <==> IntOf(s).Returned?
    ensures r.Just? ==> r.value == IntOf(s).value
  {
    match IntOf(s)
    case Returned(n) => Just(n)
    case Raised(_) => Nothing
  }

  /** Python's `str(n)` for a natural number. */
  function ShowNat(n: nat): (r: string)
    ensures |r| > 0
    ensures forall i :: 0 <= i < |r| ==> IsDigit(r[i])
    decreases n
  {
    var d := ['0' + ((n % 10) as char)];
    if n < 10 then d else ShowNat(n / 10) + d
  }

  /** Python's `str(n)`. */
  function ShowInt(n: int): string {
    if n < 0 then "-" + ShowNat(-n) else ShowNat(n)
  }

  lemma {:induction false} DecimalValueOfShowNat(n: nat)
    ensures DecimalValue(ShowNat(n)) == n
    decreases n
  {
    var r := ShowNat(n);
    assert DigitValue(r[|r| - 1]) == n % 10;
    if n >= 10 {
      DecimalValueOfShowNat(n / 10);
      assert r[..|r| - 1] == ShowNat(n / 10);
    }
  }

  lemma StripUnchanged(s: string)
    requires |s| > 0 && !IsSpace(s[0]) && !IsSpace(s[|s| - 1])
    ensures Strip(s) == s
  {
  }

  /** Parsing what `str` prints gives the number back. */
  lemma {:induction false} IntOfShowInt(n: int)
    ensures IntOf(ShowInt(n)) == Returned(n)
    ensures ToIntOrNone(ShowInt(n)) == Just(n)
  {
    var digits := if n < 0 then ShowNat(-n) else ShowNat(n);
    DecimalValueOfShowNat(if n < 0 then -n else n);
    var s := ShowInt(n);
    StripUnchanged(s);
    assert DigitGroups(digits);
    if n < 0 {
      assert s[1..] == digits;
    }
  }

  /** Numbers of the pipeline examples. */
  lemma IntOfExamplesValid()
    ensures ToIntOrNone("10") == Just(10)
    ensures ToIntOrNone("20") == Just(20)
  {
    IntOfShowInt(10);
    IntOfShowInt(20);
    assert ShowInt(10) == "10" && ShowInt(20) == "20";
  }

  lemma IntOfExamplesSmall()
    ensures ToIntOrNone("7") == Just(7)
    ensures ToIntOrNone("-2") == Just(-2)
  {
    IntOfShowInt(7);
    IntOfShowInt(-2);
    assert ShowInt(7) == "7" && ShowInt(-2) == "-2";
  }

  /** A string without any digit raises ValueError, whatever space surrounds it. */
  lemma NoDigitRaises(s: string)
    requires forall i :: 0 <= i < |s| ==> !IsDigit(s[i])
    ensures ToIntOrNone(s) == Nothing
  {
    var t := Strip(s);
    var a := StripSlice(s);
    assert forall i :: 0 <= i < |t| ==> t[i] == s[a + i];
  }

  /** The separator characters 28..31 are not stripped: `int("\x1c7")` raises. */
  lemma IntOfExampleSeparator()
    ensures ToIntOrNone("\U{1C}7") == Nothing
    ensures ToIntOrNone("7\U{1F}") == Nothing
  {
    var s := "\U{1C}7";
    assert !IsSpace(s[0]) && !IsSpace(s[1]);
    StripUnchanged(s);
    assert !DigitGroups(s);
    var u := "7\U{1F}";
    assert !IsSpace(u[0]) && !IsSpace(u[1]);
    StripUnchanged(u);
    assert !DigitGroups(u);
  }

  lemma IntOfExamplesInvalid()
    ensures ToIntOrNone("-") == Nothing
    ensures ToIntOrNone("x") == Nothing
    ensures ToIntOrNone("oops") == Nothing
  {
    NoDigitRaises("-");
    NoDigitRaises("x");
    NoDigitRaises("oops");
  }

  /** A doubled underscore is rejected. */
  lemma IntOfExampleDoubleUnderscore()
    ensures ToIntOrNone("1__0") == Nothing
  {
    StripUnchanged("1__0");
    assert !DigitGroups("1__0") by {
      var u := "1__0";
      assert u[1] == '_' && !IsDigit(u[2]);
    }
  }

  /** Surrounding whitespace and single underscores are accepted. */
  lemma IntOfExampleUnderscores()
    ensures ToIntOrNone(" 1_000 ") == Just(1000)
  {
    assert StripLeft(" 1_000 ") == "1_000 ";
    assert StripRight("1_000 ") == "1_000";
    var t := "1_000";
    assert DigitGroups(t);
    assert t[..4] == "1_00" && t[..4][..3] == "1_0" && t[..4][..3][..2] == "1_" && t[..4][..3][..2][..1] == "1";
    assert DecimalValue("1") == 1;
    assert DecimalValue("1_") == 1;
    assert DecimalValue("1_0") == 10;
    assert DecimalValue("1_00") == 100;
    assert DecimalValue(t) == 1000;
  }
}
