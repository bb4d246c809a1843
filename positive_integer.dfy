/**
 * validate_positive_integer, the argparse type of the --sample_size,
 * --max_new_tokens and --batch_size options: Python's int() on the
 * argument string, then a check that the value is above zero.
 */
module PositiveInteger {
  import opened Results
  import opened Text

  /** argparse.ArgumentTypeError with its message. */
  datatype ArgumentTypeError = ArgumentTypeError(message: string)

  const InvalidPrefix: string := "Invalid integer value: "
  const NotPositivePrefix: string := "The input value must be positive, got "

  predicate IsDigit(c: char) {
    '0' <= c <= '9'
  }

  function DigitValue(c: char): (d: nat)
    requires IsDigit(c)
    ensures d < 10
  {
    c as int - '0' as int
  }

  function DigitChar(d: nat): (c: char)
    requires d < 10
    ensures IsDigit(c) && DigitValue(c) == d
  {
    ('0' as int + d) as char
  }

  /**
   * The whitespace int() skips around a number: Python whitespace except
   * U+001C..U+001F, which int() leaves in place (and then rejects).
   */
  predicate IntSpace(c: char) {
    IsSpace(c) && !('\U{1C}' <= c <= '\U{1F}')
  }

  /** `s` with the int() whitespace at both ends removed. */
  function TrimInt(s: string): string
    decreases |s|
  {
    if s != [] && IntSpace(s[0]) then TrimInt(s[1..])
    else if s != [] && IntSpace(s[|s| - 1]) then TrimInt(s[..|s| - 1])
    else s
  }

  /** Decimal digits in which a single underscore may stand between two digits. */
  predicate Digits(s: string) {
    s != [] && IsDigit(s[0]) && DigitsOrUnderscores(s) &&
    forall i :: 0 <= i < |s| && s[i] == '_' ==> i + 1 < |s| && IsDigit(s[i + 1])
  }

  /** Every character is a digit or an underscore. */
  predicate DigitsOrUnderscores(s: string) {
    forall i :: 0 <= i < |s| ==> IsDigit(s[i]) || s[i] == '_'
  }

  /** The number the digits of `s` spell, underscores skipped. */
  function DigitsValue(s: string): nat
    requires DigitsOrUnderscores(s)
  {
    if s == [] then 0
    else
      var init := DigitsValue(s[..|s| - 1]);
      if s[|s| - 1] == '_' then init else 10 * init + DigitValue(s[|s| - 1])
  }

  /** int(value) in base 10, or None where int() raises ValueError. */
  function ParseInt(value: string): Option<int> {
    var t := TrimInt(value);
    if t != [] && (t[0] == '+' || t[0] == '-') then
      if Digits(t[1..]) then
        var n: int := DigitsValue(t[1..]);
        Some(if t[0] == '-' then -n else n)
      else None
    else if Digits(t) then Some(DigitsValue(t))
    else None
  }

  /** str() of a natural number: its decimal digits, without leading zeros. */
  function Decimal(n: nat): (r: string)
    ensures r != [] && |r| <= n + 1
  {
    if n < 10 then [DigitChar(n)] else Decimal(n / 10) + [DigitChar(n % 10)]
  }

  /** str() of an integer. */
  function Render(n: int): string {
    if n < 0 then "-" + Decimal(-n) else Decimal(n)
  }

  /**
   * validate_positive_integer: the parsed value when it is above zero; an
   * ArgumentTypeError naming the value when it is zero or negative (raised
   * inside the try block, but not a ValueError, so it is not replaced); an
   * ArgumentTypeError naming the input when int() fails.
   */
  function ValidatePositiveInteger(value: string): (r: Result<int, ArgumentTypeError>)
    ensures r.Success? ==> r.value > 0
  {
    match ParseInt(value)
    case None => Failure(ArgumentTypeError(InvalidPrefix + value))
    case Some(n) =>
      if n <= 0 then Failure(ArgumentTypeError(NotPositivePrefix + Render(n)))
      else Success(n)
  }

  /** Trimming for int() only removes whitespace: every other character of s is still there. */
  lemma {:induction false} TrimIntKeeps(s: string, k: nat)
    requires k < |s| && !IntSpace(s[k])
    ensures s[k] in TrimInt(s)
    decreases |s|
  {
    if IntSpace(s[0]) {
      assert s[1..][k - 1] == s[k];
      TrimIntKeeps(s[1..], k - 1);
    } else if IntSpace(s[|s| - 1]) {
      assert s[..|s| - 1][k] == s[k];
      TrimIntKeeps(s[..|s| - 1], k);
    } else {
      assert TrimInt(s) == s;
    }
  }

  /**
   * A value holding a character that is not int() whitespace, a digit, a
   * sign or an underscore is no integer: it gets the "Invalid integer
   * value" message naming the whole input.
   */
  lemma RejectsForeignCharacter(value: string, k: nat)
    requires k < |value|
    requires !IntSpace(value[k]) && !IsDigit(value[k]) && value[k] != '_' && value[k] != '+' && value[k] != '-'
    ensures ValidatePositiveInteger(value) == Failure(ArgumentTypeError(InvalidPrefix + value))
  {
    var t := TrimInt(value);
    TrimIntKeeps(value, k);
    var j :| 0 <= j < |t| && t[j] == value[k];
    assert !DigitsOrUnderscores(t);
    if t != [] && (t[0] == '+' || t[0] == '-') {
      assert t[1..][j - 1] == t[j];
      assert !DigitsOrUnderscores(t[1..]);
    }
  }

  /** The three outcomes, by what int() makes of the input. */
  lemma ValidateOutcomes(value: string)
    ensures ValidatePositiveInteger(value).Success? <==> ParseInt(value).Some? && ParseInt(value).value > 0
    ensures ValidatePositiveInteger(value).Success? ==> ValidatePositiveInteger(value).value == ParseInt(value).value
    ensures ParseInt(value).None? ==>
              ValidatePositiveInteger(value) == Failure(ArgumentTypeError(InvalidPrefix + value))
    ensures ParseInt(value).Some? && ParseInt(value).value <= 0 ==>
              ValidatePositiveInteger(value) == Failure(ArgumentTypeError(NotPositivePrefix + Render(ParseInt(value).value)))
  {
  }

  /** Every character is a digit. */
  predicate AllDigits(s: string) {
    forall i :: 0 <= i < |s| ==> IsDigit(s[i])
  }

  /** The decimal rendering of n is made of digits and reads back as n. */
  lemma {:induction false} DecimalDigits(n: nat)
    ensures AllDigits(Decimal(n)) && DigitsValue(Decimal(n)) == n
  {
    if n >= 10 {
      DecimalDigits(n / 10);
      var r := Decimal(n);
      assert r[..|r| - 1] == Decimal(n / 10);
    }
  }

  /** Text without whitespace at its ends is left as it is. */
  lemma TrimIntTrimmed(s: string)
    requires s == [] || (!IntSpace(s[0]) && !IntSpace(s[|s| - 1]))
    ensures TrimInt(s) == s
  {
  }

  /** Neither end of str(n) is whitespace. */
  lemma RenderTrimmed(n: int)
    ensures Render(n) != [] && !IntSpace(Render(n)[0]) && !IntSpace(Render(n)[|Render(n)| - 1])
  {
    var d := Decimal(if n < 0 then -n else n);
    DecimalDigits(if n < 0 then -n else n);
    assert IsDigit(d[0]) && IsDigit(d[|d| - 1]);
  }

  /** str(n) reads back as n: int(str(n)) == n. */
  lemma ParseRender(n: int)
    ensures ParseInt(Render(n)) == Some(n)
  {
    var r := Render(n);
    var d := Decimal(if n < 0 then -n else n);
    DecimalDigits(if n < 0 then -n else n);
    assert Digits(d);
    if n < 0 {
      assert r[1..] == d;
    }
    RenderTrimmed(n);
    TrimIntTrimmed(r);
  }

  /** Every character is int() whitespace. */
  predicate AllIntSpace(w: string) {
    forall i :: 0 <= i < |w| ==> IntSpace(w[i])
  }

  /** TrimInt removes exactly the whitespace put around text with no whitespace at its ends. */
  lemma {:induction false} TrimIntPadding(w1: string, s: string, w2: string)
    requires AllIntSpace(w1) && AllIntSpace(w2)
    requires s == [] || (!IntSpace(s[0]) && !IntSpace(s[|s| - 1]))
    ensures TrimInt(w1 + s + w2) == s
    decreases |w1| + |w2|
  {
    var x := w1 + s + w2;
    if w1 != [] {
      assert x[0] == w1[0];
      assert x[1..] == w1[1..] + s + w2;
      assert TrimInt(x) == TrimInt(x[1..]);
      TrimIntPadding(w1[1..], s, w2);
    } else if s == [] && w2 != [] {
      assert x == w2;
      assert x[1..] == [] + [] + w2[1..];
      assert TrimInt(x) == TrimInt(x[1..]);
      TrimIntPadding([], [], w2[1..]);
    } else if w2 != [] {
      assert x[0] == s[0];
      assert x[|x| - 1] == w2[|w2| - 1];
      assert x[..|x| - 1] == [] + s + w2[..|w2| - 1];
      assert TrimInt(x) == TrimInt(x[..|x| - 1]);
      TrimIntPadding([], s, w2[..|w2| - 1]);
    } else {
      assert x == s;
      TrimIntTrimmed(s);
    }
  }

  /** int() ignores whitespace around a number. */
  lemma ParseIntPadded(w1: string, s: string, w2: string)
    requires AllIntSpace(w1) && AllIntSpace(w2)
    requires s == [] || (!IntSpace(s[0]) && !IntSpace(s[|s| - 1]))
    ensures ParseInt(w1 + s + w2) == ParseInt(s)
  {
    TrimIntPadding(w1, s, w2);
    TrimIntTrimmed(s);
  }

  /** A positive number, whitespace around it or not, is accepted and returned as it is. */
  lemma AcceptsPositive(w1: string, n: int, w2: string)
    requires n > 0 && AllIntSpace(w1) && AllIntSpace(w2)
    ensures ValidatePositiveInteger(w1 + Render(n) + w2) == Success(n)
  {
    RenderTrimmed(n);
    ParseIntPadded(w1, Render(n), w2);
    ParseRender(n);
  }

  /** Zero or a negative number is refused with a message that shows the number. */
  lemma RejectsNonPositive(w1: string, n: int, w2: string)
    requires n <= 0 && AllIntSpace(w1) && AllIntSpace(w2)
    ensures ValidatePositiveInteger(w1 + Render(n) + w2) ==
            Failure(ArgumentTypeError(NotPositivePrefix + Render(n)))
  {
    RenderTrimmed(n);
    ParseIntPadded(w1, Render(n), w2);
    ParseRender(n);
  }

  /** How many digits (not underscores) `s` has. */
  function DigitCount(s: string): nat {
    if s == [] then 0 else DigitCount(s[..|s| - 1]) + (if s[|s| - 1] == '_' then 0 else 1)
  }

  function Pow10(k: nat): (r: nat)
    ensures r >= 1
  {
    if k == 0 then 1 else 10 * Pow10(k - 1)
  }

  /** The digits of a + b spell a's number shifted left by b's digits, plus b's number. */
  lemma {:induction false} DigitsValueAppend(a: string, b: string)
    requires DigitsOrUnderscores(a) && DigitsOrUnderscores(b)
    ensures DigitsOrUnderscores(a + b)
    ensures DigitsValue(a + b) == DigitsValue(a) * Pow10(DigitCount(b)) + DigitsValue(b)
    decreases |b|
  {
    var x := a + b;
    assert DigitsOrUnderscores(x) by {
      forall i | 0 <= i < |x| ensures IsDigit(x[i]) || x[i] == '_' {
        if i >= |a| { assert x[i] == b[i - |a|]; }
      }
    }
    if b == [] {
      assert x == a;
    } else {
      var b' := b[..|b| - 1];
      assert x[..|x| - 1] == a + b';
      assert x[|x| - 1] == b[|b| - 1];
      assert DigitsOrUnderscores(b');
      DigitsValueAppend(a, b');
      if b[|b| - 1] != '_' {
        ShiftDigit(DigitsValue(a), Pow10(DigitCount(b')), DigitsValue(b'), DigitValue(b[|b| - 1]));
      }
    }
  }

  /** Appending digit d to the digits of va * p + vb: the step of DigitsValueAppend. */
  lemma ShiftDigit(va: int, p: int, vb: int, d: int)
    ensures 10 * (va * p + vb) + d == va * (10 * p) + (10 * vb + d)
  {
    assert 10 * (va * p) == va * (10 * p);
  }

  /** An underscore between digits does not change the number: int("1_000") == int("1000"). */
  lemma UnderscoreIgnored(a: string, b: string)
    requires DigitsOrUnderscores(a) && DigitsOrUnderscores(b)
    ensures DigitsOrUnderscores(a + "_" + b) && DigitsOrUnderscores(a + b)
    ensures DigitsValue(a + "_" + b) == DigitsValue(a + b)
  {
    DigitsValueAppend(a, "_");
    assert DigitsValue(a + "_") == DigitsValue(a) by {
      assert (a + "_")[..|a|] == a;
    }
    DigitsValueAppend(a + "_", b);
    DigitsValueAppend(a, b);
  }

  /** Leading zeros do not change the number: int("007") == 7. */
  lemma {:induction false} LeadingZeroIgnored(s: string)
    requires DigitsOrUnderscores(s)
    ensures DigitsOrUnderscores("0" + s) && DigitsValue("0" + s) == DigitsValue(s)
  {
    assert DigitsValue("0") == 0 by {
      assert "0"[..0] == [];
    }
    DigitsValueAppend("0", s);
  }

  /** A number with whitespace around it is accepted. */
  lemma PaddedExample()
    ensures ValidatePositiveInteger(" 42\n") == Success(42)
  {
    assert Render(42) == "42";
    AcceptsPositive(" ", 42, "\n");
    assert " " + "42" + "\n" == " 42\n";
  }

  /** Leading zeros are accepted. */
  lemma LeadingZerosExample()
    ensures ValidatePositiveInteger("007") == Success(7)
  {
    DecimalDigits(7);
    assert Decimal(7) == "7";
    LeadingZeroIgnored("7");
    LeadingZeroIgnored("07");
    assert "0" + "07" == "007" && "0" + "7" == "07";
    assert Digits("007");
    TrimIntTrimmed("007");
  }

  /** A negative number is refused as not positive, not as an invalid integer. */
  lemma NegativeExample()
    ensures ValidatePositiveInteger("-3") == Failure(ArgumentTypeError(NotPositivePrefix + "-3"))
  {
    assert Render(-3) == "-3";
    RejectsNonPositive("", -3, "");
    assert "" + "-3" + "" == "-3";
  }

  /** Text that is not a number is refused with the text itself in the message. */
  lemma NotANumberExample()
    ensures ValidatePositiveInteger("abc") == Failure(ArgumentTypeError(InvalidPrefix + "abc"))
  {
    TrimIntTrimmed("abc");
  }

  /** Two underscores in a row are not allowed. */
  lemma DoubleUnderscoreExample()
    ensures ValidatePositiveInteger("1__0") == Failure(ArgumentTypeError(InvalidPrefix + "1__0"))
  {
    var s := "1__0";
    TrimIntTrimmed(s);
    assert s[1] == '_' && s[2] == '_';
  }

  /** U+001C counts as whitespace for strip() but not for int(), which refuses it. */
  lemma FileSeparatorExample()
    ensures ValidatePositiveInteger("\U{1C}5") == Failure(ArgumentTypeError(InvalidPrefix + "\U{1C}5"))
  {
    var s := "\U{1C}5";
    TrimIntTrimmed(s);
    assert !IsDigit(s[0]);
  }
}
