/**
  Spreadsheet cell values as ExcelJS hands them to the application, and their
  rendering by a JavaScript template literal (`${value}`), which is how the
  reconciliation compares join keys and produces the tracking number.
 */
module Cells {
  import opened Wrappers

  /**
    A cell value. `Null` is an empty cell. Numbers are the integer-valued
    JavaScript numbers. `Formula` is the object ExcelJS returns for a formula
    cell: it carries the cached result, but nothing here unwraps it.
   */
  datatype Cell =
    | Null
    | Num(n: int)
    | Text(s: string)
    | Bool(b: bool)
    | Formula(formula: string, result: Cell)

  predicate IsDigit(c: char) {
    '0' <= c <= '9'
  }

  function DigitChar(d: nat): (c: char)
    requires d < 10
    ensures IsDigit(c)
  {
    (48 + d) as char
  }

  function DigitValue(c: char): (d: nat)
    requires IsDigit(c)
    ensures d < 10
  {
    c as int - 48
  }

  /** The decimal digits of `n`, most significant first, with no leading zero. */
  function Digits(n: nat): (s: string)
    ensures |s| > 0
    ensures forall i :: 0 <= i < |s| ==> IsDigit(s[i])
    ensures s[0] == '0' <==> n == 0
    decreases n
  {
    if n < 10 then [DigitChar(n)] else Digits(n / 10) + [DigitChar(n % 10)]
  }

  /** A non-empty run of decimal digits without a leading zero, except `0` itself. */
  predicate CanonicalDigits(s: string) {
    && |s| > 0
    && (forall i :: 0 <= i < |s| ==> IsDigit(s[i]))
    && (s[0] == '0' ==> |s| == 1)
  }

  /**
    The form in which JavaScript writes an integer: canonical digits, with a
    `-` only in front of a non-zero number.
   */
  predicate Canonical(s: string) {
    if |s| > 0 && s[0] == '-' then CanonicalDigits(s[1..]) && s[1] != '0'
    else CanonicalDigits(s)
  }

  /** An integer-valued number in decimal: optional `-`, then digits. */
  function Decimal(n: int): string {
    if n < 0 then "-" + Digits(-n) else Digits(n)
  }

  /** Reads back a non-empty run of decimal digits. */
  function ParseDigits(s: string): Option<nat> {
    if |s| == 0 || !IsDigit(s[|s| - 1]) then None
    else if |s| == 1 then Some(DigitValue(s[0]))
    else
      match ParseDigits(s[..|s| - 1])
      case None => None
      case Some(v) => Some(10 * v + DigitValue(s[|s| - 1]))
  }

  /** Reads back an optionally negative decimal integer. */
  function ParseDecimal(s: string): Option<int> {
    if |s| > 0 && s[0] == '-' then
      match ParseDigits(s[1..])
      case None => None
      case Some(v) => Some(-(v as int))
    else ParseDigits(s)
  }

  lemma {:induction false} DigitsRoundTrip(n: nat)
    ensures ParseDigits(Digits(n)) == Some(n)
    decreases n
  {
    if n >= 10 {
      DigitsRoundTrip(n / 10);
      var s := Digits(n);
      assert s[..|s| - 1] == Digits(n / 10);
    }
  }

  /** Canonical digits are the digits of the number they read back as. */
  lemma {:induction false} CanonicalDigitsUnique(s: string)
    requires CanonicalDigits(s)
    ensures ParseDigits(s).Some? && Digits(ParseDigits(s).value) == s
    decreases |s|
  {
    if |s| == 1 {
      assert Digits(DigitValue(s[0])) == [s[0]];
    } else {
      var init := s[..|s| - 1];
      assert init[0] == s[0] != '0';
      assert CanonicalDigits(init);
      CanonicalDigitsUnique(init);
      var v := ParseDigits(init).value;
      var d := DigitValue(s[|s| - 1]);
      assert v != 0;
      assert (10 * v + d) / 10 == v && (10 * v + d) % 10 == d;
      assert DigitChar(d) == s[|s| - 1];
      assert s == init + [s[|s| - 1]];
    }
  }

  /**
    Rendering a number loses nothing and yields JavaScript's form: the text is
    canonical and reads back as the same number.
   */
  lemma {:induction false} DecimalRoundTrip(n: int)
    ensures Canonical(Decimal(n))
    ensures ParseDecimal(Decimal(n)) == Some(n)
  {
    var s := Decimal(n);
    if n < 0 {
      DigitsRoundTrip(-n);
      assert s[1..] == Digits(-n);
    } else {
      DigitsRoundTrip(n);
      assert IsDigit(s[0]);
      assert n == 0 ==> s == [DigitChar(0)];
    }
  }

  /** The converse: a canonical text is the rendering of the number it reads back as. */
  lemma {:induction false} CanonicalIsDecimal(t: string)
    requires Canonical(t)
    ensures ParseDecimal(t).Some? && Decimal(ParseDecimal(t).value) == t
  {
    if t[0] == '-' {
      CanonicalDigitsUnique(t[1..]);
      var v := ParseDigits(t[1..]).value;
      assert v != 0;
      assert t == "-" + t[1..];
    } else {
      CanonicalDigitsUnique(t);
    }
  }

  /**
    `${value}` for a cell value. A number renders as its canonical decimal
    text; `null`, booleans and objects render as text that no number renders as.
   */
  function Render(c: Cell): (s: string)
    ensures c.Num? ==> Canonical(s) && ParseDecimal(s) == Some(c.n)
    ensures c.Text? ==> s == c.s
    ensures !c.Num? && !c.Text? ==> ParseDecimal(s).None?
  {
    match c
    case Null => "null"
    case Num(n) => DecimalRoundTrip(n); Decimal(n)
    case Text(s) => s
    case Bool(b) => if b then "true" else "false"
    case Formula(_, _) => "[object Object]"
  }

  /** Two numeric keys render equal exactly when they are the same number. */
  lemma NumKeysMatchIff(a: int, b: int)
    ensures Render(Num(a)) == Render(Num(b)) <==> a == b
  {
  }

  /**
    A number and a text render alike exactly when the text is the canonical
    decimal form of that number: 1001 matches "1001" but not "01001",
    "1001 " or "+1001".
   */
  lemma NumMatchesTextIff(t: string, n: int)
    ensures Render(Text(t)) == Render(Num(n)) <==> Canonical(t) && ParseDecimal(t) == Some(n)
  {
    if Canonical(t) && ParseDecimal(t) == Some(n) {
      CanonicalIsDecimal(t);
    }
  }

  /** The numeric key 1001 renders as "1001" and so matches that text, but not "01001". */
  lemma NumTextKeyExample()
    ensures Render(Num(1001)) == Render(Text("1001")) == "1001"
    ensures Render(Num(1001)) != Render(Text("01001"))
  {
  }

  /**
    A formula cell is not unwrapped: it never renders like its cached numeric
    result, so a formula-valued key never matches the number it displays.
   */
  lemma {:induction false} FormulaResultIgnored(f: string, n: int)
    ensures Render(Formula(f, Num(n))) != Render(Num(n))
  {
    var s := Decimal(n);
    if n >= 0 {
      assert IsDigit(s[0]);
    } else {
      assert s[0] == '-';
    }
    assert Render(Formula(f, Num(n)))[0] == '[';
  }

  /** All formula cells render alike, whatever their formula and cached result. */
  lemma FormulaKeysCollide(f1: string, r1: Cell, f2: string, r2: Cell)
    ensures Render(Formula(f1, r1)) == Render(Formula(f2, r2))
  {
  }
}
