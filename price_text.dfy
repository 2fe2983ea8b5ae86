/** Price text: removing the currency symbol and thousands separators, and
    reading the cleaned text as a number the way `pd.to_numeric` does for a
    string (surrounding ASCII whitespace, an optional sign, digits with an
    optional decimal point, an optional exponent). */
module PriceText {
  import opened Wrappers

  // ---------------------------------------------------------------------------
  // Removing '$' and ','
  // ---------------------------------------------------------------------------

  /** The characters the loader removes from textual prices. */
  predicate IsSeparator(c: char) { c == '$' || c == ',' }

  predicate NoSeparators(s: string) {
    forall i :: 0 <= i < |s| ==> !IsSeparator(s[i])
  }

  /** `.str.replace('$', '').str.replace(',', '')`: every dollar sign and
      comma is removed, and nothing else. */
  function CleanPriceText(s: string): (r: string)
    ensures |r| <= |s|
    ensures NoSeparators(r)
  {
    if s == [] then []
    else (if IsSeparator(s[0]) then [] else [s[0]]) + CleanPriceText(s[1..])
  }

  /** Cleaning works piece by piece. */
  lemma {:induction false} CleanAppend(a: string, b: string)
    ensures CleanPriceText(a + b) == CleanPriceText(a) + CleanPriceText(b)
  {
    if a != [] {
      assert (a + b)[1..] == a[1..] + b;
      CleanAppend(a[1..], b);
    } else {
      assert a + b == b;
    }
  }

  /** A character other than '$' and ',' is kept, in its place between what
      the text before and after it clean to. */
  lemma CleanKeeps(a: string, c: char, b: string)
    requires !IsSeparator(c)
    ensures CleanPriceText(a + [c] + b) == CleanPriceText(a) + [c] + CleanPriceText(b)
  {
    CleanAppend(a + [c], b);
    CleanAppend(a, [c]);
  }

  /** A '$' or ',' is dropped wherever it stands. */
  lemma CleanDrops(a: string, c: char, b: string)
    requires IsSeparator(c)
    ensures CleanPriceText(a + [c] + b) == CleanPriceText(a) + CleanPriceText(b)
  {
    CleanAppend(a + [c], b);
    CleanAppend(a, [c]);
  }

  /** Text without '$' and ',' is left as it is. */
  lemma {:induction false} CleanLeavesClean(s: string)
    requires NoSeparators(s)
    ensures CleanPriceText(s) == s
  {
    if s != [] {
      CleanLeavesClean(s[1..]);
    }
  }

  /** Cleaning twice is cleaning once. */
  lemma CleanIdempotent(s: string)
    ensures CleanPriceText(CleanPriceText(s)) == CleanPriceText(s)
  {
    CleanLeavesClean(CleanPriceText(s));
  }

  /** `astype(str)` on a cell of a textual column: a text is kept, and a
      missing cell becomes "nan", a text without separators that reads as no
      number. */
  function AsText(cell: Option<string>): (r: string)
    ensures cell.Some? ==> r == cell.value
    ensures cell.None? ==> NoSeparators(r) && ParseNumber(r) == None
  {
    match cell
    case None => "nan"
    case Some(s) => s
  }

  // ---------------------------------------------------------------------------
  // Reading a number (pd.to_numeric on one string)
  // ---------------------------------------------------------------------------

  predicate IsDigit(c: char) { '0' <= c <= '9' }

  predicate AllDigits(s: string) {
    forall i :: 0 <= i < |s| ==> IsDigit(s[i])
  }

  function DigitOf(c: char): nat
    requires IsDigit(c)
  {
    c as int - '0' as int
  }

  /** The value of the digits `ds` read after the digits whose value is `acc`. */
  function DigitsFrom(acc: nat, ds: string): nat
    requires AllDigits(ds)
    decreases |ds|
  {
    if ds == [] then acc else DigitsFrom(acc * 10 + DigitOf(ds[0]), ds[1..])
  }

  /** The value of a string of decimal digits. */
  function DigitsValue(ds: string): nat
    requires AllDigits(ds)
  {
    DigitsFrom(0, ds)
  }

  lemma {:induction false} DigitsFromAppend(acc: nat, a: string, b: string)
    requires AllDigits(a) && AllDigits(b)
    ensures AllDigits(a + b)
    ensures DigitsFrom(acc, a + b) == DigitsFrom(DigitsFrom(acc, a), b)
    decreases |a|
  {
    if a != [] {
      assert (a + b)[1..] == a[1..] + b;
      DigitsFromAppend(acc * 10 + DigitOf(a[0]), a[1..], b);
    } else {
      assert a + b == b;
    }
  }

  /** The whitespace the number reader skips: space, tab, newline, vertical
      tab, form feed and carriage return. */
  predicate IsAsciiSpace(c: char) { c == ' ' || ('\t' <= c <= '\r') }

  /** x times ten to the power e. */
  function Scale(x: real, e: int): real
    decreases if e >= 0 then e else -e
  {
    if e == 0 then x
    else if e > 0 then 10.0 * Scale(x, e - 1)
    else Scale(x, e + 1) / 10.0
  }

  /** Where the reader is in a number: before it (skipping whitespace), after
      its sign, in the digits before the point, just after the point, in the
      digits after the point, after the exponent marker, after the exponent's
      sign, in the exponent's digits, and in the whitespace after it. */
  datatype Phase =
    | Leading | Signed | Whole | Point | Fraction
    | ExponentMark | ExponentSign | ExponentDigits | Trailing

  /** What the reader has seen so far: the phase, the sign, the value of all
      mantissa digits read as one integer, how many there were and how many
      of them came after the point, and the exponent's sign and value. */
  datatype Reader = Reader(
    phase: Phase, negative: bool, digits: nat, count: nat, fractionDigits: nat,
    exponentNegative: bool, exponent: nat)

  const Start := Reader(Leading, false, 0, 0, 0, false, 0)

  /** One character of the number; None when the text cannot be a number. */
  function Step(r: Reader, c: char): Option<Reader> {
    var digit := IsDigit(c);
    var mark := c == 'e' || c == 'E';
    match r.phase
    case Leading =>
      if IsAsciiSpace(c) then Some(r)
      else if c == '-' || c == '+' then Some(r.(phase := Signed, negative := c == '-'))
      else if digit then Some(r.(phase := Whole, digits := DigitOf(c), count := 1))
      else if c == '.' then Some(r.(phase := Point))
      else None
    case Signed =>
      if digit then Some(r.(phase := Whole, digits := DigitOf(c), count := 1))
      else if c == '.' then Some(r.(phase := Point))
      else None
    case Whole =>
      if digit then Some(r.(digits := r.digits * 10 + DigitOf(c), count := r.count + 1))
      else if c == '.' then Some(r.(phase := Point))
      else if mark then Some(r.(phase := ExponentMark))
      else if IsAsciiSpace(c) then Some(r.(phase := Trailing))
      else None
    case Point =>
      if digit then
        Some(r.(phase := Fraction, digits := r.digits * 10 + DigitOf(c),
                count := r.count + 1, fractionDigits := r.fractionDigits + 1))
      else if mark then Some(r.(phase := ExponentMark))
      else if IsAsciiSpace(c) then Some(r.(phase := Trailing))
      else None
    case Fraction =>
      if digit then
        Some(r.(digits := r.digits * 10 + DigitOf(c),
                count := r.count + 1, fractionDigits := r.fractionDigits + 1))
      else if mark then Some(r.(phase := ExponentMark))
      else if IsAsciiSpace(c) then Some(r.(phase := Trailing))
      else None
    case ExponentMark =>
      if c == '-' || c == '+' then Some(r.(phase := ExponentSign, exponentNegative := c == '-'))
      else if digit then Some(r.(phase := ExponentDigits, exponent := DigitOf(c)))
      else None
    case ExponentSign =>
      if digit then Some(r.(phase := ExponentDigits, exponent := DigitOf(c)))
      else None
    case ExponentDigits =>
      if digit then Some(r.(exponent := r.exponent * 10 + DigitOf(c)))
      else if IsAsciiSpace(c) then Some(r.(phase := Trailing))
      else None
    case Trailing =>
      if IsAsciiSpace(c) then Some(r) else None
  }

  /** Reads the whole of `s`, from the reader state `r`. */
  function Run(s: string, r: Reader): Option<Reader> {
    if s == [] then Some(r)
    else
      match Step(r, s[0])
      case None => None
      case Some(next) => Run(s[1..], next)
  }

  /** A text read to its end spells a number when it had a mantissa digit and
      did not stop inside a sign or an exponent. */
  predicate Complete(r: Reader) {
    r.count > 0 && r.phase !in {Leading, Signed, ExponentMark, ExponentSign}
  }

  /** The number a complete reading spells. */
  function ReaderValue(r: Reader): real {
    var e := (if r.exponentNegative then -(r.exponent as int) else r.exponent as int) - r.fractionDigits;
    var magnitude := Scale(r.digits as real, e);
    if r.negative then -magnitude else magnitude
  }

  /** `pd.to_numeric(..., errors='coerce')` on one string: the number it
      spells, or None (a missing value) when it spells none; text with no
      digit in it (an empty cell, "nan", "-", "$") spells none. */
  function ParseNumber(s: string): (n: Option<real>)
    ensures n.Some? ==> exists i :: 0 <= i < |s| && IsDigit(s[i])
  {
    ReadingNeedsDigit(s);
    match Run(s, Start)
    case Some(r) => if Complete(r) then Some(ReaderValue(r)) else None
    case None => None
  }

  /** Reading `a + b` is reading `a`, then `b` from where `a` left off. */
  lemma {:induction false} RunAppend(a: string, b: string, r: Reader)
    ensures Run(a + b, r) == match Run(a, r) case None => None case Some(m) => Run(b, m)
  {
    if a == [] {
      assert a + b == b;
    } else {
      assert (a + b)[1..] == a[1..] + b;
      match Step(r, a[0])
      case None =>
      case Some(next) => RunAppend(a[1..], b, next);
    }
  }

  /** Digits before the point accumulate into the mantissa. */
  lemma {:induction false} RunWholeDigits(ds: string, r: Reader)
    requires AllDigits(ds) && r.phase == Whole
    ensures Run(ds, r) == Some(r.(digits := DigitsFrom(r.digits, ds), count := r.count + |ds|))
  {
    if ds != [] {
      RunWholeDigits(ds[1..], r.(digits := r.digits * 10 + DigitOf(ds[0]), count := r.count + 1));
    }
  }

  /** Digits after the point accumulate into the mantissa and are counted as
      fraction digits. */
  lemma {:induction false} RunFractionDigits(ds: string, r: Reader)
    requires AllDigits(ds) && r.phase == Fraction
    ensures Run(ds, r) == Some(r.(digits := DigitsFrom(r.digits, ds), count := r.count + |ds|,
                                  fractionDigits := r.fractionDigits + |ds|))
  {
    if ds != [] {
      RunFractionDigits(ds[1..], r.(digits := r.digits * 10 + DigitOf(ds[0]),
                                    count := r.count + 1, fractionDigits := r.fractionDigits + 1));
    }
  }

  /** A reading over text without digits adds no mantissa digit. */
  lemma {:induction false} RunWithoutDigits(s: string, r: Reader)
    requires forall i :: 0 <= i < |s| ==> !IsDigit(s[i])
    ensures Run(s, r).Some? ==> Run(s, r).value.count == r.count
  {
    if s != [] {
      match Step(r, s[0])
      case None =>
      case Some(next) => RunWithoutDigits(s[1..], next);
    }
  }

  /** A reading that takes in a mantissa digit has read a digit. */
  lemma ReadingNeedsDigit(s: string)
    ensures Run(s, Start).Some? && Run(s, Start).value.count > 0 ==>
              exists i :: 0 <= i < |s| && IsDigit(s[i])
  {
    if forall i :: 0 <= i < |s| ==> !IsDigit(s[i]) {
      RunWithoutDigits(s, Start);
    }
  }

  /** A missing cell of a textual column stays missing: it is written as
      "nan", which cleans to itself and spells no number. */
  lemma MissingTextStaysMissing()
    ensures ParseNumber(CleanPriceText(AsText(None))) == None
  {
    CleanLeavesClean(AsText(None));
  }

  // ---------------------------------------------------------------------------
  // Written decimals and what they read back as
  // ---------------------------------------------------------------------------

  /** A decimal numeral: a sign, the digits before the point (at least one)
      and the digits after it (possibly none). */
  datatype Decimal = Decimal(negative: bool, whole: string, fraction: string)

  predicate ValidDecimal(d: Decimal) {
    |d.whole| > 0 && AllDigits(d.whole) && AllDigits(d.fraction)
  }

  function DecimalValue(d: Decimal): real
    requires ValidDecimal(d)
  {
    DigitsFromAppend(0, d.whole, d.fraction);
    var magnitude := Scale(DigitsValue(d.whole + d.fraction) as real, -(|d.fraction| as int));
    if d.negative then -magnitude else magnitude
  }

  /** The plain spelling: `-1234.50`. */
  function Render(d: Decimal): string {
    (if d.negative then "-" else "") + d.whole + (if d.fraction == [] then "" else "." + d.fraction)
  }

  /** Thousands separators inserted every three digits from the right: `1,234`. */
  function Grouped(ds: string): string {
    if |ds| <= 3 then ds else Grouped(ds[..|ds| - 3]) + "," + ds[|ds| - 3..]
  }

  /** The currency spelling found in price files: `-$1,234.50`. */
  function FormatPrice(d: Decimal): string {
    (if d.negative then "-" else "") + "$" + Grouped(d.whole)
    + (if d.fraction == [] then "" else "." + d.fraction)
  }

  /** The digits of a decimal, read after its sign, leave the reader in the
      digits before the point with their value. */
  lemma RunWhole(d: Decimal, r: Reader)
    requires ValidDecimal(d) && r.phase in {Leading, Signed} && r.count == 0
    ensures Run(d.whole, r) == Some(r.(phase := Whole, digits := DigitsValue(d.whole), count := |d.whole|))
  {
    var c := d.whole[0];
    var first := r.(phase := Whole, digits := DigitOf(c), count := 1);
    assert Step(r, c) == Some(first);
    RunWholeDigits(d.whole[1..], first);
  }

  /** A point and the fraction digits, read after the whole digits, leave the
      reader in a complete state holding all digits. */
  lemma RunPointFraction(fraction: string, r: Reader)
    requires AllDigits(fraction) && |fraction| > 0 && r.phase == Whole && r.fractionDigits == 0
    ensures Run("." + fraction, r)
      == Some(r.(phase := Fraction, digits := DigitsFrom(r.digits, fraction),
                 count := r.count + |fraction|, fractionDigits := |fraction|))
  {
    var p := r.(phase := Point);
    assert Run(".", r) == Some(p) by {
      assert Step(r, '.') == Some(p);
    }
    RunAppend(".", fraction, r);
    var c := fraction[0];
    var first := p.(phase := Fraction, digits := p.digits * 10 + DigitOf(c),
                    count := p.count + 1, fractionDigits := 1);
    assert Run(fraction, p) == Run(fraction[1..], first) by {
      assert Step(p, c) == Some(first);
    }
    RunFractionDigits(fraction[1..], first);
  }

  /** The reader's state after the sign of a decimal's spelling. */
  lemma RunSign(d: Decimal) returns (r: Reader)
    ensures Run(if d.negative then "-" else "", Start) == Some(r)
    ensures r.phase in {Leading, Signed} && r.count == 0 && r.negative == d.negative
    ensures r.digits == 0 && r.fractionDigits == 0 && !r.exponentNegative && r.exponent == 0
  {
    if d.negative {
      r := Start.(phase := Signed, negative := true);
      assert Step(Start, '-') == Some(r);
    } else {
      r := Start;
    }
  }

  /** The reader's state at the end of a decimal's plain spelling. */
  lemma RunRendered(d: Decimal) returns (r: Reader)
    requires ValidDecimal(d)
    ensures Run(Render(d), Start) == Some(r)
    ensures r.phase in {Whole, Fraction} && r.count == |d.whole| + |d.fraction|
    ensures r.negative == d.negative && !r.exponentNegative && r.exponent == 0
    ensures r.fractionDigits == |d.fraction| && AllDigits(d.whole + d.fraction)
    ensures r.digits == DigitsValue(d.whole + d.fraction)
  {
    var sign := if d.negative then "-" else "";
    var tail := if d.fraction == [] then "" else "." + d.fraction;
    assert Render(d) == sign + (d.whole + tail);
    var s := RunSign(d);
    RunAppend(sign, d.whole + tail, Start);
    RunWhole(d, s);
    var w := s.(phase := Whole, digits := DigitsValue(d.whole), count := |d.whole|);
    RunAppend(d.whole, tail, s);
    DigitsFromAppend(0, d.whole, d.fraction);
    if d.fraction == [] {
      assert d.whole + d.fraction == d.whole;
      r := w;
    } else {
      RunPointFraction(d.fraction, w);
      r := w.(phase := Fraction, digits := DigitsFrom(w.digits, d.fraction),
              count := w.count + |d.fraction|, fractionDigits := |d.fraction|);
    }
  }

  /** The plain spelling of a decimal reads back as its value. */
  lemma ParseRendered(d: Decimal)
    requires ValidDecimal(d)
    ensures ParseNumber(Render(d)) == Some(DecimalValue(d))
  {
    var r := RunRendered(d);
    assert Complete(r);
  }

  /** Removing '$' and ',' from the thousands-grouped digits gives the digits. */
  lemma {:induction false} CleanGrouped(ds: string)
    requires AllDigits(ds)
    ensures CleanPriceText(Grouped(ds)) == ds
  {
    if |ds| <= 3 {
      CleanLeavesClean(ds);
    } else {
      var front, back := ds[..|ds| - 3], ds[|ds| - 3..];
      assert Grouped(ds) == Grouped(front) + [','] + back;
      CleanDrops(Grouped(front), ',', back);
      CleanGrouped(front);
      CleanLeavesClean(back);
      assert front + back == ds;
    }
  }

  /** Cleaning the currency spelling of a decimal gives its plain spelling. */
  lemma CleanFormatted(d: Decimal)
    requires ValidDecimal(d)
    ensures CleanPriceText(FormatPrice(d)) == Render(d)
  {
    var sign := if d.negative then "-" else "";
    var tail := if d.fraction == [] then "" else "." + d.fraction;
    var grouped := Grouped(d.whole);
    assert FormatPrice(d) == (sign + "$") + grouped + tail;
    CleanAppend((sign + "$") + grouped, tail);
    CleanAppend(sign + "$", grouped);
    CleanAppend(sign, "$");
    CleanGrouped(d.whole);
    CleanLeavesClean(sign);
    CleanLeavesClean(tail);
    assert CleanPriceText(sign + "$") == sign;
    assert Render(d) == sign + d.whole + tail;
  }

  /** A price written with a currency symbol and thousands separators is
      cleaned to its plain spelling and reads back as its value. */
  lemma CurrencyRoundTrip(d: Decimal)
    requires ValidDecimal(d)
    ensures ParseNumber(CleanPriceText(FormatPrice(d))) == Some(DecimalValue(d))
  {
    CleanFormatted(d);
    ParseRendered(d);
  }

  /** "$1,234.50" is read as 1234.5. */
  lemma DollarPriceScenario()
    ensures ParseNumber(CleanPriceText("$1,234.50")) == Some(1234.5)
  {
    var d := Decimal(false, "1234", "50");
    DollarPriceSpelling();
    DollarPriceDigits();
    assert DecimalValue(d) == 1234.5 by {
      assert d.whole + d.fraction == "123450";
      assert Scale(123450.0, -2) == 1234.5;
    }
    CurrencyRoundTrip(d);
  }

  lemma DollarPriceSpelling()
    ensures FormatPrice(Decimal(false, "1234", "50")) == "$1,234.50"
  {
    assert Grouped("1234") == "1,234" by {
      assert "1234"[..1] == "1" && "1234"[1..] == "234";
    }
  }

  lemma DollarPriceDigits()
    ensures AllDigits("123450") && DigitsValue("123450") == 123450
  {
    var s := "123450";
    assert s[1..] == "23450" && s[1..][1..] == "3450" && s[1..][1..][1..] == "450";
    assert s[1..][1..][1..][1..] == "50" && s[1..][1..][1..][1..][1..] == "0";
    assert DigitsFrom(1234, "50") == 123450;
  }
}
