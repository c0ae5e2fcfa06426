/** Numerals: what number a text stands for (section 6 of RFC 8259), and that the parser reads it as that number. */
module Numerals {
  import opened Basics
  import opened Json

  datatype Sign = NoSign | Plus | Minus

  /** The digits of `n`, which may have zeros before them. */
  datatype Exponent = Exponent(letter: char, sign: Sign, zeros: nat, n: nat)

  predicate AreDigits(ds: seq<nat>) { forall k :: 0 <= k < |ds| ==> ds[k] < 10 }

  /** A fraction has a point and any digits, which are given as numbers.  Behind a minus there may be a fraction
      alone. */
  datatype Numeral = Numeral(minus: bool, whole: Option<nat>, fraction: Option<seq<nat>>, exponent: Option<Exponent>) {
    predicate Proper() {
      && (fraction.Some? ==> AreDigits(fraction.value))
      && (whole.None? ==> minus && fraction.Some? && fraction.value != [])
      && (exponent.Some? ==> exponent.value.letter == 'e' || exponent.value.letter == 'E')
    }
  }

  // ----- The text of a numeral -----

  function DigitChars(ds: seq<nat>): string
    requires AreDigits(ds)
  {
    if ds == [] then [] else [Digit(ds[0])] + DigitChars(ds[1..])
  }

  function Zeros(k: nat): string { if k == 0 then [] else "0" + Zeros(k - 1) }

  function WholeText(w: Option<nat>): string { if w.None? then [] else Digits(w.value) }

  function FractionText(f: Option<seq<nat>>): string
    requires f.Some? ==> AreDigits(f.value)
  {
    if f.None? then [] else "." + DigitChars(f.value)
  }

  function SignText(sign: Sign): string {
    match sign
    case NoSign => ""
    case Plus => "+"
    case Minus => "-"
  }

  function ExponentText(e: Option<Exponent>): string {
    if e.None? then [] else [e.value.letter] + (SignText(e.value.sign) + (Zeros(e.value.zeros) + Digits(e.value.n)))
  }

  function UnsignedText(n: Numeral): string
    requires n.Proper()
  {
    WholeText(n.whole) + (FractionText(n.fraction) + ExponentText(n.exponent))
  }

  function NumeralText(n: Numeral): string
    requires n.Proper()
  {
    (if n.minus then "-" else "") + UnsignedText(n)
  }

  // ----- The number it stands for -----

  /** The value of digits behind a point. */
  function Tenths(ds: seq<nat>): real { if ds == [] then 0.0 else (ds[0] as real + Tenths(ds[1..])) / 10.0 }

  /** Times ten `e` times, or divided by ten. */
  function Scaled(x: real, e: int): real
    decreases if e < 0 then -e else e
  {
    if e == 0 then x else if e > 0 then Scaled(10.0 * x, e - 1) else Scaled(x / 10.0, e + 1)
  }

  function WholeOf(w: Option<nat>): nat { if w.None? then 0 else w.value }

  function FractionOf(f: Option<seq<nat>>): real { if f.None? then 0.0 else Tenths(f.value) }

  function PowerOf(e: Option<Exponent>): int {
    if e.None? then 0 else if e.value.sign.Minus? then 0 - e.value.n as int else e.value.n
  }

  function NumberOf(n: Numeral): real {
    var x := Scaled(WholeOf(n.whole) as real + FractionOf(n.fraction), PowerOf(n.exponent));
    if n.minus then -x else x
  }

  // ----- Digits -----

  lemma DigitIsDigit(d: nat)
    requires d < 10
    ensures IsDigit(Digit(d)) && DigitValue(Digit(d)) == d && (Digit(d) == '0' <==> d == 0)
  {
  }

  lemma {:induction false} DigitsAreTheNumber(n: nat)
    ensures Digits(n) != [] && AllDigits(Digits(n)) && DigitsValue(Digits(n)) == n
    ensures Digits(n)[0] == '0' <==> n == 0
    ensures n == 0 ==> |Digits(n)| == 1
  {
    DigitIsDigit(n % 10);
    if n >= 10 {
      DigitsAreTheNumber(n / 10);
      var t := Digits(n / 10);
      assert (t + [Digit(n % 10)])[..|t|] == t;
    } else {
      assert Digits(n)[..0] == [];
    }
  }

  lemma {:induction false} CharsAreDigits(ds: seq<nat>)
    requires AreDigits(ds)
    ensures AllDigits(DigitChars(ds)) && |DigitChars(ds)| == |ds|
  {
    if ds != [] {
      DigitIsDigit(ds[0]);
      CharsAreDigits(ds[1..]);
    }
  }

  lemma {:induction false} ZerosAreDigits(k: nat)
    ensures AllDigits(Zeros(k))
  {
    if k > 0 { ZerosAreDigits(k - 1); }
  }

  /** A digit counts as much as there are digits behind it. */
  lemma {:induction false} ValueOfFirst(c: char, t: string)
    requires IsDigit(c) && AllDigits(t)
    ensures AllDigits([c] + t)
    ensures DigitsValue([c] + t) as real == Shifted(DigitValue(c) as real, |t|) + DigitsValue(t) as real
    decreases |t|
  {
    var w := [c] + t;
    if t == [] {
      assert w[..0] == [];
    } else {
      var init, d := t[..|t| - 1], DigitValue(t[|t| - 1]);
      assert w[..|w| - 1] == [c] + init && w[|w| - 1] == t[|t| - 1];
      ValueOfFirst(c, init);
      assert DigitsValue(w) == DigitsValue([c] + init) * 10 + d && DigitsValue(t) == DigitsValue(init) * 10 + d;
    }
  }

  lemma {:induction false} ZerosCountNothing(k: nat, t: string)
    requires AllDigits(t)
    ensures AllDigits(Zeros(k) + t) && DigitsValue(Zeros(k) + t) == DigitsValue(t)
  {
    if k == 0 {
      assert Zeros(0) + t == t;
    } else {
      ZerosCountNothing(k - 1, t);
      assert Zeros(k) + t == ['0'] + (Zeros(k - 1) + t);
      ValueOfFirst('0', Zeros(k - 1) + t);
      ShiftedNothing(|Zeros(k - 1) + t|);
    }
  }

  lemma {:induction false} ShiftedSum(x: real, y: real, e: int)
    requires e <= 0
    ensures Shifted(x + y, e) == Shifted(x, e) + Shifted(y, e)
    decreases -e
  {
    if e < 0 { ShiftedSum(x, y, e + 1); }
  }

  lemma {:induction false} ShiftedTen(x: real, e: int)
    ensures Shifted(10.0 * x, e) == 10.0 * Shifted(x, e)
    decreases if e < 0 then -e else e
  {
    if e != 0 { ShiftedTen(x, if e < 0 then e + 1 else e - 1); }
  }

  lemma {:induction false} ShiftedIsScaled(x: real, e: int)
    ensures Shifted(x, e) == Scaled(x, e)
    decreases if e < 0 then -e else e
  {
    if e > 0 {
      ShiftedIsScaled(10.0 * x, e - 1);
      ShiftedTen(x, e - 1);
    } else if e < 0 {
      ShiftedIsScaled(x / 10.0, e + 1);
      ShiftedTen(x / 10.0, e + 1);
      assert 10.0 * (x / 10.0) == x;
    }
  }

  lemma {:induction false} ShiftedBack(x: real, n: nat)
    ensures Shifted(Shifted(x, n), -1 - n) == x / 10.0
  {
    if n > 0 {
      ShiftedBack(x, n - 1);
      ShiftedTen(Shifted(x, n - 1), -1 - n);
    }
  }

  lemma {:induction false} ShiftedNothing(n: nat)
    ensures Shifted(0.0, n) == 0.0
  {
    if n > 0 { ShiftedNothing(n - 1); }
  }

  lemma {:induction false} CharsAreTenths(ds: seq<nat>)
    requires AreDigits(ds)
    ensures AllDigits(DigitChars(ds)) && Shifted(DigitsValue(DigitChars(ds)) as real, 0 - |ds|) == Tenths(ds)
    decreases |ds|
  {
    CharsAreDigits(ds);
    if ds != [] {
      var rest, n := DigitChars(ds[1..]), |ds| - 1;
      CharsAreTenths(ds[1..]);
      CharsAreDigits(ds[1..]);
      DigitIsDigit(ds[0]);
      ValueOfFirst(Digit(ds[0]), rest);
      ShiftedSum(Shifted(ds[0] as real, n), DigitsValue(rest) as real, -1 - n);
      ShiftedBack(ds[0] as real, n);
    }
  }

  lemma WholeIsDigits(w: Option<nat>)
    ensures AllDigits(WholeText(w)) && DigitsValue(WholeText(w)) == WholeOf(w)
    ensures w.Some? ==> WholeText(w) != [] && (WholeText(w)[0] == '0' <==> w.value == 0)
    ensures w == Some(0) ==> |WholeText(w)| == 1
  {
    if w.Some? { DigitsAreTheNumber(w.value); }
  }

  // ----- Reading -----

  /** What may follow a number in a list or an object. */
  predicate Ends(c: char) { IsSpace(c) || c == ',' || c == ']' || c == '}' }

  lemma {:induction false} SkipAllDigits(s: string, i: nat, t: string)
    requires Starts(s, i, t) && AllDigits(t) && !IsDigit(At(s, i + |t|))
    ensures SkipDigits(s, i) == i + |t|
    decreases |t|
  {
    if t != [] {
      assert t == [t[0]] + t[1..];
      StartsWithFirst(s, i, [t[0]], t[1..]);
      SkipAllDigits(s, i + 1, t[1..]);
    }
  }

  lemma DigitsAreRead(s: string, i: nat, t: string, end: nat)
    requires Starts(s, i, t) && AllDigits(t) && end == i + |t| && !IsDigit(At(s, end))
    ensures SkipDigits(s, i) == end && DigitsFrom(s, i) == DigitsValue(t)
  {
    StartsIff(s, i, t);
    SkipAllDigits(s, i, t);
  }

  lemma WholeMantissa(s: string, i: nat, end: nat)
    requires i < end <= |s| && SkipDigits(s, i) == end && !IsPoint(s, end)
    ensures MantissaEnd(s, i) == end && MantissaValue(s, i) == DigitsFrom(s, i) as real
  {
  }

  lemma PointedMantissa(s: string, i: nat, point: nat, end: nat)
    requires i <= point < end <= |s| && SkipDigits(s, i) == point && IsPoint(s, point)
    requires SkipDigits(s, point + 1) == end && (i < point || point + 1 < end)
    ensures MantissaEnd(s, i) == end
    ensures MantissaValue(s, i) == DigitsFrom(s, i) as real + Shifted(DigitsFrom(s, point + 1) as real, point + 1 - end)
  {
  }

  lemma PointIsRead(s: string, i: nat, d: string, f: string, point: nat, end: nat)
    requires AllDigits(d) && d + f != [] && AllDigits(f) && Starts(s, i, d) && Starts(s, point, "." + f)
    requires point == i + |d| && end == point + 1 + |f| && !IsDigit(At(s, end))
    ensures i <= |s| && MantissaEnd(s, i) == end
    ensures MantissaValue(s, i) == DigitsValue(d) as real + Shifted(DigitsValue(f) as real, 0 - |f|)
  {
    StartsWithFirst(s, point, ".", f);
    DigitsAreRead(s, point + 1, f, end);
    DigitsAreRead(s, i, d, point);
    PointedMantissa(s, i, point, end);
  }

  lemma NoPointIsRead(s: string, i: nat, d: string, end: nat)
    requires AllDigits(d) && d != [] && Starts(s, i, d) && end == i + |d| && !IsDigit(At(s, end)) && At(s, end) != '.'
    ensures i <= |s| && MantissaEnd(s, i) == end && MantissaValue(s, i) == DigitsValue(d) as real
  {
    DigitsAreRead(s, i, d, end);
    WholeMantissa(s, i, end);
  }

  lemma FractionIsRead(s: string, i: nat, whole: Option<nat>, f: Option<seq<nat>>, point: nat, end: nat)
    requires (f.Some? ==> AreDigits(f.value)) && (whole.None? ==> f.Some? && f.value != [])
    requires Starts(s, i, WholeText(whole)) && Starts(s, point, FractionText(f))
    requires point == i + |WholeText(whole)| && end == point + |FractionText(f)|
    requires !IsDigit(At(s, end)) && At(s, end) != '.'
    ensures MantissaEnd(s, i) == end && MantissaValue(s, i) == WholeOf(whole) as real + FractionOf(f)
  {
    hide MantissaEnd, MantissaValue, Starts, Digits, AllDigits, Shifted;
    WholeIsDigits(whole);
    if f.Some? {
      CharsAreDigits(f.value);
      CharsAreTenths(f.value);
      PointIsRead(s, i, WholeText(whole), DigitChars(f.value), point, end);
    } else {
      NoPointIsRead(s, i, WholeText(whole), end);
    }
  }

  lemma SignIsSkipped(s: string, i: nat, sign: Sign, t: string)
    requires Starts(s, i, SignText(sign) + t) && t != [] && IsDigit(t[0])
    ensures Starts(s, i + |SignText(sign)|, t)
    ensures (At(s, i) == '+' <==> sign.Plus?) && (At(s, i) == '-' <==> sign.Minus?)
    ensures IsDigit(At(s, i + |SignText(sign)|))
  {
    StartsWithFirst(s, i, SignText(sign), t);
  }

  lemma NoExponent(s: string, i: nat)
    requires i <= |s| && At(s, i) != 'e' && At(s, i) != 'E'
    ensures ExponentEnd(s, i, "eE") == i && ExponentValue(s, i) == 0
  {
  }

  lemma ExponentAt(s: string, i: nat, sign: Sign, end: nat)
    requires i < |s| && (s[i] == 'e' || s[i] == 'E')
    requires (At(s, i + 1) == '+' <==> sign.Plus?) && (At(s, i + 1) == '-' <==> sign.Minus?)
    requires var digits := i + 1 + |SignText(sign)|; IsDigit(At(s, digits)) && SkipDigits(s, digits) == end
    ensures ExponentEnd(s, i, "eE") == end
    ensures var n: int := DigitsFrom(s, i + 1 + |SignText(sign)|); ExponentValue(s, i) == if sign.Minus? then -n else n
  {
  }

  lemma PowerIsRead(s: string, i: nat, sign: Sign, t: string, digits: nat, end: nat)
    requires AllDigits(t) && t != [] && Starts(s, i, SignText(sign) + t)
    requires digits == i + |SignText(sign)| && end == digits + |t| && !IsDigit(At(s, end))
    ensures (At(s, i) == '+' <==> sign.Plus?) && (At(s, i) == '-' <==> sign.Minus?)
    ensures IsDigit(At(s, digits)) && digits <= |s|
    ensures SkipDigits(s, digits) == end && DigitsFrom(s, digits) == DigitsValue(t)
  {
    SignIsSkipped(s, i, sign, t);
    DigitsAreRead(s, digits, t, end);
  }

  lemma SomeExponentIsRead(s: string, i: nat, letter: char, sign: Sign, t: string, end: nat)
    requires (letter == 'e' || letter == 'E') && AllDigits(t) && t != []
    requires Starts(s, i, [letter] + (SignText(sign) + t))
    requires end == i + 1 + |SignText(sign)| + |t| && !IsDigit(At(s, end))
    ensures i < |s| && ExponentEnd(s, i, "eE") == end
    ensures ExponentValue(s, i) == if sign.Minus? then 0 - DigitsValue(t) as int else DigitsValue(t)
  {
    StartsWithFirst(s, i, [letter], SignText(sign) + t);
    PowerIsRead(s, i + 1, sign, t, i + 1 + |SignText(sign)|, end);
    ExponentAt(s, i, sign, end);
  }

  lemma ExponentIsRead(s: string, i: nat, e: Option<Exponent>, end: nat)
    requires i <= |s| && Starts(s, i, ExponentText(e)) && end == i + |ExponentText(e)| && Ends(At(s, end))
    requires e.Some? ==> e.value.letter == 'e' || e.value.letter == 'E'
    ensures ExponentEnd(s, i, "eE") == end && ExponentValue(s, i) == PowerOf(e)
  {
    if e.Some? {
      DigitsAreTheNumber(e.value.n);
      ZerosCountNothing(e.value.zeros, Digits(e.value.n));
      SomeExponentIsRead(s, i, e.value.letter, e.value.sign, Zeros(e.value.zeros) + Digits(e.value.n), end);
    } else {
      NoExponent(s, i);
    }
  }

  /** A digit, or a point and a digit. */
  predicate BeginsNumber(s: string, i: nat) { IsDigit(At(s, i)) || (IsPoint(s, i) && IsDigit(At(s, i + 1))) }

  lemma NotHexadecimal(s: string, i: nat, n: Numeral, end: nat)
    requires n.Proper() && Starts(s, i, UnsignedText(n)) && end == i + |UnsignedText(n)| && Ends(At(s, end))
    ensures !IsHexadecimal(s, i)
  {
    var d, t := WholeText(n.whole), FractionText(n.fraction) + ExponentText(n.exponent);
    WholeIsDigits(n.whole);
    StartsWithFirst(s, i, d, t);
    if d != [] && d[0] == '0' { assert At(s, i + 1) == if t == [] then At(s, end) else t[0]; }
  }

  lemma DecimalEnd(s: string, i: nat)
    requires i <= |s| && BeginsNumber(s, i) && !IsHexadecimal(s, i)
    ensures NumberEnd(s, i) == ExponentEnd(s, MantissaEnd(s, i), "eE")
  {
    NoWordAtDigit(s, i);
  }

  lemma AfterFraction(s: string, power: nat, e: Option<Exponent>, end: nat)
    requires Starts(s, power, ExponentText(e)) && end == power + |ExponentText(e)| && Ends(At(s, end))
    requires e.Some? ==> e.value.letter == 'e' || e.value.letter == 'E'
    ensures !IsDigit(At(s, power)) && At(s, power) != '.'
  {
    if e.Some? { assert At(s, power) == ExponentText(e)[0]; }
  }

  lemma UnsignedParts(s: string, i: nat, n: Numeral, point: nat, power: nat, end: nat)
    requires n.Proper() && Starts(s, i, UnsignedText(n)) && end == i + |UnsignedText(n)| && Ends(At(s, end))
    requires point == i + |WholeText(n.whole)| && power == point + |FractionText(n.fraction)|
    ensures Starts(s, i, WholeText(n.whole)) && Starts(s, point, FractionText(n.fraction))
    ensures Starts(s, power, ExponentText(n.exponent)) && end == power + |ExponentText(n.exponent)|
    ensures BeginsNumber(s, i) && !IsDigit(At(s, power)) && At(s, power) != '.'
    ensures n.whole.Some? ==> IsDigit(At(s, i))
  {
    WholeIsDigits(n.whole);
    StartsWithFirst(s, i, WholeText(n.whole), FractionText(n.fraction) + ExponentText(n.exponent));
    StartsWithFirst(s, point, FractionText(n.fraction), ExponentText(n.exponent));
    AfterFraction(s, power, n.exponent, end);
  }

  /** The number behind the sign is all read, and rightly. */
  lemma UnsignedIsRead(s: string, i: nat, n: Numeral, end: nat)
    requires n.Proper() && Starts(s, i, UnsignedText(n)) && end == i + |UnsignedText(n)| && Ends(At(s, end))
    ensures BeginsNumber(s, i) && !IsHexadecimal(s, i) && NumberEnd(s, i) == end
    ensures MantissaValue(s, i) == WholeOf(n.whole) as real + FractionOf(n.fraction)
    ensures ExponentValue(s, MantissaEnd(s, i)) == PowerOf(n.exponent)
  {
    var point := i + |WholeText(n.whole)|;
    var power := point + |FractionText(n.fraction)|;
    UnsignedParts(s, i, n, point, power, end);
    FractionIsRead(s, i, n.whole, n.fraction, point, power);
    ExponentIsRead(s, power, n.exponent, end);
    NotHexadecimal(s, i, n, end);
    DecimalEnd(s, i);
  }

  // ----- Which numerals are refused -----

  /** A zero before an exponent is taken for one before other digits. */
  predicate Accepted(n: Numeral) { !(n.whole == Some(0) && n.fraction.None? && n.exponent.Some?) }

  predicate NoX(t: string) { forall k :: 0 <= k < |t| ==> t[k] != 'x' && t[k] != 'X' }

  lemma DigitsHaveNoX(t: string)
    requires AllDigits(t)
    ensures NoX(t)
  {
  }

  lemma BothHaveNoX(t: string, u: string)
    ensures NoX(t + u) <==> NoX(t) && NoX(u)
  {
    if NoX(t + u) {
      assert forall k :: 0 <= k < |t| ==> t[k] == (t + u)[k];
      assert forall k :: 0 <= k < |u| ==> u[k] == (t + u)[|t| + k];
    }
  }

  lemma FractionHasNoX(f: Option<seq<nat>>)
    requires f.Some? ==> AreDigits(f.value)
    ensures NoX(FractionText(f))
  {
    if f.Some? {
      CharsAreDigits(f.value);
      DigitsHaveNoX(DigitChars(f.value));
    }
  }

  lemma BeforeDigitsHasNoX(letter: char, sign: Sign)
    requires letter == 'e' || letter == 'E'
    ensures NoX([letter]) && NoX(SignText(sign))
  {
  }

  lemma ExponentHasNoX(e: Option<Exponent>)
    requires e.Some? ==> e.value.letter == 'e' || e.value.letter == 'E'
    ensures NoX(ExponentText(e))
  {
    if e.Some? {
      hide Zeros, Digits, AllDigits, NoX;
      var sign, t := SignText(e.value.sign), Zeros(e.value.zeros) + Digits(e.value.n);
      DigitsAreTheNumber(e.value.n);
      ZerosCountNothing(e.value.zeros, Digits(e.value.n));
      DigitsHaveNoX(t);
      BeforeDigitsHasNoX(e.value.letter, e.value.sign);
      BothHaveNoX(sign, t);
      BothHaveNoX([e.value.letter], sign + t);
    }
  }

  lemma NumeralHasNoX(n: Numeral)
    requires n.Proper()
    ensures NoX(NumeralText(n))
  {
    WholeIsDigits(n.whole);
    DigitsHaveNoX(WholeText(n.whole));
    FractionHasNoX(n.fraction);
    ExponentHasNoX(n.exponent);
    BothHaveNoX(FractionText(n.fraction), ExponentText(n.exponent));
    BothHaveNoX(WholeText(n.whole), FractionText(n.fraction) + ExponentText(n.exponent));
    BothHaveNoX(if n.minus then "-" else "", UnsignedText(n));
  }

  lemma AcceptedIff(n: Numeral)
    requires n.Proper()
    ensures IsDecimal(NumeralText(n)) <==> Accepted(n)
  {
    var u, w := UnsignedText(n), NumeralText(n);
    NumeralHasNoX(n);
    WholeIsDigits(n.whole);
    assert u[0] == if n.whole.Some? then WholeText(n.whole)[0] else '.';
    if n.whole == Some(0) {
      assert Digits(0) == "0";
      assert u == "0" + (FractionText(n.fraction) + ExponentText(n.exponent));
    }
    if n.minus { assert w == "-" + u; } else { assert w == u; }
  }

  lemma DecimalIsParsed(s: string, i: nat, start: nat, end: nat, x: real)
    requires i < |s| && start == BehindSign(s, i) && end == NumberEnd(s, start) && BeginsNumber(s, start)
    requires s[i] == '-' || IsDigit(s[i])
    requires !IsHexadecimal(s, start) && x == Shifted(MantissaValue(s, start), ExponentValue(s, MantissaEnd(s, start)))
    ensures ParseNumber(s, i) ==
      if IsDecimal(s[i..end]) then Some(Found(Number(if i < start then -x else x), end)) else None
  {
    NoWordAtDigit(s, start);
  }

  lemma SignIsRead(s: string, i: nat, n: Numeral)
    requires n.Proper() && Starts(s, i, NumeralText(n))
    ensures i < |s| && (s[i] == '-' <==> n.minus) && (n.minus || IsDigit(s[i]))
    ensures Starts(s, BehindSign(s, i), UnsignedText(n))
    ensures i + |NumeralText(n)| == BehindSign(s, i) + |UnsignedText(n)|
  {
    hide Starts;
    WholeIsDigits(n.whole);
    StartsWithFirst(s, i, if n.minus then "-" else "", UnsignedText(n));
  }

  lemma NumberIsShifted(n: Numeral, x: real)
    requires x == Shifted(WholeOf(n.whole) as real + FractionOf(n.fraction), PowerOf(n.exponent))
    ensures NumberOf(n) == if n.minus then -x else x
  {
    ShiftedIsScaled(WholeOf(n.whole) as real + FractionOf(n.fraction), PowerOf(n.exponent));
  }

  lemma NumeralIsParsed(s: string, i: nat, n: Numeral, end: nat, p: Option<Found<Json>>)
    requires n.Proper() && Starts(s, i, NumeralText(n)) && end == i + |NumeralText(n)| && Ends(At(s, end))
    requires i < |s| && (s[i] == '-' || IsDigit(s[i])) && p == ParseNumber(s, i)
    ensures p == if IsDecimal(NumeralText(n)) then Some(Found(Number(NumberOf(n)), end)) else None
  {
    hide Starts, UnsignedText, NumberOf, Shifted;
    var x := Shifted(WholeOf(n.whole) as real + FractionOf(n.fraction), PowerOf(n.exponent));
    StartsIff(s, i, NumeralText(n));
    SignIsRead(s, i, n);
    UnsignedIsRead(s, BehindSign(s, i), n, end);
    DecimalIsParsed(s, i, BehindSign(s, i), end, x);
    NumberIsShifted(n, x);
  }

  /** Every numeral is read as the number it stands for, and up to its end; unless it is a zero that has an exponent
      and no fraction, which is refused. */
  lemma NumeralIsRead(s: string, i: nat, n: Numeral, end: nat)
    requires n.Proper() && Starts(s, i, NumeralText(n)) && end == i + |NumeralText(n)| && Ends(At(s, end))
    ensures i < |s| && (s[i] == '-' || IsDigit(s[i]))
    ensures ParseNumber(s, i) == if Accepted(n) then Some(Found(Number(NumberOf(n)), end)) else None
  {
    SignIsRead(s, i, n);
    NumeralIsParsed(s, i, n, end, ParseNumber(s, i));
    AcceptedIff(n);
  }

  // ----- Infinities and NaNs -----

  /** A word of small letters, with some of them made capitals. */
  function Cased(word: string, upper: seq<bool>): string
    requires |upper| == |word| && forall k :: 0 <= k < |word| ==> 'a' <= word[k] <= 'z'
  {
    seq(|word|, k requires 0 <= k < |word| => if upper[k] then (word[k] as int - 97 + 65) as char else word[k])
  }

  predicate AllWordChars(t: string) { forall k :: 0 <= k < |t| ==> IsWordChar(t[k]) }

  /** What else `strtod` takes for a number, in letters of any case.  A NaN may have a word in parentheses. */
  datatype Special = Infinity(long: bool, upper: seq<bool>) | Nan(upper: seq<bool>, word: Option<string>) {
    predicate Proper() {
      && |upper| == |Name()|
      && (Nan? && word.Some? ==> AllWordChars(word.value))
    }

    /** There is no x in it, which would be taken for a hexadecimal. */
    predicate Accepted() { Nan? && word.Some? ==> NoX(word.value) }

    function Name(): (name: string)
      ensures forall k :: 0 <= k < |name| ==> 'a' <= name[k] <= 'z' && name[k] != 'x'
    {
      if Nan? then "nan" else if long then "infinity" else "inf"
    }

    function WordText(): string { if Nan? && word.Some? then "(" + (word.value + ")") else "" }

    function Text(): string
      requires Proper()
    {
      "-" + (Cased(Name(), upper) + WordText())
    }

    function Value(): Json { if Nan? then NotANumber else Infinite(true) }
  }

  lemma CasedIsSpelled(s: string, i: nat, word: string, upper: seq<bool>)
    requires |upper| == |word| && forall k :: 0 <= k < |word| ==> 'a' <= word[k] <= 'z'
    requires Starts(s, i, Cased(word, upper))
    ensures Spells(s, i, word)
  {
    var w := Cased(word, upper);
    StartsIff(s, i, w);
    forall k | 0 <= k < |word| ensures Lower(s[i + k]) == word[k] { assert s[i..i + |w|][k] == w[k]; }
  }

  lemma LettersOfWords(s: string, i: nat)
    ensures Spells(s, i, "inf") ==> Lower(At(s, i)) == 'i'
    ensures Spells(s, i, "nan") ==> Lower(At(s, i)) == 'n'
    ensures Spells(s, i, "infinity") ==> Spells(s, i, "inf") && Lower(At(s, i + 3)) == 'i'
  {
    var inf, infinity, nan := "inf", "infinity", "nan";
    if Spells(s, i, inf) { assert Lower(s[i + 0]) == inf[0]; }
    if Spells(s, i, nan) { assert Lower(s[i + 0]) == nan[0]; }
    if Spells(s, i, infinity) {
      assert Lower(s[i + 3]) == infinity[3];
      forall k | 0 <= k < 3 ensures Lower(s[i + k]) == inf[k] { assert Lower(s[i + k]) == infinity[k]; }
    }
  }

  lemma CasedHasNoX(word: string, upper: seq<bool>)
    requires |upper| == |word| && forall k :: 0 <= k < |word| ==> 'a' <= word[k] <= 'z' && word[k] != 'x'
    ensures NoX(Cased(word, upper))
  {
  }

  lemma {:induction false} WordIsSkipped(s: string, i: nat, t: string)
    requires Starts(s, i, t) && AllWordChars(t) && !IsWordChar(At(s, i + |t|))
    ensures SkipWordChars(s, i) == i + |t|
    decreases |t|
  {
    if t != [] {
      assert t == [t[0]] + t[1..];
      StartsWithFirst(s, i, [t[0]], t[1..]);
      WordIsSkipped(s, i + 1, t[1..]);
    }
  }

  lemma NanIsRead(s: string, i: nat, w: Special, end: nat)
    requires w.Nan? && w.Proper() && Starts(s, i, w.WordText()) && end == i + |w.WordText()| && Ends(At(s, end))
    ensures i <= |s| && NanEnd(s, i) == end
  {
    if w.word.Some? {
      StartsWithFirst(s, i, "(", w.word.value + ")");
      StartsWithFirst(s, i + 1, w.word.value, ")");
      WordIsSkipped(s, i + 1, w.word.value);
    }
  }

  lemma SpecialEnd(s: string, i: nat, w: Special, end: nat)
    requires w.Proper() && Starts(s, i, Cased(w.Name(), w.upper) + w.WordText())
    requires end == i + |w.Name()| + |w.WordText()| && Ends(At(s, end))
    ensures i <= |s| && NumberEnd(s, i) == end && Spells(s, i, w.Name())
  {
    var behind := i + |w.Name()|;
    StartsWithFirst(s, i, Cased(w.Name(), w.upper), w.WordText());
    CasedIsSpelled(s, i, w.Name(), w.upper);
    LettersOfWords(s, i);
    if w.Nan? { NanIsRead(s, behind, w, end); }
  }

  lemma SpecialHasNoX(w: Special)
    requires w.Proper()
    ensures NoX(w.Text()) <==> w.Accepted()
  {
    var name, word := Cased(w.Name(), w.upper), w.WordText();
    CasedHasNoX(w.Name(), w.upper);
    BothHaveNoX(name, word);
    BothHaveNoX("-", name + word);
    if w.Nan? && w.word.Some? {
      BothHaveNoX(w.word.value, ")");
      BothHaveNoX("(", w.word.value + ")");
    }
  }

  lemma SpecialIsDecimal(w: Special)
    requires w.Proper()
    ensures IsDecimal(w.Text()) <==> w.Accepted()
  {
    SpecialHasNoX(w);
    assert w.Text()[1] == Cased(w.Name(), w.upper)[0] != '0';
  }

  /** Behind a minus, infinities and NaNs are read, unless there is an x in the word behind a NaN. */
  lemma SpecialIsRead(s: string, i: nat, w: Special, end: nat)
    requires w.Proper() && Starts(s, i, w.Text()) && end == i + |w.Text()| && Ends(At(s, end))
    ensures i < |s| && s[i] == '-'
    ensures ParseNumber(s, i) == if w.Accepted() then Some(Found(w.Value(), end)) else None
  {
    hide Starts, Spells, NumberEnd, IsDecimal;
    StartsIff(s, i, w.Text());
    StartsWithFirst(s, i, "-", Cased(w.Name(), w.upper) + w.WordText());
    SpecialEnd(s, i + 1, w, end);
    LettersOfWords(s, i + 1);
    SpecialIsDecimal(w);
  }
}
