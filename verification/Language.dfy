/** The language of the parser: it reads nothing but the texts of `Grammar`, so it reads a text as a value if and only
    if the text begins with a way to write that value. */
module Language {
  import opened Basics
  import opened Json
  import opened Numerals
  import opened Glyphs
  import opened Grammar

  /** The text `t` is found from `i` up to `end`. */
  predicate Lies(s: string, i: nat, t: string, end: nat) { i <= end <= |s| && s[i..end] == t }

  lemma BothLie(s: string, i: nat, t: string, j: nat, u: string, end: nat)
    requires Lies(s, i, t, j) && Lies(s, j, u, end)
    ensures Lies(s, i, t + u, end)
  {
  }

  lemma {:induction false} SpacesLie(s: string, i: nat)
    requires i <= |s|
    ensures AllSpaces(s[i..SkipSpace(s, i)])
    decreases |s| - i
  {
    if i < |s| && IsSpace(s[i]) {
      SpacesLie(s, i + 1);
      var t := s[i..SkipSpace(s, i)];
      assert t[1..] == s[i + 1..SkipSpace(s, i + 1)];
    }
  }

  // ----- Strings -----

  predicate IsCapital(c: char) { 'A' <= c <= 'Z' }

  lemma HexWasWritten(c: char)
    requires IsHex(c)
    ensures HexDigit(c) < 16 && HexChar(HexDigit(c), IsCapital(c)) == c
  {
  }

  lemma CodeWasWritten(u: string) returns (g: Glyph)
    requires |u| >= 6 && u[0] == '\\' && u[1] == 'u' && IsUtf(u, 2)
    ensures g.Proper() && g.Text() == u[..6]
  {
    var v := Hex4(u, 2);
    g := Code(v, [IsCapital(u[2]), IsCapital(u[3]), IsCapital(u[4]), IsCapital(u[5])]);
    HexWasWritten(u[2]);
    HexWasWritten(u[3]);
    HexWasWritten(u[4]);
    HexWasWritten(u[5]);
    DigitsOfCode(HexDigit(u[2]), HexDigit(u[3]), HexDigit(u[4]), HexDigit(u[5]));
    assert HexText(v, g.upper) == u[2..6];
    assert "\\u" == u[..2];
  }

  lemma DigitsOfCode(a: nat, b: nat, c: nat, d: nat)
    requires a < 16 && b < 16 && c < 16 && d < 16
    ensures var v := a * 0x1000 + b * 0x100 + c * 0x10 + d;
      v / 0x1000 == a && v / 0x100 % 0x10 == b && v / 0x10 % 0x10 == c && v % 0x10 == d
  {
    var v := a * 0x1000 + b * 0x100 + c * 0x10 + d;
    assert v / 0x1000 == a;
    assert v / 0x100 == a * 0x10 + b;
    assert v / 0x10 == (a * 0x10 + b) * 0x10 + c;
  }

  lemma LetterWasWritten(c: char) returns (code: nat)
    requires c != 'u' && Unescaped(c).Some?
    ensures Letter(code) == Some(c)
  {
    code := Unescaped(c).value as int;
  }

  /** The first character of a string that can be unescaped. */
  lemma GlyphWasWritten(u: string) returns (g: Glyph)
    requires u != [] && Unescape(u).Some? && u[0] != '"' && u[0] != '\0'
    ensures g.Proper() && g.Text() <= u && Unescape(u[|g.Text()|..]).Some?
  {
    if u[0] != '\\' {
      g := Plain(u[0]);
    } else if At(u, 1) == 'u' {
      g := CodeWasWritten(u);
    } else {
      var code := LetterWasWritten(u[1]);
      g := Short(code);
    }
  }

  lemma FirstGlyphLies(s: string, i: nat, e: nat) returns (g: Glyph)
    requires i < e < |s| && SkipQuotes(s, i) == e + 1 && s[i] != '"' && s[i] != '\0' && Unescape(s[i..e]).Some?
    ensures g.Proper() && i + |g.Text()| <= e && Lies(s, i, g.Text(), i + |g.Text()|)
    ensures SkipQuotes(s, i + |g.Text()|) == e + 1 && Unescape(s[i + |g.Text()|..e]).Some?
  {
    var u := s[i..e];
    g := GlyphWasWritten(u);
    var k := i + |g.Text()|;
    assert s[k..e] == u[|g.Text()|..];
    assert s[i..k] == u[..|g.Text()|];
    StartsIff(s, i, g.Text());
    GlyphIsSkipped(s, i, g);
  }

  lemma {:induction false} GlyphsLie(s: string, i: nat, e: nat) returns (gs: seq<Glyph>)
    requires i <= e < |s| && SkipQuotes(s, i) == e + 1 && s[e] == '"' && Unescape(s[i..e]).Some?
    ensures AllProper(gs) && Lies(s, i, GlyphsText(gs), e)
    decreases e - i
  {
    if i == e {
      gs := [];
    } else {
      assert s[i] != '"' && s[i] != '\0';
      var g := FirstGlyphLies(s, i, e);
      var rest := GlyphsLie(s, i + |g.Text()|, e);
      gs := [g] + rest;
      BothLie(s, i, g.Text(), i + |g.Text()|, GlyphsText(rest), e);
    }
  }

  /** A string that is read was written in some way. */
  lemma StringWasWritten(s: string, i: nat, end: nat) returns (gs: seq<Glyph>)
    requires i < |s| && ProcessedString(s, i).Some? && end == ProcessedString(s, i).value.end
    ensures AllProper(gs) && Lies(s, i, Enclosed(s[i], gs), end)
  {
    hide Unescape, SkipQuotes, CString;
    gs := GlyphsLie(s, i + 1, end - 1);
    BothLie(s, i + 1, GlyphsText(gs), end - 1, "\"", end);
    BothLie(s, i, [s[i]], i + 1, GlyphsText(gs) + "\"", end);
  }

  // ----- Numbers -----

  lemma {:induction false} DigitsWereWritten(t: string)
    requires AllDigits(t) && t != [] && (t[0] != '0' || |t| == 1)
    ensures Digits(DigitsValue(t)) == t
    decreases |t|
  {
    var init, d := t[..|t| - 1], t[|t| - 1];
    assert t == init + [d];
    if init == [] {
      assert DigitsValue(init) == 0;
    } else {
      DigitsWereWritten(init);
      assert init[0] == t[0];
      assert DigitsValue(init) > 0;
    }
  }

  lemma {:induction false} ZerosWereWritten(t: string) returns (k: nat, n: nat)
    requires AllDigits(t) && t != []
    ensures t == Zeros(k) + Digits(n)
    decreases |t|
  {
    if t[0] == '0' && |t| > 1 {
      k, n := ZerosWereWritten(t[1..]);
      k := k + 1;
      assert t == "0" + t[1..];
    } else {
      k, n := 0, DigitsValue(t);
      DigitsWereWritten(t);
    }
  }

  lemma {:induction false} FractionWasWritten(t: string) returns (ds: seq<nat>)
    requires AllDigits(t)
    ensures AreDigits(ds) && DigitChars(ds) == t
    decreases |t|
  {
    if t == [] {
      ds := [];
    } else {
      var rest := FractionWasWritten(t[1..]);
      ds := [DigitValue(t[0])] + rest;
    }
  }

  /** A decimal has no zero before other digits. */
  lemma NoZeroBefore(s: string, i: nat, start: nat, whole: nat, end: nat)
    requires i < |s| && start == BehindSign(s, i) && start < whole <= end <= |s| && IsDecimal(s[i..end])
    requires whole == SkipDigits(s, start)
    ensures s[start] != '0' || whole == start + 1
  {
    var w := s[i..end];
    SkippedAreDigits(s, start);
    if whole > start + 1 {
      var digits, c := s[start..whole], s[start + 1];
      assert IsDigit(digits[1]) && digits[1] == c;
      assert c != '.' && w[start - i] == s[start] && w[start - i + 1] == c;
      if start != i { assert w[0] == '-' && |w| > 2; }
    }
  }

  lemma WholeWasWritten(s: string, i: nat, start: nat, whole: nat, end: nat) returns (w: Option<nat>)
    requires i < |s| && start == BehindSign(s, i) && start <= whole <= end <= |s| && IsDecimal(s[i..end])
    requires whole == SkipDigits(s, start)
    ensures (w.None? <==> whole == start) && Lies(s, start, WholeText(w), whole)
  {
    if start == whole {
      w := None;
    } else {
      var t := s[start..whole];
      w := Some(DigitsValue(t)) by { SkippedAreDigits(s, start); }
      NoZeroBefore(s, i, start, whole, end);
      SkippedAreDigits(s, start);
      DigitsWereWritten(t);
    }
  }

  lemma PointWasWritten(s: string, start: nat) returns (f: Option<seq<nat>>)
    requires start <= |s| && start < MantissaEnd(s, start)
    ensures f.Some? ==> AreDigits(f.value)
    ensures SkipDigits(s, start) == start ==> f.Some? && f.value != []
    ensures Lies(s, SkipDigits(s, start), FractionText(f), MantissaEnd(s, start))
  {
    var whole, end := SkipDigits(s, start), MantissaEnd(s, start);
    if !IsPoint(s, whole) {
      f := None;
    } else {
      SkippedAreDigits(s, whole + 1);
      var ds := FractionWasWritten(s[whole + 1..end]);
      f := Some(ds);
      BothLie(s, whole, ".", whole + 1, DigitChars(ds), end);
    }
  }

  lemma SignWasWritten(s: string, i: nat) returns (sign: Sign)
    requires i < |s| && IsDigit(At(s, if At(s, i) in "+-" then i + 1 else i))
    ensures Lies(s, i, SignText(sign), if At(s, i) in "+-" then i + 1 else i)
  {
    sign := if At(s, i) == '+' then Plus else if At(s, i) == '-' then Minus else NoSign;
  }

  lemma ExponentWasWritten(s: string, i: nat) returns (e: Option<Exponent>)
    requires i <= |s|
    ensures e.Some? ==> e.value.letter == 'e' || e.value.letter == 'E'
    ensures Lies(s, i, ExponentText(e), ExponentEnd(s, i, "eE"))
  {
    var end := ExponentEnd(s, i, "eE");
    if end == i {
      e := None;
    } else {
      var digits := if At(s, i + 1) in "+-" then i + 2 else i + 1;
      var sign := SignWasWritten(s, i + 1);
      SkippedAreDigits(s, digits);
      var k, n := ZerosWereWritten(s[digits..end]);
      e := Some(Exponent(s[i], sign, k, n));
      BothLie(s, i + 1, SignText(sign), digits, Zeros(k) + Digits(n), end);
      BothLie(s, i, [s[i]], i + 1, SignText(sign) + (Zeros(k) + Digits(n)), end);
    }
  }

  lemma DigitIsSkipped(s: string, i: nat)
    requires i < |s| && IsDigit(s[i])
    ensures i < SkipDigits(s, i)
  {
  }

  /** A number that is read and no word was written as a numeral. */
  lemma NumeralWasWritten(s: string, i: nat, start: nat, end: nat) returns (n: Numeral)
    requires i < |s| && (s[i] == '-' || IsDigit(s[i])) && start == BehindSign(s, i)
    requires BeginsNumber(s, start) && !IsHexadecimal(s, start)
    requires end == NumberEnd(s, start) && IsDecimal(s[i..end])
    ensures n.Proper() && Lies(s, i, NumeralText(n), end)
  {
    hide SkipDigits, MantissaEnd, ExponentEnd, NumberEnd, IsDecimal, IsHexadecimal;
    hide WholeText, FractionText, ExponentText;
    var whole, power := SkipDigits(s, start), MantissaEnd(s, start);
    DecimalEnd(s, start);
    if s[i] != '-' { DigitIsSkipped(s, i); }
    var f := PointWasWritten(s, start);
    var w := WholeWasWritten(s, i, start, whole, end);
    var e := ExponentWasWritten(s, power);
    n := Numeral(s[i] == '-', w, f, e);
    BothLie(s, whole, FractionText(f), power, ExponentText(e), end);
    BothLie(s, start, WholeText(w), whole, FractionText(f) + ExponentText(e), end);
    BothLie(s, i, if n.minus then "-" else "", start, UnsignedText(n), end);
  }

  // ----- Infinities and NaNs -----

  lemma LowerWasWritten(c: char, t: char)
    requires Lower(c) == t && 'a' <= t <= 'z'
    ensures c == if IsCapital(c) then (t as int - 97 + 65) as char else t
  {
  }

  lemma CasedWasWritten(s: string, i: nat, word: string) returns (upper: seq<bool>)
    requires Spells(s, i, word) && forall k :: 0 <= k < |word| ==> 'a' <= word[k] <= 'z'
    ensures |upper| == |word| && Lies(s, i, Cased(word, upper), i + |word|)
  {
    upper := seq(|word|, k requires 0 <= k < |word| => IsCapital(s[i + k]));
    forall k | 0 <= k < |word| ensures s[i + k] == Cased(word, upper)[k] { LowerWasWritten(s[i + k], word[k]); }
  }

  lemma {:induction false} WordCharsLie(s: string, i: nat)
    requires i <= |s|
    ensures AllWordChars(s[i..SkipWordChars(s, i)])
    decreases |s| - i
  {
    if i < |s| && IsWordChar(s[i]) {
      WordCharsLie(s, i + 1);
      assert s[i..SkipWordChars(s, i)] == [s[i]] + s[i + 1..SkipWordChars(s, i)];
    }
  }

  lemma WordWasWritten(s: string, i: nat, upper: seq<bool>) returns (w: Special)
    requires i <= |s| && |upper| == 3
    ensures w.Nan? && w.upper == upper && w.Proper() && Lies(s, i, w.WordText(), NanEnd(s, i))
  {
    var j := SkipWordChars(s, i + 1);
    if At(s, i) == '(' && At(s, j) == ')' {
      w := Nan(upper, Some(s[i + 1..j]));
      WordCharsLie(s, i + 1);
      BothLie(s, i + 1, s[i + 1..j], j, ")", j + 1);
      BothLie(s, i, "(", i + 1, s[i + 1..j] + ")", j + 1);
    } else {
      w := Nan(upper, None);
    }
  }

  lemma SpecialWasWritten(s: string, i: nat, end: nat) returns (w: Special)
    requires i < |s| && s[i] == '-' && (Spells(s, i + 1, "inf") || Spells(s, i + 1, "nan"))
    requires end == NumberEnd(s, i + 1)
    ensures w.Proper() && Lies(s, i, w.Text(), end)
  {
    hide NanEnd, Cased, Starts;
    var name := if Spells(s, i + 1, "infinity") then "infinity" else if Spells(s, i + 1, "inf") then "inf" else "nan";
    LettersOfWords(s, i + 1);
    var upper := CasedWasWritten(s, i + 1, name);
    if name == "nan" {
      w := WordWasWritten(s, i + 4, upper);
    } else {
      w := Infinity(name == "infinity", upper);
    }
    BothLie(s, i + 1, Cased(name, upper), i + 1 + |name|, w.WordText(), end);
    BothLie(s, i, "-", i + 1, Cased(name, upper) + w.WordText(), end);
  }

  lemma NumberWasWritten(s: string, i: nat, end: nat) returns (x: Syntax)
    requires i < |s| && (s[i] == '-' || IsDigit(s[i])) && !LoneMinus(s, i)
    requires ParseNumber(s, i).Some? && end == ParseNumber(s, i).value.end
    ensures Proper(x) && Lies(s, i, Text(x), end)
  {
    var start := BehindSign(s, i);
    HexadecimalIsRefused(s, i);
    if Spells(s, start, "inf") || Spells(s, start, "nan") {
      if s[i] != '-' { NoWordAtDigit(s, i); }
      var w := SpecialWasWritten(s, i, end);
      x := OtherNumber(w);
    } else {
      var n := NumeralWasWritten(s, i, start, end);
      x := Numeric(n);
    }
  }

  // ----- Values -----

  lemma AtomWasWritten(s: string, i: nat, nesting: nat, end: nat) returns (x: Syntax)
    requires i < |s| && nesting <= MAX_NESTING && !IsSpace(s[i]) && !LoneMinus(s, i) && s[i] != '[' && s[i] != '{'
    requires ParseValue(s, i, nesting).Some? && end == ParseValue(s, i, nesting).value.end
    ensures Proper(x) && Lies(s, i, Text(x), end)
  {
    assert SkipSpace(s, i) == i;
    if s[i] == '"' {
      var gs := StringWasWritten(s, i, end);
      x := Quoted(gs);
    } else if s[i] == 't' {
      StartsIff(s, i, "true");
      x := BoolWord(true);
    } else if s[i] == 'f' {
      StartsIff(s, i, "false");
      x := BoolWord(false);
    } else if s[i] == 'n' {
      StartsIff(s, i, "null");
      x := NullWord;
    } else {
      x := NumberWasWritten(s, i, end);
    }
  }

  // ----- Lists and objects -----

  lemma PieceLies(s: string, i: nat, b: string, j: nat, v: string, k: nat, a: string, l: nat)
    requires Lies(s, i, b, j) && Lies(s, j, v, k) && Lies(s, k, a, l)
    ensures Lies(s, i, b + (v + a), l)
  {
    BothLie(s, j, v, k, a, l);
    BothLie(s, i, b, j, v + a, l);
  }

  /** An element and the spaces around it, of which the value lies from the first position that is no space. */
  lemma ElementLies(s: string, i: nat, x: Syntax, k: nat) returns (e: Element)
    requires i <= |s| && Proper(x) && Lies(s, SkipSpace(s, i), Text(x), k)
    ensures e.Spaced() && e.value == x && Lies(s, i, ElementText(e), SkipSpace(s, k))
  {
    var j, l := SkipSpace(s, i), SkipSpace(s, k);
    e := Element(s[i..j], x, s[k..l]);
    SpacesLie(s, i);
    SpacesLie(s, k);
    PieceLies(s, i, s[i..j], j, Text(x), k, s[k..l], l);
  }

  lemma EmptyLies(s: string, i: nat, open: string, close: string, x: Syntax)
    requires (open == "[" && close == "]") || (open == "{" && close == "}")
    requires i < |s| && s[i..i + 1] == open && At(s, SkipSpace(s, i + 1)) == close[0]
    requires var gap := s[i + 1..SkipSpace(s, i + 1)]; x == if open == "[" then List(gap, []) else Map(gap, [])
    ensures Proper(x) && Lies(s, i, Text(x), SkipSpace(s, i + 1) + 1)
  {
    var j := SkipSpace(s, i + 1);
    SpacesLie(s, i + 1);
    PieceLies(s, i, open, i + 1, s[i + 1..j], j, close, j + 1);
  }

  lemma ElementsLie(s: string, i: nat, e: Element, l: nat, es: seq<Element>, end: nat)
    requires e.Spaced() && Proper(e.value) && Lies(s, i, ElementText(e), l) && l < |s|
    requires if es == [] then At(s, l) == ']' && end == l + 1
             else At(s, l) == ',' && ElementsProper(es) && Lies(s, l + 1, ElementsText(es), end)
    ensures ElementsProper([e] + es) && Lies(s, i, ElementsText([e] + es), end)
  {
    assert ([e] + es)[1..] == es;
    var rest := if es == [] then "]" else "," + ElementsText(es);
    if es != [] { BothLie(s, l, ",", l + 1, ElementsText(es), end); }
    BothLie(s, i, ElementText(e), l, rest, end);
  }

  /** What becomes of an item that is read. */
  lemma ItemWasTaken(s: string, i: nat, nesting: nat, items: seq<Json>)
    requires i <= |s| && 1 <= nesting <= MAX_NESTING + 1 && ParseItems(s, i, nesting, items).Some?
    ensures ParseValue(s, i, nesting).Some? && !LoneMinus(s, i) && nesting <= MAX_NESTING
    ensures var v := ParseValue(s, i, nesting).value;
      ParseItems(s, i, nesting, items) == AfterItem(s, SkipSpace(s, v.end), nesting, items + [v.value])
  {
    if LoneMinus(s, i) { NoRestInArray(s, i, nesting, items); }
  }

  lemma ItemIsFollowed(s: string, l: nat, nesting: nat, items: seq<Json>)
    requires l <= |s| && 1 <= nesting <= MAX_NESTING + 1 && AfterItem(s, l, nesting, items).Some?
    ensures l < |s| && (At(s, l) == ',' || At(s, l) == ']')
    ensures At(s, l) == ']' ==> AfterItem(s, l, nesting, items).value.end == l + 1
    ensures At(s, l) == ',' ==> AfterItem(s, l, nesting, items) == ParseItems(s, SkipSpace(s, l + 1), nesting, items)
  {
  }

  /** The elements of a list that is read, from `i` on. */
  lemma {:induction false} ItemsWereWritten(s: string, i: nat, nesting: nat, items: seq<Json>, end: nat)
    returns (es: seq<Element>)
    requires i <= |s| && 1 <= nesting <= MAX_NESTING + 1 && ParseItems(s, SkipSpace(s, i), nesting, items).Some?
    requires end == ParseItems(s, SkipSpace(s, i), nesting, items).value.end
    ensures es != [] && ElementsProper(es) && Lies(s, i, ElementsText(es), end)
    decreases MAX_NESTING + 2 - nesting, 0, |s| - i
  {
    hide ParseItems, AfterItem, ParseValue, SkipSpace, ElementsText, Text;
    var j := SkipSpace(s, i);
    ItemWasTaken(s, j, nesting, items);
    var v := ParseValue(s, j, nesting).value;
    var l := SkipSpace(s, v.end);
    ItemIsFollowed(s, l, nesting, items + [v.value]);
    var x := ValueWasWritten(s, j, nesting, v.end);
    var e := ElementLies(s, i, x, v.end);
    es := [];
    if At(s, l) == ',' { es := ItemsWereWritten(s, l + 1, nesting, items + [v.value], end); }
    ElementsLie(s, i, e, l, es, end);
    es := [e] + es;
  }

  lemma NameWasTaken(s: string, i: nat)
    requires i < |s| && ParseName(s, i).Some?
    ensures ProcessedString(s, i).Some?
    ensures var c := SkipSpace(s, ProcessedString(s, i).value.end);
      c < |s| && At(s, c) == ':' && ParseName(s, i).value.end == c + 1
  {
  }

  /** What becomes of a member that is read. */
  lemma MemberWasTaken(s: string, i: nat, nesting: nat, members: seq<Member>) returns (m: Member, c: nat, k: nat)
    requires i <= |s| && 1 <= nesting <= MAX_NESTING + 1 && ParseMembers(s, i, nesting, members).Some?
    ensures i < |s| && At(s, i) != '\0' && ParseName(s, i).Some? && c == ParseName(s, i).value.end <= |s|
    ensures ParseValue(s, c, nesting) == Some(Found(m.value, k)) && k <= |s|
    ensures ParseMembers(s, i, nesting, members) == AfterMember(s, SkipSpace(s, k), nesting, members + [m])
  {
    c := ParseName(s, i).value.end;
    m, k := ParseMember(s, i, nesting).value.value, ParseValue(s, c, nesting).value.end;
  }

  lemma MemberIsFollowed(s: string, l: nat, nesting: nat, members: seq<Member>)
    requires l <= |s| && 1 <= nesting <= MAX_NESTING + 1 && AfterMember(s, l, nesting, members).Some?
    ensures l < |s| && (At(s, l) == ',' || At(s, l) == '}')
    ensures At(s, l) == '}' ==> AfterMember(s, l, nesting, members).value.end == l + 1
    ensures At(s, l) == ',' ==>
              AfterMember(s, l, nesting, members) == ParseMembers(s, SkipSpace(s, l + 1), nesting, members)
  {
  }

  /** A value at which the cursor rests is not followed by what follows a member. */
  lemma NoRestInObject(s: string, c: nat, nesting: nat, k: nat)
    requires c <= |s| && nesting <= MAX_NESTING + 1 && ParseValue(s, c, nesting).Some?
    requires k == ParseValue(s, c, nesting).value.end && At(s, SkipSpace(s, k)) != '-'
    ensures !LoneMinus(s, SkipSpace(s, c)) && nesting <= MAX_NESTING
    ensures ParseValue(s, SkipSpace(s, c), nesting) == ParseValue(s, c, nesting)
  {
    ValueBehindSpaces(s, c, nesting);
    if LoneMinus(s, SkipSpace(s, c)) { RestsIff(s, SkipSpace(s, c), nesting); }
  }

  lemma EntryLies(s: string, i: nat, name: seq<Glyph>, q: nat, e: Element, l: nat) returns (m: Entry)
    requires i <= |s| && SkipSpace(s, i) < |s| && At(s, SkipSpace(s, i)) != '\0' && AllProper(name)
    requires Lies(s, SkipSpace(s, i), Enclosed(At(s, SkipSpace(s, i)), name), q) && At(s, SkipSpace(s, q)) == ':'
    requires e.Spaced() && Proper(e.value) && Lies(s, SkipSpace(s, q) + 1, ElementText(e), l)
    ensures m.Spaced() && m.element == e && m.opening == At(s, SkipSpace(s, i)) && Lies(s, i, EntryText(m), l)
  {
    var j, c := SkipSpace(s, i), SkipSpace(s, q);
    m := Entry(s[i..j], At(s, j), name, s[q..c], e);
    SpacesLie(s, i);
    SpacesLie(s, q);
    BothLie(s, c, ":", c + 1, ElementText(e), l);
    PieceLies(s, j, m.NameText(), q, m.gap, c, ":" + ElementText(e), l);
    BothLie(s, i, m.before, j, m.NameText() + (m.gap + (":" + ElementText(e))), l);
  }

  lemma EntriesLie(s: string, i: nat, m: Entry, l: nat, ms: seq<Entry>, end: nat)
    requires m.Spaced() && Proper(m.element.value) && Lies(s, i, EntryText(m), l) && l < |s|
    requires if ms == [] then At(s, l) == '}' && end == l + 1
             else At(s, l) == ',' && EntriesProper(ms) && Lies(s, l + 1, EntriesText(ms), end)
    ensures EntriesProper([m] + ms) && Lies(s, i, EntriesText([m] + ms), end)
  {
    assert ([m] + ms)[1..] == ms;
    var rest := if ms == [] then "}" else "," + EntriesText(ms);
    if ms != [] { BothLie(s, l, ",", l + 1, EntriesText(ms), end); }
    BothLie(s, i, EntryText(m), l, rest, end);
  }

  /** The first member of an object that is read. */
  lemma {:induction false} MemberWasWritten(s: string, i: nat, nesting: nat, c: nat, k: nat) returns (m: Entry)
    requires i <= |s| && 1 <= nesting <= MAX_NESTING + 1 && SkipSpace(s, i) < |s| && At(s, SkipSpace(s, i)) != '\0'
    requires ParseName(s, SkipSpace(s, i)).Some? && c == ParseName(s, SkipSpace(s, i)).value.end <= |s|
    requires ParseValue(s, c, nesting).Some? && k == ParseValue(s, c, nesting).value.end
    requires At(s, SkipSpace(s, k)) != '-'
    ensures m.Spaced() && Proper(m.element.value) && m.opening == At(s, SkipSpace(s, i))
    ensures Lies(s, i, EntryText(m), SkipSpace(s, k))
    decreases MAX_NESTING + 2 - nesting, 0, |s| - i, 0
  {
    hide ParseValue, SkipSpace, Text, ParseName;
    var j := SkipSpace(s, i);
    NameWasTaken(s, j);
    var q := ProcessedString(s, j).value.end;
    var name := StringWasWritten(s, j, q);
    NoRestInObject(s, c, nesting, k);
    var x := ValueWasWritten(s, SkipSpace(s, c), nesting, k);
    var e := ElementLies(s, c, x, k);
    m := EntryLies(s, i, name, q, e, SkipSpace(s, k));
  }

  /** The members of an object that is read, from `i` on. */
  lemma {:induction false} MembersWereWritten(s: string, i: nat, nesting: nat, members: seq<Member>, end: nat)
    returns (ms: seq<Entry>)
    requires i <= |s| && 1 <= nesting <= MAX_NESTING + 1 && ParseMembers(s, SkipSpace(s, i), nesting, members).Some?
    requires end == ParseMembers(s, SkipSpace(s, i), nesting, members).value.end
    ensures ms != [] && EntriesProper(ms) && Lies(s, i, EntriesText(ms), end)
    ensures ms[0].opening == At(s, SkipSpace(s, i))
    decreases MAX_NESTING + 2 - nesting, 0, |s| - i, 1
  {
    hide ParseMembers, AfterMember, ParseValue, ParseName, SkipSpace, EntriesText, Text;
    var j := SkipSpace(s, i);
    var member, c, k := MemberWasTaken(s, j, nesting, members);
    var l := SkipSpace(s, k);
    MemberIsFollowed(s, l, nesting, members + [member]);
    var m := MemberWasWritten(s, i, nesting, c, k);
    ms := [];
    if At(s, l) == ',' { ms := MembersWereWritten(s, l + 1, nesting, members + [member], end); }
    EntriesLie(s, i, m, l, ms, end);
    ms := [m] + ms;
  }

  // ----- Values -----

  lemma ListOpened(s: string, i: nat, nesting: nat)
    requires i < |s| && (s[i] == '[' || s[i] == '{') && nesting <= MAX_NESTING && ParseValue(s, i, nesting).Some?
    ensures var p, j := ParseValue(s, i, nesting), SkipSpace(s, i + 1);
      if s[i] == '[' && At(s, j) != ']' then p == ParseItems(s, j, nesting + 1, [])
      else if s[i] == '{' && At(s, j) != '}' then p == ParseMembers(s, j, nesting + 1, [])
      else p.value.end == j + 1
  {
    assert SkipSpace(s, i) == i;
  }

  lemma {:induction false} ListWasWritten(s: string, i: nat, nesting: nat, end: nat) returns (x: Syntax)
    requires i < |s| && nesting <= MAX_NESTING && s[i] == '['
    requires ParseValue(s, i, nesting).Some? && end == ParseValue(s, i, nesting).value.end
    ensures Proper(x) && x.List? && Lies(s, i, Text(x), end)
    decreases MAX_NESTING + 1 - nesting, 1, 0
  {
    hide ParseItems, ParseValue, SkipSpace, ElementsText;
    var j := SkipSpace(s, i + 1);
    ListOpened(s, i, nesting);
    if At(s, j) == ']' {
      x := List(s[i + 1..j], []);
      EmptyLies(s, i, "[", "]", x);
    } else {
      var es := ItemsWereWritten(s, i + 1, nesting + 1, [], end);
      x := List("", es);
      BothLie(s, i, "[", i + 1, ElementsText(es), end);
    }
  }

  lemma {:induction false} MapWasWritten(s: string, i: nat, nesting: nat, end: nat) returns (x: Syntax)
    requires i < |s| && nesting <= MAX_NESTING && s[i] == '{'
    requires ParseValue(s, i, nesting).Some? && end == ParseValue(s, i, nesting).value.end
    ensures Proper(x) && x.Map? && Lies(s, i, Text(x), end)
    decreases MAX_NESTING + 1 - nesting, 1, 0
  {
    hide ParseMembers, ParseValue, SkipSpace, EntriesText;
    var j := SkipSpace(s, i + 1);
    ListOpened(s, i, nesting);
    if At(s, j) == '}' {
      x := Map(s[i + 1..j], []);
      EmptyLies(s, i, "{", "}", x);
    } else {
      var ms := MembersWereWritten(s, i + 1, nesting + 1, [], end);
      x := Map("", ms);
      BothLie(s, i, "{", i + 1, EntriesText(ms), end);
    }
  }

  /** A value that is read, from its first character on. */
  lemma {:induction false} ValueWasWritten(s: string, i: nat, nesting: nat, end: nat) returns (x: Syntax)
    requires i <= |s| && nesting <= MAX_NESTING && !IsSpace(At(s, i)) && !LoneMinus(s, i)
    requires ParseValue(s, i, nesting).Some? && end == ParseValue(s, i, nesting).value.end
    ensures Proper(x) && Lies(s, i, Text(x), end)
    decreases MAX_NESTING + 1 - nesting, 2, 0
  {
    assert SkipSpace(s, i) == i;
    if s[i] == '[' {
      x := ListWasWritten(s, i, nesting, end);
    } else if s[i] == '{' {
      x := MapWasWritten(s, i, nesting, end);
    } else {
      x := AtomWasWritten(s, i, nesting, end);
    }
  }

  // ----- Whole texts -----

  /** A way to write a list or an object with this value, within the limits. */
  ghost predicate Writes(x: Syntax, v: Json) {
    Proper(x) && (x.List? || x.Map?) && Allowed(x, 0) && Meaning(x) == v
  }

  lemma TextWasWritten(s: string, v: Json) returns (x: Syntax)
    requires ParseText(s) == Some(v)
    ensures Writes(x, v) && Text(x) <= s
  {
    hide Text, Allowed, Meaning, Proper, SkipSpace;
    var end := ParseValue(s, 0, 0).value.end;
    if s[0] == '[' {
      x := ListWasWritten(s, 0, 0, end);
    } else {
      x := MapWasWritten(s, 0, 0, end);
    }
    assert s == Text(x) + s[end..];
    TextIsRead(x, s[end..]);
  }

  /** A text is read as a value if and only if it begins with a way to write that value within the limits. */
  lemma ReadIffWritten(s: string, v: Json)
    ensures ParseText(s) == Some(v) <==> exists x :: Writes(x, v) && Text(x) <= s
  {
    if ParseText(s) == Some(v) {
      var x := TextWasWritten(s, v);
    }
    forall x | Writes(x, v) && Text(x) <= s ensures ParseText(s) == Some(v) {
      assert s == Text(x) + s[|Text(x)|..];
      TextIsRead(x, s[|Text(x)|..]);
    }
  }

  /** A text that is a way to write a value is no way to write another. */
  lemma Unambiguous(x: Syntax, y: Syntax, v: Json, w: Json)
    requires Writes(x, v) && Writes(y, w) && Text(x) <= Text(y)
    ensures v == w
  {
    ReadIffWritten(Text(y), v);
    ReadIffWritten(Text(y), w);
  }

  // ----- A brace behind a comma -----

  function OneMember(opening: char, name: char, n: nat): (m: Entry)
    requires name != '"' && name != '\\' && name != '\0' && !Blank(opening) && opening != '\0'
    ensures m.Spaced() && Proper(m.element.value) && m.opening == opening
  {
    var gs := [Plain(name)];
    assert gs[1..] == [] && gs[0].Proper() && AllProper(gs);
    Entry("", opening, gs, "", Element("", Numeric(Numeral(false, Some(n), None, None)), ""))
  }

  lemma OneMemberText(opening: char, name: char, n: nat)
    requires name != '"' && name != '\\' && name != '\0' && !Blank(opening) && opening != '\0' && n < 10 && name >= ' '
    ensures EntryText(OneMember(opening, name, n)) == [opening, name, '"', ':', Digit(n)]
    ensures MemberOf(OneMember(opening, name, n)) == Member([name], Number(n as real))
    ensures EntryAllowed(OneMember(opening, name, n), 1)
  {
    var m := OneMember(opening, name, n);
    assert m.name == [Plain(name)] && m.name[1..] == [] && m.name[0].Value() == [name];
    assert GlyphsText(m.name) == [name] + [] == Spelled(m.name);
    assert CString([name]) == [name] + CString([]) == [name];
    assert Text(m.element.value) == "" + (Digits(n) + ([] + [])) == [Digit(n)];
    assert m.NameText() == [opening] + ([name] + "\"") == [opening, name, '"'];
    assert ElementText(m.element) == "" + ([Digit(n)] + "") == [Digit(n)];
  }

  lemma TwoMembersText(a: Entry, b: Entry)
    requires a.Spaced() && Proper(a.element.value) && b.Spaced() && Proper(b.element.value)
    ensures EntriesProper([a, b]) && EntriesText([a, b]) == EntryText(a) + ("," + (EntryText(b) + "}"))
    ensures Members([a, b]) == [MemberOf(a), MemberOf(b)]
    ensures EntryAllowed(a, 1) && EntryAllowed(b, 1) ==> EntriesAllowed([a, b], 1)
  {
    assert [a, b][1..] == [b] && [b][1..] == [];
  }

  lemma TwoNames(m: Member, n: Member)
    requires m.name != n.name
    ensures DistinctNames([m, n])
  {
    DistinctNamesIff([m, n]);
  }

  lemma TwoMembersAreRead(a: Entry, b: Entry)
    requires a.Spaced() && Proper(a.element.value) && b.Spaced() && Proper(b.element.value) && a.opening != '}'
    requires EntryAllowed(a, 1) && EntryAllowed(b, 1) && MemberOf(a).name != MemberOf(b).name
    ensures ParseText("{" + (EntryText(a) + ("," + (EntryText(b) + "}")))) == Some(Object([MemberOf(a), MemberOf(b)]))
  {
    hide ParseText, EntryText, EntriesText, EntriesProper, EntriesAllowed, DistinctNames, EntryAllowed, Members;
    var ms := [a, b];
    TwoMembersText(a, b);
    TwoNames(MemberOf(a), MemberOf(b));
    TextIsRead(Map("", ms), "");
    assert Text(Map("", ms)) + "" == "{" + EntriesText(ms);
  }

  /** As names are read without a look at what they begin with, a comma before the closing brace makes a name of the
      brace and what follows it. */
  lemma BraceOpensName()
    ensures ParseText("{\"a\":1,}b\":2}") == Some(Object([Member("a", Number(1.0)), Member("b", Number(2.0))]))
  {
    hide ParseText, EntryText, OneMember, EntryAllowed, MemberOf;
    var a, b := OneMember('"', 'a', 1), OneMember('}', 'b', 2);
    OneMemberText('"', 'a', 1);
    OneMemberText('}', 'b', 2);
    TwoMembersAreRead(a, b);
    assert "{" + (EntryText(a) + ("," + (EntryText(b) + "}"))) == "{\"a\":1,}b\":2}";
  }
}
