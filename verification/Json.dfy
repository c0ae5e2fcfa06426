/** JSON text: what shared/list.c, shared/core.c and shared/string.c print for nested lists of 32-bit
    integers, booleans and strings, and what shared/string/parson.c makes of any text.

    Text is a sequence of bytes, each written as the character with its code.  The end of the text
    reads as the null character.  JSON is RFC 8259, sections 5 to 7.
 */
module Json {
  import opened Basics

  /** Numbers are exact; `strtod` makes infinities and NaNs as well. */
  datatype Json =
    | Null
    | Bool(b: bool)
    | Number(x: real)
    | Infinite(negative: bool)
    | NotANumber
    | Str(s: string)
    | Array(items: seq<Json>)
    | Object(members: seq<Member>)

  datatype Member = Member(name: string, value: Json)

  /** What a parser found, and where it stopped. */
  datatype Found<T> = Found(value: T, end: nat)

  const MAX_NESTING := 19
  const STARTING_CAPACITY := 15
  const ARRAY_MAX_CAPACITY := 122880
  const OBJECT_MAX_CAPACITY := 960

  // ----- Printing -----

  /** C strings have no null characters. */
  predicate NoNull(s: string) { forall k :: 0 <= k < |s| ==> s[k] != '\0' }

  /** The values the library prints this way: integers, booleans, strings and lists of these. */
  predicate Printable(v: Json) {
    match v
    case Bool(_) => true
    case Number(x) => x == x.Floor as real && Int32(x.Floor)
    case Str(t) => NoNull(t)
    case Array(items) => forall k :: 0 <= k < |items| ==> Printable(items[k])
    case _ => false
  }

  function EscapeChar(c: char): string {
    if c == '"' then "\\\"" else if c == '\\' then "\\\\" else [c]
  }

  function Escape(s: string): string {
    if s == [] then [] else EscapeChar(s[0]) + Escape(s[1..])
  }

  function Digit(d: nat): char
    requires d < 10
  {
    '0' + d as char
  }

  function Digits(n: nat): string {
    if n < 10 then [Digit(n)] else Digits(n / 10) + [Digit(n % 10)]
  }

  function ShowInt(n: int): string { if n < 0 then "-" + Digits(-n) else Digits(n) }

  /** Pieces separated by commas, and the bracket that ends a list. */
  function Listed(parts: seq<string>): string {
    if parts == [] then "]"
    else if |parts| == 1 then parts[0] + "]"
    else parts[0] + ("," + Listed(parts[1..]))
  }

  function Show(v: Json): string
    requires Printable(v)
  {
    match v
    case Bool(b) => if b then "true" else "false"
    case Number(x) => ShowInt(x.Floor)
    case Str(s) => "\"" + (Escape(s) + "\"")
    case Array(items) => "[" + Listed(seq(|items|, k requires 0 <= k < |items| => Show(items[k])))
  }

  // ----- Parsing: what is recognised where -----

  function At(s: string, i: nat): char { if i < |s| then s[i] else '\0' }

  predicate IsSpace(c: char) { c == ' ' || '\t' <= c <= '\r' }

  predicate IsDigit(c: char) { '0' <= c <= '9' }

  predicate IsHex(c: char) { IsDigit(c) || 'a' <= c <= 'f' || 'A' <= c <= 'F' }

  function SkipSpace(s: string, i: nat): (j: nat)
    ensures i <= j && (i <= |s| ==> j <= |s|) && !IsSpace(At(s, j))
    decreases |s| - i
  {
    if i < |s| && IsSpace(s[i]) then SkipSpace(s, i + 1) else i
  }

  function SkipDigits(s: string, i: nat): (j: nat)
    ensures i <= j && (i <= |s| ==> j <= |s|)
    decreases |s| - i
  {
    if i < |s| && IsDigit(s[i]) then SkipDigits(s, i + 1) else i
  }

  /** The end of the string whose opening quote is before `i`: behind its closing quote, or where the
      text ends before that. */
  function SkipQuotes(s: string, i: nat): (j: nat)
    ensures i <= j && (i <= |s| ==> j <= |s|)
    ensures At(s, j) != '\0' ==> i < j && At(s, j - 1) == '"'
    decreases |s| - i
  {
    if At(s, i) == '"' then i + 1
    else if At(s, i) == '\0' then i
    else if At(s, i) != '\\' then SkipQuotes(s, i + 1)
    else if At(s, i + 1) == '\0' then i + 1
    else SkipQuotes(s, i + 2)
  }

  function HexDigit(c: char): nat
    requires IsHex(c)
  {
    if IsDigit(c) then c as int - '0' as int
    else if c <= 'F' then c as int - 'A' as int + 10
    else c as int - 'a' as int + 10
  }

  predicate IsUtf(s: string, i: nat) {
    IsHex(At(s, i)) && IsHex(At(s, i + 1)) && IsHex(At(s, i + 2)) && IsHex(At(s, i + 3))
  }

  function Hex4(s: string, i: nat): (v: nat)
    requires IsUtf(s, i)
    ensures v < 0x1_0000
  {
    HexDigit(At(s, i)) * 0x1000 + HexDigit(At(s, i + 1)) * 0x100 + HexDigit(At(s, i + 2)) * 0x10 +
      HexDigit(At(s, i + 3))
  }

  /** The bytes of a character, as in section 3 of RFC 3629. */
  function Utf8(v: nat): string
    requires v < 0x1_0000
  {
    if v < 0x80 then [v as char]
    else if v < 0x800 then [(0xC0 + v / 0x40) as char, (0x80 + v % 0x40) as char]
    else [(0xE0 + v / 0x1000) as char, (0x80 + v / 0x40 % 0x40) as char, (0x80 + v % 0x40) as char]
  }

  /** What a backslash and a character other than u stand for. */
  function Unescaped(c: char): Option<char> {
    match c
    case '"' => Some('"')
    case '\\' => Some('\\')
    case '/' => Some('/')
    case 'b' => Some(8 as char)
    case 'f' => Some(12 as char)
    case 'n' => Some('\n')
    case 'r' => Some('\r')
    case 't' => Some('\t')
    case _ => None
  }

  function Prepend(s: string, t: Option<string>): Option<string> {
    if t.None? then None else Some(s + t.value)
  }

  /** The text between the quotes, with its escapes replaced; none if there is a control character other
      than DEL or an unknown escape in it. */
  function Unescape(s: string): Option<string> {
    if s == [] then Some([])
    else if s[0] == '\\' then
      if At(s, 1) == 'u' then
        if IsUtf(s, 2) && |s| >= 6 then Prepend(Utf8(Hex4(s, 2)), Unescape(s[6..])) else None
      else if |s| >= 2 && Unescaped(s[1]).Some? then Prepend([Unescaped(s[1]).value], Unescape(s[2..]))
      else None
    else if s[0] < ' ' then None
    else Prepend([s[0]], Unescape(s[1..]))
  }

  /** A string ends at a null character, even one that was escaped. */
  function CString(s: string): string {
    if s == [] || s[0] == '\0' then [] else [s[0]] + CString(s[1..])
  }

  function ProcessedString(s: string, i: nat): Option<Found<string>>
    requires i < |s|
  {
    var end := SkipQuotes(s, i + 1);
    if At(s, end) == '\0' then None
    else
      var content := Unescape(s[i + 1..end - 1]);
      if content.None? then None else Some(Found(CString(content.value), end))
  }

  function DigitValue(c: char): nat
    requires IsDigit(c)
  {
    c as int - '0' as int
  }

  predicate AllDigits(s: string) { forall k :: 0 <= k < |s| ==> IsDigit(s[k]) }

  function DigitsValue(s: string): nat
    requires AllDigits(s)
  {
    if s == [] then 0 else DigitsValue(s[..|s| - 1]) * 10 + DigitValue(s[|s| - 1])
  }

  /** No zero before other digits, and no hexadecimals. */
  predicate IsDecimal(s: string) {
    && !(|s| > 1 && s[0] == '0' && s[1] != '.')
    && !(|s| > 2 && s[0] == '-' && s[1] == '0' && s[2] != '.')
    && (forall k :: 0 <= k < |s| ==> s[k] != 'x' && s[k] != 'X')
  }

  lemma {:induction false} SkippedAreDigits(s: string, i: nat)
    requires i <= |s|
    ensures AllDigits(s[i..SkipDigits(s, i)])
    decreases |s| - i
  {
    if i < |s| && IsDigit(s[i]) {
      SkippedAreDigits(s, i + 1);
      assert s[i..SkipDigits(s, i)] == [s[i]] + s[i + 1..SkipDigits(s, i)];
    }
  }

  // What `strtod` reads: where it stops, and what kind of number it makes.

  function Lower(c: char): char { if 'A' <= c <= 'Z' then c + 32 as char else c }

  /** The word `t`, in letters of any case. */
  predicate Spells(s: string, i: nat, t: string) {
    i + |t| <= |s| && forall k :: 0 <= k < |t| ==> Lower(s[i + k]) == t[k]
  }

  predicate IsWordChar(c: char) { IsDigit(c) || 'a' <= c <= 'z' || 'A' <= c <= 'Z' || c == '_' }

  function SkipWordChars(s: string, i: nat): (j: nat)
    ensures i <= j && (i <= |s| ==> j <= |s|)
    decreases |s| - i
  {
    if i < |s| && IsWordChar(s[i]) then SkipWordChars(s, i + 1) else i
  }

  /** Behind a NaN there may be a word in parentheses. */
  function NanEnd(s: string, i: nat): (end: nat)
    requires i <= |s|
    ensures i <= end <= |s|
  {
    if At(s, i) != '(' then i
    else
      var j := SkipWordChars(s, i + 1);
      if At(s, j) == ')' then j + 1 else i
  }

  predicate IsPoint(s: string, i: nat) { At(s, i) == '.' }

  /** The end of digits with a point before, between or behind them; `i` if there are no digits. */
  function MantissaEnd(s: string, i: nat): (end: nat)
    requires i <= |s|
    ensures i <= end <= |s| && (end == i <==> !IsDigit(At(s, i)) && !(IsPoint(s, i) && IsDigit(At(s, i + 1))))
  {
    var whole := SkipDigits(s, i);
    if !IsPoint(s, whole) then whole
    else
      var fraction := SkipDigits(s, whole + 1);
      if whole == i && fraction == whole + 1 then i else fraction
  }

  /** An exponent has digits; otherwise it is none. */
  function ExponentEnd(s: string, i: nat, letters: string): (end: nat)
    requires i <= |s|
    ensures i <= end <= |s|
  {
    if i == |s| || s[i] !in letters then i
    else
      var digits := if At(s, i + 1) in "+-" then i + 2 else i + 1;
      if IsDigit(At(s, digits)) then SkipDigits(s, digits) else i
  }

  function SkipHex(s: string, i: nat): (j: nat)
    ensures i <= j && (i <= |s| ==> j <= |s|) && (IsHex(At(s, i)) ==> i < j)
    decreases |s| - i
  {
    if i < |s| && IsHex(s[i]) then SkipHex(s, i + 1) else i
  }

  predicate IsHexadecimal(s: string, i: nat) {
    At(s, i) == '0' && At(s, i + 1) in "xX" && (IsHex(At(s, i + 2)) || (IsPoint(s, i + 2) && IsHex(At(s, i + 3))))
  }

  function HexadecimalEnd(s: string, i: nat): (end: nat)
    requires IsHexadecimal(s, i) && i <= |s|
    ensures i + 2 < end <= |s|
  {
    var whole := SkipHex(s, i + 2);
    ExponentEnd(s, if IsPoint(s, whole) then SkipHex(s, whole + 1) else whole, "pP")
  }

  /** Whether there is a number behind the sign. */
  predicate Converts(s: string, i: nat) {
    IsDigit(At(s, i)) || (IsPoint(s, i) && IsDigit(At(s, i + 1))) || Spells(s, i, "inf") || Spells(s, i, "nan")
  }

  /** Where a number ends, behind its sign; `i` if there is none. */
  function NumberEnd(s: string, i: nat): (end: nat)
    requires i <= |s|
    ensures i <= end <= |s| && (end == i <==> !Converts(s, i))
  {
    if Spells(s, i, "inf") then if Spells(s, i, "infinity") then i + 8 else i + 3
    else if Spells(s, i, "nan") then NanEnd(s, i + 3)
    else if IsHexadecimal(s, i) then HexadecimalEnd(s, i)
    else
      var mantissa := MantissaEnd(s, i);
      if mantissa == i then i else ExponentEnd(s, mantissa, "eE")
  }

  /** The decimal point moved by `e` places. */
  function Shifted(x: real, e: int): real
    decreases if e < 0 then -e else e
  {
    if e == 0 then x else if e > 0 then Shifted(x, e - 1) * 10.0 else Shifted(x, e + 1) / 10.0
  }

  /** The number that the digits from `i` on make. */
  function DigitsFrom(s: string, i: nat): nat
    requires i <= |s|
  {
    SkippedAreDigits(s, i);
    DigitsValue(s[i..SkipDigits(s, i)])
  }

  /** The digits from `i` on, and those behind a point. */
  function MantissaValue(s: string, i: nat): real
    requires i <= |s|
  {
    var whole := SkipDigits(s, i);
    DigitsFrom(s, i) as real +
    if !IsPoint(s, whole) then 0.0
    else Shifted(DigitsFrom(s, whole + 1) as real, whole + 1 - SkipDigits(s, whole + 1))
  }

  function ExponentValue(s: string, i: nat): int
    requires i <= |s|
  {
    if ExponentEnd(s, i, "eE") == i then 0
    else if At(s, i + 1) == '-' then 0 - DigitsFrom(s, i + 2) as int
    else DigitsFrom(s, if At(s, i + 1) == '+' then i + 2 else i + 1)
  }

  /** The number behind a sign, or behind none. */
  function NumberValue(s: string, i: nat, negative: bool): Json
    requires i <= |s| && !IsHexadecimal(s, i)
  {
    if Spells(s, i, "inf") then Infinite(negative)
    else if Spells(s, i, "nan") then NotANumber
    else
      var x := Shifted(MantissaValue(s, i), ExponentValue(s, MantissaEnd(s, i)));
      Number(if negative then -x else x)
  }

  function BehindSign(s: string, i: nat): (start: nat)
    requires i < |s|
    ensures i <= start <= |s|
  {
    if s[i] == '-' then i + 1 else i
  }

  /** `strtod`: where the number from `i` ends, sign included; `i` if there is none. */
  function ConvertedEnd(s: string, i: nat): (end: nat)
    requires i < |s|
    ensures i <= end <= |s| && (end == i <==> !Converts(s, BehindSign(s, i)))
  {
    var start := BehindSign(s, i);
    if NumberEnd(s, start) == start then i else NumberEnd(s, start)
  }

  /** `strtod`: the number from `i`, zero if there is none. */
  function ConvertedValue(s: string, i: nat): Json
    requires i < |s| && !IsHexadecimal(s, BehindSign(s, i))
  {
    if ConvertedEnd(s, i) == i then Number(0.0) else NumberValue(s, BehindSign(s, i), s[i] == '-')
  }

  lemma HexadecimalIsRefused(s: string, i: nat)
    requires i < |s|
    ensures IsHexadecimal(s, BehindSign(s, i)) ==> !IsDecimal(s[i..ConvertedEnd(s, i)])
  {
    var start, w := BehindSign(s, i), s[i..ConvertedEnd(s, i)];
    if IsHexadecimal(s, start) {
      NoWordAtDigit(s, start);
      assert w[start + 1 - i] == s[start + 1];
    }
  }

  lemma NoWordAtDigit(s: string, i: nat)
    requires IsDigit(At(s, i)) || IsPoint(s, i)
    ensures !Spells(s, i, "inf") && !Spells(s, i, "nan")
  {
    var inf, nan := "inf", "nan";
    assert Lower(s[i + 0]) == s[i] && inf[0] == 'i' && nan[0] == 'n';
    assert Lower(s[i + 0]) != inf[0] && Lower(s[i + 0]) != nan[0];
  }

  function ParseNumber(s: string, i: nat): (p: Option<Found<Json>>)
    requires i < |s| && (s[i] == '-' || IsDigit(s[i]))
    ensures p.Some? ==> i <= p.value.end <= |s| && (p.value.end == i ==> !IsDigit(s[i]))
  {
    var end := ConvertedEnd(s, i);
    if !IsDecimal(s[i..end]) then None
    else
      HexadecimalIsRefused(s, i);
      Some(Found(ConvertedValue(s, i), end))
  }

  /** The text `t` is found at `i`. */
  predicate Starts(s: string, i: nat, t: string): (found: bool)
    ensures found ==> i + |t| <= |s|
    decreases |t|
  {
    if t == [] then i <= |s| else i < |s| && s[i] == t[0] && Starts(s, i + 1, t[1..])
  }

  lemma {:induction false} StartsIff(s: string, i: nat, t: string)
    ensures Starts(s, i, t) <==> i + |t| <= |s| && s[i..i + |t|] == t
    decreases |t|
  {
    if t != [] && i < |s| {
      StartsIff(s, i + 1, t[1..]);
      assert t == [t[0]] + t[1..];
      if i + |t| <= |s| { assert s[i..i + |t|] == [s[i]] + s[i + 1..i + |t|]; }
    }
  }

  lemma {:induction false} StartsWithFirst(s: string, i: nat, t: string, u: string)
    requires Starts(s, i, t + u)
    ensures Starts(s, i, t) && Starts(s, i + |t|, u)
    ensures t != [] ==> At(s, i) == t[0]
    ensures u != [] ==> At(s, i + |t|) == u[0]
    ensures i + |t| + |u| <= |s|
    decreases |t|
  {
    if t == [] {
      assert t + u == u;
      StartsIff(s, i, u);
    } else {
      assert (t + u)[1..] == t[1..] + u;
      StartsWithFirst(s, i + 1, t[1..], u);
    }
  }

  function ParseWord(s: string, i: nat, word: string, v: Json): (p: Option<Found<Json>>)
    requires word != [] && At(s, i) == word[0]
    ensures p.Some? ==> p.value.end == i + |word| <= |s|
  {
    if Starts(s, i, word) then Some(Found(v, i + |word|)) else None
  }

  function ParseString(s: string, i: nat): (p: Option<Found<Json>>)
    requires i < |s| && s[i] == '"'
    ensures p.Some? ==> i < p.value.end <= |s|
  {
    var p := ProcessedString(s, i);
    if p.None? then None else Some(Found(Str(p.value.value), p.value.end))
  }

  /** The cursor never goes back, and stays where it is only at a minus. */
  function ParseValue(s: string, i: nat, nesting: nat): (p: Option<Found<Json>>)
    requires i <= |s| && nesting <= MAX_NESTING + 1
    ensures p.Some? ==> i <= p.value.end <= |s| && (p.value.end == i ==> At(s, i) == '-')
    decreases MAX_NESTING + 1 - nesting, 2, 0
  {
    if nesting > MAX_NESTING then None
    else
      var j := SkipSpace(s, i);
      var c := At(s, j);
      if c == '{' then ParseObject(s, j, nesting + 1)
      else if c == '[' then ParseArray(s, j, nesting + 1)
      else if c == '"' then ParseString(s, j)
      else if c == 't' then ParseWord(s, j, "true", Bool(true))
      else if c == 'f' then ParseWord(s, j, "false", Bool(false))
      else if c == 'n' then ParseWord(s, j, "null", Null)
      else if c == '-' || IsDigit(c) then ParseNumber(s, j)
      else None
  }

  function ParseArray(s: string, i: nat, nesting: nat): (p: Option<Found<Json>>)
    requires i < |s| && 1 <= nesting <= MAX_NESTING + 1
    ensures p.Some? ==> i < p.value.end <= |s|
    decreases MAX_NESTING + 2 - nesting, 1, 0
  {
    var j := SkipSpace(s, i + 1);
    if At(s, j) == ']' then Some(Found(Array([]), j + 1)) else ParseItems(s, j, nesting, [])
  }

  /** The rest of an array after `items`. */
  function ParseItems(s: string, i: nat, nesting: nat, items: seq<Json>): (p: Option<Found<Json>>)
    requires i <= |s| && 1 <= nesting <= MAX_NESTING + 1
    ensures p.Some? ==> i < p.value.end <= |s|
    decreases MAX_NESTING + 2 - nesting, 0, |s| - i, 1
  {
    if At(s, i) == '\0' then None
    else
      var v := ParseValue(s, i, nesting);
      if v.None? || |items| >= ARRAY_MAX_CAPACITY then None
      else AfterItem(s, SkipSpace(s, v.value.end), nesting, items + [v.value.value])
  }

  /** What comes of an array whose last item so far ends, spaces included, at `j`. */
  function AfterItem(s: string, j: nat, nesting: nat, items: seq<Json>): (p: Option<Found<Json>>)
    requires j <= |s| && 1 <= nesting <= MAX_NESTING + 1
    ensures p.Some? ==> j < p.value.end <= |s|
    decreases MAX_NESTING + 2 - nesting, 0, |s| - j, 0
  {
    if At(s, j) == ',' then ParseItems(s, SkipSpace(s, j + 1), nesting, items)
    else if At(s, j) == ']' then Some(Found(Array(items), j + 1))
    else None
  }

  // ----- Objects -----

  predicate Has(members: seq<Member>, name: string) {
    members != [] && (members[|members| - 1].name == name || Has(members[..|members| - 1], name))
  }

  lemma {:induction false} HasIff(members: seq<Member>, name: string)
    ensures Has(members, name) <==> exists k :: 0 <= k < |members| && members[k].name == name
    decreases |members|
  {
    if members != [] {
      var init := members[..|members| - 1];
      HasIff(init, name);
      assert forall k :: 0 <= k < |init| ==> init[k] == members[k];
    }
  }

  predicate DistinctNames(members: seq<Member>) {
    members == [] ||
    (!Has(members[..|members| - 1], members[|members| - 1].name) && DistinctNames(members[..|members| - 1]))
  }

  lemma {:induction false} DistinctNamesIff(members: seq<Member>)
    ensures DistinctNames(members) <==> forall j, k :: 0 <= j < k < |members| ==> members[j].name != members[k].name
    decreases |members|
  {
    if members != [] {
      var init := members[..|members| - 1];
      DistinctNamesIff(init);
      HasIff(init, members[|members| - 1].name);
      assert forall k :: 0 <= k < |init| ==> init[k] == members[k];
    }
  }

  /** json_object_add takes no name twice, and no more than 960. */
  predicate CanAdd(members: seq<Member>, name: string) {
    |members| < OBJECT_MAX_CAPACITY && !Has(members, name)
  }

  function ParseObject(s: string, i: nat, nesting: nat): (p: Option<Found<Json>>)
    requires i < |s| && 1 <= nesting <= MAX_NESTING + 1
    ensures p.Some? ==> i < p.value.end <= |s|
    decreases MAX_NESTING + 2 - nesting, 1, 0
  {
    var j := SkipSpace(s, i + 1);
    if At(s, j) == '}' then Some(Found(Object([]), j + 1)) else ParseMembers(s, j, nesting, [])
  }

  /** The name from `i` and the colon behind it.  The name is taken for a string without a look at its first
      character. */
  function ParseName(s: string, i: nat): (p: Option<Found<string>>)
    requires i < |s|
    ensures p.Some? ==> i < p.value.end <= |s|
  {
    var name := ProcessedString(s, i);
    if name.None? then None
    else
      var j := SkipSpace(s, name.value.end);
      if At(s, j) != ':' then None else Some(Found(name.value.value, j + 1))
  }

  /** A name, a colon and a value. */
  function ParseMember(s: string, i: nat, nesting: nat): (p: Option<Found<Member>>)
    requires i < |s| && 1 <= nesting <= MAX_NESTING + 1
    ensures p.Some? ==> i < p.value.end <= |s|
    decreases MAX_NESTING + 2 - nesting, 0, |s| - i, 0
  {
    var name := ParseName(s, i);
    if name.None? then None
    else
      var v := ParseValue(s, name.value.end, nesting);
      if v.None? then None else Some(Found(Member(name.value.value, v.value.value), v.value.end))
  }

  /** The rest of an object after `members`. */
  function ParseMembers(s: string, i: nat, nesting: nat, members: seq<Member>): (p: Option<Found<Json>>)
    requires i <= |s| && 1 <= nesting <= MAX_NESTING + 1
    ensures p.Some? ==> i < p.value.end <= |s|
    decreases MAX_NESTING + 2 - nesting, 0, |s| - i, 1
  {
    if At(s, i) == '\0' then None
    else
      var m := ParseMember(s, i, nesting);
      if m.None? || !CanAdd(members, m.value.value.name) then None
      else AfterMember(s, SkipSpace(s, m.value.end), nesting, members + [m.value.value])
  }

  /** What comes of an object whose last member so far ends, spaces included, at `j`. */
  function AfterMember(s: string, j: nat, nesting: nat, members: seq<Member>): (p: Option<Found<Json>>)
    requires j <= |s| && 1 <= nesting <= MAX_NESTING + 1
    ensures p.Some? ==> j < p.value.end <= |s|
    decreases MAX_NESTING + 2 - nesting, 0, |s| - j, 0
  {
    if At(s, j) == ',' then ParseMembers(s, SkipSpace(s, j + 1), nesting, members)
    else if At(s, j) == '}' then Some(Found(Object(members), j + 1))
    else None
  }

  // ----- One round of a loop -----

  /** An item is read, and what follows is looked at. */
  lemma ItemsGoOn(s: string, i: nat, nesting: nat, items: seq<Json>, v: Json, end: nat)
    requires i <= |s| && 1 <= nesting <= MAX_NESTING + 1 && At(s, i) != '\0'
    requires ParseValue(s, i, nesting) == Some(Found(v, end)) && |items| < ARRAY_MAX_CAPACITY
    ensures ParseItems(s, i, nesting, items) == AfterItem(s, SkipSpace(s, end), nesting, items + [v])
  {
  }

  lemma ItemsStop(s: string, i: nat, nesting: nat, items: seq<Json>)
    requires i <= |s| && 1 <= nesting <= MAX_NESTING + 1
    requires ParseValue(s, i, nesting).None? || |items| >= ARRAY_MAX_CAPACITY
    ensures ParseItems(s, i, nesting, items) == None
  {
  }

  lemma MembersGoOn(s: string, i: nat, nesting: nat, members: seq<Member>, m: Member, end: nat)
    requires i <= |s| && 1 <= nesting <= MAX_NESTING + 1 && At(s, i) != '\0' && CanAdd(members, m.name)
    requires ParseMember(s, i, nesting) == Some(Found(m, end))
    ensures ParseMembers(s, i, nesting, members) == AfterMember(s, SkipSpace(s, end), nesting, members + [m])
  {
  }

  lemma MembersStop(s: string, i: nat, nesting: nat, members: seq<Member>)
    requires i <= |s| && 1 <= nesting <= MAX_NESTING + 1 && At(s, i) != '\0'
    requires ParseMember(s, i, nesting).None? || !CanAdd(members, ParseMember(s, i, nesting).value.value.name)
    ensures ParseMembers(s, i, nesting, members) == None
  {
  }

  // ----- Where the cursor rests -----

  /** A minus with no number behind it. */
  predicate LoneMinus(s: string, i: nat) { At(s, i) == '-' && !Converts(s, i + 1) }

  /** The cursor stays where it is exactly at such a minus, and the value is 0. */
  lemma RestsIff(s: string, i: nat, nesting: nat)
    requires i <= |s| && nesting <= MAX_NESTING
    ensures ParseValue(s, i, nesting).Some? && ParseValue(s, i, nesting).value.end == i <==> LoneMinus(s, i)
    ensures LoneMinus(s, i) ==> ParseValue(s, i, nesting) == Some(Found(Number(0.0), i))
  {
    if At(s, i) == '-' { assert SkipSpace(s, i) == i && i < |s|; }
  }

  /** An array with such an element is malformed: an element that is read moves the cursor on. */
  lemma NoRestInArray(s: string, i: nat, nesting: nat, items: seq<Json>)
    requires i <= |s| && 1 <= nesting <= MAX_NESTING + 1 && LoneMinus(s, i)
    ensures ParseItems(s, i, nesting, items) == None
  {
    if nesting <= MAX_NESTING { RestsIff(s, i, nesting); }
  }

  /** Texts at which the cursor rests, for there is no number behind the minus, or none that is complete. */
  lemma MinusIsZero()
    ensures ParseValue("-", 0, 0) == ParseValue("-.", 0, 0) == ParseValue("-ix", 0, 0) == Some(Found(Number(0.0), 0))
  {
    RestsIff("-", 0, 0);
    RestsIff("-.", 0, 0);
    RestsIff("-ix", 0, 0);
  }

  // ----- What is read -----

  /** What may lie inside `nesting` lists and objects. */
  predicate WithinLimits(v: Json, nesting: nat) {
    nesting <= MAX_NESTING &&
    match v
    case Str(t) => NoNull(t)
    case Array(items) => |items| <= ARRAY_MAX_CAPACITY && AllWithin(items, nesting + 1)
    case Object(members) =>
      |members| <= OBJECT_MAX_CAPACITY && DistinctNames(members) && MembersWithin(members, nesting + 1)
    case _ => true
  }

  predicate AllWithin(items: seq<Json>, nesting: nat) {
    forall k :: 0 <= k < |items| ==> WithinLimits(items[k], nesting)
  }

  predicate MembersWithin(members: seq<Member>, nesting: nat) {
    forall k :: 0 <= k < |members| ==> WithinLimits(members[k].value, nesting)
  }

  /** What comes before the first null character. */
  lemma {:induction false} CStringHasNoNull(s: string)
    ensures NoNull(CString(s)) && |CString(s)| <= |s| && CString(s) == s[..|CString(s)|]
    ensures |CString(s)| < |s| ==> s[|CString(s)|] == '\0'
    decreases |s|
  {
    if s != [] { CStringHasNoNull(s[1..]); }
  }

  lemma StringIsWithin(s: string, i: nat)
    requires i < |s| && ProcessedString(s, i).Some?
    ensures NoNull(ProcessedString(s, i).value.value)
  {
    CStringHasNoNull(Unescape(s[i + 1..SkipQuotes(s, i + 1) - 1]).value);
  }

  lemma OneMoreMember(members: seq<Member>, m: Member, nesting: nat)
    requires DistinctNames(members) && MembersWithin(members, nesting)
    requires CanAdd(members, m.name) && WithinLimits(m.value, nesting)
    ensures DistinctNames(members + [m]) && MembersWithin(members + [m], nesting)
    ensures |members + [m]| <= OBJECT_MAX_CAPACITY
  {
    assert (members + [m])[..|members|] == members;
  }

  lemma {:induction false} ValueIsWithin(s: string, i: nat, nesting: nat)
    requires i <= |s| && nesting <= MAX_NESTING + 1 && ParseValue(s, i, nesting).Some?
    ensures At(s, SkipSpace(s, i)) == '{' ==> ParseValue(s, i, nesting).value.value.Object?
    ensures At(s, SkipSpace(s, i)) == '[' ==> ParseValue(s, i, nesting).value.value.Array?
    ensures WithinLimits(ParseValue(s, i, nesting).value.value, nesting)
    decreases MAX_NESTING + 1 - nesting, 2, 0
  {
    var j := SkipSpace(s, i);
    if At(s, j) == '{' {
      var k := SkipSpace(s, j + 1);
      if At(s, k) != '}' { MembersAreWithin(s, k, nesting + 1, []); }
    } else if At(s, j) == '[' {
      var k := SkipSpace(s, j + 1);
      if At(s, k) != ']' { ItemsAreWithin(s, k, nesting + 1, []); }
    } else if At(s, j) == '"' {
      StringIsWithin(s, j);
    }
  }

  lemma {:induction false} ItemsAreWithin(s: string, i: nat, nesting: nat, items: seq<Json>)
    requires i <= |s| && 1 <= nesting <= MAX_NESTING + 1 && ParseItems(s, i, nesting, items).Some?
    requires |items| <= ARRAY_MAX_CAPACITY && AllWithin(items, nesting)
    ensures ParseItems(s, i, nesting, items).value.value.Array?
    ensures WithinLimits(ParseItems(s, i, nesting, items).value.value, nesting - 1)
    decreases MAX_NESTING + 2 - nesting, 0, |s| - i
  {
    var v := ParseValue(s, i, nesting).value;
    ValueIsWithin(s, i, nesting);
    var j, items' := SkipSpace(s, v.end), items + [v.value];
    if At(s, j) == ',' { ItemsAreWithin(s, SkipSpace(s, j + 1), nesting, items'); }
  }

  lemma {:induction false} MembersAreWithin(s: string, i: nat, nesting: nat, members: seq<Member>)
    requires i <= |s| && 1 <= nesting <= MAX_NESTING + 1 && ParseMembers(s, i, nesting, members).Some?
    requires |members| <= OBJECT_MAX_CAPACITY && DistinctNames(members) && MembersWithin(members, nesting)
    ensures ParseMembers(s, i, nesting, members).value.value.Object?
    ensures WithinLimits(ParseMembers(s, i, nesting, members).value.value, nesting - 1)
    decreases MAX_NESTING + 2 - nesting, 0, |s| - i
  {
    hide ParseValue, ParseName, SkipSpace, CanAdd;
    var m := ParseMember(s, i, nesting).value;
    ValueIsWithin(s, ParseName(s, i).value.end, nesting);
    var j, members' := SkipSpace(s, m.end), members + [m.value];
    OneMoreMember(members, m.value, nesting);
    if At(s, j) == ',' { MembersAreWithin(s, SkipSpace(s, j + 1), nesting, members'); }
  }

  /** Whatever the text, what is read of it lies inside at most 19 lists and objects, no object has two members
      of one name, and nothing is too long. */
  lemma WhatIsReadIsWithinLimits(s: string)
    requires ParseText(s).Some?
    ensures ParseText(s).value.Array? || ParseText(s).value.Object?
    ensures WithinLimits(ParseText(s).value, 0)
  {
    ValueIsWithin(s, 0, 0);
  }

  // ----- Strings at the end of the text -----

  /** A string that the text ends with is malformed, closing quote or not. */
  lemma StringAtEnd(s: string, i: nat)
    requires i < |s| && SkipQuotes(s, i + 1) == |s|
    ensures ProcessedString(s, i) == None
  {
  }

  /** In a whole text, where that has to be a list or an object, no string comes last anyway. */
  lemma QuotedAtEnd()
    ensures ProcessedString("\"\"", 0) == None && ProcessedString("\"\"]", 0) == Some(Found("", 2))
    ensures ParseText("\"\"") == None && ParseText("[\"\"]") == Some(Array([Str("")]))
  {
    assert SkipQuotes("\"\"", 1) == 2 && SkipQuotes("\"\"]", 1) == 2;
    assert "\"\"]"[1..1] == [];
    QuotedInArray("[\"\"]");
  }

  lemma QuotedInArray(s: string)
    requires s == "[\"\"]"
    ensures ParseText(s) == Some(Array([Str("")]))
  {
    assert SkipQuotes(s, 2) == 3 && s[2..2] == [];
    assert ProcessedString(s, 1) == Some(Found("", 3));
    assert ParseValue(s, 1, 1) == Some(Found(Str(""), 3));
    assert SkipSpace(s, 1) == 1 && SkipSpace(s, 3) == 3;
    assert [] + [Str("")] == [Str("")];
    assert ParseItems(s, 1, 1, []) == Some(Found(Array([Str("")]), 4));
    assert ParseArray(s, 0, 1) == Some(Found(Array([Str("")]), 4));
  }

  /** `json_parse_string` */
  function ParseText(s: string): Option<Json> {
    if At(s, 0) != '{' && At(s, 0) != '[' then None
    else
      var p := ParseValue(s, 0, 0);
      if p.None? then None else Some(p.value.value)
  }

  /** `unjsonify` makes an empty list of null. */
  function Unjsonify(v: Json): Json {
    match v
    case Null => Array([])
    case Array(items) => Array(seq(|items|, k requires 0 <= k < |items| => Unjsonify(items[k])))
    case Object(members) =>
      Object(seq(|members|, k requires 0 <= k < |members| => Member(members[k].name, Unjsonify(members[k].value))))
    case _ => v
  }

  /** `fa_string_to_json` and `fa_string_from_json`; the latter stops at malformed text. */
  function ToJson(v: Json): string
    requires Printable(v)
  {
    Show(v)
  }

  function FromJson(s: string): Option<Json> {
    var p := ParseText(s);
    if p.None? then None else Some(Unjsonify(p.value))
  }
}
