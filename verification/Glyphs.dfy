/** Strings: what the text between two quotes stands for (section 7 of RFC 8259), and that the parser reads it as
    that. */
module Glyphs {
  import opened Basics
  import opened Json

  /** One character as it is written: as itself, as a backslash and a letter, or as the four hexadecimal digits of
      its code, each of them in upper or lower case. */
  datatype Glyph = Plain(c: char) | Short(code: nat) | Code(code: nat, upper: seq<bool>) {
    predicate Proper() {
      match this
      case Plain(c) => c != '"' && c != '\\' && c != '\0'
      case Short(code) => Letter(code).Some?
      case Code(code, upper) => code < 0x1_0000 && |upper| == 4
    }

    /** Control characters have to be escaped. */
    predicate Clean() { Plain? ==> c >= ' ' }

    function Text(): string
      requires Proper()
    {
      match this
      case Plain(c) => [c]
      case Short(code) => ['\\', Letter(code).value]
      case Code(code, upper) => "\\u" + HexText(code, upper)
    }

    /** The bytes of the character. */
    function Value(): string
      requires Proper()
    {
      match this
      case Plain(c) => [c]
      case Short(code) => [code as char]
      case Code(code, _) => Utf8(code)
    }
  }

  /** The letters for backspace, tab, line feed, form feed, carriage return, quote, slash and backslash. */
  function Letter(code: nat): Option<char> {
    match code
    case 8 => Some('b')
    case 9 => Some('t')
    case 10 => Some('n')
    case 12 => Some('f')
    case 13 => Some('r')
    case 34 => Some('"')
    case 47 => Some('/')
    case 92 => Some('\\')
    case _ => None
  }

  function HexChar(d: nat, upper: bool): char
    requires d < 16
  {
    if d < 10 then '0' + d as char else (if upper then 'A' else 'a') + (d - 10) as char
  }

  function HexText(v: nat, upper: seq<bool>): string
    requires v < 0x1_0000 && |upper| == 4
  {
    [HexChar(v / 0x1000, upper[0]), HexChar(v / 0x100 % 0x10, upper[1]), HexChar(v / 0x10 % 0x10, upper[2]),
     HexChar(v % 0x10, upper[3])]
  }

  predicate AllProper(gs: seq<Glyph>) { gs == [] || (gs[0].Proper() && AllProper(gs[1..])) }

  predicate AllClean(gs: seq<Glyph>) { gs == [] || (gs[0].Clean() && AllClean(gs[1..])) }

  function GlyphsText(gs: seq<Glyph>): string
    requires AllProper(gs)
  {
    if gs == [] then [] else gs[0].Text() + GlyphsText(gs[1..])
  }

  function Spelled(gs: seq<Glyph>): string
    requires AllProper(gs)
  {
    if gs == [] then [] else gs[0].Value() + Spelled(gs[1..])
  }

  /** A null character, which can only be written by its code, ends the string for those who read it. */
  predicate HasNull(gs: seq<Glyph>) { gs != [] && ((gs[0].Code? && gs[0].code == 0) || HasNull(gs[1..])) }

  // ----- Characters -----

  /** The low six bits of a byte that continues a character. */
  function Continued(c: char): Option<nat> {
    if 0x80 <= c as int < 0xC0 then Some(c as int - 0x80) else None
  }

  /** Section 3 of RFC 3629 for characters of up to three bytes; longer forms than needed are refused. */
  function DecodeUtf8(t: string): Option<nat> {
    if |t| == 1 && t[0] as int < 0x80 then Some(t[0] as int)
    else if |t| == 2 && 0xC2 <= t[0] as int < 0xE0 && Continued(t[1]).Some? then
      Some((t[0] as int - 0xC0) * 0x40 + Continued(t[1]).value)
    else if |t| == 3 && 0xE0 <= t[0] as int < 0xF0 && Continued(t[1]).Some? && Continued(t[2]).Some? then
      var v := (t[0] as int - 0xE0) * 0x1000 + Continued(t[1]).value * 0x40 + Continued(t[2]).value;
      if v < 0x800 then None else Some(v)
    else None
  }

  /** A number of 16 bits, six bits at a time. */
  lemma SixBits(v: nat)
    requires v < 0x1_0000
    ensures v == v / 0x1000 * 0x1000 + v / 0x40 % 0x40 * 0x40 + v % 0x40 && v / 0x1000 < 0x10
  {
  }

  /** The bytes written for an escaped character are the character's, in no more bytes than it needs. */
  lemma EscapedCharacterIsDecoded(v: nat)
    requires v < 0x1_0000
    ensures DecodeUtf8(Utf8(v)) == Some(v)
  {
    if v >= 0x800 { SixBits(v); }
  }

  lemma FourStart(s: string, i: nat, t: string)
    requires |t| == 4 && Starts(s, i, t)
    ensures At(s, i) == t[0] && At(s, i + 1) == t[1] && At(s, i + 2) == t[2] && At(s, i + 3) == t[3]
  {
    StartsIff(s, i, t);
    var w := s[i..i + 4];
    assert w[0] == s[i] && w[1] == s[i + 1] && w[2] == s[i + 2] && w[3] == s[i + 3];
  }

  lemma HexCharIsDigit(d: nat, upper: bool)
    requires d < 16
    ensures IsHex(HexChar(d, upper)) && HexDigit(HexChar(d, upper)) == d
  {
  }

  lemma FourBits(v: nat)
    requires v < 0x1_0000
    ensures v / 0x1000 < 0x10
    ensures v == v / 0x1000 * 0x1000 + v / 0x100 % 0x10 * 0x100 + v / 0x10 % 0x10 * 0x10 + v % 0x10
  {
  }

  /** Four hexadecimal digits, in either case, are read as the number they were made from. */
  lemma HexIsRead(s: string, i: nat, v: nat, upper: seq<bool>)
    requires v < 0x1_0000 && |upper| == 4 && Starts(s, i, HexText(v, upper))
    ensures IsUtf(s, i) && Hex4(s, i) == v
  {
    var t := HexText(v, upper);
    FourBits(v);
    HexCharIsDigit(v / 0x1000, upper[0]);
    HexCharIsDigit(v / 0x100 % 0x10, upper[1]);
    HexCharIsDigit(v / 0x10 % 0x10, upper[2]);
    HexCharIsDigit(v % 0x10, upper[3]);
    FourStart(s, i, t);
  }

  /** The parser's table of letters is that one. */
  lemma LetterIsRead(code: nat)
    requires Letter(code).Some?
    ensures Unescaped(Letter(code).value) == Some(code as char) && Letter(code).value != 'u'
  {
  }

  // ----- Strings -----

  lemma PlainIsUnescaped(g: Glyph, rest: string)
    requires g.Proper() && g.Plain?
    ensures Unescape(g.Text() + rest) == if g.Clean() then Prepend(g.Value(), Unescape(rest)) else None
  {
    assert (g.Text() + rest)[1..] == rest;
  }

  lemma ShortIsUnescaped(g: Glyph, rest: string)
    requires g.Proper() && g.Short?
    ensures Unescape(g.Text() + rest) == Prepend(g.Value(), Unescape(rest))
  {
    LetterIsRead(g.code);
    assert (g.Text() + rest)[2..] == rest;
  }

  lemma CodeIsUnescaped(g: Glyph, rest: string)
    requires g.Proper() && g.Code?
    ensures Unescape(g.Text() + rest) == Prepend(g.Value(), Unescape(rest))
  {
    var t := g.Text() + rest;
    assert t == "\\u" + (HexText(g.code, g.upper) + rest);
    assert t[2..6] == HexText(g.code, g.upper);
    StartsIff(t, 2, HexText(g.code, g.upper));
    HexIsRead(t, 2, g.code, g.upper);
    assert t[6..] == rest;
  }

  /** Every way to write a string is read as that string; only control characters that are not escaped are refused. */
  lemma {:induction false} GlyphsAreUnescaped(gs: seq<Glyph>)
    requires AllProper(gs)
    ensures Unescape(GlyphsText(gs)) == if AllClean(gs) then Some(Spelled(gs)) else None
    decreases |gs|
  {
    if gs != [] {
      var rest := GlyphsText(gs[1..]);
      GlyphsAreUnescaped(gs[1..]);
      match gs[0]
      case Plain(_) => PlainIsUnescaped(gs[0], rest);
      case Short(_) => ShortIsUnescaped(gs[0], rest);
      case Code(_, _) => CodeIsUnescaped(gs[0], rest);
    }
  }

  lemma FourAreSkipped(s: string, i: nat, t: string)
    requires Starts(s, i, t) && |t| == 4 && forall k :: 0 <= k < 4 ==> t[k] != '"' && t[k] != '\\' && t[k] != '\0'
    ensures SkipQuotes(s, i) == SkipQuotes(s, i + 4)
  {
    FourStart(s, i, t);
    assert SkipQuotes(s, i) == SkipQuotes(s, i + 1) == SkipQuotes(s, i + 2) == SkipQuotes(s, i + 3);
  }

  lemma HexIsSkipped(s: string, i: nat, v: nat, upper: seq<bool>)
    requires v < 0x1_0000 && |upper| == 4 && Starts(s, i, HexText(v, upper))
    ensures SkipQuotes(s, i) == SkipQuotes(s, i + 4)
  {
    FourBits(v);
    HexCharIsDigit(v / 0x1000, upper[0]);
    HexCharIsDigit(v / 0x100 % 0x10, upper[1]);
    HexCharIsDigit(v / 0x10 % 0x10, upper[2]);
    HexCharIsDigit(v % 0x10, upper[3]);
    FourAreSkipped(s, i, HexText(v, upper));
  }

  lemma GlyphIsSkipped(s: string, i: nat, g: Glyph)
    requires g.Proper() && Starts(s, i, g.Text())
    ensures SkipQuotes(s, i) == SkipQuotes(s, i + |g.Text()|)
  {
    var t := g.Text();
    assert At(s, i) == t[0];
    if !g.Plain? { assert At(s, i + 1) == t[1]; }
    if g.Code? {
      StartsWithFirst(s, i, "\\u", HexText(g.code, g.upper));
      HexIsSkipped(s, i + 2, g.code, g.upper);
    }
  }

  /** The closing quote is found behind all of them. */
  lemma {:induction false} QuoteIsFound(s: string, i: nat, gs: seq<Glyph>)
    requires AllProper(gs) && Starts(s, i, GlyphsText(gs) + "\"")
    ensures SkipQuotes(s, i) == i + |GlyphsText(gs)| + 1
    decreases |gs|
  {
    if gs == [] {
      assert At(s, i) == (GlyphsText(gs) + "\"")[0];
    } else {
      var t, rest := gs[0].Text(), GlyphsText(gs[1..]) + "\"";
      assert GlyphsText(gs) + "\"" == t + rest;
      StartsWithFirst(s, i, t, rest);
      GlyphIsSkipped(s, i, gs[0]);
      QuoteIsFound(s, i + |t|, gs[1..]);
    }
  }

  function Enclosed(opening: char, gs: seq<Glyph>): string
    requires AllProper(gs)
  {
    [opening] + (GlyphsText(gs) + "\"")
  }

  function QuotedText(gs: seq<Glyph>): string
    requires AllProper(gs)
  {
    Enclosed('"', gs)
  }

  lemma ContentIsUnescaped(s: string, i: nat, e: string, end: nat)
    requires i < |s| && Starts(s, i + 1, e) && end == i + |e| + 2 && SkipQuotes(s, i + 1) == end && At(s, end) != '\0'
    ensures s[i + 1..SkipQuotes(s, i + 1) - 1] == e
    ensures Unescape(e).None? ==> ProcessedString(s, i) == None
    ensures Unescape(e).Some? ==> ProcessedString(s, i) == Some(Found(CString(Unescape(e).value), end))
  {
    StartsIff(s, i + 1, e);
    assert i + 1 + |e| == end - 1;
  }

  /** A string in a longer text is read as what is written up to a null character; a string with control characters is
      not read.  What it begins with is not looked at. */
  lemma QuotedIsRead(s: string, i: nat, opening: char, gs: seq<Glyph>, end: nat)
    requires AllProper(gs) && Starts(s, i, Enclosed(opening, gs)) && end == i + |Enclosed(opening, gs)|
    requires At(s, end) != '\0'
    ensures i < |s| && s[i] == opening
    ensures ProcessedString(s, i) == if AllClean(gs) then Some(Found(CString(Spelled(gs)), end)) else None
  {
    StartsWithFirst(s, i, [opening], GlyphsText(gs) + "\"");
    StartsWithFirst(s, i + 1, GlyphsText(gs), "\"");
    QuoteIsFound(s, i + 1, gs);
    ContentIsUnescaped(s, i, GlyphsText(gs), end);
    GlyphsAreUnescaped(gs);
  }

  lemma {:induction false} CStringOfNoNull(t: string)
    requires NoNull(t)
    ensures CString(t) == t
    decreases |t|
  {
    if t != [] { CStringOfNoNull(t[1..]); }
  }

  lemma GlyphHasNull(g: Glyph)
    requires g.Proper()
    ensures NoNull(g.Value()) <==> !(g.Code? && g.code == 0)
  {
    if g.Code? && g.code == 0 { assert g.Value()[0] == '\0'; }
  }

  lemma {:induction false} SpelledHasNull(gs: seq<Glyph>)
    requires AllProper(gs)
    ensures NoNull(Spelled(gs)) <==> !HasNull(gs)
    decreases |gs|
  {
    if gs != [] {
      var g, rest := gs[0], Spelled(gs[1..]);
      SpelledHasNull(gs[1..]);
      GlyphHasNull(g);
      assert NoNull(g.Value() + rest) <==> NoNull(g.Value()) && NoNull(rest) by { NoNullInBoth(g.Value(), rest); }
    }
  }

  lemma NoNullInBoth(t: string, u: string)
    ensures NoNull(t + u) <==> NoNull(t) && NoNull(u)
  {
    if NoNull(t + u) {
      assert forall k :: 0 <= k < |t| ==> t[k] == (t + u)[k];
      assert forall k :: 0 <= k < |u| ==> u[k] == (t + u)[|t| + k];
    }
  }

  /** Nothing is cut off exactly if no null character is written. */
  lemma WholeIffNoNull(gs: seq<Glyph>)
    requires AllProper(gs)
    ensures CString(Spelled(gs)) == Spelled(gs) <==> !HasNull(gs)
  {
    SpelledHasNull(gs);
    CStringHasNoNull(Spelled(gs));
    if NoNull(Spelled(gs)) { CStringOfNoNull(Spelled(gs)); }
  }
}
