/** Parsing what was printed gives it back, exactly when the parser's limits allow it: what is printed is one of the
    ways to write the value. */
module RoundTrip {
  import opened Basics
  import opened Json
  import opened Numerals
  import opened Glyphs
  import opened Grammar

  // ----- What is printed -----

  /** Quotes and backslashes are escaped, and nothing else. */
  function GlyphOf(c: char): Glyph {
    if c == '"' then Short(34) else if c == '\\' then Short(92) else Plain(c)
  }

  function GlyphsOf(s: string): seq<Glyph> { if s == [] then [] else [GlyphOf(s[0])] + GlyphsOf(s[1..]) }

  function NumeralOf(n: int): Numeral { Numeral(n < 0, Some(if n < 0 then -n else n), None, None) }

  predicate AllPrintable(items: seq<Json>) { forall k :: 0 <= k < |items| ==> Printable(items[k]) }

  /** The value as the library writes it, without any spaces. */
  function Printed(v: Json): Syntax
    requires Printable(v)
  {
    match v
    case Bool(b) => BoolWord(b)
    case Number(x) => Numeric(NumeralOf(x.Floor))
    case Str(s) => Quoted(GlyphsOf(s))
    case Array(items) => List("", Elements(items))
  }

  function Elements(items: seq<Json>): (es: seq<Element>)
    requires AllPrintable(items)
    ensures |es| == |items|
  {
    if items == [] then [] else [Element("", Printed(items[0]), "")] + Elements(items[1..])
  }

  function Parts(items: seq<Json>): seq<string>
    requires AllPrintable(items)
  {
    seq(|items|, k requires 0 <= k < |items| => Show(items[k]))
  }

  // ----- The limits -----

  /** No control characters, other than DEL. */
  predicate Clean(s: string) { forall k :: 0 <= k < |s| ==> s[k] >= ' ' }

  /** What the parser's limits allow inside `nesting` lists. */
  predicate Fits(v: Json, nesting: nat) {
    && nesting <= MAX_NESTING
    && (v.Str? ==> Clean(v.s))
    && (v.Array? ==>
          |v.items| <= ARRAY_MAX_CAPACITY && forall k :: 0 <= k < |v.items| ==> Fits(v.items[k], nesting + 1))
  }

  predicate AllFit(items: seq<Json>, nesting: nat) { forall k :: 0 <= k < |items| ==> Fits(items[k], nesting) }

  // ----- Atoms -----

  lemma CleanFirst(s: string)
    requires s != []
    ensures Clean(s) <==> s[0] >= ' ' && Clean(s[1..])
  {
    assert s == [s[0]] + s[1..];
  }

  lemma {:induction false} EscapedIsWritten(s: string)
    requires NoNull(s)
    ensures AllProper(GlyphsOf(s)) && GlyphsText(GlyphsOf(s)) == Escape(s) && Spelled(GlyphsOf(s)) == s
    ensures AllClean(GlyphsOf(s)) <==> Clean(s)
    decreases |s|
  {
    if s != [] {
      var gs, g := GlyphsOf(s), GlyphOf(s[0]);
      EscapedIsWritten(s[1..]);
      assert gs[1..] == GlyphsOf(s[1..]) && gs[0] == g;
      assert g.Proper() && g.Text() == EscapeChar(s[0]) && g.Value() == [s[0]];
      CleanFirst(s);
    }
  }

  lemma IntIsWritten(n: int)
    ensures NumeralOf(n).Proper() && NumeralText(NumeralOf(n)) == ShowInt(n) && NumberOf(NumeralOf(n)) == n as real
    ensures Accepted(NumeralOf(n))
  {
    var d := Digits(if n < 0 then -n else n);
    assert d + ([] + []) == d && "" + d == d;
  }

  // ----- Lists -----

  lemma AllPrintableFirst(items: seq<Json>)
    requires items != [] && AllPrintable(items)
    ensures Printable(items[0]) && AllPrintable(items[1..]) && Parts(items) == [Show(items[0])] + Parts(items[1..])
  {
  }

  lemma AllFitFirst(items: seq<Json>, nesting: nat)
    requires items != []
    ensures AllFit(items, nesting) <==> Fits(items[0], nesting) && AllFit(items[1..], nesting)
  {
    assert items == [items[0]] + items[1..];
  }

  lemma ListedIsWritten(items: seq<Json>, es: seq<Element>, x: Syntax)
    requires items != [] && AllPrintable(items) && Proper(x) && Text(x) == Show(items[0])
    requires |es| == |items| && es == [Element("", x, "")] + es[1..] && ElementsProper(es[1..])
    requires |items| > 1 ==> ElementsText(es[1..]) == Listed(Parts(items[1..]))
    ensures ElementsProper(es) && ElementsText(es) == Listed(Parts(items))
  {
    AllPrintableFirst(items);
    var parts := Parts(items);
    assert parts[1..] == Parts(items[1..]);
    assert "" + (Text(x) + "") == Text(x);
  }

  /** What is printed is one of the ways to write the value, and within the limits if the value is. */
  lemma {:induction false} ShownIsWritten(v: Json, nesting: nat)
    requires Printable(v)
    ensures Proper(Printed(v)) && Text(Printed(v)) == Show(v) && Meaning(Printed(v)) == v
    ensures Allowed(Printed(v), nesting) <==> Fits(v, nesting)
    decreases v
  {
    match v
    case Bool(_) =>
    case Number(x) => IntIsWritten(x.Floor);
    case Str(s) =>
      EscapedIsWritten(s);
      CStringOfNoNull(s);
    case Array(items) =>
      ItemsAreWritten(items, nesting + 1);
      assert Show(v) == "[" + Listed(Parts(items));
  }

  lemma {:induction false} ItemsAreWritten(items: seq<Json>, nesting: nat)
    requires AllPrintable(items)
    ensures ElementsProper(Elements(items)) && Meanings(Elements(items)) == items
    ensures items != [] ==> ElementsText(Elements(items)) == Listed(Parts(items))
    ensures ElementsAllowed(Elements(items), nesting) <==> AllFit(items, nesting)
    decreases items
  {
    if items != [] {
      var es, x := Elements(items), Printed(items[0]);
      AllPrintableFirst(items);
      AllFitFirst(items, nesting);
      ShownIsWritten(items[0], nesting);
      ItemsAreWritten(items[1..], nesting);
      assert es[0] == Element("", x, "") && es[1..] == Elements(items[1..]);
      ListedIsWritten(items, es, x);
      assert items == [items[0]] + items[1..];
    }
  }

  // ----- Whole texts -----

  /** The text with an empty list for each null. */
  function WithoutNulls(x: Syntax): Syntax {
    match x
    case NullWord => List("", [])
    case List(gap, elements) => List(gap, ElementsWithoutNulls(elements))
    case Map(gap, entries) => Map(gap, EntriesWithoutNulls(entries))
    case _ => x
  }

  function ElementsWithoutNulls(es: seq<Element>): (es': seq<Element>)
    ensures |es'| == |es|
  {
    if es == [] then []
    else [Element(es[0].before, WithoutNulls(es[0].value), es[0].after)] + ElementsWithoutNulls(es[1..])
  }

  function EntriesWithoutNulls(ms: seq<Entry>): (ms': seq<Entry>)
    ensures |ms'| == |ms|
  {
    if ms == [] then []
    else
      var e := ms[0].element;
      [ms[0].(element := Element(e.before, WithoutNulls(e.value), e.after))] + EntriesWithoutNulls(ms[1..])
  }

  lemma FirstItem(items: seq<Json>)
    requires items != []
    ensures Unjsonify(Array(items)).items == [Unjsonify(items[0])] + Unjsonify(Array(items[1..])).items
  {
  }

  lemma FirstMember(members: seq<Member>)
    requires members != []
    ensures Unjsonify(Object(members)).members ==
      [Member(members[0].name, Unjsonify(members[0].value))] + Unjsonify(Object(members[1..])).members
  {
  }

  /** The library takes null for an empty list, and every other value for what it is. */
  lemma {:induction false} NullIsEmpty(x: Syntax)
    requires Proper(x)
    ensures Proper(WithoutNulls(x)) && Unjsonify(Meaning(x)) == Meaning(WithoutNulls(x))
    decreases x
  {
    match x
    case List(_, es) => NullsAreEmpty(es);
    case Map(_, ms) => NullMembersAreEmpty(ms);
    case _ =>
  }

  lemma {:induction false} NullsAreEmpty(es: seq<Element>)
    requires ElementsProper(es)
    ensures ElementsProper(ElementsWithoutNulls(es))
    ensures Unjsonify(Array(Meanings(es))) == Array(Meanings(ElementsWithoutNulls(es)))
    decreases es
  {
    if es != [] {
      NullIsEmpty(es[0].value);
      NullsAreEmpty(es[1..]);
      var items, es' := Meanings(es), ElementsWithoutNulls(es);
      assert es'[1..] == ElementsWithoutNulls(es[1..]) && items[1..] == Meanings(es[1..]);
      FirstItem(items);
    }
  }

  lemma {:induction false} NullMembersAreEmpty(ms: seq<Entry>)
    requires EntriesProper(ms)
    ensures EntriesProper(EntriesWithoutNulls(ms))
    ensures ms != [] ==> EntriesWithoutNulls(ms)[0].opening == ms[0].opening
    ensures Unjsonify(Object(Members(ms))) == Object(Members(EntriesWithoutNulls(ms)))
    decreases ms
  {
    if ms != [] {
      NullIsEmpty(ms[0].element.value);
      NullMembersAreEmpty(ms[1..]);
      var members, ms' := Members(ms), EntriesWithoutNulls(ms);
      assert ms'[1..] == EntriesWithoutNulls(ms[1..]) && members[1..] == Members(ms[1..]);
      FirstMember(members);
    }
  }

  /** Every way to write a list or an object is made into that list or object, with an empty list for each null, exactly
      when the limits allow it. */
  lemma WrittenIsRead(x: Syntax, rest: string)
    requires Proper(x) && (x.List? || x.Map?)
    ensures Proper(WithoutNulls(x))
    ensures FromJson(Text(x) + rest) == if Allowed(x, 0) then Some(Meaning(WithoutNulls(x))) else None
  {
    TextIsRead(x, rest);
    NullIsEmpty(x);
  }

  lemma {:induction false} NothingIsNull(v: Json)
    requires Printable(v)
    ensures Unjsonify(v) == v
    decreases v
  {
    if v.Array? {
      forall k | 0 <= k < |v.items| ensures Unjsonify(v.items[k]) == v.items[k] { NothingIsNull(v.items[k]); }
      assert Unjsonify(v).items == v.items;
    }
  }

  /** A printed list is read back as the same list if no list or string in it is beyond the parser's
      limits, that is, at most 19 lists around anything, at most 122880 elements in a list, and no
      control characters in a string; otherwise it is not read at all. */
  lemma JsonRoundTrip(v: Json)
    requires v.Array? && Printable(v)
    ensures FromJson(ToJson(v)) == if Fits(v, 0) then Some(v) else None
  {
    ShownIsWritten(v, 0);
    TextIsRead(Printed(v), "");
    assert Show(v) + "" == Show(v);
    NothingIsNull(v);
  }
}
