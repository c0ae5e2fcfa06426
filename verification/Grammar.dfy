/** JSON text: every way to write a value, with any spaces, is read as that value, exactly when the parser's limits
    allow it (sections 2 to 7 of RFC 8259). */
module Grammar {
  import opened Basics
  import opened Json
  import opened Numerals
  import opened Glyphs

  /** A value as it is written.  A `gap` is the space in an empty list or object, or before the colon of a member. */
  datatype Syntax =
    | NullWord
    | BoolWord(b: bool)
    | Numeric(n: Numeral)
    | OtherNumber(w: Special)
    | Quoted(glyphs: seq<Glyph>)
    | List(gap: string, elements: seq<Element>)
    | Map(gap: string, entries: seq<Entry>)

  /** Space, tab, line feed, carriage return; and vertical tab and form feed, which the parser takes for spaces too. */
  predicate Blank(c: char) { c as int == 32 || c as int in {9, 10, 13} || c as int in {11, 12} }

  predicate AllSpaces(t: string) { t == [] || (Blank(t[0]) && AllSpaces(t[1..])) }

  datatype Element = Element(before: string, value: Syntax, after: string) {
    predicate Spaced() { AllSpaces(before) && AllSpaces(after) }
  }

  /** A name begins with a quote, but the parser does not look at it. */
  datatype Entry = Entry(before: string, opening: char, name: seq<Glyph>, gap: string, element: Element) {
    predicate Spaced() {
      && AllSpaces(before) && AllProper(name) && AllSpaces(gap) && element.Spaced()
      && !Blank(opening) && opening != '\0'
    }

    function NameText(): string
      requires AllProper(name)
    {
      Enclosed(opening, name)
    }
  }

  predicate Proper(x: Syntax) {
    match x
    case NullWord => true
    case BoolWord(_) => true
    case Numeric(n) => n.Proper()
    case OtherNumber(w) => w.Proper()
    case Quoted(glyphs) => AllProper(glyphs)
    case List(gap, elements) => AllSpaces(gap) && ElementsProper(elements)
    case Map(gap, entries) =>
      AllSpaces(gap) && EntriesProper(entries) && (entries != [] ==> entries[0].opening != '}')
  }

  predicate ElementsProper(es: seq<Element>) {
    es == [] || (es[0].Spaced() && Proper(es[0].value) && ElementsProper(es[1..]))
  }

  predicate EntriesProper(ms: seq<Entry>) {
    ms == [] || (ms[0].Spaced() && Proper(ms[0].element.value) && EntriesProper(ms[1..]))
  }

  // ----- The text -----

  function Text(x: Syntax): string
    requires Proper(x)
  {
    match x
    case NullWord => "null"
    case BoolWord(b) => if b then "true" else "false"
    case Numeric(n) => NumeralText(n)
    case OtherNumber(w) => w.Text()
    case Quoted(glyphs) => QuotedText(glyphs)
    case List(gap, elements) => "[" + if elements == [] then gap + "]" else ElementsText(elements)
    case Map(gap, entries) => "{" + if entries == [] then gap + "}" else EntriesText(entries)
  }

  function ElementText(e: Element): string
    requires Proper(e.value)
  {
    e.before + (Text(e.value) + e.after)
  }

  /** Up to the bracket. */
  function ElementsText(es: seq<Element>): string
    requires es != [] && ElementsProper(es)
  {
    ElementText(es[0]) + if |es| == 1 then "]" else "," + ElementsText(es[1..])
  }

  function EntryText(m: Entry): string
    requires m.Spaced() && Proper(m.element.value)
  {
    m.before + (m.NameText() + (m.gap + (":" + ElementText(m.element))))
  }

  /** Up to the brace. */
  function EntriesText(ms: seq<Entry>): string
    requires ms != [] && EntriesProper(ms)
  {
    EntryText(ms[0]) + if |ms| == 1 then "}" else "," + EntriesText(ms[1..])
  }

  // ----- The value -----

  function StringOf(glyphs: seq<Glyph>): string
    requires AllProper(glyphs)
  {
    CString(Spelled(glyphs))
  }

  function Meaning(x: Syntax): Json
    requires Proper(x)
  {
    match x
    case NullWord => Null
    case BoolWord(b) => Bool(b)
    case Numeric(n) => Number(NumberOf(n))
    case OtherNumber(w) => w.Value()
    case Quoted(glyphs) => Str(StringOf(glyphs))
    case List(_, elements) => Array(Meanings(elements))
    case Map(_, entries) => Object(Members(entries))
  }

  function Meanings(es: seq<Element>): (items: seq<Json>)
    requires ElementsProper(es)
    ensures |items| == |es|
  {
    if es == [] then [] else [Meaning(es[0].value)] + Meanings(es[1..])
  }

  function MemberOf(m: Entry): Member
    requires m.Spaced() && Proper(m.element.value)
  {
    Member(StringOf(m.name), Meaning(m.element.value))
  }

  function Members(ms: seq<Entry>): (members: seq<Member>)
    requires EntriesProper(ms)
    ensures |members| == |ms|
  {
    if ms == [] then [] else [MemberOf(ms[0])] + Members(ms[1..])
  }

  // ----- The limits -----

  /** Whether the parser takes what is written inside `nesting` lists and objects: not too deep, not too long, no
      name twice, control characters escaped, and no exponent right behind a zero nor an x behind a NaN. */
  predicate Allowed(x: Syntax, nesting: nat)
    requires Proper(x)
  {
    nesting <= MAX_NESTING &&
    match x
    case NullWord => true
    case BoolWord(_) => true
    case Numeric(n) => Accepted(n)
    case OtherNumber(w) => w.Accepted()
    case Quoted(glyphs) => AllClean(glyphs)
    case List(_, elements) => |elements| <= ARRAY_MAX_CAPACITY && ElementsAllowed(elements, nesting + 1)
    case Map(_, entries) =>
      |entries| <= OBJECT_MAX_CAPACITY && DistinctNames(Members(entries)) && EntriesAllowed(entries, nesting + 1)
  }

  predicate ElementsAllowed(es: seq<Element>, nesting: nat)
    requires ElementsProper(es)
  {
    es == [] || (Allowed(es[0].value, nesting) && ElementsAllowed(es[1..], nesting))
  }

  predicate EntriesAllowed(ms: seq<Entry>, nesting: nat)
    requires EntriesProper(ms)
  {
    ms == [] || (AllClean(ms[0].name) && Allowed(ms[0].element.value, nesting) && EntriesAllowed(ms[1..], nesting))
  }

  // ----- Spaces -----

  lemma {:induction false} SpacesAreSkipped(s: string, i: nat, t: string, end: nat)
    requires Starts(s, i, t) && AllSpaces(t) && end == i + |t| && !IsSpace(At(s, end))
    ensures SkipSpace(s, i) == end
    decreases |t|
  {
    if t != [] {
      assert t == [t[0]] + t[1..];
      StartsWithFirst(s, i, [t[0]], t[1..]);
      SpacesAreSkipped(s, i + 1, t[1..], end);
    }
  }

  lemma FirstIsNoSpace(x: Syntax)
    requires Proper(x)
    ensures Text(x) != [] && !IsSpace(Text(x)[0]) && Text(x)[0] != '\0' && Text(x)[0] !in ",]}"
  {
    if x.Numeric? { WholeIsDigits(x.n.whole); }
  }

  /** What has to follow a value for the parser to see its end. */
  predicate Delimits(x: Syntax, c: char) {
    match x
    case Numeric(_) => Ends(c)
    case OtherNumber(_) => Ends(c)
    case Quoted(_) => c != '\0'
    case _ => true
  }

  /** Spaces, a text that begins with none, and spaces again, as they lie before something that is no space. */
  lemma PieceIsLaid(s: string, i: nat, b: string, v: string, a: string, tail: string, j: nat, k: nat, l: nat)
    requires Starts(s, i, b + (v + a) + tail) && AllSpaces(b) && AllSpaces(a) && v != [] && !IsSpace(v[0])
    requires tail != [] && Ends(tail[0]) && !IsSpace(tail[0])
    requires j == i + |b| && k == j + |v| && l == k + |a|
    ensures Starts(s, j, v) && SkipSpace(s, i) == j && SkipSpace(s, k) == l && Starts(s, l, tail)
    ensures At(s, j) == v[0] && At(s, l) == tail[0] && Ends(At(s, k))
  {
    StartsWithFirst(s, i, b + (v + a), tail);
    StartsWithFirst(s, i, b, v + a);
    StartsWithFirst(s, j, v, a);
    SpacesAreSkipped(s, i, b, j);
    SpacesAreSkipped(s, k, a, l);
  }

  lemma EndIsNoNull(x: Syntax, c: char)
    requires Ends(c)
    ensures Delimits(x, c)
  {
  }

  // ----- Lists -----

  /** What the elements of a list should be read as. */
  function ExpectedItems(done: seq<Json>, es: seq<Element>, nesting: nat, end: nat): Option<Found<Json>>
    requires ElementsProper(es)
  {
    if |done| + |es| <= ARRAY_MAX_CAPACITY && ElementsAllowed(es, nesting) then
      Some(Found(Array(done + Meanings(es)), end))
    else None
  }

  lemma ExpectedOneMore(done: seq<Json>, es: seq<Element>, nesting: nat, end: nat)
    requires es != [] && ElementsProper(es)
    ensures ExpectedItems(done, es, nesting, end) ==
      if !Allowed(es[0].value, nesting) || |done| >= ARRAY_MAX_CAPACITY then None
      else ExpectedItems(done + [Meaning(es[0].value)], es[1..], nesting, end)
  {
    assert done + Meanings(es) == done + [Meaning(es[0].value)] + Meanings(es[1..]);
  }

  lemma ExpectedLast(done: seq<Json>, nesting: nat, end: nat)
    requires |done| <= ARRAY_MAX_CAPACITY
    ensures ExpectedItems(done, [], nesting, end) == Some(Found(Array(done), end))
  {
    assert done + Meanings([]) == done;
  }

  lemma ItemsEnd(s: string, l: nat, nesting: nat, items: seq<Json>)
    requires l < |s| && 1 <= nesting <= MAX_NESTING + 1
    ensures At(s, l) == ']' ==> AfterItem(s, l, nesting, items) == Some(Found(Array(items), l + 1))
    ensures At(s, l) == ',' ==> AfterItem(s, l, nesting, items) == ParseItems(s, SkipSpace(s, l + 1), nesting, items)
  {
  }

  /** What one round of the loop over the items does with the value it finds, which ends at `k`. */
  lemma OneItem(s: string, j: nat, nesting: nat, done: seq<Json>, v: Option<Found<Json>>, k: nat, l: nat)
    requires j <= |s| && 1 <= nesting <= MAX_NESTING + 1 && At(s, j) != '\0' && v == ParseValue(s, j, nesting)
    requires l < |s| && (v.Some? ==> v.value.end == k) && SkipSpace(s, k) == l && (At(s, l) == ',' || At(s, l) == ']')
    ensures ParseItems(s, j, nesting, done) ==
      if v.None? || |done| >= ARRAY_MAX_CAPACITY then None
      else if At(s, l) == ']' then Some(Found(Array(done + [v.value.value]), l + 1))
      else ParseItems(s, SkipSpace(s, l + 1), nesting, done + [v.value.value])
  {
    if v.None? || |done| >= ARRAY_MAX_CAPACITY {
      ItemsStop(s, j, nesting, done);
    } else {
      ItemsGoOn(s, j, nesting, done, v.value.value, k);
      ItemsEnd(s, l, nesting, done + [v.value.value]);
    }
  }

  /** What comes behind the first element. */
  function Rest(es: seq<Element>): string
    requires es != [] && ElementsProper(es)
  {
    if |es| == 1 then "]" else "," + ElementsText(es[1..])
  }

  lemma ElementsTextParts(es: seq<Element>)
    requires es != [] && ElementsProper(es)
    ensures ElementsText(es) == es[0].before + (Text(es[0].value) + es[0].after) + Rest(es)
    ensures |ElementsText(es)| == |es[0].before| + |Text(es[0].value)| + |es[0].after| + |Rest(es)|
    ensures Rest(es) != [] && Ends(Rest(es)[0]) && !IsSpace(Rest(es)[0])
    ensures |Rest(es)| == 1 + if |es| == 1 then 0 else |ElementsText(es[1..])|
  {
  }

  lemma RestIsLaid(s: string, l: nat, es: seq<Element>)
    requires es != [] && ElementsProper(es) && Starts(s, l, Rest(es))
    ensures l < |s| && At(s, l) == if |es| == 1 then ']' else ','
    ensures |es| > 1 ==> Starts(s, l + 1, ElementsText(es[1..]))
  {
    if |es| > 1 { StartsWithFirst(s, l, ",", ElementsText(es[1..])); }
  }

  /** Where an element lies: its value from `j` to `k`, and the spaces behind it up to `l`. */
  function ValueFrom(e: Element, i: nat): nat { i + |e.before| }

  function ValueTo(e: Element, i: nat): nat
    requires Proper(e.value)
  {
    i + |e.before| + |Text(e.value)|
  }

  function SpaceTo(e: Element, i: nat): nat
    requires Proper(e.value)
  {
    ValueTo(e, i) + |e.after|
  }

  lemma FirstElementIsLaid(s: string, i: nat, es: seq<Element>, j: nat, k: nat, l: nat)
    requires es != [] && ElementsProper(es) && Starts(s, i, ElementsText(es))
    requires j == ValueFrom(es[0], i) && k == ValueTo(es[0], i) && l == SpaceTo(es[0], i)
    ensures Starts(s, j, Text(es[0].value)) && SkipSpace(s, i) == j && SkipSpace(s, k) == l && Ends(At(s, k))
    ensures j <= |s| && At(s, j) == Text(es[0].value)[0] && At(s, j) != '\0'
    ensures l < |s| && At(s, l) == if |es| == 1 then ']' else ','
    ensures |es| > 1 ==> Starts(s, l + 1, ElementsText(es[1..]))
    ensures i + |ElementsText(es)| == l + 1 + if |es| == 1 then 0 else |ElementsText(es[1..])|
  {
    ElementsTextParts(es);
    FirstIsNoSpace(es[0].value);
    PieceIsLaid(s, i, es[0].before, Text(es[0].value), es[0].after, Rest(es), j, k, l);
    RestIsLaid(s, l, es);
  }

  lemma {:induction false} ElementsAreRead(s: string, i: nat, es: seq<Element>, nesting: nat, done: seq<Json>, end: nat)
    requires es != [] && ElementsProper(es) && Starts(s, i, ElementsText(es)) && end == i + |ElementsText(es)|
    requires 1 <= nesting <= MAX_NESTING + 1 && |done| <= ARRAY_MAX_CAPACITY
    ensures At(s, SkipSpace(s, i)) == Text(es[0].value)[0]
    ensures ParseItems(s, SkipSpace(s, i), nesting, done) == ExpectedItems(done, es, nesting, end)
    decreases es
  {
    hide ParseItems, ParseValue, SkipSpace, Starts, ElementsText, Text, Meaning;
    var x := es[0].value;
    var j, k, l := ValueFrom(es[0], i), ValueTo(es[0], i), SpaceTo(es[0], i);
    FirstElementIsLaid(s, i, es, j, k, l);
    EndIsNoNull(x, At(s, k));
    ValueIsRead(s, j, x, nesting, k);
    OneItem(s, j, nesting, done, ParseValue(s, j, nesting), k, l);
    ExpectedOneMore(done, es, nesting, end);
    if Allowed(x, nesting) && |done| < ARRAY_MAX_CAPACITY {
      if |es| == 1 {
        ExpectedLast(done + [Meaning(x)], nesting, end);
      } else {
        ElementsAreRead(s, l + 1, es[1..], nesting, done + [Meaning(x)], end);
      }
    }
  }

  // ----- Objects -----

  /** What the members of an object should be read as. */
  function ExpectedMembers(done: seq<Member>, ms: seq<Entry>, nesting: nat, end: nat): Option<Found<Json>>
    requires EntriesProper(ms)
  {
    if |done| + |ms| <= OBJECT_MAX_CAPACITY && DistinctNames(done + Members(ms)) && EntriesAllowed(ms, nesting) then
      Some(Found(Object(done + Members(ms)), end))
    else None
  }

  predicate EntryAllowed(m: Entry, nesting: nat)
    requires m.Spaced() && Proper(m.element.value)
  {
    AllClean(m.name) && Allowed(m.element.value, nesting)
  }

  lemma TakenTwice(done: seq<Member>, m: Member, rest: seq<Member>)
    requires Has(done, m.name)
    ensures !DistinctNames(done + ([m] + rest))
  {
    var all := done + ([m] + rest);
    HasIff(done, m.name);
    var k :| 0 <= k < |done| && done[k].name == m.name;
    DistinctNamesIff(all);
    assert all[k].name == all[|done|].name;
  }

  lemma ExpectedOneMoreMember(done: seq<Member>, ms: seq<Entry>, nesting: nat, end: nat)
    requires ms != [] && EntriesProper(ms)
    ensures ExpectedMembers(done, ms, nesting, end) ==
      if !EntryAllowed(ms[0], nesting) || !CanAdd(done, StringOf(ms[0].name)) then None
      else ExpectedMembers(done + [MemberOf(ms[0])], ms[1..], nesting, end)
  {
    var m, rest := MemberOf(ms[0]), Members(ms[1..]);
    assert Members(ms) == [m] + rest;
    assert done + ([m] + rest) == done + [m] + rest;
    if Has(done, m.name) { TakenTwice(done, m, rest); }
  }

  lemma ExpectedLastMember(done: seq<Member>, nesting: nat, end: nat)
    requires |done| <= OBJECT_MAX_CAPACITY && DistinctNames(done)
    ensures ExpectedMembers(done, [], nesting, end) == Some(Found(Object(done), end))
  {
    assert done + Members([]) == done;
  }

  lemma NameIsLaid(s: string, j: nat, q: string, gap: string, tail: string, end: nat, c: nat)
    requires Starts(s, j, q + (gap + (":" + tail))) && end == j + |q| && c == end + |gap|
    ensures Starts(s, j, q) && Starts(s, end, gap) && Starts(s, c + 1, tail) && At(s, c) == ':'
    ensures At(s, end) == if gap == [] then ':' else gap[0]
  {
    StartsWithFirst(s, j, q, gap + (":" + tail));
    StartsWithFirst(s, end, gap, ":" + tail);
    StartsWithFirst(s, c, ":", tail);
  }

  lemma NameFromParts(s: string, j: nat, name: Option<Found<string>>, c: nat)
    requires j < |s| && name == ProcessedString(s, j) && At(s, c) == ':'
    requires name.Some? ==> SkipSpace(s, name.value.end) == c
    ensures ParseName(s, j) == if name.None? then None else Some(Found(name.value.value, c + 1))
  {
  }

  /** A name from `j` on, the colon behind the spaces at `c`. */
  lemma NameIsRead(s: string, j: nat, m: Entry, tail: string, end: nat, c: nat)
    requires m.Spaced() && Starts(s, j, m.NameText() + (m.gap + (":" + tail)))
    requires end == j + |m.NameText()| && c == end + |m.gap|
    ensures j < |s| && At(s, j) == m.opening && Starts(s, c + 1, tail)
    ensures ParseName(s, j) == if AllClean(m.name) then Some(Found(StringOf(m.name), c + 1)) else None
  {
    NameIsLaid(s, j, m.NameText(), m.gap, tail, end, c);
    QuotedIsRead(s, j, m.opening, m.name, end);
    SpacesAreSkipped(s, end, m.gap, c);
    NameFromParts(s, j, ProcessedString(s, j), c);
  }

  lemma ValueBehindSpaces(s: string, i: nat, nesting: nat)
    requires i <= |s| && nesting <= MAX_NESTING + 1
    ensures ParseValue(s, i, nesting) == ParseValue(s, SkipSpace(s, i), nesting)
  {
    var j := SkipSpace(s, i);
    assert SkipSpace(s, j) == j;
  }

  lemma Reassociate(a: string, b: string, c: string, d: string, e: string, t: string)
    ensures a + (b + (c + (d + e))) + t == a + (b + (c + (d + (e + t))))
  {
  }

  lemma MemberFromParts(s: string, j: nat, nesting: nat, name: Option<Found<string>>, v: Option<Found<Json>>)
    requires j < |s| && 1 <= nesting <= MAX_NESTING + 1 && name == ParseName(s, j)
    requires name.Some? ==> v == ParseValue(s, name.value.end, nesting)
    ensures ParseMember(s, j, nesting) ==
      if name.None? || v.None? then None else Some(Found(Member(name.value.value, v.value.value), v.value.end))
  {
  }

  lemma MembersEnd(s: string, l: nat, nesting: nat, members: seq<Member>)
    requires l < |s| && 1 <= nesting <= MAX_NESTING + 1
    ensures At(s, l) == '}' ==> AfterMember(s, l, nesting, members) == Some(Found(Object(members), l + 1))
    ensures At(s, l) == ',' ==>
              AfterMember(s, l, nesting, members) == ParseMembers(s, SkipSpace(s, l + 1), nesting, members)
  {
  }

  function Tail(ms: seq<Entry>): string
    requires ms != [] && EntriesProper(ms)
  {
    if |ms| == 1 then "}" else "," + EntriesText(ms[1..])
  }

  lemma EntriesTextParts(ms: seq<Entry>)
    requires ms != [] && EntriesProper(ms)
    ensures EntriesText(ms) == EntryText(ms[0]) + Tail(ms)
    ensures Tail(ms) != [] && Ends(Tail(ms)[0]) && !IsSpace(Tail(ms)[0])
    ensures |Tail(ms)| == 1 + if |ms| == 1 then 0 else |EntriesText(ms[1..])|
    ensures ms[0].Spaced() && Proper(ms[0].element.value)
  {
  }

  lemma EntryLength(m: Entry)
    requires m.Spaced() && Proper(m.element.value)
    ensures |EntryText(m)| ==
      |m.before| + |m.NameText()| + |m.gap| + 1 + |m.element.before| + |Text(m.element.value)| + |m.element.after|
  {
    var t := ElementText(m.element);
    assert |t| == |m.element.before| + |Text(m.element.value)| + |m.element.after|;
    assert |":" + t| == 1 + |t|;
    assert |m.gap + (":" + t)| == |m.gap| + 1 + |t|;
  }

  lemma TailIsLaid(s: string, l: nat, ms: seq<Entry>)
    requires ms != [] && EntriesProper(ms) && Starts(s, l, Tail(ms))
    ensures l < |s| && At(s, l) == if |ms| == 1 then '}' else ','
    ensures |ms| > 1 ==> Starts(s, l + 1, EntriesText(ms[1..]))
  {
    if |ms| > 1 { StartsWithFirst(s, l, ",", EntriesText(ms[1..])); }
  }

  /** Where a member lies: its name from `j` to `q`, the colon at `c`, its value from `v` to `k`, and the spaces behind
      it up to `l`. */
  datatype Places = Places(j: nat, q: nat, c: nat, v: nat, k: nat, l: nat)

  function PlacesOf(m: Entry, i: nat): Places
    requires m.Spaced() && Proper(m.element.value)
  {
    var j := i + |m.before|;
    var q := j + |m.NameText()|;
    var c := q + |m.gap|;
    var v := c + 1 + |m.element.before|;
    var k := v + |Text(m.element.value)|;
    Places(j, q, c, v, k, k + |m.element.after|)
  }

  lemma NamePiece(s: string, i: nat, before: string, q: string, gap: string, t: string, tail: string, j: nat)
    requires Starts(s, i, before + (q + (gap + (":" + t))) + tail) && j == i + |before|
    requires AllSpaces(before) && q != [] && !IsSpace(q[0])
    ensures SkipSpace(s, i) == j && Starts(s, j, q + (gap + (":" + (t + tail))))
  {
    Reassociate(before, q, gap, ":", t, tail);
    StartsWithFirst(s, i, before, q + (gap + (":" + (t + tail))));
    SpacesAreSkipped(s, i, before, j);
  }

  /** The name of the first member is read. */
  lemma FirstNameIsRead(s: string, i: nat, m: Entry, tail: string, p: Places)
    requires m.Spaced() && Proper(m.element.value) && Starts(s, i, EntryText(m) + tail) && p == PlacesOf(m, i)
    ensures SkipSpace(s, i) == p.j && p.j < |s| && At(s, p.j) == m.opening
    ensures ParseName(s, p.j) == if AllClean(m.name) then Some(Found(StringOf(m.name), p.c + 1)) else None
    ensures Starts(s, p.c + 1, ElementText(m.element) + tail)
  {
    NamePiece(s, i, m.before, m.NameText(), m.gap, ElementText(m.element), tail, p.j);
    NameIsRead(s, p.j, m, ElementText(m.element) + tail, p.q, p.c);
  }

  lemma PlacesEnd(i: nat, ms: seq<Entry>)
    requires ms != [] && EntriesProper(ms) && ms[0].Spaced() && Proper(ms[0].element.value)
    ensures i + |EntriesText(ms)| == PlacesOf(ms[0], i).l + 1 + if |ms| == 1 then 0 else |EntriesText(ms[1..])|
  {
    EntriesTextParts(ms);
    EntryLength(ms[0]);
  }

  lemma OneMoreName(done: seq<Member>, m: Member)
    requires DistinctNames(done) && CanAdd(done, m.name)
    ensures DistinctNames(done + [m]) && |done + [m]| <= OBJECT_MAX_CAPACITY
  {
    assert (done + [m])[..|done|] == done;
  }

  lemma FirstEntryIsLaid(s: string, i: nat, ms: seq<Entry>, p: Places)
    requires ms != [] && EntriesProper(ms) && Starts(s, i, EntriesText(ms)) && ms[0].Spaced()
    requires Proper(ms[0].element.value) && p == PlacesOf(ms[0], i)
    ensures SkipSpace(s, i) == p.j && p.j < |s| && At(s, p.j) == ms[0].opening
    ensures ParseName(s, p.j) ==
      if AllClean(ms[0].name) then Some(Found(StringOf(ms[0].name), p.c + 1)) else None
    ensures Starts(s, p.c + 1, ElementText(ms[0].element) + Tail(ms))
  {
    EntriesTextParts(ms);
    FirstNameIsRead(s, i, ms[0], Tail(ms), p);
  }

  lemma FirstValueIsLaid(s: string, e: Element, tail: string, p: Places)
    requires e.Spaced() && Proper(e.value) && Starts(s, p.c + 1, ElementText(e) + tail)
    requires tail != [] && Ends(tail[0]) && !IsSpace(tail[0])
    requires p.v == p.c + 1 + |e.before| && p.k == p.v + |Text(e.value)| && p.l == p.k + |e.after|
    ensures p.c + 1 <= |s| && SkipSpace(s, p.c + 1) == p.v && Starts(s, p.v, Text(e.value)) && Ends(At(s, p.k))
    ensures SkipSpace(s, p.k) == p.l && Starts(s, p.l, tail)
  {
    FirstIsNoSpace(e.value);
    PieceIsLaid(s, p.c + 1, e.before, Text(e.value), e.after, tail, p.v, p.k, p.l);
  }

  /** Where the value of the first member lies, and what comes behind it. */
  lemma FirstValue(s: string, i: nat, ms: seq<Entry>, p: Places)
    requires ms != [] && EntriesProper(ms) && ms[0].Spaced() && Proper(ms[0].element.value)
    requires Starts(s, i, EntriesText(ms)) && p == PlacesOf(ms[0], i)
    ensures Starts(s, p.v, Text(ms[0].element.value)) && Ends(At(s, p.k)) && p.c + 1 <= |s|
    ensures SkipSpace(s, p.c + 1) == p.v && SkipSpace(s, p.k) == p.l && p.l < |s|
    ensures At(s, p.l) == if |ms| == 1 then '}' else ','
    ensures |ms| > 1 ==> Starts(s, p.l + 1, EntriesText(ms[1..]))
  {
    EntriesTextParts(ms);
    FirstEntryIsLaid(s, i, ms, p);
    FirstValueIsLaid(s, ms[0].element, Tail(ms), p);
    TailIsLaid(s, p.l, ms);
  }

  /** What one round of the loop does with a member: it is left out if its name or its value is not read or it cannot be
      added; otherwise the others, from `l` on, decide. */
  lemma OneMember(s: string, j: nat, nesting: nat, done: seq<Member>, m: Member, nameOk: bool, c: nat, valueOk: bool,
                  ok: bool, k: nat, l: nat)
    requires j < |s| && 1 <= nesting <= MAX_NESTING + 1 && At(s, j) != '\0' && c <= |s|
    requires ParseName(s, j) == if nameOk then Some(Found(m.name, c)) else None
    requires ParseValue(s, c, nesting) == if valueOk then Some(Found(m.value, k)) else None
    requires SkipSpace(s, k) == l && l < |s| && (ok <==> nameOk && valueOk)
    ensures ParseMembers(s, j, nesting, done) ==
      if ok && CanAdd(done, m.name) then AfterMember(s, l, nesting, done + [m]) else None
  {
    MemberFromParts(s, j, nesting, ParseName(s, j), ParseValue(s, c, nesting));
    if nameOk && valueOk && CanAdd(done, m.name) {
      MembersGoOn(s, j, nesting, done, m, k);
    } else {
      MembersStop(s, j, nesting, done);
    }
  }

  lemma AsExpected(done: seq<Member>, ms: seq<Entry>, nesting: nat, end: nat, m: Member, all: Option<Found<Json>>,
                   rest: Option<Found<Json>>)
    requires ms != [] && EntriesProper(ms) && ms[0].Spaced() && Proper(ms[0].element.value)
    requires |done| <= OBJECT_MAX_CAPACITY && DistinctNames(done) && m == MemberOf(ms[0])
    requires all == if EntryAllowed(ms[0], nesting) && CanAdd(done, m.name) then rest else None
    requires |ms| == 1 ==> rest == Some(Found(Object(done + [m]), end))
    requires |ms| > 1 && CanAdd(done, m.name) ==> rest == ExpectedMembers(done + [m], ms[1..], nesting, end)
    ensures all == ExpectedMembers(done, ms, nesting, end)
  {
    ExpectedOneMoreMember(done, ms, nesting, end);
    if CanAdd(done, m.name) && |ms| == 1 {
      OneMoreName(done, m);
      ExpectedLastMember(done + [m], nesting, end);
    }
  }

  lemma {:induction false} FirstMemberIsRead(s: string, i: nat, ms: seq<Entry>, nesting: nat, p: Places)
    requires ms != [] && EntriesProper(ms) && ms[0].Spaced() && Proper(ms[0].element.value)
    requires Starts(s, i, EntriesText(ms)) && 1 <= nesting <= MAX_NESTING + 1 && p == PlacesOf(ms[0], i)
    ensures p.c + 1 <= |s| && SkipSpace(s, i) == p.j && p.j < |s| && At(s, p.j) == ms[0].opening
    ensures ParseName(s, p.j) == if AllClean(ms[0].name) then Some(Found(StringOf(ms[0].name), p.c + 1)) else None
    ensures var x := ms[0].element.value;
      ParseValue(s, p.c + 1, nesting) == if Allowed(x, nesting) then Some(Found(Meaning(x), p.k)) else None
    decreases ms, 0
  {
    hide ParseMembers, AfterMember, ParseValue, ParseName, SkipSpace, Starts, EntriesText, Text, Meaning;
    FirstEntryIsLaid(s, i, ms, p);
    FirstValue(s, i, ms, p);
    EndIsNoNull(ms[0].element.value, At(s, p.k));
    ValueIsRead(s, p.v, ms[0].element.value, nesting, p.k);
    ValueBehindSpaces(s, p.c + 1, nesting);
  }

  lemma {:induction false} MembersAreRead(s: string, i: nat, ms: seq<Entry>, nesting: nat, done: seq<Member>, end: nat)
    requires ms != [] && EntriesProper(ms) && Starts(s, i, EntriesText(ms)) && end == i + |EntriesText(ms)|
    requires 1 <= nesting <= MAX_NESTING + 1 && |done| <= OBJECT_MAX_CAPACITY && DistinctNames(done)
    ensures At(s, SkipSpace(s, i)) == ms[0].opening
    ensures ParseMembers(s, SkipSpace(s, i), nesting, done) == ExpectedMembers(done, ms, nesting, end)
    decreases ms, 1
  {
    hide ParseMembers, AfterMember, ParseValue, ParseName, SkipSpace, Starts, EntriesText, Text, Meaning;
    hide ExpectedMembers, CanAdd, StringOf, DistinctNames, Allowed, AllClean;
    EntriesTextParts(ms);
    var m, p := MemberOf(ms[0]), PlacesOf(ms[0], i);
    FirstValue(s, i, ms, p);
    PlacesEnd(i, ms);
    MembersEnd(s, p.l, nesting, done + [m]);
    if |ms| > 1 && CanAdd(done, m.name) {
      OneMoreName(done, m);
      MembersAreRead(s, p.l + 1, ms[1..], nesting, done + [m], end);
    }
    FirstMemberIsRead(s, i, ms, nesting, p);
    OneMember(s, p.j, nesting, done, m, AllClean(ms[0].name), p.c + 1, Allowed(ms[0].element.value, nesting),
              EntryAllowed(ms[0], nesting), p.k, p.l);
    AsExpected(done, ms, nesting, end, m, ParseMembers(s, p.j, nesting, done),
               AfterMember(s, p.l, nesting, done + [m]));
  }

  // ----- Values -----

  lemma WordIsRead(s: string, i: nat, x: Syntax, nesting: nat, end: nat)
    requires nesting <= MAX_NESTING && (x.NullWord? || x.BoolWord?) && Starts(s, i, Text(x)) && end == i + |Text(x)|
    ensures i <= |s| && ParseValue(s, i, nesting) == Some(Found(Meaning(x), end))
  {
    assert At(s, i) == Text(x)[0];
    assert SkipSpace(s, i) == i;
  }

  lemma NumericIsRead(s: string, i: nat, n: Numeral, nesting: nat, end: nat)
    requires nesting <= MAX_NESTING && n.Proper() && Starts(s, i, NumeralText(n)) && end == i + |NumeralText(n)|
    requires Ends(At(s, end))
    ensures i <= |s|
    ensures ParseValue(s, i, nesting) == if Accepted(n) then Some(Found(Number(NumberOf(n)), end)) else None
  {
    hide Starts, NumeralText, NumberOf, ParseNumber;
    NumeralIsRead(s, i, n, end);
    assert SkipSpace(s, i) == i;
  }

  lemma SpecialValueIsRead(s: string, i: nat, w: Special, nesting: nat, end: nat)
    requires nesting <= MAX_NESTING && w.Proper() && Starts(s, i, w.Text()) && end == i + |w.Text()| && Ends(At(s, end))
    ensures i <= |s| && ParseValue(s, i, nesting) == if w.Accepted() then Some(Found(w.Value(), end)) else None
  {
    hide Starts, ParseNumber;
    SpecialIsRead(s, i, w, end);
    assert SkipSpace(s, i) == i;
  }

  lemma StringIsRead(s: string, i: nat, gs: seq<Glyph>, nesting: nat, end: nat)
    requires nesting <= MAX_NESTING && AllProper(gs) && Starts(s, i, QuotedText(gs)) && end == i + |QuotedText(gs)|
    requires At(s, end) != '\0'
    ensures i <= |s|
    ensures ParseValue(s, i, nesting) == if AllClean(gs) then Some(Found(Str(StringOf(gs)), end)) else None
  {
    QuotedIsRead(s, i, '"', gs, end);
    assert SkipSpace(s, i) == i;
  }

  lemma EmptyIsRead(s: string, i: nat, open: string, gap: string, close: string, nesting: nat, end: nat)
    requires (open == "[" && close == "]") || (open == "{" && close == "}")
    requires nesting <= MAX_NESTING && AllSpaces(gap) && Starts(s, i, open + (gap + close)) && end == i + 1 + |gap| + 1
    ensures i <= |s|
    ensures ParseValue(s, i, nesting) == Some(Found(if open == "[" then Array([]) else Object([]), end))
  {
    StartsWithFirst(s, i, open, gap + close);
    StartsWithFirst(s, i + 1, gap, close);
    SpacesAreSkipped(s, i + 1, gap, end - 1);
    assert SkipSpace(s, i) == i;
  }

  lemma ListOpens(s: string, i: nat, gap: string, es: seq<Element>)
    requires es != [] && Proper(List(gap, es)) && Starts(s, i, Text(List(gap, es)))
    ensures i < |s| && At(s, i) == '[' && Starts(s, i + 1, ElementsText(es))
    ensures |Text(List(gap, es))| == 1 + |ElementsText(es)|
  {
    StartsWithFirst(s, i, "[", ElementsText(es));
  }

  lemma ListIsRead(s: string, i: nat, gap: string, es: seq<Element>, nesting: nat, end: nat)
    requires Proper(List(gap, es)) && nesting <= MAX_NESTING && i < |s| && At(s, i) == '['
    requires At(s, SkipSpace(s, i + 1)) != ']'
    requires ParseItems(s, SkipSpace(s, i + 1), nesting + 1, []) == ExpectedItems([], es, nesting + 1, end)
    ensures ParseValue(s, i, nesting) ==
      if Allowed(List(gap, es), nesting) then Some(Found(Meaning(List(gap, es)), end)) else None
  {
    assert SkipSpace(s, i) == i;
    assert [] + Meanings(es) == Meanings(es);
  }

  lemma MapOpens(s: string, i: nat, gap: string, ms: seq<Entry>)
    requires ms != [] && Proper(Map(gap, ms)) && Starts(s, i, Text(Map(gap, ms)))
    ensures i < |s| && At(s, i) == '{' && Starts(s, i + 1, EntriesText(ms))
    ensures |Text(Map(gap, ms))| == 1 + |EntriesText(ms)|
  {
    StartsWithFirst(s, i, "{", EntriesText(ms));
  }

  lemma MapIsRead(s: string, i: nat, gap: string, ms: seq<Entry>, nesting: nat, end: nat)
    requires Proper(Map(gap, ms)) && nesting <= MAX_NESTING && i < |s| && At(s, i) == '{'
    requires At(s, SkipSpace(s, i + 1)) != '}'
    requires ParseMembers(s, SkipSpace(s, i + 1), nesting + 1, []) == ExpectedMembers([], ms, nesting + 1, end)
    ensures ParseValue(s, i, nesting) ==
      if Allowed(Map(gap, ms), nesting) then Some(Found(Meaning(Map(gap, ms)), end)) else None
  {
    hide ParseMembers, Members, DistinctNames, EntriesAllowed, EntriesProper;
    assert SkipSpace(s, i) == i;
    assert [] + Members(ms) == Members(ms);
  }

  lemma EmptyListIsRead(s: string, i: nat, x: Syntax, nesting: nat, end: nat)
    requires Proper(x) && ((x.List? && x.elements == []) || (x.Map? && x.entries == [])) && nesting <= MAX_NESTING
    requires Starts(s, i, Text(x)) && end == i + |Text(x)|
    ensures i <= |s|
    ensures ParseValue(s, i, nesting) == if Allowed(x, nesting) then Some(Found(Meaning(x), end)) else None
  {
    EmptyIsRead(s, i, if x.List? then "[" else "{", x.gap, if x.List? then "]" else "}", nesting, end);
  }

  lemma AtomIsRead(s: string, i: nat, x: Syntax, nesting: nat, end: nat)
    requires Proper(x) && !x.List? && !x.Map? && nesting <= MAX_NESTING
    requires Starts(s, i, Text(x)) && end == i + |Text(x)| && Delimits(x, At(s, end))
    ensures i <= |s|
    ensures ParseValue(s, i, nesting) == if Allowed(x, nesting) then Some(Found(Meaning(x), end)) else None
  {
    match x
    case NullWord => WordIsRead(s, i, x, nesting, end);
    case BoolWord(_) => WordIsRead(s, i, x, nesting, end);
    case Numeric(n) => NumericIsRead(s, i, n, nesting, end);
    case OtherNumber(w) => SpecialValueIsRead(s, i, w, nesting, end);
    case Quoted(gs) => StringIsRead(s, i, gs, nesting, end);
  }

  /** Every way to write a value is read as that value, and up to its end, wherever it is; if it is beyond the parser's
      limits, it is not read at all. */
  lemma {:induction false} ValueIsRead(s: string, i: nat, x: Syntax, nesting: nat, end: nat)
    requires Proper(x) && Starts(s, i, Text(x)) && end == i + |Text(x)| && Delimits(x, At(s, end))
    requires nesting <= MAX_NESTING + 1
    ensures i <= |s|
    ensures ParseValue(s, i, nesting) == if Allowed(x, nesting) then Some(Found(Meaning(x), end)) else None
    decreases x
  {
    hide ParseItems, ParseMembers, SkipSpace, Starts, ElementsText, EntriesText, Text, Meaning;
    if nesting > MAX_NESTING {
    } else if x.List? && x.elements != [] {
      ListOpens(s, i, x.gap, x.elements);
      ElementsAreRead(s, i + 1, x.elements, nesting + 1, [], end);
      FirstIsNoSpace(x.elements[0].value);
      ListIsRead(s, i, x.gap, x.elements, nesting, end);
    } else if x.Map? && x.entries != [] {
      MapOpens(s, i, x.gap, x.entries);
      MembersAreRead(s, i + 1, x.entries, nesting + 1, [], end);
      MapIsRead(s, i, x.gap, x.entries, nesting, end);
    } else if x.List? || x.Map? {
      EmptyListIsRead(s, i, x, nesting, end);
    } else {
      AtomIsRead(s, i, x, nesting, end);
    }
  }

  /** Every way to write a list or an object is read as that list or object, whatever comes behind it, exactly when the
      limits allow it. */
  lemma TextIsRead(x: Syntax, rest: string)
    requires Proper(x) && (x.List? || x.Map?)
    ensures ParseText(Text(x) + rest) == if Allowed(x, 0) then Some(Meaning(x)) else None
  {
    var s := Text(x) + rest;
    StartsIff(s, 0, Text(x));
    ValueIsRead(s, 0, x, 0, |Text(x)|);
    assert At(s, 0) == Text(x)[0];
  }

  // ----- The limits in numbers -----

  /** An empty list inside `k` lists. */
  function Deep(k: nat): (x: Syntax)
    ensures Proper(x) && x.List?
  {
    if k == 0 then List("", []) else
    var inner := [Element("", Deep(k - 1), "")];
    assert inner[1..] == [];
    List("", inner)
  }

  lemma {:induction false} DeepIsAllowed(k: nat, nesting: nat)
    ensures Allowed(Deep(k), nesting) <==> nesting + k <= MAX_NESTING
  {
    if k > 0 {
      DeepIsAllowed(k - 1, nesting + 1);
      var es := Deep(k).elements;
      assert es == [Element("", Deep(k - 1), "")] && es[1..] == [];
      assert ElementsAllowed(es, nesting + 1) <==> Allowed(es[0].value, nesting + 1);
    }
  }

  /** Twenty brackets one inside the other are read, and twenty-one are not. */
  lemma DepthIsLimited(k: nat, rest: string)
    ensures ParseText(Text(Deep(k)) + rest).Some? <==> k <= 19
  {
    DeepIsAllowed(k, 0);
    TextIsRead(Deep(k), rest);
  }

  /** A list whose elements can be read is read if and only if there are at most 122880 of them. */
  lemma LengthIsLimited(gap: string, es: seq<Element>, rest: string)
    requires Proper(List(gap, es)) && ElementsAllowed(es, 1)
    ensures ParseText(Text(List(gap, es)) + rest).Some? <==> |es| <= 122880
  {
    hide ParseText, Text, Proper;
    TextIsRead(List(gap, es), rest);
  }

  /** An object whose members can be read is read if and only if there are at most 960, all of different names. */
  lemma MembersAreLimited(gap: string, ms: seq<Entry>, rest: string)
    requires Proper(Map(gap, ms)) && EntriesAllowed(ms, 1)
    ensures ParseText(Text(Map(gap, ms)) + rest).Some? <==> |ms| <= 960 && DistinctNames(Members(ms))
  {
    hide ParseText, Text, Proper;
    TextIsRead(Map(gap, ms), rest);
  }
}
