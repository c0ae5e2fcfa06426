/** shared/string/parson.c as it works: a cursor that is moved along the text, strings unescaped where
    they lie, and arrays that grow as elements are added. */
module Parser {
  import opened Basics

  import opened Json

  // ----- json_array_add -----

  /** The capacities an array can have, from none to the largest. */
  predicate IsCapacity(c: nat) {
    c in {0, 15, 30, 60, 120, 240, 480, 960, 1920, 3840, 7680, 15360, 30720, 61440, 122880}
  }

  class JsonArray {
    var items: array<Json>
    var count: nat

    ghost predicate Valid()
      reads this, items
    {
      count <= items.Length && IsCapacity(items.Length)
    }

    ghost function Contents(): seq<Json>
      requires Valid()
      reads this, items
    {
      items[..count]
    }

    constructor ()
      ensures Valid() && Contents() == [] && fresh(items)
    {
      items := new Json[0];
      count := 0;
    }

    method Resize(capacity: nat)
      requires count <= capacity && count <= items.Length
      modifies this`items
      ensures fresh(items) && items.Length == capacity && items[..count] == old(items[..count])
    {
      var bigger := new Json[capacity];
      forall k | 0 <= k < count { bigger[k] := items[k]; }
      items := bigger;
    }

    /** An element can be added exactly while there are fewer than 122880. */
    method Add(v: Json) returns (ok: bool)
      requires Valid()
      modifies this, items
      ensures Valid() && (items == old(items) || fresh(items))
      ensures ok <==> old(|Contents()|) < ARRAY_MAX_CAPACITY
      ensures Contents() == if ok then old(Contents()) + [v] else old(Contents())
    {
      if count >= items.Length {
        var capacity := if items.Length * 2 > STARTING_CAPACITY then items.Length * 2 else STARTING_CAPACITY;
        if capacity > ARRAY_MAX_CAPACITY {
          return false;
        }
        Resize(capacity);
      }
      items[count] := v;
      count := count + 1;
      ok := true;
    }
  }

  // ----- json_object_add -----

  function Paired(names: seq<string>, values: seq<Json>): (members: seq<Member>)
    requires |names| == |values|
    ensures |members| == |names|
    ensures forall k :: 0 <= k < |names| ==> members[k] == Member(names[k], values[k])
  {
    seq(|names|, k requires 0 <= k < |names| => Member(names[k], values[k]))
  }

  class JsonObject {
    var names: array<string>
    var values: array<Json>
    var count: nat

    /** The capacities an object can have begin like those of an array. */
    ghost predicate Valid()
      reads this, names, values
    {
      && count <= names.Length == values.Length && names.Length in {0, 15, 30, 60, 120, 240, 480, 960}
    }

    ghost function Contents(): (members: seq<Member>)
      requires Valid()
      reads this, names, values
      ensures |members| == count
    {
      Paired(names[..count], values[..count])
    }

    constructor ()
      ensures Valid() && Contents() == [] && fresh(names) && fresh(values)
    {
      names := new string[0];
      values := new Json[0];
      count := 0;
    }

    method Resize(capacity: nat)
      requires count <= capacity && count <= names.Length && count <= values.Length
      modifies this`names, this`values
      ensures fresh(names) && fresh(values) && names.Length == values.Length == capacity
      ensures names[..count] == old(names[..count]) && values[..count] == old(values[..count])
    {
      var moreNames, moreValues := new string[capacity], new Json[capacity];
      forall k | 0 <= k < count { moreNames[k] := names[k]; }
      forall k | 0 <= k < count { moreValues[k] := values[k]; }
      names, values := moreNames, moreValues;
    }

    /** json_object_get_value, as far as it says whether there is one. */
    method HasName(name: string) returns (found: bool)
      requires Valid()
      ensures found <==> Has(Contents(), name)
    {
      HasIff(Contents(), name);
      for i := 0 to count
        invariant forall k :: 0 <= k < i ==> names[k] != name
      {
        if names[i] == name {
          assert Contents()[i].name == name;
          return true;
        }
      }
      found := false;
    }

    /** Makes room for one more member, if there may be one. */
    method MakeRoom() returns (ok: bool)
      requires Valid()
      modifies this`names, this`values
      ensures Valid() && (names == old(names) || fresh(names)) && (values == old(values) || fresh(values))
      ensures Contents() == old(Contents())
      ensures ok <==> count < OBJECT_MAX_CAPACITY
      ensures ok ==> count < names.Length
    {
      if count >= names.Length {
        var capacity := if names.Length * 2 > STARTING_CAPACITY then names.Length * 2 else STARTING_CAPACITY;
        if capacity > OBJECT_MAX_CAPACITY {
          return false;
        }
        Resize(capacity);
      }
      ok := true;
    }

    /** A member can be added exactly while there are fewer than 960 and none has its name. */
    method Add(name: string, v: Json) returns (ok: bool)
      requires Valid()
      modifies this, names, values
      ensures Valid() && (names == old(names) || fresh(names)) && (values == old(values) || fresh(values))
      ensures ok <==> old(CanAdd(Contents(), name))
      ensures Contents() == if ok then old(Contents()) + [Member(name, v)] else old(Contents())
    {
      ok := MakeRoom();
      if ok {
        var found := HasName(name);
        if found {
          return false;
        }
        names[count], values[count] := name, v;
        count := count + 1;
      }
    }
  }

  // ----- get_processed_string, after the quotes are skipped -----

  lemma PrependTwice(s: string, t: string, u: Option<string>)
    ensures Prepend(s, Prepend(t, u)) == Prepend(s + t, u)
  {
    if u.Some? { assert s + (t + u.value) == s + t + u.value; }
  }

  lemma PrependNothing(u: Option<string>)
    ensures Prepend([], u) == u
  {
    if u.Some? { assert [] + u.value == u.value; }
  }

  /** The first character of a rest of the text and what is left after it. */
  lemma UnescapeAt(s: string, u: nat)
    requires u < |s|
    ensures s[u] != '\\' ==>
      Unescape(s[u..]) == if s[u] < ' ' then None else Prepend([s[u]], Unescape(s[u + 1..]))
    ensures s[u] == '\\' && (u + 1 == |s| || (s[u + 1] != 'u' && Unescaped(s[u + 1]).None?)) ==>
        Unescape(s[u..]) == None
    ensures s[u] == '\\' && u + 1 < |s| && s[u + 1] != 'u' && Unescaped(s[u + 1]).Some? ==>
      Unescape(s[u..]) == Prepend([Unescaped(s[u + 1]).value], Unescape(s[u + 2..]))
  {
    assert s[u..][1..] == s[u + 1..];
    if u + 1 < |s| { assert s[u..][2..] == s[u + 2..] && s[u..][1] == s[u + 1]; }
  }

  lemma UnescapeUtfAt(s: string, u: nat)
    requires u + 1 < |s| && s[u] == '\\' && s[u + 1] == 'u'
    ensures !(IsUtf(s, u + 2) && u + 6 <= |s|) ==> Unescape(s[u..]) == None
    ensures IsUtf(s, u + 2) && u + 6 <= |s| ==>
      Unescape(s[u..]) == Prepend(Utf8(Hex4(s, u + 2)), Unescape(s[u + 6..]))
  {
    var t := s[u..];
    assert At(t, 1) == 'u';
    assert forall k: nat :: At(t, k) == At(s, u + k);
    if u + 6 <= |s| { assert t[6..] == s[u + 6..]; }
  }

  lemma UtfIsShort(v: nat)
    requires v < 0x1_0000
    ensures 1 <= |Utf8(v)| <= 3
  {
  }

  method WriteUtf8(output: array<char>, p: nat, v: nat) returns (p': nat)
    requires v < 0x1_0000 && p + 3 <= output.Length
    modifies output
    ensures p' == p + |Utf8(v)| && output[..p'] == old(output[..p]) + Utf8(v)
    ensures forall k :: p' <= k < output.Length ==> output[k] == old(output[k])
  {
    p' := p;
    if 0x80 <= v < 0x800 {
      output[p'] := (0xC0 + v / 0x40) as char;
      p' := p' + 1;
    } else if v >= 0x800 {
      output[p'] := (0xE0 + v / 0x1000) as char;
      output[p' + 1] := (0x80 + v / 0x40 % 0x40) as char;
      p' := p' + 2;
    }
    output[p'] := if v < 0x80 then v as char else (0x80 + v % 0x40) as char;
    p' := p' + 1;
  }

  /** Text `s` of length `n`, unescaped up to `u`; what is unescaped takes the first `length` places. */
  ghost predicate Halfway(output: seq<char>, n: nat, length: nat, u: nat, s: string) {
    && |s| == n < |output| && length <= u <= n && output[n] == '\0' && '\0' !in s
    && (forall k :: u <= k < n ==> output[k] == s[k])
    && Unescape(s) == Prepend(output[..length], Unescape(s[u..]))
  }

  method CopyChar(output: array<char>, n: nat, length: nat, u: nat, ghost s: string)
    requires Halfway(output[..], n, length, u, s) && u < n && output[u] != '\\' && output[u] >= ' '
    modifies output
    ensures Halfway(output[..], n, length + 1, u + 1, s)
  {
    ghost var done := output[..length];
    UnescapeAt(s, u);
    PrependTwice(done, [s[u]], Unescape(s[u + 1..]));
    output[length] := output[u];
    assert output[..length + 1] == done + [s[u]];
  }

  method ReplaceEscape(output: array<char>, n: nat, length: nat, u: nat, c: char, ghost s: string)
    requires Halfway(output[..], n, length, u, s) && u + 1 < n && output[u] == '\\'
    requires output[u + 1] != 'u' && Unescaped(output[u + 1]) == Some(c)
    modifies output
    ensures Halfway(output[..], n, length + 1, u + 2, s)
  {
    ghost var done := output[..length];
    UnescapeAt(s, u);
    PrependTwice(done, [c], Unescape(s[u + 2..]));
    output[length] := c;
    assert output[..length + 1] == done + [c];
  }

  method ReplaceUtf(output: array<char>, n: nat, length: nat, u: nat, ghost s: string) returns (length': nat)
    requires Halfway(output[..], n, length, u, s) && u + 6 <= n && output[u] == '\\' && output[u + 1] == 'u'
    requires IsUtf(s, u + 2)
    modifies output
    ensures Halfway(output[..], n, length', u + 6, s)
  {
    ghost var done := output[..length];
    UnescapeUtfAt(s, u);
    var v := HexDigit(output[u + 2]) * 0x1000 + HexDigit(output[u + 3]) * 0x100
      + HexDigit(output[u + 4]) * 0x10 + HexDigit(output[u + 5]);
    assert v == Hex4(s, u + 2);
    PrependTwice(done, Utf8(v), Unescape(s[u + 6..]));
    UtfIsShort(v);
    length' := WriteUtf8(output, length, v);
  }

  /** One round of the loop: a character is copied, or an escape replaced. */
  method UnescapeNext(output: array<char>, n: nat, length: nat, u: nat, ghost s: string)
    returns (ok: bool, length': nat, u': nat)
    requires Halfway(output[..], n, length, u, s) && output[u] != '\0'
    modifies output
    ensures ok ==> Halfway(output[..], n, length', u', s) && u < u'
    ensures !ok ==> Unescape(s) == None
  {
    ok, length', u' := false, length, u;
    if output[u] != '\\' {
      if output[u] < ' ' {
        UnescapeAt(s, u);
        return;
      }
      CopyChar(output, n, length, u, s);
      length', u' := length + 1, u + 1;
    } else if output[u + 1] == 'u' {
      if !(IsHex(output[u + 2]) && IsHex(output[u + 3]) && IsHex(output[u + 4]) && IsHex(output[u + 5])) {
        UnescapeUtfAt(s, u);
        return;
      }
      length' := ReplaceUtf(output, n, length, u, s);
      u' := u + 6;
    } else {
      var c := Unescaped(output[u + 1]);
      if c.None? {
        UnescapeAt(s, u);
        return;
      }
      ReplaceEscape(output, n, length, u, c.value, s);
      length', u' := length + 1, u + 2;
    }
    ok := true;
  }

  /** Escapes are replaced from front to back in the text itself; what is written never gets ahead of what
      is still to be read. */
  method UnescapeInPlace(output: array<char>, n: nat) returns (ok: bool, length: nat)
    requires n < output.Length && output[n] == '\0' && '\0' !in output[..n]
    modifies output
    ensures ok <==> Unescape(old(output[..n])).Some?
    ensures ok ==> length <= n && output[..length] == Unescape(old(output[..n])).value && output[length] == '\0'
  {
    ghost var s := output[..n];
    var u := 0;
    length := 0;
    assert output[..][..0] == [] && s[0..] == s;
    PrependNothing(Unescape(s));
    while output[u] != '\0'
      invariant Halfway(output[..], n, length, u, s)
      decreases n - u
    {
      ok, length, u := UnescapeNext(output, n, length, u, s);
      if !ok {
        return false, 0;
      }
    }
    assert s[n..] == [] && output[..][..length] == output[..length];
    output[length] := '\0';
    ok := true;
  }

  lemma {:induction false} NoNullInQuotes(s: string, i: nat)
    requires At(s, SkipQuotes(s, i)) != '\0'
    ensures i < SkipQuotes(s, i) <= |s| && '\0' !in s[i..SkipQuotes(s, i) - 1]
    decreases |s| - i
  {
    var end := SkipQuotes(s, i);
    if At(s, i) == '"' {
      assert s[i..i] == [];
    } else if At(s, i) != '\\' {
      NoNullInQuotes(s, i + 1);
      assert s[i..end - 1] == [s[i]] + s[i + 1..end - 1];
    } else {
      NoNullInQuotes(s, i + 2);
      assert s[i..end - 1] == [s[i], s[i + 1]] + s[i + 2..end - 1];
    }
  }

  lemma ContentDecides(s: string, i: nat, content: Option<string>)
    requires i < |s| && At(s, SkipQuotes(s, i + 1)) != '\0' && i + 2 <= SkipQuotes(s, i + 1)
    requires content == Unescape(s[i + 1..SkipQuotes(s, i + 1) - 1])
    ensures content.None? ==> ProcessedString(s, i) == None
    ensures content.Some? ==> ProcessedString(s, i) == Some(Found(CString(content.value), SkipQuotes(s, i + 1)))
  {
  }

  /** `parson_strndup` */
  method Duplicate(s: string) returns (output: array<char>)
    ensures fresh(output) && output.Length == |s| + 1 && output[..|s|] == s && output[|s|] == '\0'
  {
    output := new char[|s| + 1](k => if 0 <= k < |s| then s[k] else '\0');
  }

  /** Where the string in a buffer ends for those who read it. */
  method StringEnd(output: array<char>, length: nat) returns (end: nat)
    requires length < output.Length && output[length] == '\0'
    ensures end <= length && output[..end] == CString(output[..length])
  {
    end := 0;
    while output[end] != '\0'
      invariant end <= length && CString(output[..length]) == output[..end] + CString(output[end..length])
      decreases length - end
    {
      assert output[end..length][1..] == output[end + 1..length];
      end := end + 1;
    }
    if end < length { assert output[end..length][0] == '\0'; }
  }

  // ----- The cursor -----

  /** What a parser returns, and where it leaves the cursor when it succeeds. */
  ghost predicate Agrees<T>(r: Option<T>, pos: nat, p: Option<Found<T>>) {
    if p.None? then r.None? else r == Some(p.value.value) && pos == p.value.end
  }

  class Cursor {
    const text: string
    var pos: nat

    constructor (text: string)
      ensures this.text == text && pos == 0
    {
      this.text := text;
      pos := 0;
    }

    function Peek(): char
      reads this`pos
    {
      At(text, pos)
    }

    method SkipWhitespaces()
      modifies this`pos
      ensures pos == SkipSpace(text, old(pos))
    {
      while IsSpace(Peek())
        invariant SkipSpace(text, pos) == SkipSpace(text, old(pos))
        decreases |text| - pos
      {
        pos := pos + 1;
      }
    }

    method SkipString()
      requires pos < |text|
      modifies this`pos
      ensures pos == SkipQuotes(text, old(pos) + 1)
    {
      pos := pos + 1;
      while Peek() != '"'
        invariant SkipQuotes(text, pos) == SkipQuotes(text, old(pos) + 1)
        decreases |text| - pos
      {
        if Peek() == '\0' {
          return;
        }
        if Peek() == '\\' {
          pos := pos + 1;
          if Peek() == '\0' {
            return;
          }
        }
        pos := pos + 1;
      }
      pos := pos + 1;
    }

    method GetProcessedString() returns (r: Option<string>)
      requires pos < |text|
      modifies this`pos
      ensures pos <= |text| && Agrees(r, pos, ProcessedString(text, old(pos)))
    {
      var start := pos;
      SkipString();
      if Peek() == '\0' {
        return None;
      }
      NoNullInQuotes(text, start + 1);
      var inside := text[start + 1..pos - 1];
      ContentDecides(text, start, Unescape(inside));
      var output := Duplicate(inside);
      var ok, length := UnescapeInPlace(output, |inside|);
      if !ok {
        return None;
      }
      var end := StringEnd(output, length);
      r := Some(output[..end]);
    }

    method ParseWordHere(word: string, v: Json) returns (r: Option<Json>)
      requires pos <= |text| && word != [] && Peek() == word[0]
      modifies this`pos
      ensures pos <= |text| && Agrees(r, pos, ParseWord(text, old(pos), word, v))
    {
      StartsIff(text, pos, word);
      if pos + |word| <= |text| && text[pos..pos + |word|] == word {
        pos := pos + |word|;
        r := Some(v);
      } else {
        r := None;
      }
    }

    /** `is_decimal` */
    method IsDecimalHere(end: nat) returns (ok: bool)
      requires pos <= end <= |text|
      ensures ok == IsDecimal(text[pos..end])
    {
      var length := end - pos;
      ghost var s := text[pos..end];
      if length > 1 && Peek() == '0' && At(text, pos + 1) != '.' {
        return false;
      }
      if length > 2 && Peek() == '-' && At(text, pos + 1) == '0' && At(text, pos + 2) != '.' {
        return false;
      }
      while length > 0
        invariant 0 <= length <= |s| && forall k :: length <= k < |s| ==> s[k] != 'x' && s[k] != 'X'
      {
        length := length - 1;
        assert s[length] == text[pos + length];
        if text[pos + length] == 'x' || text[pos + length] == 'X' {
          return false;
        }
      }
      ok := true;
    }

    method ParseNumberHere() returns (r: Option<Json>)
      requires pos < |text| && (text[pos] == '-' || IsDigit(text[pos]))
      modifies this`pos
      ensures pos <= |text| && Agrees(r, pos, ParseNumber(text, old(pos)))
    {
      var end := ConvertedEnd(text, pos);
      var decimal := IsDecimalHere(end);
      if !decimal {
        return None;
      }
      HexadecimalIsRefused(text, pos);
      r := Some(ConvertedValue(text, pos));
      pos := end;
    }

    method ParseValueHere(nesting: nat) returns (r: Option<Json>)
      requires pos <= |text| && nesting <= MAX_NESTING + 1
      modifies this`pos
      ensures pos <= |text| && Agrees(r, pos, ParseValue(text, old(pos), nesting))
      decreases MAX_NESTING + 1 - nesting, 5
    {
      if nesting > MAX_NESTING {
        return None;
      }
      SkipWhitespaces();
      var c := Peek();
      if c == '{' {
        r := ParseObjectHere(nesting + 1);
      } else if c == '[' {
        r := ParseArrayHere(nesting + 1);
      } else if c == '"' {
        var t := GetProcessedString();
        r := if t.None? then None else Some(Str(t.value));
      } else if c == 't' {
        r := ParseWordHere("true", Bool(true));
      } else if c == 'f' {
        r := ParseWordHere("false", Bool(false));
      } else if c == 'n' {
        r := ParseWordHere("null", Null);
      } else if c == '-' || IsDigit(c) {
        r := ParseNumberHere();
      } else {
        r := None;
      }
    }

    method ParseObjectHere(nesting: nat) returns (r: Option<Json>)
      requires pos < |text| && 1 <= nesting <= MAX_NESTING + 1
      modifies this`pos
      ensures pos <= |text| && Agrees(r, pos, ParseObject(text, old(pos), nesting))
      decreases MAX_NESTING + 2 - nesting, 4
    {
      pos := pos + 1;
      SkipWhitespaces();
      if Peek() == '}' {
        pos := pos + 1;
        return Some(Object([]));
      }
      r := ParseMembersHere(nesting);
    }

    /** A name, up to and with its colon. */
    method ParseNameHere() returns (r: Option<string>)
      requires pos < |text|
      modifies this`pos
      ensures pos <= |text| && Agrees(r, pos, ParseName(text, old(pos)))
    {
      r := GetProcessedString();
      SkipWhitespaces();
      if r.None? || Peek() != ':' {
        return None;
      }
      pos := pos + 1;
    }

    method ParseMemberHere(nesting: nat) returns (r: Option<Member>)
      requires pos < |text| && 1 <= nesting <= MAX_NESTING + 1
      modifies this`pos
      ensures pos <= |text| && Agrees(r, pos, ParseMember(text, old(pos), nesting))
      decreases MAX_NESTING + 2 - nesting, 0
    {
      var name := ParseNameHere();
      if name.None? {
        return None;
      }
      var v := ParseValueHere(nesting);
      r := if v.None? then None else Some(Member(name.value, v.value));
    }

    /** One round of the loop of parse_object_value, up to the comma or brace after a member. */
    method AddMemberHere(nesting: nat, members: JsonObject) returns (ok: bool)
      requires pos < |text| && 1 <= nesting <= MAX_NESTING + 1 && members.Valid() && Peek() != '\0'
      modifies this`pos, members, members.names, members.values
      ensures members.Valid() && pos <= |text|
      ensures members.names == old(members.names) || fresh(members.names)
      ensures members.values == old(members.values) || fresh(members.values)
      ensures !ok ==> ParseMembers(text, old(pos), nesting, old(members.Contents())) == None
      ensures ok ==> old(pos) <= pos
      ensures ok ==> ParseMembers(text, old(pos), nesting, old(members.Contents())) ==
                       AfterMember(text, pos, nesting, members.Contents())
      decreases MAX_NESTING + 2 - nesting, 1
    {
      ghost var start, before := pos, members.Contents();
      var m := ParseMemberHere(nesting);
      if m.None? {
        MembersStop(text, start, nesting, before);
        return false;
      }
      ghost var end := pos;
      ok := members.Add(m.value.name, m.value.value);
      if ok {
        MembersGoOn(text, start, nesting, before, m.value, end);
        SkipWhitespaces();
      } else {
        MembersStop(text, start, nesting, before);
      }
    }

    /** The same with what follows the member: whether a comma does. */
    method NextMemberHere(nesting: nat, members: JsonObject) returns (ok: bool, more: bool)
      requires pos < |text| && 1 <= nesting <= MAX_NESTING + 1 && members.Valid() && Peek() != '\0'
      modifies this`pos, members, members.names, members.values
      ensures members.Valid() && pos <= |text|
      ensures members.names == old(members.names) || fresh(members.names)
      ensures members.values == old(members.values) || fresh(members.values)
      ensures !ok ==> ParseMembers(text, old(pos), nesting, old(members.Contents())) == None
      ensures ok ==> old(pos) < pos
      ensures ok && more ==> ParseMembers(text, old(pos), nesting, old(members.Contents())) ==
                               ParseMembers(text, pos, nesting, members.Contents())
      ensures ok && !more ==> ParseMembers(text, old(pos), nesting, old(members.Contents())) ==
                                Some(Found(Object(members.Contents()), pos))
      decreases MAX_NESTING + 2 - nesting, 2
    {
      ok := AddMemberHere(nesting, members);
      more := Peek() == ',';
      if !ok || (!more && Peek() != '}') {
        return false, more;
      }
      pos := pos + 1;
      if more {
        SkipWhitespaces();
      }
    }

    /** The loop of parse_object_value, up to the closing brace. */
    method ParseMembersHere(nesting: nat) returns (r: Option<Json>)
      requires pos <= |text| && 1 <= nesting <= MAX_NESTING + 1
      modifies this`pos
      ensures pos <= |text| && Agrees(r, pos, ParseMembers(text, old(pos), nesting, []))
      decreases MAX_NESTING + 2 - nesting, 3
    {
      ghost var whole := ParseMembers(text, pos, nesting, []);
      var members := new JsonObject();
      var more := true;
      while more && Peek() != '\0'
        invariant pos <= |text| && members.Valid() && fresh(members) && fresh(members.names) && fresh(members.values)
        invariant whole == if more then ParseMembers(text, pos, nesting, members.Contents())
                           else Some(Found(Object(members.Contents()), pos))
        decreases |text| - pos
      {
        var ok;
        ok, more := NextMemberHere(nesting, members);
        if !ok {
          return None;
        }
      }
      if more {
        return None;
      }
      members.Resize(members.count);
      r := Some(Object(Paired(members.names[..members.count], members.values[..members.count])));
    }

    method ParseArrayHere(nesting: nat) returns (r: Option<Json>)
      requires pos < |text| && 1 <= nesting <= MAX_NESTING + 1
      modifies this`pos
      ensures pos <= |text| && Agrees(r, pos, ParseArray(text, old(pos), nesting))
      decreases MAX_NESTING + 2 - nesting, 3
    {
      pos := pos + 1;
      SkipWhitespaces();
      if Peek() == ']' {
        pos := pos + 1;
        return Some(Array([]));
      }
      r := ParseItemsHere(nesting);
    }

    /** One round of the loop of parse_array_value, up to the comma or bracket after an element. */
    method ParseItemHere(nesting: nat, items: JsonArray) returns (ok: bool)
      requires pos < |text| && 1 <= nesting <= MAX_NESTING + 1 && items.Valid() && Peek() != '\0'
      modifies this`pos, items, items.items
      ensures items.Valid() && (items.items == old(items.items) || fresh(items.items)) && pos <= |text|
      ensures !ok ==> ParseItems(text, old(pos), nesting, old(items.Contents())) == None
      ensures ok ==> old(pos) <= pos
      ensures ok ==>
        ParseItems(text, old(pos), nesting, old(items.Contents())) == AfterItem(text, pos, nesting, items.Contents())
      decreases MAX_NESTING + 2 - nesting, 0
    {
      ghost var start, before := pos, items.Contents();
      var v := ParseValueHere(nesting);
      if v.None? {
        ItemsStop(text, start, nesting, before);
        return false;
      }
      ghost var end := pos;
      ok := items.Add(v.value);
      if ok {
        ItemsGoOn(text, start, nesting, before, v.value, end);
        SkipWhitespaces();
      } else {
        ItemsStop(text, start, nesting, before);
      }
    }

    /** The same with what follows the element: whether a comma does. */
    method NextItemHere(nesting: nat, items: JsonArray) returns (ok: bool, more: bool)
      requires pos < |text| && 1 <= nesting <= MAX_NESTING + 1 && items.Valid() && Peek() != '\0'
      modifies this`pos, items, items.items
      ensures items.Valid() && (items.items == old(items.items) || fresh(items.items)) && pos <= |text|
      ensures !ok ==> ParseItems(text, old(pos), nesting, old(items.Contents())) == None
      ensures ok ==> old(pos) < pos
      ensures ok && more ==> ParseItems(text, old(pos), nesting, old(items.Contents())) ==
                               ParseItems(text, pos, nesting, items.Contents())
      ensures ok && !more ==> ParseItems(text, old(pos), nesting, old(items.Contents())) ==
                                Some(Found(Array(items.Contents()), pos))
      decreases MAX_NESTING + 2 - nesting, 1
    {
      ok := ParseItemHere(nesting, items);
      more := Peek() == ',';
      if !ok || (!more && Peek() != ']') {
        return false, more;
      }
      pos := pos + 1;
      if more {
        SkipWhitespaces();
      }
    }

    /** The loop of parse_array_value, up to the closing bracket. */
    method ParseItemsHere(nesting: nat) returns (r: Option<Json>)
      requires pos <= |text| && 1 <= nesting <= MAX_NESTING + 1
      modifies this`pos
      ensures pos <= |text| && Agrees(r, pos, ParseItems(text, old(pos), nesting, []))
      decreases MAX_NESTING + 2 - nesting, 2
    {
      ghost var whole := ParseItems(text, pos, nesting, []);
      var items := new JsonArray();
      var more := true;
      while more && Peek() != '\0'
        invariant pos <= |text| && items.Valid() && fresh(items) && fresh(items.items)
        invariant whole == if more then ParseItems(text, pos, nesting, items.Contents())
                           else Some(Found(Array(items.Contents()), pos))
        decreases |text| - pos
      {
        var ok;
        ok, more := NextItemHere(nesting, items);
        if !ok {
          return None;
        }
      }
      if more {
        return None;
      }
      items.Resize(items.count);
      r := Some(Array(items.items[..items.count]));
    }
  }

  /** `json_parse_string` */
  method ParseString(text: string) returns (r: Option<Json>)
    ensures r == ParseText(text)
  {
    if At(text, 0) != '{' && At(text, 0) != '[' {
      return None;
    }
    var cursor := new Cursor(text);
    r := cursor.ParseValueHere(0);
  }
}
