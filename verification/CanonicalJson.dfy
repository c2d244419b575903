/**
 Canonical JSON (section 3.2 of RFC 8785) as the Go SDK writes it, and a parser that inverts it.
 */
module CanonicalJson {
  import opened Wrappers
  import KeyOrder

  /******* Values *******/

  predicate IsNumberChar(c: char) {
    '0' <= c <= '9' || c == '+' || c == '-' || c == '.' || c == 'e'
  }

  predicate IsToken(t: string) {
    t != "" && forall i :: 0 <= i < |t| ==> IsNumberChar(t[i])
  }

  /** A number is given by its canonical rendering. */
  type Token = t: string | IsToken(t) witness "0"

  datatype Json =
    | Null
    | Bool(b: bool)
    | Number(token: Token)
    | Text(s: string)
    | Array(items: seq<Json>)
    | Object(members: map<string, Json>)

  /******* Escaping *******/

  function HexDigit(n: nat): char
    requires n < 16
  {
    if n < 10 then '0' + n as char else 'a' + (n - 10) as char
  }

  /** How one character appears inside quotes (section 3.2.2.2 of RFC 8785). */
  function Escape(c: char): string {
    if c == '"' || c == '\\' then ['\\', c]
    else if c == 8 as char then "\\b"
    else if c == '\t' then "\\t"
    else if c == '\n' then "\\n"
    else if c == 12 as char then "\\f"
    else if c == '\r' then "\\r"
    else if c < 32 as char then "\\u00" + [HexDigit(c as int / 16), HexDigit(c as int % 16)]
    else [c]
  }

  function EscapeAll(s: string): string {
    if s == "" then "" else Escape(s[0]) + EscapeAll(s[1..])
  }

  function Quoted(s: string): string {
    "\"" + EscapeAll(s) + "\""
  }

  /******* Key order *******/

  ghost predicate Lists(keys: seq<string>, s: set<string>) {
    && (forall i, j :: 0 <= i < j < |keys| ==> keys[i] != keys[j])
    && (forall k :: k in keys <==> k in s)
  }

  /** Some order of the keys, as map iteration may give it. */
  ghost function AnyOrder(s: set<string>): (keys: seq<string>)
    ensures Lists(keys, s)
  {
    if s == {} then []
    else
      var k :| k in s;
      var rest := AnyOrder(s - {k});
      assert forall x :: x in [k] + rest <==> x in s;
      [k] + rest
  }

  /** The keys in code-unit order (section 3.2.3 of RFC 8785). */
  ghost function SortedKeys(s: set<string>): (keys: seq<string>)
    ensures Lists(keys, s)
  {
    KeyOrder.SortSorts(AnyOrder(s));
    SortLists(AnyOrder(s), s);
    KeyOrder.Sort(AnyOrder(s))
  }

  lemma {:induction false} Multiplicity(keys: seq<string>, s: set<string>)
    requires Lists(keys, s)
    ensures multiset(keys) == multiset(s)
  {
    if keys == [] {
      assert s == {};
    } else {
      var k, rest := keys[0], keys[1..];
      assert Lists(rest, s - {k}) by {
        assert forall x :: x in rest <==> x in s - {k};
      }
      Multiplicity(rest, s - {k});
      assert keys == [k] + rest;
    }
  }

  lemma Twice(keys: seq<string>, i: nat, j: nat)
    requires i < j < |keys|
    ensures keys[i] == keys[j] ==> multiset(keys)[keys[i]] >= 2
  {
    assert keys == keys[..i] + [keys[i]] + keys[i + 1..j] + [keys[j]] + keys[j + 1..];
  }

  lemma ListsByMultiplicity(keys: seq<string>, s: set<string>)
    requires multiset(keys) == multiset(s)
    ensures Lists(keys, s)
  {
    forall i, j | 0 <= i < j < |keys|
      ensures keys[i] != keys[j]
    {
      Twice(keys, i, j);
    }
    forall k
      ensures k in keys <==> k in s
    {
      assert k in keys <==> k in multiset(keys);
    }
  }

  lemma SortLists(keys: seq<string>, s: set<string>)
    requires Lists(keys, s)
    ensures Lists(KeyOrder.Sort(keys), s)
  {
    hide Lists;
    KeyOrder.SortSorts(keys);
    Multiplicity(keys, s);
    ListsByMultiplicity(KeyOrder.Sort(keys), s);
  }

  /** Sorting erases the iteration order of the map. */
  lemma IterationOrderIsErased(keys: seq<string>, s: set<string>)
    requires Lists(keys, s)
    ensures KeyOrder.Sort(keys) == SortedKeys(s)
  {
    hide Lists;
    Multiplicity(keys, s);
    Multiplicity(AnyOrder(s), s);
    KeyOrder.SortIgnoresOrder(keys, AnyOrder(s));
  }

  /******* The canonical text *******/

  ghost function Canonical(v: Json): string
    decreases v, 1, 0
  {
    match v
    case Null => "null"
    case Bool(b) => if b then "true" else "false"
    case Number(token) => token
    case Text(s) => Quoted(s)
    case Array(items) => "[" + Elements(v, 0) + "]"
    case Object(members) => "{" + Members(v, SortedKeys(members.Keys), 0) + "}"
  }

  /** The elements of an array from index `n` on, separated by commas. */
  ghost function Elements(v: Json, n: nat): string
    requires v.Array? && n <= |v.items|
    decreases v, 0, |v.items| - n
  {
    if n == |v.items| then ""
    else (if n > 0 then "," else "") + Canonical(v.items[n]) + Elements(v, n + 1)
  }

  /** The members of an object under `keys[n..]`, separated by commas. */
  ghost function Members(v: Json, keys: seq<string>, n: nat): string
    requires v.Object? && n <= |keys| && forall i :: 0 <= i < |keys| ==> keys[i] in v.members
    decreases v, 0, |keys| - n
  {
    if n == |keys| then ""
    else
      (if n > 0 then "," else "") + Quoted(keys[n]) + ":" + Canonical(v.members[keys[n]]) + Members(v, keys, n + 1)
  }

  /******* The writer *******/

  /** Go's `strings.Builder`. */
  class Builder {
    var text: string

    constructor ()
      ensures text == ""
    {
      text := "";
    }

    method Write(s: string)
      modifies this
      ensures text == old(text) + s
    {
      text := text + s;
    }
  }

  method WriteString(output: Builder, value: string)
    modifies output
    ensures output.text == old(output.text) + Quoted(value)
  {
    hide Escape;
    output.Write("\"");
    for i := 0 to |value|
      invariant output.text == old(output.text) + "\"" + EscapeAll(value[..i])
    {
      output.Write(Escape(value[i]));
      EscapeAppend(value[..i], value[i]);
      assert value[..i + 1] == value[..i] + [value[i]];
    }
    assert value[..|value|] == value;
    output.Write("\"");
  }

  lemma {:induction false} EscapeAppend(s: string, c: char)
    ensures EscapeAll(s + [c]) == EscapeAll(s) + Escape(c)
  {
    hide Escape;
    if s == "" {
      assert s + [c] == [c];
    } else {
      EscapeAppend(s[1..], c);
      assert (s + [c])[1..] == s[1..] + [c];
    }
  }

  /** The keys of a map, in whatever order iteration yields them. */
  method CollectKeys(members: map<string, Json>) returns (keys: seq<string>)
    ensures Lists(keys, members.Keys)
  {
    keys := [];
    var left := members.Keys;
    while left != {}
      invariant left <= members.Keys
      invariant Lists(keys, members.Keys - left)
      decreases left
    {
      var key :| key in left;
      keys := keys + [key];
      left := left - {key};
      assert forall k :: k in keys <==> k in members.Keys - left;
    }
    assert members.Keys - left == members.Keys;
  }

  /** `writeCanonical`: append the canonical text of a value. */
  method WriteCanonical(output: Builder, value: Json)
    modifies output
    ensures output.text == old(output.text) + Canonical(value)
    decreases value, 1, 0
  {
    hide Quoted, SortedKeys, Elements, Members, Lists;
    match value
    case Null => output.Write("null");
    case Bool(b) => output.Write(if b then "true" else "false");
    case Number(token) => output.Write(token);
    case Text(s) => WriteString(output, s);
    case Array(items) => WriteArray(output, value);
    case Object(members) => WriteObject(output, value);
  }

  method WriteArray(output: Builder, value: Json)
    requires value.Array?
    modifies output
    ensures output.text == old(output.text) + Canonical(value)
    decreases value, 0, 1
  {
    hide Elements;
    output.Write("[");
    WriteElements(output, value);
    output.Write("]");
  }

  method WriteObject(output: Builder, value: Json)
    requires value.Object?
    modifies output
    ensures output.text == old(output.text) + Canonical(value)
    decreases value, 0, 1
  {
    hide Members, SortedKeys, Lists, KeyOrder.Sort, Canonical;
    var keys := CollectKeys(value.members);
    KeysReady(keys, value);
    keys := KeyOrder.Sort(keys);
    output.Write("{");
    WriteMembers(output, value, keys);
    output.Write("}");
  }

  method WriteElements(output: Builder, value: Json)
    requires value.Array?
    modifies output
    ensures output.text == old(output.text) + Elements(value, 0)
    decreases value, 0, 0
  {
    hide Elements, Canonical;
    ghost var written := "";
    for index := 0 to |value.items|
      invariant output.text == old(output.text) + written
      invariant written + Elements(value, index) == Elements(value, 0)
    {
      ElementsStep(value, index, written);
      if index > 0 {
        output.Write(",");
      }
      WriteCanonical(output, value.items[index]);
      written := written + ElementText(value, index);
    }
    ElementsEnd(value);
  }

  method WriteMembers(output: Builder, value: Json, keys: seq<string>)
    requires value.Object? && forall i :: 0 <= i < |keys| ==> keys[i] in value.members
    modifies output
    ensures output.text == old(output.text) + Members(value, keys, 0)
    decreases value, 0, 0
  {
    hide Members, Canonical, Quoted;
    ghost var written := "";
    for index := 0 to |keys|
      invariant output.text == old(output.text) + written
      invariant written + Members(value, keys, index) == Members(value, keys, 0)
    {
      MembersStep(value, keys, index, written);
      if index > 0 {
        output.Write(",");
      }
      WriteString(output, keys[index]);
      output.Write(":");
      WriteCanonical(output, value.members[keys[index]]);
      written := written + MemberText(value, keys, index);
    }
    MembersEnd(value, keys);
  }

  lemma KeysReady(keys: seq<string>, v: Json)
    requires v.Object? && Lists(keys, v.members.Keys)
    ensures forall i :: 0 <= i < |KeyOrder.Sort(keys)| ==> KeyOrder.Sort(keys)[i] in v.members
    ensures Canonical(v) == "{" + Members(v, KeyOrder.Sort(keys), 0) + "}"
  {
    IterationOrderIsErased(keys, v.members.Keys);
    hide Members, KeyOrder.Sort, SortedKeys;
    var sorted := SortedKeys(v.members.Keys);
    forall i | 0 <= i < |sorted|
      ensures sorted[i] in v.members
    {
      assert sorted[i] in sorted;
    }
  }

  /** What the writer appends for element `n`. */
  ghost function ElementText(v: Json, n: nat): string
    requires v.Array? && n < |v.items|
  {
    (if n > 0 then "," else "") + Canonical(v.items[n])
  }

  ghost function MemberText(v: Json, keys: seq<string>, n: nat): string
    requires v.Object? && n < |keys| && keys[n] in v.members
  {
    (if n > 0 then "," else "") + Quoted(keys[n]) + ":" + Canonical(v.members[keys[n]])
  }

  lemma ElementsStep(v: Json, n: nat, written: string)
    requires v.Array? && n < |v.items|
    ensures written + Elements(v, n) == written + ElementText(v, n) + Elements(v, n + 1)
  {
    hide Canonical;
  }

  lemma ElementsEnd(v: Json)
    requires v.Array?
    ensures Elements(v, |v.items|) == ""
  {
  }

  lemma MembersStep(v: Json, keys: seq<string>, n: nat, written: string)
    requires v.Object? && n < |keys| && forall i :: 0 <= i < |keys| ==> keys[i] in v.members
    ensures written + Members(v, keys, n) == written + MemberText(v, keys, n) + Members(v, keys, n + 1)
  {
    hide Canonical, Quoted;
  }

  lemma MembersEnd(v: Json, keys: seq<string>)
    requires v.Object? && forall i :: 0 <= i < |keys| ==> keys[i] in v.members
    ensures Members(v, keys, |keys|) == ""
  {
  }

  /******* A parser *******/

  function HexValue(c: char): Option<nat> {
    if '0' <= c <= '9' then Some(c as int - '0' as int)
    else if 'a' <= c <= 'f' then Some(c as int - 'a' as int + 10)
    else None
  }

  /** The character for four hexadecimal digits, unless it is a surrogate. */
  function FromHex(a: char, b: char, c: char, d: char): Option<char> {
    if HexValue(a).None? || HexValue(b).None? || HexValue(c).None? || HexValue(d).None? then None
    else
      var code := ((HexValue(a).value * 16 + HexValue(b).value) * 16 + HexValue(c).value) * 16 + HexValue(d).value;
      if 0xD800 <= code < 0xE000 || code > 0xFFFF then None else Some(code as char)
  }

  function Unescape(c: char): Option<char> {
    if c == '"' || c == '\\' then Some(c)
    else if c == 'b' then Some(8 as char)
    else if c == 't' then Some('\t')
    else if c == 'n' then Some('\n')
    else if c == 'f' then Some(12 as char)
    else if c == 'r' then Some('\r')
    else None
  }

  /** One character of a quoted text and what follows it. */
  function ReadChar(s: string): (r: Option<(char, string)>)
    requires s != ""
    ensures r.Some? ==> |r.value.1| < |s|
  {
    if s[0] != '\\' then (if s[0] < 32 as char then None else Some((s[0], s[1..])))
    else if |s| >= 6 && s[1] == 'u' then
      var c := FromHex(s[2], s[3], s[4], s[5]);
      if c.Some? then Some((c.value, s[6..])) else None
    else if |s| >= 2 && Unescape(s[1]).Some? then Some((Unescape(s[1]).value, s[2..]))
    else None
  }

  /** A text up to its closing quote, and what follows it. */
  function ParseText(s: string): (r: Option<(string, string)>)
    ensures r.Some? ==> |r.value.1| < |s|
    decreases |s|
  {
    if s == "" then None
    else if s[0] == '"' then Some(("", s[1..]))
    else
      var first := ReadChar(s);
      if first.None? then None
      else
        var tail := ParseText(first.value.1);
        if tail.None? then None else Some(([first.value.0] + tail.value.0, tail.value.1))
  }

  function TokenLength(s: string): (n: nat)
    ensures n <= |s| && forall i :: 0 <= i < n ==> IsNumberChar(s[i])
  {
    if s == "" || !IsNumberChar(s[0]) then 0 else 1 + TokenLength(s[1..])
  }

  function ParseValue(s: string): (r: Option<(Json, string)>)
    ensures r.Some? ==> |r.value.1| < |s|
    decreases |s|, 1
  {
    if s == "" then None
    else if s[0] == 'n' then (if "null" <= s then Some((Null, s[4..])) else None)
    else if s[0] == 't' then (if "true" <= s then Some((Bool(true), s[4..])) else None)
    else if s[0] == 'f' then (if "false" <= s then Some((Bool(false), s[5..])) else None)
    else if s[0] == '"' then
      var text := ParseText(s[1..]);
      if text.None? then None else Some((Text(text.value.0), text.value.1))
    else if s[0] == '[' then
      if |s| > 1 && s[1] == ']' then Some((Array([]), s[2..]))
      else
        var elements := ParseElements(s[1..]);
        if elements.None? then None else Some((Array(elements.value.0), elements.value.1))
    else if s[0] == '{' then
      if |s| > 1 && s[1] == '}' then Some((Object(map[]), s[2..]))
      else
        var members := ParseMembers(s[1..]);
        if members.None? then None else Some((Object(members.value.0), members.value.1))
    else
      var n := TokenLength(s);
      if n == 0 then None else Some((Number(s[..n]), s[n..]))
  }

  /** One or more comma-separated values up to the closing bracket. */
  function ParseElements(s: string): (r: Option<(seq<Json>, string)>)
    ensures r.Some? ==> |r.value.1| < |s|
    decreases |s|, 2
  {
    var first := ParseValue(s);
    if first.None? then None else AfterElement(first.value.0, first.value.1, |s|)
  }

  function AfterElement(v: Json, rest: string, bound: nat): (r: Option<(seq<Json>, string)>)
    requires |rest| < bound
    ensures r.Some? ==> |r.value.1| < bound
    decreases |rest|, 3
  {
    if rest == "" then None
    else if rest[0] == ']' then Some(([v], rest[1..]))
    else if rest[0] == ',' then
      var more := ParseElements(rest[1..]);
      if more.None? then None else Some(([v] + more.value.0, more.value.1))
    else None
  }

  /** One or more comma-separated members with distinct keys up to the closing brace. */
  function ParseMembers(s: string): (r: Option<(map<string, Json>, string)>)
    ensures r.Some? ==> |r.value.1| < |s|
    decreases |s|, 2
  {
    if s == "" || s[0] != '"' then None
    else
      var key := ParseText(s[1..]);
      if key.None? || key.value.1 == "" || key.value.1[0] != ':' then None
      else
        var value := ParseValue(key.value.1[1..]);
        if value.None? then None else AfterMember(key.value.0, value.value.0, value.value.1, |s|)
  }

  function AfterMember(k: string, v: Json, rest: string, bound: nat): (r: Option<(map<string, Json>, string)>)
    requires |rest| < bound
    ensures r.Some? ==> |r.value.1| < bound
    decreases |rest|, 3
  {
    if rest == "" then None
    else if rest[0] == '}' then Some((map[k := v], rest[1..]))
    else if rest[0] == ',' then
      var more := ParseMembers(rest[1..]);
      if more.None? || k in more.value.0 then None else Some((more.value.0[k := v], more.value.1))
    else None
  }

  /******* The parser inverts the writer *******/

  lemma HexInverts(n: nat)
    requires n < 16
    ensures HexValue(HexDigit(n)) == Some(n)
  {
  }

  lemma ReadEscaped(c: char, tail: string)
    ensures var s := Escape(c) + tail; s != "" && s[0] != '"' && ReadChar(s) == Some((c, tail))
  {
    var e := Escape(c);
    var s := e + tail;
    assert s[..|e|] == e && s[|e|..] == tail;
    if |e| == 6 {
      var n := c as int;
      HexInverts(n / 16);
      HexInverts(n % 16);
      assert s[2] == '0' && s[3] == '0' && s[4] == HexDigit(n / 16) && s[5] == HexDigit(n % 16);
      assert HexValue('0') == Some(0);
      assert s[0] == '\\' && s[1] == 'u';
      assert FromHex(s[2], s[3], s[4], s[5]) == Some(c);
    } else if |e| == 2 {
      assert s[0] == '\\' && s[1] == e[1];
    } else {
      assert s[0] == c;
    }
  }

  lemma {:induction false} ParseEscaped(t: string, rest: string)
    ensures ParseText(EscapeAll(t) + "\"" + rest) == Some((t, rest))
  {
    hide Escape, ReadChar;
    var s := EscapeAll(t) + "\"" + rest;
    if t == "" {
      assert s == "\"" + rest;
    } else {
      ParseEscaped(t[1..], rest);
      var tail := EscapeAll(t[1..]) + "\"" + rest;
      assert s == Escape(t[0]) + tail;
      ReadEscaped(t[0], tail);
      assert t == [t[0]] + t[1..];
    }
  }

  /** The rest of the input does not continue a number. */
  predicate Ends(rest: string) {
    rest == "" || !IsNumberChar(rest[0])
  }

  lemma {:induction false} TokenEnds(t: string, rest: string)
    requires (forall i :: 0 <= i < |t| ==> IsNumberChar(t[i])) && Ends(rest)
    ensures TokenLength(t + rest) == |t|
  {
    if t == "" {
      assert t + rest == rest;
    } else {
      TokenEnds(t[1..], rest);
      assert (t + rest)[1..] == t[1..] + rest;
    }
  }

  lemma ParseToken(t: Token, rest: string)
    requires Ends(rest)
    ensures ParseValue(t + rest) == Some((Number(t), rest))
  {
    var s := t + rest;
    TokenEnds(t, rest);
    assert s[0] == t[0];
    assert s[..|t|] == t && s[|t|..] == rest;
  }

  lemma ParseQuoted(t: string, rest: string)
    ensures ParseValue(Quoted(t) + rest) == Some((Text(t), rest))
  {
    hide EscapeAll;
    var s := Quoted(t) + rest;
    assert s[0] == '"' && s[1..] == EscapeAll(t) + "\"" + rest;
    ParseEscaped(t, rest);
  }

  lemma ParseWord(word: string, v: Json, rest: string)
    requires (word == "null" && v == Null) || (word == "true" && v == Bool(true))
             || (word == "false" && v == Bool(false))
    ensures ParseValue(word + rest) == Some((v, rest))
  {
    var s := word + rest;
    assert s[0] == word[0] && s[..|word|] == word && s[|word|..] == rest;
  }

  /** What follows an element is a comma or the closing bracket. */
  lemma ElementsFollow(v: Json, n: nat, rest: string)
    requires v.Array? && 0 < n <= |v.items|
    ensures Ends(Elements(v, n) + "]" + rest)
    ensures n == |v.items| ==> Elements(v, n) + "]" + rest == "]" + rest
    ensures n < |v.items| ==>
              Elements(v, n) + "]" + rest == "," + (Canonical(v.items[n]) + (Elements(v, n + 1) + "]" + rest))
  {
    hide Canonical;
  }

  lemma {:induction false} ParseElementsFrom(v: Json, n: nat, rest: string)
    requires v.Array? && n < |v.items|
    ensures ParseElements(Canonical(v.items[n]) + (Elements(v, n + 1) + "]" + rest)) == Some((v.items[n..], rest))
    decreases v, 0, |v.items| - n
  {
    var follow := Elements(v, n + 1) + "]" + rest;
    var s := Canonical(v.items[n]) + follow;
    ElementsFollow(v, n + 1, rest);
    ParseCanonical(v.items[n], follow);
    hide Canonical, Elements;
    assert v.items[n..] == [v.items[n]] + v.items[n + 1..];
    if n + 1 < |v.items| {
      ParseElementsFrom(v, n + 1, rest);
      assert follow[1..] == Canonical(v.items[n + 1]) + (Elements(v, n + 2) + "]" + rest);
    } else {
      assert follow[1..] == rest;
      assert v.items[n..] == [v.items[n]];
    }
  }

  /** The part of an object under `keys[n..]`. */
  ghost function Part(v: Json, keys: seq<string>, n: nat): map<string, Json>
    requires v.Object? && n <= |keys| && forall i :: 0 <= i < |keys| ==> keys[i] in v.members
  {
    map k | k in keys[n..] :: v.members[k]
  }

  lemma MembersFollow(v: Json, keys: seq<string>, n: nat, rest: string)
    requires v.Object? && 0 < n <= |keys| && forall i :: 0 <= i < |keys| ==> keys[i] in v.members
    ensures Ends(Members(v, keys, n) + "}" + rest)
    ensures n == |keys| ==> Members(v, keys, n) + "}" + rest == "}" + rest
    ensures n < |keys| ==> Members(v, keys, n) + "}" + rest == "," + MemberInput(v, keys, n, rest)
  {
    hide Canonical, Quoted;
  }

  /** The input from member `n` on. */
  ghost function MemberInput(v: Json, keys: seq<string>, n: nat, rest: string): string
    requires v.Object? && n < |keys| && forall i :: 0 <= i < |keys| ==> keys[i] in v.members
  {
    Quoted(keys[n]) + (":" + (Canonical(v.members[keys[n]]) + (Members(v, keys, n + 1) + "}" + rest)))
  }

  lemma PartStep(v: Json, keys: seq<string>, n: nat)
    requires v.Object? && n < |keys| && (forall i :: 0 <= i < |keys| ==> keys[i] in v.members)
    requires forall i, j :: 0 <= i < j < |keys| ==> keys[i] != keys[j]
    ensures keys[n] !in Part(v, keys, n + 1)
    ensures Part(v, keys, n) == Part(v, keys, n + 1)[keys[n] := v.members[keys[n]]]
  {
    assert keys[n..] == [keys[n]] + keys[n + 1..];
  }

  lemma MemberKeyParses(v: Json, keys: seq<string>, n: nat, rest: string)
    requires v.Object? && n < |keys| && forall i :: 0 <= i < |keys| ==> keys[i] in v.members
    ensures var s := MemberInput(v, keys, n, rest);
            var follow := Canonical(v.members[keys[n]]) + (Members(v, keys, n + 1) + "}" + rest);
            s != "" && s[0] == '"' && ParseText(s[1..]) == Some((keys[n], ":" + follow))
  {
    hide Canonical, Members, EscapeAll, ParseText;
    var follow := Canonical(v.members[keys[n]]) + (Members(v, keys, n + 1) + "}" + rest);
    var s := MemberInput(v, keys, n, rest);
    assert s[1..] == EscapeAll(keys[n]) + "\"" + (":" + follow);
    ParseEscaped(keys[n], ":" + follow);
  }

  /** A member whose key and value parse leaves what follows it to `AfterMember`. */
  lemma ParseMember(s: string, key: string, item: Json, follow: string, after: string)
    requires s != "" && s[0] == '"' && ParseText(s[1..]) == Some((key, ":" + follow))
    requires ParseValue(follow) == Some((item, after))
    ensures |after| < |s| && ParseMembers(s) == AfterMember(key, item, after, |s|)
  {
    hide AfterMember, ParseText, ParseValue;
    assert (":" + follow)[1..] == follow;
  }

  /** What follows the last member. */
  lemma LastMember(key: string, item: Json, rest: string, bound: nat)
    requires |rest| + 1 < bound
    ensures AfterMember(key, item, "}" + rest, bound) == Some((map[key := item], rest))
  {
    hide ParseMembers;
    assert ("}" + rest)[1..] == rest;
  }

  /** What follows a member that is not the last. */
  lemma InnerMember(key: string, item: Json, input: string, members: map<string, Json>, rest: string, bound: nat)
    requires |input| + 1 < bound && ParseMembers(input) == Some((members, rest)) && key !in members
    ensures AfterMember(key, item, "," + input, bound) == Some((members[key := item], rest))
  {
    hide ParseMembers;
    assert ("," + input)[1..] == input;
  }

  lemma {:induction false} ParseMembersFrom(v: Json, keys: seq<string>, n: nat, rest: string)
    requires v.Object? && n < |keys| && (forall i :: 0 <= i < |keys| ==> keys[i] in v.members)
    requires forall i, j :: 0 <= i < j < |keys| ==> keys[i] != keys[j]
    ensures ParseMembers(MemberInput(v, keys, n, rest)) == Some((Part(v, keys, n), rest))
    decreases v, 0, |keys| - n
  {
    hide Canonical, Members, MemberInput, ParseText, ParseValue, ParseMembers, AfterMember, Ends;
    var key, item := keys[n], v.members[keys[n]];
    var after := Members(v, keys, n + 1) + "}" + rest;
    var s := MemberInput(v, keys, n, rest);
    MemberKeyParses(v, keys, n, rest);
    MembersFollow(v, keys, n + 1, rest);
    ParseCanonical(item, after);
    PartStep(v, keys, n);
    ParseMember(s, key, item, Canonical(item) + after, after);
    if n + 1 < |keys| {
      ParseMembersFrom(v, keys, n + 1, rest);
      hide Part;
      InnerMember(key, item, MemberInput(v, keys, n + 1, rest), Part(v, keys, n + 1), rest, |s|);
    } else {
      LastMember(key, item, rest, |s|);
      assert Part(v, keys, n + 1) == map[];
    }
  }

  lemma ArrayText(v: Json, rest: string)
    requires v.Array?
    ensures v.items == [] ==> Canonical(v) + rest == "[]" + rest
    ensures v.items != [] ==>
              Canonical(v) + rest == "[" + (Canonical(v.items[0]) + (Elements(v, 1) + "]" + rest))
  {
    assert Canonical(v) == "[" + Elements(v, 0) + "]";
    if v.items != [] {
      assert Elements(v, 0) == "" + Canonical(v.items[0]) + Elements(v, 1);
      hide Canonical, Elements;
      BracketsRegroup(Canonical(v.items[0]), Elements(v, 1), rest);
    }
  }

  lemma BracketsRegroup(first: string, more: string, rest: string)
    ensures "[" + ("" + first + more) + "]" + rest == "[" + (first + (more + "]" + rest))
  {
  }

  lemma ObjectText(v: Json, keys: seq<string>, rest: string)
    requires v.Object? && keys == SortedKeys(v.members.Keys)
    ensures forall i :: 0 <= i < |keys| ==> keys[i] in v.members
    ensures keys == [] ==> Canonical(v) + rest == "{}" + rest && v.members == map[]
    ensures keys != [] ==> Canonical(v) + rest == "{" + MemberInput(v, keys, 0, rest) && Part(v, keys, 0) == v.members
  {
    hide SortedKeys, Quoted;
    forall i | 0 <= i < |keys|
      ensures keys[i] in v.members
    {
      assert keys[i] in keys;
    }
    assert Canonical(v) == "{" + Members(v, keys, 0) + "}";
    if keys != [] {
      assert Members(v, keys, 0) == "" + Quoted(keys[0]) + ":" + Canonical(v.members[keys[0]]) + Members(v, keys, 1);
      assert keys[0..] == keys;
      hide Canonical, Members;
    } else {
      assert forall k :: k !in v.members;
    }
  }

  /** The first character of an element or member is not a closing bracket. */
  lemma CanonicalStarts(v: Json)
    ensures Canonical(v) != "" && Canonical(v)[0] != ']'
  {
  }

  lemma {:induction false} ParseArray(v: Json, rest: string)
    requires v.Array?
    ensures ParseValue(Canonical(v) + rest) == Some((v, rest))
    decreases v, 0, |v.items| + 1
  {
    ArrayText(v, rest);
    if v.items == [] {
      assert ("[]" + rest)[2..] == rest;
    } else {
      ParseElementsFrom(v, 0, rest);
      CanonicalStarts(v.items[0]);
      assert v.items[0..] == v.items;
    }
    hide Canonical, Elements, ParseElements;
  }

  lemma ParseBraced(s: string, members: map<string, Json>, rest: string)
    requires s != "" && s[0] == '"' && ParseMembers(s) == Some((members, rest))
    ensures ParseValue("{" + s) == Some((Object(members), rest))
  {
    hide ParseMembers, ParseText, ParseElements;
    assert ("{" + s)[1..] == s;
  }

  lemma ParseEmptyObject(rest: string)
    ensures ParseValue("{}" + rest) == Some((Object(map[]), rest))
  {
    hide ParseMembers, ParseText, ParseElements;
    assert ("{}" + rest)[2..] == rest;
  }

  lemma {:induction false} ParseObject(v: Json, rest: string)
    requires v.Object?
    ensures ParseValue(Canonical(v) + rest) == Some((v, rest))
    decreases v, 0, |SortedKeys(v.members.Keys)| + 1
  {
    hide Canonical, Members, ParseMembers, MemberInput, Part, ParseValue, ParseText;
    var keys := SortedKeys(v.members.Keys);
    ObjectText(v, keys, rest);
    if keys == [] {
      ParseEmptyObject(rest);
    } else {
      ParseMembersFrom(v, keys, 0, rest);
      MemberKeyParses(v, keys, 0, rest);
      ParseBraced(MemberInput(v, keys, 0, rest), Part(v, keys, 0), rest);
    }
  }

  /** Parsing the canonical text of any value gives back the value and leaves the rest. */
  lemma {:induction false} ParseCanonical(v: Json, rest: string)
    requires Ends(rest)
    ensures ParseValue(Canonical(v) + rest) == Some((v, rest))
    decreases v, 1, 0
  {
    hide ParseValue, Quoted, SortedKeys, Elements, Members;
    match v
    case Null => ParseWord("null", v, rest);
    case Bool(b) => ParseWord(if b then "true" else "false", v, rest);
    case Number(token) => ParseToken(token, rest);
    case Text(t) => ParseQuoted(t, rest);
    case Array(_) => ParseArray(v, rest);
    case Object(_) => ParseObject(v, rest);
  }

  /** Canonical JSON is unambiguous: values with the same canonical text are equal, so the receipt
      check and a signature over the text are checks of the value. */
  lemma CanonicalInjective(a: Json, b: Json)
    requires Canonical(a) == Canonical(b)
    ensures a == b
  {
    hide Canonical, ParseValue;
    ParseCanonical(a, "");
    ParseCanonical(b, "");
  }

  /******* The writer's escapes are the shortest *******/

  lemma HexDigitOf(c: char)
    requires HexValue(c).Some?
    ensures HexValue(c).value < 16 && HexDigit(HexValue(c).value) == c
  {
  }

  /** Four digits that denote a control character. */
  lemma ControlDigits(a: char, b: char, c: char, d: char)
    requires FromHex(a, b, c, d).Some? && FromHex(a, b, c, d).value < 32 as char
    ensures var n := FromHex(a, b, c, d).value as int;
            a == '0' && b == '0' && c == HexDigit(n / 16) && d == HexDigit(n % 16)
  {
    HexDigitOf(a);
    HexDigitOf(b);
    HexDigitOf(c);
    HexDigitOf(d);
    assert HexDigit(0) == '0';
  }

  /** Whatever reads as a character is at least as long as the escape the writer uses. */
  lemma ShortestEscape(s: string, c: char, rest: string)
    requires s != "" && s[0] != '"' && ReadChar(s) == Some((c, rest))
    ensures |Escape(c)| + |rest| <= |s|
    ensures |Escape(c)| + |rest| == |s| ==> s == Escape(c) + rest
  {
    if s[0] == '\\' && s[1] == 'u' {
      if c < 32 as char {
        ControlDigits(s[2], s[3], s[4], s[5]);
      }
      assert s == s[..6] + rest;
    } else if s[0] == '\\' {
      assert s == s[..2] + rest;
    } else {
      assert s == [s[0]] + rest;
    }
  }

  /** The writer emits the shortest text that reads back as `t`, and only that one is as short. */
  lemma {:induction false} ShortestText(s: string, t: string, rest: string)
    requires ParseText(s) == Some((t, rest))
    ensures |EscapeAll(t)| + 1 + |rest| <= |s|
    ensures |EscapeAll(t)| + 1 + |rest| == |s| ==> s == EscapeAll(t) + "\"" + rest
    decreases |s|
  {
    hide Escape, ReadChar;
    if s[0] == '"' {
      assert s == "\"" + rest;
    } else {
      var first := ReadChar(s).value;
      var tail := ParseText(first.1).value;
      assert t == [first.0] + tail.0 && t[1..] == tail.0;
      ShortestEscape(s, first.0, first.1);
      ShortestText(first.1, tail.0, rest);
    }
  }

  /** The text written for every single character, as section 3.2.2.2 of RFC 8785 prescribes it. */
  lemma EscapeTable(c: char)
    ensures var text := Canonical(Text([c]));
            && (c as int == 0x08 ==> text == "\"\\b\"") && (c as int == 0x09 ==> text == "\"\\t\"")
            && (c as int == 0x0A ==> text == "\"\\n\"") && (c as int == 0x0C ==> text == "\"\\f\"")
            && (c as int == 0x0D ==> text == "\"\\r\"")
            && (c as int == 0x22 ==> text == "\"\\\"\"") && (c as int == 0x5C ==> text == "\"\\\\\"")
            && (c as int < 0x20 && c as int !in {0x08, 0x09, 0x0A, 0x0C, 0x0D} ==>
                  text == "\"\\u00" + ["0123456789abcdef"[c as int / 16], "0123456789abcdef"[c as int % 16]] + "\"")
            && (c as int >= 0x20 && c as int != 0x22 && c as int != 0x5C ==> text == ['"', c, '"'])
  {
    assert [c][1..] == [];
    assert EscapeAll([c]) == Escape(c) + EscapeAll([]);
    assert EscapeAll([c]) == Escape(c);
    assert Canonical(Text([c])) == "\"" + Escape(c) + "\"";
    hide EscapeAll, Canonical, Quoted;
    if c as int < 0x20 {
      HexTable(c as int / 16);
      HexTable(c as int % 16);
    }
  }

  lemma HexTable(n: nat)
    requires n < 16
    ensures HexDigit(n) == "0123456789abcdef"[n]
  {
  }

  /******* Python's writer *******/

  /** The keys as Python sorts them, by their UTF-16BE bytes. */
  ghost function KeysByBytes(s: set<string>): (keys: seq<string>)
    ensures Lists(keys, s) && KeyOrder.SortedByBytes(keys)
  {
    KeyOrder.SortSorts(AnyOrder(s));
    KeyOrder.SortedMeansByBytes(SortedKeys(s));
    var keys :| Lists(keys, s) && KeyOrder.SortedByBytes(keys);
    keys
  }

  /** `",".join(parts)` */
  function Joined(parts: seq<string>): string {
    if parts == [] then ""
    else if |parts| == 1 then parts[0]
    else parts[0] + "," + Joined(parts[1..])
  }

  /** `canonical_json`: recursion over the value, with joined parts and byte-sorted keys. */
  ghost function Rendered(v: Json): string {
    match v
    case Null => "null"
    case Bool(b) => if b then "true" else "false"
    case Number(token) => token
    case Text(s) => Quoted(s)
    case Array(items) => "[" + Joined(seq(|items|, i requires 0 <= i < |items| => Rendered(items[i]))) + "]"
    case Object(members) =>
      var keys := KeysByBytes(members.Keys);
      assert forall i :: 0 <= i < |keys| ==> keys[i] in keys;
      "{" + Joined(seq(|keys|, i requires 0 <= i < |keys| => Quoted(keys[i]) + ":" + Rendered(members[keys[i]]))) + "}"
  }

  /** What a comma-separated writer appends from part `n` on. */
  function JoinedFrom(parts: seq<string>, n: nat): string
    requires n <= |parts|
  {
    if n == |parts| then "" else (if n > 0 then "," else "") + Joined(parts[n..])
  }

  lemma JoinedStep(parts: seq<string>, n: nat)
    requires n < |parts|
    ensures JoinedFrom(parts, n) == (if n > 0 then "," else "") + parts[n] + JoinedFrom(parts, n + 1)
  {
    assert parts[n..][1..] == parts[n + 1..];
  }

  lemma {:induction false} ElementsAreJoined(v: Json, parts: seq<string>, n: nat)
    requires v.Array? && |parts| == |v.items| && n <= |parts|
    requires forall i :: 0 <= i < |parts| ==> parts[i] == Canonical(v.items[i])
    ensures Elements(v, n) == JoinedFrom(parts, n)
    decreases |parts| - n
  {
    hide Canonical;
    if n < |parts| {
      ElementsAreJoined(v, parts, n + 1);
      JoinedStep(parts, n);
      hide JoinedFrom;
    }
  }

  lemma {:induction false} MembersAreJoined(v: Json, keys: seq<string>, parts: seq<string>, n: nat)
    requires v.Object? && |parts| == |keys| && n <= |parts| && forall i :: 0 <= i < |keys| ==> keys[i] in v.members
    requires forall i :: 0 <= i < |parts| ==> parts[i] == Quoted(keys[i]) + ":" + Canonical(v.members[keys[i]])
    ensures Members(v, keys, n) == JoinedFrom(parts, n)
    decreases |parts| - n
  {
    hide Canonical, Quoted;
    if n < |parts| {
      MembersAreJoined(v, keys, parts, n + 1);
      JoinedStep(parts, n);
      hide JoinedFrom;
    }
  }

  lemma JoinedWhole(parts: seq<string>)
    ensures JoinedFrom(parts, 0) == Joined(parts)
  {
    assert parts[0..] == parts;
  }

  lemma {:induction false} RendersArray(v: Json)
    requires v.Array?
    ensures Rendered(v) == Canonical(v)
    decreases v, 0
  {
    var parts := seq(|v.items|, i requires 0 <= i < |v.items| => Rendered(v.items[i]));
    assert Rendered(v) == "[" + Joined(parts) + "]";
    forall i | 0 <= i < |parts|
      ensures parts[i] == Canonical(v.items[i])
    {
      PythonWritesTheSame(v.items[i]);
    }
    ElementsAreJoined(v, parts, 0);
    JoinedWhole(parts);
  }

  lemma {:induction false} RendersObject(v: Json)
    requires v.Object?
    ensures Rendered(v) == Canonical(v)
    decreases v, 0
  {
    var keys := KeysByBytes(v.members.Keys);
    assert forall i :: 0 <= i < |keys| ==> keys[i] in keys;
    var parts := seq(|keys|, i requires 0 <= i < |keys| => Quoted(keys[i]) + ":" + Rendered(v.members[keys[i]]));
    assert Rendered(v) == "{" + Joined(parts) + "}";
    forall i | 0 <= i < |parts|
      ensures parts[i] == Quoted(keys[i]) + ":" + Canonical(v.members[keys[i]])
    {
      PythonWritesTheSame(v.members[keys[i]]);
    }
    MembersAreJoined(v, keys, parts, 0);
    JoinedWhole(parts);
    ByteSortedObject(v, keys);
  }

  lemma ByteSortedObject(v: Json, keys: seq<string>)
    requires v.Object? && Lists(keys, v.members.Keys) && KeyOrder.SortedByBytes(keys)
    ensures forall i :: 0 <= i < |keys| ==> keys[i] in v.members
    ensures Canonical(v) == "{" + Members(v, keys, 0) + "}"
  {
    KeysReady(keys, v);
    KeyOrder.PythonSortsLikeGo(keys, keys);
    hide Canonical, Members, Lists, KeyOrder.SortedByBytes;
  }

  /** Python's writer and Go's produce the same text for every value, at every depth. */
  lemma {:induction false} PythonWritesTheSame(v: Json)
    ensures Rendered(v) == Canonical(v)
    decreases v, 1
  {
    match v
    case Array(_) => RendersArray(v);
    case Object(_) => RendersObject(v);
    case _ =>
  }
}
