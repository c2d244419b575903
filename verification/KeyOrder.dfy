/**
 UTF-16 and the key order of canonical JSON (section 3.2.3 of RFC 8785).

 A Dafny `string` is a sequence of Unicode scalar values, as a Go rune slice or a Python string
 without surrogates is. JavaScript and the key order see its UTF-16 code units.
 */
module KeyOrder {

  /******* Encoding *******/

  /** 16-bit code units. */
  predicate IsUnits(units: seq<int>) {
    forall i :: 0 <= i < |units| ==> 0 <= units[i] < 0x10000
  }

  function EncodeChar(c: char): (units: seq<int>)
    ensures 1 <= |units| <= 2
    ensures IsUnits(units)
  {
    var v := c as int;
    if v < 0x10000 then [v]
    else [0xD800 + (v - 0x10000) / 0x400, 0xDC00 + (v - 0x10000) % 0x400]
  }

  function Encode(s: string): (units: seq<int>)
    ensures IsUnits(units)
  {
    if s == "" then [] else EncodeChar(s[0]) + Encode(s[1..])
  }

  predicate IsHigh(u: int) {
    0xD800 <= u <= 0xDBFF
  }

  predicate IsLow(u: int) {
    0xDC00 <= u <= 0xDFFF
  }

  /** The first code unit tells how long the character's encoding is and what it is. */
  lemma FirstCharDetermined(c: char, rest: seq<int>, d: char, rest': seq<int>)
    requires EncodeChar(c) + rest == EncodeChar(d) + rest'
    ensures c == d && rest == rest'
  {
    var a, b := EncodeChar(c) + rest, EncodeChar(d) + rest';
    assert a[0] == EncodeChar(c)[0] && b[0] == EncodeChar(d)[0];
    assert |EncodeChar(c)| == 2 <==> IsHigh(a[0]);
    assert |EncodeChar(d)| == 2 <==> IsHigh(b[0]);
    if |EncodeChar(c)| == 2 {
      assert a[1] == EncodeChar(c)[1] && b[1] == EncodeChar(d)[1];
    }
    assert rest == a[|EncodeChar(c)|..] && rest' == b[|EncodeChar(d)|..];
  }

  lemma {:induction false} EncodeInjective(a: string, b: string)
    requires Encode(a) == Encode(b)
    ensures a == b
  {
    if a != "" && b != "" {
      FirstCharDetermined(a[0], Encode(a[1..]), b[0], Encode(b[1..]));
      EncodeInjective(a[1..], b[1..]);
      assert a == [a[0]] + a[1..] && b == [b[0]] + b[1..];
    }
  }

  /******* The code-unit order *******/

  /** Lexicographic comparison: -1, 0 or 1. */
  function Lex(a: seq<int>, b: seq<int>): (r: int)
    ensures -1 <= r <= 1
  {
    if a == [] && b == [] then 0
    else if a == [] then -1
    else if b == [] then 1
    else if a[0] < b[0] then -1
    else if a[0] > b[0] then 1
    else Lex(a[1..], b[1..])
  }

  lemma {:induction false} LexZero(a: seq<int>, b: seq<int>)
    ensures Lex(a, b) == 0 <==> a == b
  {
    if a != [] && b != [] {
      LexZero(a[1..], b[1..]);
      assert a == [a[0]] + a[1..] && b == [b[0]] + b[1..];
    }
  }

  lemma {:induction false} LexFlips(a: seq<int>, b: seq<int>)
    ensures Lex(a, b) == -Lex(b, a)
  {
    if a != [] && b != [] {
      LexFlips(a[1..], b[1..]);
    }
  }

  lemma {:induction false} LexTransitive(a: seq<int>, b: seq<int>, c: seq<int>)
    requires Lex(a, b) < 0 && Lex(b, c) < 0
    ensures Lex(a, c) < 0
  {
    if a != [] && b != [] && c != [] && a[0] == b[0] == c[0] {
      LexTransitive(a[1..], b[1..], c[1..]);
    }
  }

  /** The first `n` units agree, and then the first sequence ends or has the smaller unit. */
  predicate DiffersAt(a: seq<int>, b: seq<int>, n: nat) {
    && n <= |a| && n < |b| && (forall i :: 0 <= i < n ==> a[i] == b[i])
    && (n == |a| || a[n] < b[n])
  }

  /** A sequence comes first exactly when it is a proper prefix or is smaller at the first difference. */
  lemma {:induction false} FirstDifference(a: seq<int>, b: seq<int>)
    ensures Lex(a, b) < 0 <==> exists n: nat :: DiffersAt(a, b, n)
    ensures Lex(a, b) > 0 <==> exists n: nat :: DiffersAt(b, a, n)
  {
    LexBelow(a, b);
    LexBelow(b, a);
    LexFlips(a, b);
  }

  lemma {:induction false} LexBelow(a: seq<int>, b: seq<int>)
    ensures Lex(a, b) < 0 <==> exists n: nat :: DiffersAt(a, b, n)
  {
    if a != [] && b != [] && a[0] == b[0] {
      LexBelow(a[1..], b[1..]);
      if Lex(a, b) < 0 {
        var n: nat :| DiffersAt(a[1..], b[1..], n);
        assert DiffersAt(a, b, n + 1);
      }
      forall n: nat | DiffersAt(a, b, n)
        ensures Lex(a, b) < 0
      {
        assert n > 0;
        assert DiffersAt(a[1..], b[1..], n - 1);
      }
    } else if Lex(a, b) < 0 {
      assert DiffersAt(a, b, 0);
    } else {
      forall n: nat
        ensures !DiffersAt(a, b, n)
      {
      }
    }
  }

  /** A character below 2^16 is one unit, itself; any other is a surrogate pair that spells it in base 1024. */
  lemma EncodingMeans(c: char)
    ensures c as int < 0x10000 ==> Encode([c]) == [c as int]
    ensures c as int >= 0x10000 ==>
              var units := Encode([c]);
              && |units| == 2 && 0xD800 <= units[0] < 0xDC00 && 0xDC00 <= units[1] < 0xE000
              && c as int == 0x10000 + (units[0] - 0xD800) * 0x400 + (units[1] - 0xDC00)
  {
    assert Encode([c]) == EncodeChar(c) + Encode([]) == EncodeChar(c);
  }

  /** The encoding of a text is that of its parts, one after the other. */
  lemma {:induction false} EncodingsConcatenate(s: string, t: string)
    ensures Encode(s + t) == Encode(s) + Encode(t)
  {
    hide EncodeChar, IsUnits;
    if s == "" {
      assert s + t == t;
    } else {
      EncodingsConcatenate(s[1..], t);
      assert (s + t)[1..] == s[1..] + t;
    }
  }

  /** Equal heads do not influence the comparison. */
  lemma {:induction false} LexSamePrefix(p: seq<int>, a: seq<int>, b: seq<int>)
    ensures Lex(p + a, p + b) == Lex(a, b)
  {
    if p == [] {
      assert p + a == a && p + b == b;
    } else {
      LexSamePrefix(p[1..], a, b);
      assert (p + a)[1..] == p[1..] + a && (p + b)[1..] == p[1..] + b;
    }
  }

  /** Go's `compareUTF16`: an index loop over the code units of both strings. */
  method CompareUTF16(left: string, right: string) returns (r: int)
    ensures r == Lex(Encode(left), Encode(right))
  {
    var a := Encode(left);
    var b := Encode(right);
    var index := 0;
    while index < |a| && index < |b|
      invariant 0 <= index <= |a| && index <= |b|
      invariant Lex(a, b) == Lex(a[index..], b[index..])
    {
      if a[index] < b[index] {
        return -1;
      }
      if a[index] > b[index] {
        return 1;
      }
      index := index + 1;
    }
    if |a| < |b| {
      return -1;
    }
    if |a| > |b| {
      return 1;
    }
    return 0;
  }

  /** `a` sorts strictly before `b`. */
  predicate Before(a: string, b: string) {
    Lex(Encode(a), Encode(b)) < 0
  }

  /** The code-unit order is a strict total order on strings of scalar values. */
  lemma BeforeIsStrictTotalOrder(a: string, b: string, c: string)
    ensures !Before(a, a)
    ensures Before(a, b) ==> !Before(b, a)
    ensures Before(a, b) && Before(b, c) ==> Before(a, c)
    ensures a != b ==> Before(a, b) || Before(b, a)
  {
    LexZero(Encode(a), Encode(a));
    LexFlips(Encode(a), Encode(b));
    if Before(a, b) && Before(b, c) {
      LexTransitive(Encode(a), Encode(b), Encode(c));
    }
    if a != b && Lex(Encode(a), Encode(b)) == 0 {
      LexZero(Encode(a), Encode(b));
      EncodeInjective(a, b);
    }
  }

  /******* Python's order: the bytes of the UTF-16BE encoding *******/

  function BigEndian(units: seq<int>): seq<int> {
    if units == [] then [] else [units[0] / 0x100, units[0] % 0x100] + BigEndian(units[1..])
  }

  /** Comparing big-endian bytes is comparing code units. */
  lemma {:induction false} ByteOrderIsUnitOrder(a: seq<int>, b: seq<int>)
    requires IsUnits(a)
    requires IsUnits(b)
    ensures Lex(BigEndian(a), BigEndian(b)) == Lex(a, b)
  {
    if a != [] && b != [] {
      ByteOrderIsUnitOrder(a[1..], b[1..]);
      var p, q := [a[0] / 0x100, a[0] % 0x100], [b[0] / 0x100, b[0] % 0x100];
      if a[0] == b[0] {
        LexSamePrefix(p, BigEndian(a[1..]), BigEndian(b[1..]));
      } else {
        HeadBytes(a[0], BigEndian(a[1..]), b[0], BigEndian(b[1..]));
      }
    }
  }

  lemma HeadBytes(u: int, rest: seq<int>, v: int, rest': seq<int>)
    requires 0 <= u < 0x10000 && 0 <= v < 0x10000 && u != v
    ensures Lex([u / 0x100, u % 0x100] + rest, [v / 0x100, v % 0x100] + rest') == if u < v then -1 else 1
  {
    var a, b := [u / 0x100, u % 0x100] + rest, [v / 0x100, v % 0x100] + rest';
    assert a[0] == u / 0x100 && b[0] == v / 0x100;
    if a[0] == b[0] {
      assert a[1..][0] == u % 0x100 && b[1..][0] == v % 0x100;
    }
  }

  /******* Sorting *******/

  ghost predicate Sorted(keys: seq<string>) {
    forall i, j :: 0 <= i < j < |keys| ==> !Before(keys[j], keys[i])
  }

  /** Sorted as Python sorts: no later key has smaller UTF-16BE bytes. */
  ghost predicate SortedByBytes(keys: seq<string>) {
    forall i, j :: 0 <= i < j < |keys| ==>
      Lex(BigEndian(Encode(keys[j])), BigEndian(Encode(keys[i]))) >= 0
  }

  function Insert(k: string, keys: seq<string>): seq<string> {
    if keys == [] || Before(k, keys[0]) then [k] + keys else [keys[0]] + Insert(k, keys[1..])
  }

  /** JavaScript's `sort()` and Go's `sort.Slice` with `compareUTF16`. */
  function Sort(keys: seq<string>): seq<string> {
    if keys == [] then [] else Insert(keys[0], Sort(keys[1..]))
  }

  lemma {:induction false} InsertKeepsKeys(k: string, keys: seq<string>)
    ensures multiset(Insert(k, keys)) == multiset{k} + multiset(keys)
  {
    hide Before;
    if keys != [] && !Before(k, keys[0]) {
      InsertKeepsKeys(k, keys[1..]);
      assert keys == [keys[0]] + keys[1..];
    }
  }

  lemma {:induction false} InsertKeepsOrder(k: string, keys: seq<string>)
    requires Sorted(keys)
    ensures Sorted(Insert(k, keys))
  {
    if keys == [] {
    } else if Before(k, keys[0]) {
      forall j | 0 <= j < |keys|
        ensures !Before(keys[j], k)
      {
        BeforeIsStrictTotalOrder(k, keys[0], keys[j]);
        BeforeIsStrictTotalOrder(keys[j], k, keys[0]);
      }
    } else {
      var rest := Insert(k, keys[1..]);
      InsertKeepsOrder(k, keys[1..]);
      InsertKeepsKeys(k, keys[1..]);
      forall j | 0 <= j < |rest|
        ensures !Before(rest[j], keys[0])
      {
        assert rest[j] in multiset(rest);
        assert rest[j] == k || rest[j] in keys[1..];
      }
    }
  }

  lemma {:induction false} SortSorts(keys: seq<string>)
    ensures Sorted(Sort(keys)) && multiset(Sort(keys)) == multiset(keys)
  {
    if keys != [] {
      SortSorts(keys[1..]);
      InsertKeepsOrder(keys[0], Sort(keys[1..]));
      InsertKeepsKeys(keys[0], Sort(keys[1..]));
      assert keys == [keys[0]] + keys[1..];
    }
  }

  /** A sorted arrangement of given keys is unique, so every correct sort returns `Sort(keys)`. */
  lemma {:induction false} SortedUnique(a: seq<string>, b: seq<string>)
    requires Sorted(a) && Sorted(b) && multiset(a) == multiset(b)
    ensures a == b
  {
    hide Before;
    assert |a| == |multiset(a)| == |multiset(b)| == |b|;
    if a != [] {
      SameLeast(a, b);
      assert a == [a[0]] + a[1..] && b == [b[0]] + b[1..];
      assert multiset(a[1..]) == multiset(a) - multiset{a[0]};
      assert multiset(b[1..]) == multiset(b) - multiset{b[0]};
      SortedUnique(a[1..], b[1..]);
    }
  }

  lemma SameLeast(a: seq<string>, b: seq<string>)
    requires Sorted(a) && Sorted(b) && multiset(a) == multiset(b) && a != [] && b != []
    ensures a[0] == b[0]
  {
    hide Before;
    assert a[0] in multiset(b) && b[0] in multiset(a);
    var i :| 0 <= i < |b| && b[i] == a[0];
    var j :| 0 <= j < |a| && a[j] == b[0];
    BeforeIsStrictTotalOrder(a[0], b[0], a[0]);
  }

  /** The order in which keys arrive does not change their sorted order. */
  lemma SortIgnoresOrder(a: seq<string>, b: seq<string>)
    requires multiset(a) == multiset(b)
    ensures Sort(a) == Sort(b)
  {
    SortSorts(a);
    SortSorts(b);
    SortedUnique(Sort(a), Sort(b));
  }

  /** Python's byte sort and Go's code-unit sort arrange every collection of keys identically. */
  lemma PythonSortsLikeGo(keys: seq<string>, byPython: seq<string>)
    requires SortedByBytes(byPython) && multiset(byPython) == multiset(keys)
    ensures byPython == Sort(keys)
  {
    forall i, j | 0 <= i < j < |byPython|
      ensures !Before(byPython[j], byPython[i])
    {
      ByteOrderIsUnitOrder(Encode(byPython[j]), Encode(byPython[i]));
    }
    SortSorts(keys);
    SortedUnique(byPython, Sort(keys));
  }

  /** Sorted by code units is sorted by bytes. */
  lemma SortedMeansByBytes(keys: seq<string>)
    requires Sorted(keys)
    ensures SortedByBytes(keys)
  {
    forall i, j | 0 <= i < j < |keys|
      ensures Lex(BigEndian(Encode(keys[j])), BigEndian(Encode(keys[i]))) >= 0
    {
      assert !Before(keys[j], keys[i]);
      ByteOrderIsUnitOrder(Encode(keys[j]), Encode(keys[i]));
    }
  }

  /******* TypeScript's lone-surrogate check *******/

  /** Every surrogate is part of a high-low pair. */
  predicate WellFormed(units: seq<int>) {
    if units == [] then true
    else if !IsHigh(units[0]) && !IsLow(units[0]) then WellFormed(units[1..])
    else IsHigh(units[0]) && |units| > 1 && IsLow(units[1]) && WellFormed(units[2..])
  }

  function Decode(units: seq<int>): string
    requires WellFormed(units) && IsUnits(units)
  {
    if units == [] then ""
    else if !IsHigh(units[0]) then [units[0] as char] + Decode(units[1..])
    else [(0x10000 + (units[0] - 0xD800) * 0x400 + (units[1] - 0xDC00)) as char] + Decode(units[2..])
  }

  lemma {:induction false} DecodeInverts(units: seq<int>)
    requires WellFormed(units) && IsUnits(units)
    ensures Encode(Decode(units)) == units
  {
    if units != [] {
      var s := Decode(units);
      if !IsHigh(units[0]) {
        DecodeInverts(units[1..]);
        assert s[1..] == Decode(units[1..]);
        assert units == [units[0]] + units[1..];
      } else {
        DecodeInverts(units[2..]);
        assert s[1..] == Decode(units[2..]);
        assert EncodeChar(s[0]) == units[..2];
        assert units == units[..2] + units[2..];
      }
    }
  }

  lemma {:induction false} EncodingsAreWellFormed(s: string)
    ensures WellFormed(Encode(s))
  {
    if s != "" {
      EncodingsAreWellFormed(s[1..]);
      var units := Encode(s);
      var head := EncodeChar(s[0]);
      assert units[0] == head[0] && units[|head|..] == Encode(s[1..]);
      if |head| == 2 {
        assert units[1] == head[1];
      }
    }
  }

  /** `assertUnicodeScalarString`: accepts exactly the UTF-16 encodings of scalar strings. */
  method IsUnicodeScalarString(units: seq<int>) returns (ok: bool)
    requires IsUnits(units)
    ensures ok <==> exists s: string :: Encode(s) == units
  {
    var index := 0;
    ghost var verdict := WellFormed(units);
    while index < |units|
      invariant 0 <= index <= |units|
      invariant verdict == WellFormed(units[index..])
    {
      var code := units[index];
      if code < 0xD800 || code > 0xDFFF {
        index := index + 1;
      } else if code <= 0xDBFF && index + 1 < |units| && 0xDC00 <= units[index + 1] <= 0xDFFF {
        assert units[index..][2..] == units[index + 2..];
        index := index + 2;
      } else {
        ok := false;
        forall s: string
          ensures Encode(s) != units
        {
          EncodingsAreWellFormed(s);
        }
        return;
      }
    }
    ok := true;
    DecodeInverts(units);
  }
}
