/**
 Canonical JSON (server/core/jcs.go): RFC 8785 sections 3.2.2.2 and 3.2.3 over the integer-only dialect. Strings are
 sequences of Unicode scalar values; the output is their sequence, before UTF-8.
 */
module Jcs {
  import opened Wrappers

  datatype Json<N> = Null | Bool(b: bool) | Str(s: string) | Number(n: N) | List(items: seq<Json<N>>)
                   | Object(members: map<string, Json<N>>)

  /** A parsed document, with its number tokens. */
  type Doc = Json<string>

  /** What a document means. */
  type Value = Json<int>

  const MAX_SAFE_INT := 0x1F_FFFF_FFFF_FFFF
  const INT64_MAX := 0x7FFF_FFFF_FFFF_FFFF

  // ----- the key order -----

  /** The UTF-16 code units of one scalar value. */
  function Units(c: char): (u: seq<nat>)
    ensures 1 <= |u| <= 2
  {
    var n := c as int;
    if n < 0x10000 then [n] else [0xD800 + (n - 0x10000) / 0x400, 0xDC00 + (n - 0x10000) % 0x400]
  }

  function Utf16(s: string): seq<nat>
  {
    if s == "" then [] else Units(s[0]) + Utf16(s[1..])
  }

  predicate LexLess(a: seq<nat>, b: seq<nat>)
  {
    if a == [] then b != []
    else b != [] && (a[0] < b[0] || (a[0] == b[0] && LexLess(a[1..], b[1..])))
  }

  predicate Less(a: string, b: string)
  {
    LexLess(Utf16(a), Utf16(b))
  }

  /** utf16Less: the first differing code unit decides, else the length. */
  method Utf16Less(a: string, b: string) returns (less: bool)
    ensures less == Less(a, b)
  {
    var ua, ub := Utf16(a), Utf16(b);
    var i := 0;
    while i < |ua| && i < |ub|
      invariant i <= |ua| && i <= |ub| && LexLess(ua[i..], ub[i..]) == LexLess(ua, ub)
    {
      assert ua[i..][1..] == ua[i + 1..] && ub[i..][1..] == ub[i + 1..];
      if ua[i] != ub[i] { return ua[i] < ub[i]; }
      i := i + 1;
    }
    return |ua| < |ub|;
  }

  ghost predicate Sorted(keys: seq<string>)
  {
    forall i, j :: 0 <= i < j < |keys| ==> Less(keys[i], keys[j])
  }

  /** The keys in order. */
  ghost function SortedKeys(keys: set<string>): (r: seq<string>)
    ensures Sorted(r) && (forall k :: k in r <==> k in keys) && |r| == |keys|
  {
    if keys == {} then []
    else
      LeastExists(keys);
      var k :| k in keys && forall j :: j in keys && j != k ==> Less(k, j);
      [k] + SortedKeys(keys - {k})
  }

  // ----- numbers -----

  predicate IsDigit(c: char)
  {
    '0' <= c <= '9'
  }

  predicate AllDigits(s: string)
  {
    forall i :: 0 <= i < |s| ==> IsDigit(s[i])
  }

  /** What follows an optional minus sign. */
  function Magnitude(s: string): string
  {
    if s != "" && s[0] == '-' then s[1..] else s
  }

  /** An optional minus sign, then digits without a leading zero. */
  predicate IntegerLiteral(s: string)
  {
    var digits := Magnitude(s);
    digits != "" && AllDigits(digits) && (digits[0] == '0' ==> |digits| == 1)
  }

  method IntegerToken(s: string) returns (ok: bool)
    ensures ok == IntegerLiteral(s)
  {
    if s == "" { return false; }
    var i := 0;
    if s[0] == '-' { i := i + 1; }
    if i >= |s| { return false; }
    ghost var digits, first := Magnitude(s), i;
    assert digits == s[i..];
    if s[i] == '0' { return i == |s| - 1; }
    while i < |s|
      invariant first <= i <= |s| && digits == s[first..]
      invariant forall j :: first <= j < i ==> IsDigit(s[j])
    {
      if s[i] < '0' || s[i] > '9' {
        assert !IsDigit(digits[i - first]);
        return false;
      }
      i := i + 1;
    }
    return true;
  }

  function Digit(n: nat): char
    requires n < 10
  {
    '0' + n as char
  }

  function Decimal(n: nat): (s: string)
    ensures s != "" && AllDigits(s) && (s[0] == '0' ==> n == 0 && |s| == 1)
  {
    if n < 10 then [Digit(n)] else Decimal(n / 10) + [Digit(n % 10)]
  }

  function FormatInt(n: int): string
  {
    if n < 0 then "-" + Decimal(-n) else Decimal(n)
  }

  function DigitsValue(s: string): nat
    requires AllDigits(s)
  {
    if s == "" then 0
    else
      assert IsDigit(s[|s| - 1]);
      10 * DigitsValue(s[..|s| - 1]) + (s[|s| - 1] as int - '0' as int)
  }

  function TokenValue(s: string): int
    requires IntegerLiteral(s)
  {
    var n: int := DigitsValue(Magnitude(s));
    if s[0] == '-' then -n else n
  }

  /** The value of a number token of the dialect, None outside it. */
  function ReadNumber(tok: string): Option<int>
  {
    if IntegerLiteral(tok) && -MAX_SAFE_INT <= TokenValue(tok) <= MAX_SAFE_INT then Some(TokenValue(tok)) else None
  }

  // ----- strings -----

  function Hex(n: nat): char
    requires n < 16
  {
    if n < 10 then '0' + n as char else 'a' + (n - 10) as char
  }

  function EscapeChar(c: char): string
  {
    if c == '"' then "\\\""
    else if c == '\\' then "\\\\"
    else if c == '\U{8}' then "\\b"
    else if c == '\t' then "\\t"
    else if c == '\n' then "\\n"
    else if c == '\U{C}' then "\\f"
    else if c == '\r' then "\\r"
    else if c < ' ' then "\\u00" + [Hex(c as int / 16), Hex(c as int % 16)]
    else [c]
  }

  function Escape(s: string): string
  {
    if s == "" then "" else Escape(s[..|s| - 1]) + EscapeChar(s[|s| - 1])
  }

  function Quote(s: string): string
  {
    "\"" + Escape(s) + "\""
  }

  // ----- values -----

  ghost predicate InDialect(v: Doc)
  {
    match v
    case Number(tok) => ReadNumber(tok).Some?
    case List(items) => forall i :: 0 <= i < |items| ==> InDialect(v.items[i])
    case Object(members) => forall k :: k in members ==> InDialect(v.members[k])
    case _ => true
  }

  /** What v means; numbers outside the dialect, which are never printed, count as zero. */
  ghost function Meaning(v: Doc): Value
  {
    match v
    case Null => Null
    case Bool(b) => Bool(b)
    case Str(s) => Str(s)
    case Number(tok) => Number(if ReadNumber(tok).Some? then ReadNumber(tok).value else 0)
    case List(items) => List(seq(|items|, i requires 0 <= i < |items| => Meaning(v.items[i])))
    case Object(members) => Object(map k | k in members :: Meaning(v.members[k]))
  }

  /** The canonical text of a value. */
  ghost function Print(v: Value): string
    decreases v, 1, 0
  {
    match v
    case Null => "null"
    case Bool(b) => if b then "true" else "false"
    case Str(s) => Quote(s)
    case Number(n) => FormatInt(n)
    case List(items) => "[" + Items(v, |items|) + "]"
    case Object(members) => "{" + Members(v, SortedKeys(members.Keys), |members|) + "}"
  }

  /** The first n items with their commas. */
  ghost function Items(v: Value, n: nat): string
    requires v.List? && n <= |v.items|
    decreases v, 0, n
  {
    if n == 0 then "" else Items(v, n - 1) + (if n > 1 then "," else "") + Print(v.items[n - 1])
  }

  /** The first n members in the order of keys. */
  ghost function Members(v: Value, keys: seq<string>, n: nat): string
    requires v.Object? && (forall k :: k in keys <==> k in v.members) && n <= |keys|
    decreases v, 0, n
  {
    if n == 0 then ""
    else
      assert keys[n - 1] in keys;
      Members(v, keys, n - 1) + (if n > 1 then "," else "") + Quote(keys[n - 1]) + ":" + Print(v.members[keys[n - 1]])
  }

  // ----- the order is total -----

  lemma {:induction false} LexIrreflexive(a: seq<nat>)
    ensures !LexLess(a, a)
  {
    if a != [] { LexIrreflexive(a[1..]); }
  }

  lemma {:induction false} LexTransitive(a: seq<nat>, b: seq<nat>, c: seq<nat>)
    requires LexLess(a, b) && LexLess(b, c)
    ensures LexLess(a, c)
  {
    if a != [] && a[0] == b[0] == c[0] { LexTransitive(a[1..], b[1..], c[1..]); }
  }

  lemma {:induction false} LexTotal(a: seq<nat>, b: seq<nat>)
    ensures a == b || LexLess(a, b) || LexLess(b, a)
  {
    if a != [] && b != [] && a[0] == b[0] {
      LexTotal(a[1..], b[1..]);
      assert a == [a[0]] + a[1..] && b == [b[0]] + b[1..];
    }
  }

  /** A string can be read back from its code units: surrogates are not scalar values. */
  lemma {:induction false} Utf16Injective(a: string, b: string)
    requires Utf16(a) == Utf16(b)
    ensures a == b
  {
    if a != "" && b != "" {
      var ua, ub := Utf16(a), Utf16(b);
      assert ua[0] == Units(a[0])[0] && ub[0] == Units(b[0])[0];
      FirstUnit(a[0]);
      FirstUnit(b[0]);
      if |Units(a[0])| == 2 { assert ua[1] == Units(a[0])[1] && ub[1] == Units(b[0])[1]; }
      assert a[0] == b[0];
      assert ua[|Units(a[0])|..] == Utf16(a[1..]) && ub[|Units(b[0])|..] == Utf16(b[1..]);
      Utf16Injective(a[1..], b[1..]);
      assert a == [a[0]] + a[1..] && b == [b[0]] + b[1..];
    }
  }

  lemma FirstUnit(c: char)
    ensures |Units(c)| == 2 <==> 0xD800 <= Units(c)[0] < 0xE000
  {
  }

  /** utf16Less is a strict total order on Unicode scalar strings. */
  lemma LessIsStrictTotalOrder(a: string, b: string, c: string)
    ensures !Less(a, a)
    ensures Less(a, b) && Less(b, c) ==> Less(a, c)
    ensures a == b || Less(a, b) || Less(b, a)
  {
    hide Utf16, LexLess;
    LexIrreflexive(Utf16(a));
    if Less(a, b) && Less(b, c) { LexTransitive(Utf16(a), Utf16(b), Utf16(c)); }
    LexTotal(Utf16(a), Utf16(b));
    if Utf16(a) == Utf16(b) { Utf16Injective(a, b); }
  }

  lemma {:induction false} LeastExists(keys: set<string>)
    requires keys != {}
    ensures exists k :: k in keys && forall j :: j in keys && j != k ==> Less(k, j)
    decreases |keys|
  {
    hide Less;
    var x :| x in keys;
    var rest := keys - {x};
    if rest == {} {
      assert keys == {x} + rest;
      assert forall j :: j in keys ==> j == x;
      assert x in keys && forall j :: j in keys && j != x ==> Less(x, j);
    } else {
      LeastExists(rest);
      var m :| m in rest && forall j :: j in rest && j != m ==> Less(m, j);
      LessIsStrictTotalOrder(x, m, m);
      if Less(x, m) {
        forall j | j in keys && j != x ensures Less(x, j)
        {
          LessIsStrictTotalOrder(x, m, j);
        }
      } else {
        assert forall j :: j in keys && j != m ==> Less(m, j);
      }
    }
  }

  // ----- sorting the keys -----

  /** Strictly sorted sequences with the same elements are the same. */
  lemma {:induction false} SortedIsUnique(a: seq<string>, b: seq<string>)
    requires Sorted(a) && Sorted(b) && |a| == |b| && forall k :: k in a <==> k in b
    ensures a == b
  {
    hide Less;
    if a != [] {
      assert a[0] in b;
      assert b[0] in a;
      var i :| 0 <= i < |b| && b[i] == a[0];
      var j :| 0 <= j < |a| && a[j] == b[0];
      LessIsStrictTotalOrder(a[0], b[0], a[0]);
      assert a[0] == b[0];
      forall k ensures k in a[1..] <==> k in b[1..]
      {
        InTail(a, k);
        InTail(b, k);
      }
      SortedIsUnique(a[1..], b[1..]);
      assert a == [a[0]] + a[1..] && b == [b[0]] + b[1..];
    }
  }

  lemma InTail(a: seq<string>, k: string)
    requires Sorted(a) && a != []
    ensures k in a[1..] <==> k in a && k != a[0]
  {
    hide Less;
    LessIsStrictTotalOrder(a[0], a[0], a[0]);
    assert a == [a[0]] + a[1..];
    if k in a[1..] {
      var i :| 0 <= i < |a[1..]| && a[1..][i] == k;
      assert Less(a[0], a[i + 1]);
    }
  }

  /** Where a new key goes. */
  function Insert(keys: seq<string>, k: string): seq<string>
  {
    if keys == [] || Less(k, keys[0]) then [k] + keys else [keys[0]] + Insert(keys[1..], k)
  }

  lemma {:induction false} InsertSorts(keys: seq<string>, k: string)
    requires Sorted(keys) && k !in keys
    ensures |Insert(keys, k)| == |keys| + 1 && Sorted(Insert(keys, k))
            && forall x :: x in Insert(keys, k) <==> x in keys || x == k
  {
    hide Less;
    if keys != [] {
      assert keys == [keys[0]] + keys[1..];
      LessIsStrictTotalOrder(k, keys[0], k);
      if Less(k, keys[0]) {
        forall i | 0 <= i < |keys| ensures Less(k, keys[i]) { LessIsStrictTotalOrder(k, keys[0], keys[i]); }
      } else {
        InsertSorts(keys[1..], k);
        var rest := Insert(keys[1..], k);
        forall i | 0 <= i < |rest| ensures Less(keys[0], rest[i]) { assert rest[i] in rest; }
      }
    }
  }

  /** sort.Slice over keys collected in whatever order the map yields them. */
  method SortKeys(keys: set<string>) returns (r: seq<string>)
    ensures r == SortedKeys(keys)
  {
    hide Less, Insert, SortedKeys;
    r := [];
    var left := keys;
    while left != {}
      invariant left <= keys && Sorted(r) && |r| + |left| == |keys| && forall k :: k in r <==> k in keys && k !in left
    {
      var k :| k in left;
      left := left - {k};
      InsertSorts(r, k);
      r := Insert(r, k);
    }
    SortedIsUnique(r, SortedKeys(keys));
  }

  // ----- one level of a value -----

  lemma MeaningOfList(v: Doc)
    requires v.List?
    ensures Meaning(v).List? && |Meaning(v).items| == |v.items|
    ensures forall i :: 0 <= i < |v.items| ==> Meaning(v).items[i] == Meaning(v.items[i])
  {
  }

  lemma MeaningOfObject(v: Doc)
    requires v.Object?
    ensures Meaning(v).Object? && Meaning(v).members.Keys == v.members.Keys
    ensures forall k :: k in v.members ==> Meaning(v).members[k] == Meaning(v.members[k])
  {
  }

  lemma PrintList(v: Value)
    requires v.List?
    ensures Print(v) == "[" + Items(v, |v.items|) + "]" && Items(v, 0) == ""
  {
  }

  lemma ItemsNext(v: Value, i: nat)
    requires v.List? && i < |v.items|
    ensures Items(v, i + 1) == Items(v, i) + (if i > 0 then "," else "") + Print(v.items[i])
  {
    hide Print;
  }

  lemma PrintObject(v: Value)
    requires v.Object?
    ensures var keys := SortedKeys(v.members.Keys);
            |keys| == |v.members| && Print(v) == "{" + Members(v, keys, |keys|) + "}" && Members(v, keys, 0) == ""
  {
    hide SortedKeys;
  }

  lemma MembersNext(v: Value, keys: seq<string>, i: nat)
    requires v.Object? && (forall k :: k in keys <==> k in v.members) && i < |keys|
    ensures keys[i] in v.members
    ensures Members(v, keys, i + 1)
            == Members(v, keys, i) + (if i > 0 then "," else "") + Quote(keys[i]) + ":" + Print(v.members[keys[i]])
  {
    hide Print, Quote;
    assert keys[i] in keys;
  }

  // ----- the writer -----

  class Builder {
    var text: string

    constructor ()
      ensures text == ""
    {
      text := "";
    }

    method WriteString(s: string)
      modifies this
      ensures text == old(text) + s
    {
      text := text + s;
    }

    method WriteEscaped(c: char)
      modifies this
      ensures text == old(text) + EscapeChar(c)
    {
      match c {
        case '"' => WriteString("\\\"");
        case '\\' => WriteString("\\\\");
        case '\U{8}' => WriteString("\\b");
        case '\t' => WriteString("\\t");
        case '\n' => WriteString("\\n");
        case '\U{C}' => WriteString("\\f");
        case '\r' => WriteString("\\r");
        case r =>
          if r < ' ' { WriteString("\\u00" + [Hex(r as int / 16), Hex(r as int % 16)]); } else { WriteString([r]); }
      }
    }

    method WriteJcsString(s: string)
      modifies this
      ensures text == old(text) + Quote(s)
    {
      hide EscapeChar;
      WriteString("\"");
      for i := 0 to |s|
        invariant text == old(text) + "\"" + Escape(s[..i])
      {
        assert s[..i + 1][..i] == s[..i];
        WriteEscaped(s[i]);
      }
      assert s[..|s|] == s;
      WriteString("\"");
    }

    method WriteJcsNumber(tok: string) returns (ok: bool)
      modifies this
      ensures ok <==> ReadNumber(tok).Some?
      ensures ok ==> text == old(text) + FormatInt(ReadNumber(tok).value)
    {
      var literal := IntegerToken(tok);
      if !literal { return false; }
      var n := TokenValue(tok);
      if n < -INT64_MAX - 1 || n > INT64_MAX { return false; }
      if n > MAX_SAFE_INT || n < -MAX_SAFE_INT { return false; }
      if n == 0 {
        WriteString("0");
        return true;
      }
      WriteString(FormatInt(n));
      return true;
    }

    method WriteCanonical(v: Doc) returns (ok: bool)
      modifies this
      ensures ok <==> InDialect(v)
      ensures ok ==> text == old(text) + Print(Meaning(v))
      decreases v, 1, 0
    {
      match v {
        case Null => WriteString("null"); return true;
        case Bool(b) => WriteString(if b then "true" else "false"); return true;
        case Str(s) => WriteJcsString(s); return true;
        case Number(tok) => ok := WriteJcsNumber(tok);
        case List(_) => ok := WriteItems(v);
        case Object(_) => ok := WriteMembers(v);
      }
    }

    method WriteItems(v: Doc) returns (ok: bool)
      requires v.List?
      modifies this
      ensures ok <==> InDialect(v)
      ensures ok ==> text == old(text) + Print(Meaning(v))
      decreases v, 0, 1
    {
      hide Print, Items, Meaning;
      MeaningOfList(v);
      PrintList(Meaning(v));
      WriteString("[");
      for i := 0 to |v.items|
        invariant text == old(text) + "[" + Items(Meaning(v), i)
        invariant forall j :: 0 <= j < i ==> InDialect(v.items[j])
      {
        ItemsNext(Meaning(v), i);
        if i > 0 { WriteString(","); }
        ok := WriteCanonical(v.items[i]);
        if !ok { return false; }
      }
      WriteString("]");
      return true;
    }

    method WriteMembers(v: Doc) returns (ok: bool)
      requires v.Object?
      modifies this
      ensures ok <==> InDialect(v)
      ensures ok ==> text == old(text) + Print(Meaning(v))
      decreases v, 0, 1
    {
      hide Print, Members, Meaning, Quote, SortedKeys, Sorted;
      var keys := SortKeys(v.members.Keys);
      MeaningOfObject(v);
      PrintObject(Meaning(v));
      assert forall k :: k in keys <==> k in Meaning(v).members;
      WriteString("{");
      for i := 0 to |keys|
        invariant text == old(text) + "{" + Members(Meaning(v), keys, i)
        invariant forall j :: 0 <= j < i ==> keys[j] in v.members && InDialect(v.members[keys[j]])
      {
        MembersNext(Meaning(v), keys, i);
        ok := WriteMember(v, keys[i], i > 0);
        if !ok { return false; }
      }
      WriteString("}");
      assert forall k :: k in v.members ==> k in keys;
      return true;
    }

    method WriteMember(v: Doc, key: string, comma: bool) returns (ok: bool)
      requires v.Object? && key in v.members
      modifies this
      ensures ok <==> InDialect(v.members[key])
      ensures ok ==>
                text == old(text) + (if comma then "," else "") + Quote(key) + ":" + Print(Meaning(v.members[key]))
      decreases v, 0, 0
    {
      if comma { WriteString(","); }
      WriteJcsString(key);
      WriteString(":");
      ok := WriteCanonical(v.members[key]);
    }
  }
}
