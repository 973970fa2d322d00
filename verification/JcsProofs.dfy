/**
 What canonical text determines: a reader of JSON without insignificant whitespace, and the signing inputs built on it
 (server/core/jcs.go:67-208, server/core/sign.go:26-78).
 */
module JcsProofs {
  import opened Jcs
  import opened Wrappers

  // ----- a reader -----

  function UnHex(c: char): Option<nat>
  {
    if '0' <= c <= '9' then Some(c as nat - '0' as nat)
    else if 'a' <= c <= 'f' then Some(c as nat - 'a' as nat + 10)
    else None
  }

  /** The character after a backslash, and how much of the input it takes. */
  function ReadEscape(s: string): Option<(char, nat)>
  {
    if s == "" then None
    else match s[0]
      case '"' => Some(('"', 1))
      case '\\' => Some(('\\', 1))
      case 'b' => Some(('\U{8}', 1))
      case 't' => Some(('\t', 1))
      case 'n' => Some(('\n', 1))
      case 'f' => Some(('\U{C}', 1))
      case 'r' => Some(('\r', 1))
      case 'u' =>
        if |s| < 5 || s[1] != '0' || s[2] != '0' || UnHex(s[3]).None? || UnHex(s[4]).None? then None
        else Some(((16 * UnHex(s[3]).value + UnHex(s[4]).value) as char, 5))
      case _ => None
  }

  /** A string after its opening quote, and what follows its closing one. */
  function ReadString(s: string): (r: Option<(string, string)>)
    ensures r.Some? ==> |r.value.1| < |s|
  {
    if s == "" then None
    else if s[0] == '"' then Some(("", s[1..]))
    else if s[0] == '\\' then
      match ReadEscape(s[1..])
      case None => None
      case Some((c, n)) =>
        if n > |s[1..]| then None
        else
          match ReadString(s[1..][n..])
          case None => None
          case Some((t, rest)) => Some(([c] + t, rest))
    else if s[0] < ' ' then None
    else
      match ReadString(s[1..])
      case None => None
      case Some((t, rest)) => Some(([s[0]] + t, rest))
  }

  /** The leading characters a number token may consist of. */
  function NumberPrefix(s: string): (n: nat)
    ensures n <= |s|
  {
    if s == "" || !(IsDigit(s[0]) || s[0] == '-') then 0 else 1 + NumberPrefix(s[1..])
  }

  predicate StartsWith(s: string, word: string)
  {
    word <= s
  }

  ghost function ReadValue(s: string): (r: Option<(Value, string)>)
    ensures r.Some? ==> |r.value.1| < |s|
    decreases |s|, 1
  {
    if s == "" then None
    else match s[0]
      case 'n' => if StartsWith(s, "null") then Some((Null, s[4..])) else None
      case 't' => if StartsWith(s, "true") then Some((Bool(true), s[4..])) else None
      case 'f' => if StartsWith(s, "false") then Some((Bool(false), s[5..])) else None
      case '"' =>
        (match ReadString(s[1..])
         case None => None
         case Some((t, rest)) => Some((Str(t), rest)))
      case '[' =>
        if |s| > 1 && s[1] == ']' then Some((List([]), s[2..]))
        else
          (match ReadItems(s[1..])
           case None => None
           case Some((items, rest)) => Some((List(items), rest)))
      case '{' =>
        if |s| > 1 && s[1] == '}' then Some((Object(map[]), s[2..]))
        else
          (match ReadMembers(s[1..])
           case None => None
           case Some((members, rest)) => Some((Object(members), rest)))
      case _ =>
        var n := NumberPrefix(s);
        if n == 0 || ReadNumber(s[..n]).None? then None else Some((Number(ReadNumber(s[..n]).value), s[n..]))
  }

  /** Items up to the closing bracket. */
  ghost function ReadItems(s: string): (r: Option<(seq<Value>, string)>)
    ensures r.Some? ==> |r.value.1| < |s|
    decreases |s|, 2
  {
    match ReadValue(s)
    case None => None
    case Some((v, rest)) =>
      if StartsWith(rest, "]") then Some(([v], rest[1..]))
      else if StartsWith(rest, ",") then
        match ReadItems(rest[1..])
        case None => None
        case Some((items, end)) => Some(([v] + items, end))
      else None
  }

  /** Members up to the closing brace; a repeated key takes its last value. */
  ghost function ReadMembers(s: string): (r: Option<(map<string, Value>, string)>)
    ensures r.Some? ==> |r.value.1| < |s|
    decreases |s|, 2
  {
    if !StartsWith(s, "\"") then None
    else
      match ReadString(s[1..])
      case None => None
      case Some((key, colon)) =>
        if !StartsWith(colon, ":") then None
        else
          match ReadValue(colon[1..])
          case None => None
          case Some((v, rest)) =>
            if StartsWith(rest, "}") then Some((map[key := v], rest[1..]))
            else if StartsWith(rest, ",") then
              match ReadMembers(rest[1..])
              case None => None
              case Some((members, end)) => Some((map[key := v] + members, end))
            else None
  }

  // ----- strings are read back -----

  /** The text of s from its i-th character on. */
  lemma {:induction false} EscapeConcat(a: string, b: string)
    ensures Escape(a + b) == Escape(a) + Escape(b)
  {
    hide EscapeChar;
    if b == "" {
      assert a + b == a;
    } else {
      var front, last := b[..|b| - 1], b[|b| - 1];
      assert (a + b)[..|a + b| - 1] == a + front;
      EscapeConcat(a, front);
      assert Escape(a + b) == Escape(a) + Escape(front) + EscapeChar(last);
    }
  }

  lemma HexRoundTrip(n: nat)
    requires n < 16
    ensures UnHex(Hex(n)) == Some(n)
  {
  }

  /** One escaped character is read back. */
  lemma ReadEscaped(c: char, rest: string)
    ensures ReadString(EscapeChar(c) + rest)
            == match ReadString(rest) case None => None case Some((t, end)) => Some(([c] + t, end))
  {
    var s := EscapeChar(c) + rest;
    if s[0] == '\\' {
      assert c == '"' || c == '\\' || c < ' ';
      var n := |EscapeChar(c)| - 1;
      assert s[1..][n..] == rest;
      if n == 5 {
        HexRoundTrip(c as int / 16);
        HexRoundTrip(c as int % 16);
        assert s[4] == Hex(c as int / 16) && s[5] == Hex(c as int % 16);
      }
      assert ReadEscape(s[1..]) == Some((c, n));
    } else {
      assert EscapeChar(c) == [c] && s[0] == c && s[1..] == rest;
    }
  }

  lemma {:induction false} ReadQuoted(s: string, rest: string)
    ensures ReadString(Escape(s) + "\"" + rest) == Some((s, rest))
  {
    hide EscapeChar;
    if s == "" {
      assert (Escape(s) + "\"" + rest)[1..] == rest;
    } else {
      EscapeConcat([s[0]], s[1..]);
      assert s == [s[0]] + s[1..];
      assert Escape([s[0]]) == EscapeChar(s[0]) by { assert [s[0]][..0] == ""; }
      var tail := Escape(s[1..]) + "\"" + rest;
      assert Escape(s) + "\"" + rest == EscapeChar(s[0]) + tail;
      ReadEscaped(s[0], tail);
      ReadQuoted(s[1..], rest);
    }
  }

  // ----- numbers are read back -----

  lemma {:induction false} DecimalValue(n: nat)
    ensures DigitsValue(Decimal(n)) == n
  {
    if n >= 10 {
      DecimalValue(n / 10);
      assert Decimal(n)[..|Decimal(n)| - 1] == Decimal(n / 10);
    }
  }

  lemma FormatReads(n: int)
    requires -MAX_SAFE_INT <= n <= MAX_SAFE_INT
    ensures ReadNumber(FormatInt(n)) == Some(n)
  {
    hide Decimal, DigitsValue;
    if n < 0 {
      DecimalValue(-n);
      assert Magnitude(FormatInt(n)) == Decimal(-n);
      MinusIsNoDigit(-n);
    } else {
      DecimalValue(n);
      assert IsDigit(Decimal(n)[0]);
    }
  }

  lemma MinusIsNoDigit(n: nat)
    requires n > 0
    ensures Decimal(n)[0] != '0'
  {
  }

  predicate EndsNumber(rest: string)
  {
    rest == "" || !(IsDigit(rest[0]) || rest[0] == '-')
  }

  lemma {:induction false} PrefixOfDigits(digits: string, rest: string)
    requires AllDigits(digits) && EndsNumber(rest)
    ensures NumberPrefix(digits + rest) == |digits|
  {
    if digits == "" {
      assert digits + rest == rest;
    } else {
      assert (digits + rest)[1..] == digits[1..] + rest;
      assert IsDigit(digits[0]);
      PrefixOfDigits(digits[1..], rest);
    }
  }

  lemma ReadDigits(s: string, tok: string, rest: string)
    requires s == tok + rest && tok != "" && (IsDigit(tok[0]) || tok[0] == '-')
    requires NumberPrefix(s) == |tok| && ReadNumber(tok).Some?
    ensures ReadValue(s) == Some((Number(ReadNumber(tok).value), rest))
  {
    hide NumberPrefix, ReadNumber, ReadItems, ReadMembers, ReadString;
    assert s[..|tok|] == tok && s[|tok|..] == rest && s[0] == tok[0];
  }

  lemma ReadFormatted(n: int, rest: string)
    requires -MAX_SAFE_INT <= n <= MAX_SAFE_INT && EndsNumber(rest)
    ensures ReadValue(FormatInt(n) + rest) == Some((Number(n), rest))
  {
    hide Decimal, ReadNumber, ReadValue, EndsNumber, AllDigits;
    var digits := Decimal(if n < 0 then -n else n);
    FirstDigit(digits);
    PrefixOfDigits(digits, rest);
    FormatReads(n);
    if n < 0 {
      Peel("-", digits, rest);
      assert NumberPrefix("-" + digits + rest) == 1 + |digits|;
    }
    ReadDigits(FormatInt(n) + rest, FormatInt(n), rest);
  }

  lemma FirstDigit(digits: string)
    requires AllDigits(digits) && digits != ""
    ensures IsDigit(digits[0])
  {
  }

  /** Taking off the first character. */
  lemma Peel(h: string, body: string, rest: string)
    requires |h| == 1
    ensures (h + body + rest)[0] == h[0] && (h + body + rest)[1..] == body + rest
  {
  }

  lemma Regroup(a: string, b: string, c: string)
    ensures a + b + c == a + (b + c)
  {
  }

  // ----- values are read back -----

  /** Every number is in the dialect's range. */
  ghost predicate InRange(v: Value)
  {
    match v
    case Number(n) => -MAX_SAFE_INT <= n <= MAX_SAFE_INT
    case List(items) => forall i :: 0 <= i < |items| ==> InRange(v.items[i])
    case Object(members) => forall k :: k in members ==> InRange(v.members[k])
    case _ => true
  }

  lemma {:induction false} DialectIsInRange(v: Doc)
    requires InDialect(v)
    ensures InRange(Meaning(v))
  {
    match v
    case List(items) =>
      forall i | 0 <= i < |items| ensures InRange(Meaning(v).items[i]) { DialectIsInRange(v.items[i]); }
    case Object(members) =>
      forall k | k in members ensures InRange(Meaning(v).members[k]) { DialectIsInRange(v.members[k]); }
    case _ =>
  }

  lemma PrintStarts(v: Value)
    ensures Print(v) != "" && Print(v)[0] != ']'
  {
    hide Items, Members, SortedKeys;
  }

  /** The items from the i-th on. */
  ghost function ItemsFrom(v: Value, i: nat): string
    requires v.List? && i < |v.items|
    decreases |v.items| - i
  {
    Print(v.items[i]) + if i + 1 < |v.items| then "," + ItemsFrom(v, i + 1) else ""
  }

  lemma {:induction false} ItemsSplit(v: Value, i: nat)
    requires v.List? && i < |v.items|
    ensures Items(v, |v.items|) == Items(v, i) + (if i > 0 then "," else "") + ItemsFrom(v, i)
    decreases |v.items| - i
  {
    hide Print, Items;
    ItemsNext(v, i);
    if i + 1 < |v.items| { ItemsSplit(v, i + 1); }
  }

  ghost function MembersFrom(v: Value, keys: seq<string>, i: nat): string
    requires v.Object? && (forall k :: k in keys <==> k in v.members) && i < |keys|
    decreases |keys| - i
  {
    assert keys[i] in keys;
    Quote(keys[i]) + ":" + Print(v.members[keys[i]]) + if i + 1 < |keys| then "," + MembersFrom(v, keys, i + 1) else ""
  }

  lemma {:induction false} MembersSplit(v: Value, keys: seq<string>, i: nat)
    requires v.Object? && (forall k :: k in keys <==> k in v.members) && i < |keys|
    ensures Members(v, keys, |keys|) == Members(v, keys, i) + (if i > 0 then "," else "") + MembersFrom(v, keys, i)
    decreases |keys| - i
  {
    hide Print, Members, Quote;
    MembersNext(v, keys, i);
    if i + 1 < |keys| { MembersSplit(v, keys, i + 1); }
  }

  /** The members whose keys come from the i-th on. */
  ghost function Submap(v: Value, keys: seq<string>, i: nat): map<string, Value>
    requires v.Object? && (forall k :: k in keys <==> k in v.members) && i <= |keys|
  {
    map k | k in keys[i..] :: v.members[k]
  }

  lemma SubmapNext(v: Value, keys: seq<string>, i: nat)
    requires v.Object? && (forall k :: k in keys <==> k in v.members) && i < |keys| && Sorted(keys)
    ensures Submap(v, keys, i) == map[keys[i] := v.members[keys[i]]] + Submap(v, keys, i + 1)
  {
    hide Less;
    assert keys[i..] == [keys[i]] + keys[i + 1..];
    InTail(keys[i..], keys[i]);
    assert keys[i..][1..] == keys[i + 1..];
  }

  lemma ReadWord(v: Value, rest: string)
    requires v.Null? || v.Bool?
    ensures ReadValue(Print(v) + rest) == Some((v, rest))
  {
    hide ReadItems, ReadMembers, ReadString, NumberPrefix, ReadNumber;
    var s := Print(v) + rest;
    var n := |Print(v)|;
    assert s[..n] == Print(v) && s[n..] == rest;
    assert s[0] == Print(v)[0];
  }

  lemma ReadList(s: string)
    requires |s| > 1 && s[0] == '['
    ensures ReadValue(s)
            == if s[1] == ']' then Some((List([]), s[2..]))
               else match ReadItems(s[1..]) case None => None case Some((items, rest)) => Some((List(items), rest))
  {
    hide ReadItems, ReadMembers, ReadString, NumberPrefix, ReadNumber;
  }

  lemma ReadObject(s: string)
    requires |s| > 1 && s[0] == '{'
    ensures ReadValue(s)
            == if s[1] == '}' then Some((Object(map[]), s[2..]))
               else match ReadMembers(s[1..]) case None => None
                 case Some((members, rest)) => Some((Object(members), rest))
  {
    hide ReadItems, ReadMembers, ReadString, NumberPrefix, ReadNumber;
  }

  lemma ReadQuotedValue(t: string, rest: string)
    ensures ReadValue(Print(Str(t)) + rest) == Some((Str(t), rest))
  {
    hide ReadItems, ReadMembers, ReadString, NumberPrefix, ReadNumber, Escape;
    var s := Print(Str(t)) + rest;
    ReadQuoted(t, rest);
    assert s[0] == '"' && s[1..] == Escape(t) + "\"" + rest;
  }

  /** Reading undoes printing, whatever follows that could not continue a number. */
  lemma {:induction false} ReadPrinted(v: Value, rest: string)
    requires InRange(v) && EndsNumber(rest)
    ensures ReadValue(Print(v) + rest) == Some((v, rest))
    decreases v, 2, 0
  {
    hide Print, ReadValue, EndsNumber, InRange;
    match v
    case Null => ReadWord(v, rest);
    case Bool(_) => ReadWord(v, rest);
    case Str(t) => ReadQuotedValue(t, rest);
    case Number(n) => ReadPrintedNumber(n, rest);
    case List(_) => ReadPrintedList(v, rest);
    case Object(_) => ReadPrintedObject(v, rest);
  }

  lemma ReadPrintedNumber(n: int, rest: string)
    requires InRange(Number(n)) && EndsNumber(rest)
    ensures ReadValue(Print(Number(n)) + rest) == Some((Number(n), rest))
  {
    hide ReadValue, EndsNumber;
    ReadFormatted(n, rest);
  }

  lemma {:induction false} ReadPrintedList(v: Value, rest: string)
    requires v.List? && InRange(v)
    ensures ReadValue(Print(v) + rest) == Some((v, rest))
    decreases v, 1, 0
  {
    hide Print, ReadValue, ReadItems, InRange, Items, ItemsFrom;
    PrintList(v);
    var body := Items(v, |v.items|);
    Peel("[", body, "]");
    Regroup("[" + body, "]", rest);
    Peel("[", body, "]" + rest);
    ReadList(Print(v) + rest);
    if v.items == [] {
      assert (Print(v) + rest)[2..] == rest;
    } else {
      ItemsSplit(v, 0);
      ReadItemsFrom(v, 0, rest);
      assert body == ItemsFrom(v, 0);
      Regroup(body, "]", rest);
      FirstOfItems(v);
      assert (Print(v) + rest)[1] == (Print(v) + rest)[1..][0] == body[0];
      assert v.items[0..] == v.items;
    }
  }

  lemma FirstOfItems(v: Value)
    requires v.List? && v.items != []
    ensures ItemsFrom(v, 0) != "" && ItemsFrom(v, 0)[0] != ']'
  {
    hide Print;
    PrintStarts(v.items[0]);
  }

  lemma {:induction false} ReadPrintedObject(v: Value, rest: string)
    requires v.Object? && InRange(v)
    ensures ReadValue(Print(v) + rest) == Some((v, rest))
    decreases v, 1, 0
  {
    hide Print, ReadValue, ReadMembers, InRange, Members, MembersFrom, SortedKeys, Sorted;
    PrintObject(v);
    var keys := SortedKeys(v.members.Keys);
    var body := Members(v, keys, |keys|);
    Peel("{", body, "}");
    Regroup("{" + body, "}", rest);
    Peel("{", body, "}" + rest);
    ReadObject(Print(v) + rest);
    if keys == [] {
      assert v.members == map[];
      assert (Print(v) + rest)[2..] == rest;
    } else {
      MembersSplit(v, keys, 0);
      ReadMembersFrom(v, keys, 0, rest);
      assert body == MembersFrom(v, keys, 0);
      Regroup(body, "}", rest);
      FirstOfMembers(v, keys);
      assert (Print(v) + rest)[1] == (Print(v) + rest)[1..][0] == body[0];
      assert keys[0..] == keys && Submap(v, keys, 0) == v.members;
    }
  }

  lemma FirstOfMembers(v: Value, keys: seq<string>)
    requires v.Object? && (forall k :: k in keys <==> k in v.members) && keys != []
    ensures MembersFrom(v, keys, 0) != "" && MembersFrom(v, keys, 0)[0] == '"'
  {
    hide Print;
  }

  /** One item is read, and then what its tail asks for. */
  lemma ReadOneItem(v: Value, tail: string)
    requires ReadValue(Print(v) + tail) == Some((v, tail))
    ensures ReadItems(Print(v) + tail)
            == if StartsWith(tail, "]") then Some(([v], tail[1..]))
               else if StartsWith(tail, ",") then
                 match ReadItems(tail[1..]) case None => None case Some((items, end)) => Some(([v] + items, end))
               else None
  {
    hide Print, ReadValue;
  }

  lemma ItemInRange(v: Value, i: nat)
    requires v.List? && InRange(v) && i < |v.items|
    ensures InRange(v.items[i])
  {
  }

  lemma {:induction false} ReadItemsFrom(v: Value, i: nat, rest: string)
    requires v.List? && InRange(v) && i < |v.items|
    ensures ReadItems(ItemsFrom(v, i) + "]" + rest) == Some((v.items[i..], rest))
    decreases v, 0, |v.items| - i
  {
    hide Print, ReadValue, ReadItems, InRange;
    ItemInRange(v, i);
    var item := Print(v.items[i]);
    if i + 1 < |v.items| {
      var tail := "," + ItemsFrom(v, i + 1) + ("]" + rest);
      Peel(",", ItemsFrom(v, i + 1), "]" + rest);
      ReadPrinted(v.items[i], tail);
      ReadOneItem(v.items[i], tail);
      ReadItemsFrom(v, i + 1, rest);
      Regroup(ItemsFrom(v, i + 1), "]", rest);
      Regroup(ItemsFrom(v, i), "]", rest);
      Regroup(item, "," + ItemsFrom(v, i + 1), "]" + rest);
      assert v.items[i..] == [v.items[i]] + v.items[i + 1..];
    } else {
      Peel("]", "", rest);
      ReadPrinted(v.items[i], "]" + rest);
      ReadOneItem(v.items[i], "]" + rest);
      Regroup(item, "]", rest);
      assert ItemsFrom(v, i) == item;
      assert ("]" + rest)[1..] == rest && v.items[i..] == [v.items[i]];
    }
  }

  /** One member is read, and then what its tail asks for. */
  lemma ReadOneMember(key: string, v: Value, tail: string)
    requires ReadValue(Print(v) + tail) == Some((v, tail))
    ensures ReadMembers(Quote(key) + ":" + Print(v) + tail)
            == if StartsWith(tail, "}") then Some((map[key := v], tail[1..]))
               else if StartsWith(tail, ",") then
                 match ReadMembers(tail[1..]) case None => None
                   case Some((members, end)) => Some((map[key := v] + members, end))
               else None
  {
    hide Print, ReadValue, ReadString, Escape;
    var colon := ":" + Print(v) + tail;
    var s := Quote(key) + ":" + Print(v) + tail;
    assert s == Quote(key) + colon;
    assert s[0] == '"' && s[1..] == Escape(key) + "\"" + colon;
    ReadQuoted(key, colon);
    assert colon[0] == ':' && colon[1..] == Print(v) + tail;
  }

  lemma MemberInRange(v: Value, k: string)
    requires v.Object? && InRange(v) && k in v.members
    ensures InRange(v.members[k])
  {
  }

  lemma {:induction false} ReadMembersFrom(v: Value, keys: seq<string>, i: nat, rest: string)
    requires v.Object? && InRange(v) && (forall k :: k in keys <==> k in v.members) && i < |keys| && Sorted(keys)
    ensures ReadMembers(MembersFrom(v, keys, i) + "}" + rest) == Some((Submap(v, keys, i), rest))
    decreases v, 0, |keys| - i
  {
    hide Print, ReadValue, ReadMembers, Quote, Submap, Sorted, InRange;
    assert keys[i] in keys;
    MemberInRange(v, keys[i]);
    var value := v.members[keys[i]];
    var member := Quote(keys[i]) + ":" + Print(value);
    SubmapNext(v, keys, i);
    if i + 1 < |keys| {
      var tail := "," + MembersFrom(v, keys, i + 1) + ("}" + rest);
      Peel(",", MembersFrom(v, keys, i + 1), "}" + rest);
      ReadPrinted(value, tail);
      ReadOneMember(keys[i], value, tail);
      ReadMembersFrom(v, keys, i + 1, rest);
      Regroup(MembersFrom(v, keys, i + 1), "}", rest);
      Regroup(MembersFrom(v, keys, i), "}", rest);
      Regroup(member, "," + MembersFrom(v, keys, i + 1), "}" + rest);
    } else {
      ReadPrinted(value, "}" + rest);
      ReadOneMember(keys[i], value, "}" + rest);
      Regroup(member, "}", rest);
      assert MembersFrom(v, keys, i) == member;
      assert ("}" + rest)[1..] == rest;
      LastSubmap(v, keys);
      assert map[keys[i] := value] + map[] == map[keys[i] := value];
    }
  }

  lemma LastSubmap(v: Value, keys: seq<string>)
    requires v.Object? && (forall k :: k in keys <==> k in v.members)
    ensures Submap(v, keys, |keys|) == map[]
  {
  }

  // ----- the main results -----

  /** Equal canonical text means equal value. */
  lemma PrintIsInjective(v: Value, w: Value)
    requires InRange(v) && InRange(w) && Print(v) == Print(w)
    ensures v == w
  {
    hide Print, ReadValue;
    ReadPrinted(v, "");
    ReadPrinted(w, "");
    assert Print(v) + "" == Print(w) + "";
  }

  /** A value with its canonical number tokens, as a decoder that keeps tokens returns it. */
  ghost function Reread(v: Value): Doc
  {
    match v
    case Null => Null
    case Bool(b) => Bool(b)
    case Str(s) => Str(s)
    case Number(n) => Number(FormatInt(n))
    case List(items) => List(seq(|items|, i requires 0 <= i < |items| => Reread(v.items[i])))
    case Object(members) => Object(map k | k in members :: Reread(v.members[k]))
  }

  lemma {:induction false} RereadMeans(v: Value)
    requires InRange(v)
    ensures InDialect(Reread(v)) && Meaning(Reread(v)) == v
  {
    hide FormatInt, ReadNumber;
    match v
    case Number(n) => FormatReads(n);
    case List(items) =>
      forall i | 0 <= i < |items| ensures InDialect(Reread(v).items[i]) && Meaning(Reread(v).items[i]) == items[i]
      {
        RereadMeans(v.items[i]);
      }
      assert Meaning(Reread(v)).items == items;
    case Object(members) =>
      forall k | k in members ensures InDialect(Reread(v).members[k]) && Meaning(Reread(v).members[k]) == members[k]
      {
        RereadMeans(v.members[k]);
      }
      assert Meaning(Reread(v)).members == members;
    case _ =>
  }

  /** Re-reading canonical text and printing it again changes nothing. */
  lemma CanonicalIsFixpoint(v: Doc)
    requires InDialect(v)
    ensures ReadValue(Print(Meaning(v))) == Some((Meaning(v), ""))
    ensures InDialect(Reread(Meaning(v))) && Print(Meaning(Reread(Meaning(v)))) == Print(Meaning(v))
  {
    hide Print, ReadValue, InDialect, Meaning, Reread, InRange;
    DialectIsInRange(v);
    ReadPrinted(Meaning(v), "");
    assert Print(Meaning(v)) + "" == Print(Meaning(v));
    RereadMeans(Meaning(v));
  }

  // ----- signing inputs -----

  const MLP_SIG := "mlp_sig"
  const PROTECTED := "protected"
  const PAYLOAD := "payload"

  /** What SignDoc signs and VerifyDoc reconstructs. */
  ghost function SigningInput(tag: string, protected: Value, payload: Value): string
  {
    Print(Object(map[MLP_SIG := Str(tag), PROTECTED := protected, PAYLOAD := payload]))
  }

  /**
   The signing input determines label, protected block and payload: nothing signed under one label is under another.
   */
  lemma SigningInputDetermines(l1: string, p1: Value, d1: Value, l2: string, p2: Value, d2: Value)
    requires InRange(p1) && InRange(d1) && InRange(p2) && InRange(d2)
    requires SigningInput(l1, p1, d1) == SigningInput(l2, p2, d2)
    ensures l1 == l2 && p1 == p2 && d1 == d2
  {
    hide Print;
    var v: Value := Object(map[MLP_SIG := Str(l1), PROTECTED := p1, PAYLOAD := d1]);
    var w: Value := Object(map[MLP_SIG := Str(l2), PROTECTED := p2, PAYLOAD := d2]);
    PrintIsInjective(v, w);
    assert v.members[MLP_SIG] == w.members[MLP_SIG];
    assert v.members[PROTECTED] == w.members[PROTECTED];
    assert v.members[PAYLOAD] == w.members[PAYLOAD];
  }

  /** The signature object on the wire; value is the signature before base64url. */
  datatype Signature = Signature(tag: string, protected: Value, value: string)

  datatype SignatureError = ContextMismatch | UnsupportedAlg | BadSignature

  function Protected(kid: string, created: string): Value
  {
    Object(map["kid" := Str(kid), "alg" := Str("ed25519"), "created" := Str(created)])
  }

  ghost function SignDoc(sign: string -> string, tag: string, kid: string, created: string, payload: Value): Signature
  {
    Signature(tag, Protected(kid, created), sign(SigningInput(tag, Protected(kid, created), payload)))
  }

  ghost function VerifyDoc(verify: (string, string) -> bool, tag: string, payload: Value, sig: Signature)
    : Option<SignatureError>
  {
    if sig.tag != tag then Some(ContextMismatch)
    else if !(sig.protected.Object? && "alg" in sig.protected.members
      && sig.protected.members["alg"] == Str("ed25519")) then
      Some(UnsupportedAlg)
    else if !verify(SigningInput(tag, sig.protected, payload), sig.value) then Some(BadSignature)
    else None
  }

  /**
   A document verifies under the label it was signed with. Conversely, if a key verifies only signatures of the texts it
   signed, a signature object that verifies is for a text signed under that very label, block and payload.
   */
  lemma SignedDocVerifies(sign: string -> string, verify: (string, string) -> bool, tag: string, kid: string,
                          created: string, payload: Value)
    requires forall m :: verify(m, sign(m))
    ensures VerifyDoc(verify, tag, payload, SignDoc(sign, tag, kid, created, payload)).None?
    ensures forall other :: other != tag ==>
              VerifyDoc(verify, other, payload, SignDoc(sign, tag, kid, created, payload)) == Some(ContextMismatch)
  {
    hide SigningInput;
  }

  lemma NoRelabelling(verify: (string, string) -> bool, log: set<(string, Value, Value)>, tag: string, payload: Value,
                      sig: Signature)
    requires forall m, value :: verify(m, value) ==> exists t :: t in log && m == SigningInput(t.0, t.1, t.2)
    requires InRange(payload) && InRange(sig.protected) && forall t :: t in log ==> InRange(t.1) && InRange(t.2)
    requires VerifyDoc(verify, tag, payload, sig).None?
    ensures (tag, sig.protected, payload) in log
  {
    hide SigningInput;
    var t :| t in log && SigningInput(tag, sig.protected, payload) == SigningInput(t.0, t.1, t.2);
    SigningInputDetermines(tag, sig.protected, payload, t.0, t.1, t.2);
  }
}
