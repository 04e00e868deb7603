/** JSON values as JavaScript's `JSON.stringify` writes them and `JSON.parse` reads
    them, restricted to integer numbers. `Stringify` is the canonical printer (no
    whitespace, members in insertion order, the ECMAScript string-escaping rules);
    `Parse` accepts any JSON text of these values, whitespace included, and yields
    `None` where `JSON.parse` throws. The main theorem, `ParseStringify`, says that
    parsing what was printed gives back the printed value. */
module Json {
  import opened Wrappers
  import Hex

  datatype Json =
    | JNull
    | JBool(b: bool)
    | JNum(n: int)
    | JStr(s: string)
    | JArr(items: seq<Json>)
    | JObj(fields: seq<Field>)

  /** One own property of an object, in insertion order. */
  datatype Field = Field(key: string, value: Json)

  // ---------------------------------------------------------------------------
  // Printing (JSON.stringify)
  // ---------------------------------------------------------------------------

  predicate IsDigit(c: char) { '0' <= c <= '9' }

  predicate IsWs(c: char) { c == ' ' || c == '\t' || c == '\n' || c == '\r' }

  const Digits: string := "0123456789"

  /** Decimal digits of a natural number, most significant first, no leading zero. */
  function Natural(n: nat): (r: string)
    ensures |r| > 0 && forall i :: 0 <= i < |r| ==> IsDigit(r[i])
  {
    if n < 10 then [Digits[n]] else Natural(n / 10) + [Digits[n % 10]]
  }

  /** Integer number text: a minus sign before the digits of a negative number. */
  function NumberText(n: int): (r: string)
    ensures |r| > 0 && (r[0] == '-' || IsDigit(r[0]))
  {
    if n < 0 then "-" + Natural(-n) else Natural(n)
  }

  /** The escape JSON.stringify writes for one character of a string. */
  function EscapeChar(c: char): (r: string)
    ensures |r| > 0
  {
    if c == '"' then "\\\""
    else if c == '\\' then "\\\\"
    else if c == '\U{8}' then "\\b"
    else if c == '\U{C}' then "\\f"
    else if c == '\n' then "\\n"
    else if c == '\r' then "\\r"
    else if c == '\t' then "\\t"
    else if c < ' ' then "\\u00" + [Hex.Digit(c as int / 16), Hex.Digit(c as int % 16)]
    else [c]
  }

  function Escaped(s: string): string {
    if s == [] then [] else EscapeChar(s[0]) + Escaped(s[1..])
  }

  function Quote(s: string): string {
    "\"" + Escaped(s) + "\""
  }

  function Stringify(j: Json): (r: string)
    ensures |r| > 0 && !IsWs(r[0]) && r[0] != ']' && r[0] != '}' && r[0] != ','
    decreases j
  {
    match j
    case JNull => "null"
    case JBool(b) => if b then "true" else "false"
    case JNum(n) => NumberText(n)
    case JStr(s) => Quote(s)
    case JArr(items) => "[" + Elements(items) + "]"
    case JObj(fields) => "{" + Members(fields) + "}"
  }

  function Elements(items: seq<Json>): (r: string)
    ensures items != [] ==> |r| > 0 && !IsWs(r[0]) && r[0] != ']' && r[0] != ','
    decreases items
  {
    if items == [] then ""
    else if |items| == 1 then Stringify(items[0])
    else Stringify(items[0]) + "," + Elements(items[1..])
  }

  function Members(fields: seq<Field>): (r: string)
    ensures fields != [] ==> |r| > 0 && r[0] == '"'
    decreases fields
  {
    if fields == [] then ""
    else if |fields| == 1 then Member(fields[0])
    else Member(fields[0]) + "," + Members(fields[1..])
  }

  function Member(f: Field): (r: string)
    ensures |r| > 0 && r[0] == '"'
    decreases f
  {
    Quote(f.key) + ":" + Stringify(f.value)
  }

  // ---------------------------------------------------------------------------
  // Parsing (JSON.parse)
  // ---------------------------------------------------------------------------

  function SkipWs(s: string): (r: string)
    ensures |r| <= |s| && r == s[|s| - |r|..]
    ensures r == [] || !IsWs(r[0])
  {
    if s != [] && IsWs(s[0]) then SkipWs(s[1..]) else s
  }

  /** The longest prefix of decimal digits. */
  function DigitRun(s: string): (r: string)
    ensures |r| <= |s| && r == s[..|r|]
    ensures forall i :: 0 <= i < |r| ==> IsDigit(r[i])
  {
    if s != [] && IsDigit(s[0]) then [s[0]] + DigitRun(s[1..]) else []
  }

  function DigitValue(c: char): nat
    requires IsDigit(c)
  {
    c as int - '0' as int
  }

  function DigitsValue(d: string): nat
    requires forall i :: 0 <= i < |d| ==> IsDigit(d[i])
  {
    if d == [] then 0 else DigitsValue(d[..|d| - 1]) * 10 + DigitValue(d[|d| - 1])
  }

  /** Digits of an integer: `0` or digits without a leading zero. A fraction or
      exponent part is outside the model and rejected. */
  function ParseNatural(s: string): (r: Option<(nat, string)>)
    ensures r.Some? ==> |r.value.1| < |s|
  {
    var d := DigitRun(s);
    var rest := s[|d|..];
    if d == [] || (d[0] == '0' && |d| > 1) then None
    else if rest != [] && (rest[0] == '.' || rest[0] == 'e' || rest[0] == 'E') then None
    else Some((DigitsValue(d), rest))
  }

  /** An integer, with an optional minus sign. */
  function ParseNumber(s: string): (r: Option<(Json, string)>)
    ensures r.Some? ==> |r.value.1| < |s|
  {
    if s != [] && s[0] == '-' then
      match ParseNatural(s[1..])
      case None => None
      case Some((v, rest)) => Some((JNum(-(v as int)), rest))
    else
      match ParseNatural(s)
      case None => None
      case Some((v, rest)) => Some((JNum(v), rest))
  }

  /** Four hexadecimal digits of a `\u` escape. */
  function Hex4(s: string): (r: Option<nat>)
    ensures r.Some? ==> r.value < 0x10000
  {
    if |s| < 4 then None
    else match (Hex.DigitValue(s[0]), Hex.DigitValue(s[1]), Hex.DigitValue(s[2]), Hex.DigitValue(s[3]))
      case (Some(a), Some(b), Some(c), Some(d)) => Some(((a * 16 + b) * 16 + c) * 16 + d)
      case _ => None
  }

  /** The character an escape stands for; `s` starts after the backslash. A surrogate
      pair of `\u` escapes makes one character; a lone surrogate cannot be a `char`
      and is rejected. */
  function Unescape(s: string): (r: Option<(char, string)>)
    ensures r.Some? ==> |r.value.1| < |s|
  {
    if s == [] then None
    else if s[0] == '"' then Some(('"', s[1..]))
    else if s[0] == '\\' then Some(('\\', s[1..]))
    else if s[0] == '/' then Some(('/', s[1..]))
    else if s[0] == 'b' then Some(('\U{8}', s[1..]))
    else if s[0] == 'f' then Some(('\U{C}', s[1..]))
    else if s[0] == 'n' then Some(('\n', s[1..]))
    else if s[0] == 'r' then Some(('\r', s[1..]))
    else if s[0] == 't' then Some(('\t', s[1..]))
    else if s[0] == 'u' then
      match Hex4(s[1..])
      case None => None
      case Some(u) =>
        if u < 0xD800 || 0xE000 <= u then Some((u as char, s[5..]))
        else if 0xDC00 <= u || |s| < 7 || s[5] != '\\' || s[6] != 'u' then None
        else match Hex4(s[7..])
          case None => None
          case Some(l) =>
            if 0xDC00 <= l < 0xE000
            then Some(((0x10000 + (u - 0xD800) * 0x400 + (l - 0xDC00)) as char, s[11..]))
            else None
    else None
  }

  /** The characters of a string literal; `s` starts after the opening quote and the
      result's second component after the closing one. */
  function ParseChars(s: string): (r: Option<(string, string)>)
    ensures r.Some? ==> |r.value.1| < |s|
  {
    if s == [] then None
    else if s[0] == '"' then Some(([], s[1..]))
    else if s[0] < ' ' then None
    else
      var head := if s[0] == '\\' then Unescape(s[1..]) else Some((s[0], s[1..]));
      match head
      case None => None
      case Some((c, rest)) =>
        match ParseChars(rest)
        case None => None
        case Some((cs, rest')) => Some(([c] + cs, rest'))
  }

  function Literal(s: string, word: string, v: Json): (r: Option<(Json, string)>)
    requires |word| > 0
    ensures r.Some? ==> |r.value.1| < |s|
  {
    if |word| <= |s| && s[..|word|] == word then Some((v, s[|word|..])) else None
  }

  /** One value at the very start of `s`, and the text after it. */
  function ParseValue(s: string): (r: Option<(Json, string)>)
    ensures r.Some? ==> |r.value.1| < |s|
    decreases |s|, 0
  {
    if s == [] then None
    else if s[0] == 'n' then Literal(s, "null", JNull)
    else if s[0] == 't' then Literal(s, "true", JBool(true))
    else if s[0] == 'f' then Literal(s, "false", JBool(false))
    else if s[0] == '"' then ParseString(s[1..])
    else if s[0] == '[' then ParseArray(s[1..])
    else if s[0] == '{' then ParseObject(s[1..])
    else ParseNumber(s)
  }

  /** A string value; `s` starts after the opening quote. */
  function ParseString(s: string): (r: Option<(Json, string)>)
    ensures r.Some? ==> |r.value.1| < |s|
  {
    match ParseChars(s)
    case None => None
    case Some((str, rest)) => Some((JStr(str), rest))
  }

  /** An array value; `s` starts after the opening bracket. */
  function ParseArray(s: string): (r: Option<(Json, string)>)
    ensures r.Some? ==> |r.value.1| < |s|
    decreases |s|, 2
  {
    var t := SkipWs(s);
    if t != [] && t[0] == ']' then Some((JArr([]), t[1..]))
    else
      match ParseElements(t)
      case None => None
      case Some((items, rest)) => Some((JArr(items), rest))
  }

  /** An object value; `s` starts after the opening brace. */
  function ParseObject(s: string): (r: Option<(Json, string)>)
    ensures r.Some? ==> |r.value.1| < |s|
    decreases |s|, 3
  {
    var t := SkipWs(s);
    if t != [] && t[0] == '}' then Some((JObj([]), t[1..]))
    else
      match ParseMembers(t)
      case None => None
      case Some((fields, rest)) => Some((JObj(fields), rest))
  }

  /** Array elements up to and including the closing bracket. */
  function ParseElements(s: string): (r: Option<(seq<Json>, string)>)
    ensures r.Some? ==> |r.value.1| < |s|
    decreases |s|, 1
  {
    match ParseValue(SkipWs(s))
    case None => None
    case Some((v, rest)) => ElementsAfter(v, SkipWs(rest))
  }

  /** What may follow element `v`: the closing bracket, or a comma and more elements. */
  function ElementsAfter(v: Json, t: string): (r: Option<(seq<Json>, string)>)
    ensures r.Some? ==> |r.value.1| < |t|
    decreases |t|, 4
  {
    if t == [] then None
    else if t[0] == ']' then Some(([v], t[1..]))
    else if t[0] == ',' then
      match ParseElements(t[1..])
      case None => None
      case Some((vs, rest)) => Some(([v] + vs, rest))
    else None
  }

  /** One `"key": value` member, and the text after it. */
  function ParseMember(s: string): (r: Option<(Field, string)>)
    ensures r.Some? ==> |r.value.1| < |s|
    decreases |s|, 1
  {
    var t := SkipWs(s);
    if t == [] || t[0] != '"' then None
    else
      match ParseChars(t[1..])
      case None => None
      case Some((key, rest)) =>
        var u := SkipWs(rest);
        if u == [] || u[0] != ':' then None
        else
          match ParseValue(SkipWs(u[1..]))
          case None => None
          case Some((v, rest')) => Some((Field(key, v), rest'))
  }

  /** Object members up to and including the closing brace. */
  function ParseMembers(s: string): (r: Option<(seq<Field>, string)>)
    ensures r.Some? ==> |r.value.1| < |s|
    decreases |s|, 2
  {
    match ParseMember(s)
    case None => None
    case Some((f, rest)) => MembersAfter(f, SkipWs(rest))
  }

  /** What may follow member `f`: the closing brace, or a comma and more members. */
  function MembersAfter(f: Field, t: string): (r: Option<(seq<Field>, string)>)
    ensures r.Some? ==> |r.value.1| < |t|
    decreases |t|, 4
  {
    if t == [] then None
    else if t[0] == '}' then Some(([f], t[1..]))
    else if t[0] == ',' then
      match ParseMembers(t[1..])
      case None => None
      case Some((fs, rest)) => Some(([f] + fs, rest))
    else None
  }

  /** `JSON.parse(text)`: one value with optional whitespace around it. */
  function Parse(text: string): (r: Option<Json>)
    ensures r.Some? <==>
      ParseValue(SkipWs(text)).Some? && SkipWs(ParseValue(SkipWs(text)).value.1) == []
    ensures r.Some? ==> r.value == ParseValue(SkipWs(text)).value.0
  {
    match ParseValue(SkipWs(text))
    case None => None
    case Some((v, rest)) => if SkipWs(rest) == [] then Some(v) else None
  }

  // ---------------------------------------------------------------------------
  // Properties of objects (property read and object spread)
  // ---------------------------------------------------------------------------

  /** `obj[key]` on the fields of an object: the last field with that key wins, as
      when `JSON.parse` meets a repeated key. */
  function Get(fields: seq<Field>, key: string): (r: Option<Json>)
    ensures r.Some? <==> exists i :: 0 <= i < |fields| && fields[i].key == key
  {
    if fields == [] then None
    else if fields[|fields| - 1].key == key then Some(fields[|fields| - 1].value)
    else Get(fields[..|fields| - 1], key)
  }

  /** A property read on any value: only objects have properties. */
  function Property(j: Json, key: string): (r: Option<Json>)
    ensures r.Some? ==> j.JObj?
  {
    if j.JObj? then Get(j.fields, key) else None
  }

  function Keys(fields: seq<Field>): (r: seq<string>)
    ensures |r| == |fields| && forall i :: 0 <= i < |r| ==> r[i] == fields[i].key
  {
    seq(|fields|, i requires 0 <= i < |fields| => fields[i].key)
  }

  predicate DistinctKeys(fields: seq<Field>) {
    forall a, b :: 0 <= a < b < |fields| ==> fields[a].key != fields[b].key
  }

  /** In an object whose keys are distinct, each property reads its own field. */
  lemma {:induction false} GetDistinct(fields: seq<Field>, i: nat)
    requires DistinctKeys(fields) && i < |fields|
    ensures Get(fields, fields[i].key) == Some(fields[i].value)
  {
    var n := |fields|;
    if i < n - 1 {
      assert fields[n - 1].key != fields[i].key;
      assert fields[..n - 1][i] == fields[i];
      GetDistinct(fields[..n - 1], i);
    }
  }

  /** Every field with key `key` takes the value `v`; the others stay in place. */
  function Replace(fields: seq<Field>, key: string, v: Json): (r: seq<Field>)
    ensures |r| == |fields|
    ensures forall i :: 0 <= i < |fields| ==>
      r[i] == if fields[i].key == key then Field(key, v) else fields[i]
  {
    seq(|fields|, i requires 0 <= i < |fields| =>
      if fields[i].key == key then Field(key, v) else fields[i])
  }

  /** `{...obj, [key]: v}`: an existing property keeps its place and takes the new
      value; a missing one is added last. */
  function WithProperty(fields: seq<Field>, key: string, v: Json): (r: seq<Field>)
    ensures Get(r, key) == Some(v)
    ensures |r| == if Get(fields, key).Some? then |fields| else |fields| + 1
  {
    if Get(fields, key).Some? then
      GetReplace(fields, key, v, key);
      Replace(fields, key, v)
    else
      GetAppend(fields, Field(key, v), key);
      fields + [Field(key, v)]
  }

  lemma GetAppend(fields: seq<Field>, f: Field, q: string)
    ensures Get(fields + [f], q) == if f.key == q then Some(f.value) else Get(fields, q)
  {
    assert (fields + [f])[..|fields|] == fields;
  }

  lemma ReplaceInit(fields: seq<Field>, key: string, v: Json)
    requires fields != []
    ensures Replace(fields, key, v)[..|fields| - 1] == Replace(fields[..|fields| - 1], key, v)
  {
  }

  lemma {:induction false} GetReplace(fields: seq<Field>, key: string, v: Json, q: string)
    ensures Get(Replace(fields, key, v), q) ==
      if q == key && Get(fields, key).Some? then Some(v) else Get(fields, q)
  {
    if fields != [] {
      var n := |fields|;
      var r := Replace(fields, key, v);
      var last := fields[n - 1];
      assert r[n - 1].key == last.key;
      if last.key != q {
        ReplaceInit(fields, key, v);
        assert Get(r, q) == Get(r[..n - 1], q);
        assert Get(fields, q) == Get(fields[..n - 1], q);
        GetReplace(fields[..n - 1], key, v, q);
      }
    }
  }

  /** After `{...obj, [key]: v}` the property `key` reads `v` and every other
      property reads as before. */
  lemma GetWithProperty(fields: seq<Field>, key: string, v: Json, q: string)
    ensures Get(WithProperty(fields, key, v), q) == if q == key then Some(v) else Get(fields, q)
  {
    if Get(fields, key).Some? {
      GetReplace(fields, key, v, q);
    } else {
      GetAppend(fields, Field(key, v), q);
    }
  }

  /** The spread keeps the property order: only a missing key is added, at the end. */
  lemma KeysWithProperty(fields: seq<Field>, key: string, v: Json)
    ensures Keys(WithProperty(fields, key, v)) ==
      if Get(fields, key).Some? then Keys(fields) else Keys(fields) + [key]
  {
    var r := WithProperty(fields, key, v);
    var expected := if Get(fields, key).Some? then Keys(fields) else Keys(fields) + [key];
    assert |Keys(r)| == |expected|;
    forall i | 0 <= i < |r| ensures Keys(r)[i] == expected[i] {
      if i < |fields| {
        assert r[i].key == fields[i].key;
      }
    }
  }

  lemma ReplaceTwice(fields: seq<Field>, key: string, a: Json, b: Json)
    ensures Replace(Replace(fields, key, a), key, b) == Replace(fields, key, b)
  {
  }

  lemma ReplaceAppended(fields: seq<Field>, key: string, a: Json, b: Json)
    requires Get(fields, key).None?
    ensures Replace(fields + [Field(key, a)], key, b) == fields + [Field(key, b)]
  {
    var r := Replace(fields + [Field(key, a)], key, b);
    forall i | 0 <= i < |fields| ensures r[i] == fields[i] {
      assert fields[i].key != key;
    }
  }

  /** Setting the same property twice keeps only the second value. */
  lemma WithPropertyTwice(fields: seq<Field>, key: string, a: Json, b: Json)
    ensures WithProperty(WithProperty(fields, key, a), key, b) == WithProperty(fields, key, b)
  {
    KeysWithProperty(fields, key, a);
    if Get(fields, key).Some? {
      ReplaceTwice(fields, key, a, b);
    } else {
      ReplaceAppended(fields, key, a, b);
    }
  }
}
