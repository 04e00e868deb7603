/** `JSON.parse(JSON.stringify(v))` gives back `v`: the printer of module `Json`
    writes only text that its parser reads back to the same value. */
module JsonRoundTrip {
  import opened Wrappers
  import opened Json
  import Hex

  /** What may follow a value inside printed text: the end, a comma, or a closing
      bracket or brace (a number's digits run up to the next non-digit). */
  predicate Delimits(rest: string) {
    rest == [] || rest[0] == ',' || rest[0] == ']' || rest[0] == '}'
  }

  /** The element read first put in front of the ones read after it. */
  function Prepend<T>(x: T, r: Option<(seq<T>, string)>): Option<(seq<T>, string)> {
    match r
    case None => None
    case Some((xs, rest)) => Some(([x] + xs, rest))
  }

  // ---------------------------------------------------------------------------
  // Regrouping of concatenations, each in a lemma of its own so that the parser
  // proofs below see only the equation they use.
  // ---------------------------------------------------------------------------

  lemma DropHead(c: char, t: string)
    ensures ([c] + t)[0] == c && ([c] + t)[1..] == t
  {
  }

  lemma HeadOf(a: string, t: string)
    requires a != []
    ensures (a + t)[0] == a[0]
  {
  }

  lemma Rejoin<T>(xs: seq<T>)
    requires xs != []
    ensures [xs[0]] + xs[1..] == xs
    ensures |xs| == 1 ==> [xs[0]] == xs
  {
  }

  lemma Regroup(a: string, c: char, b: string, d: char, rest: string)
    ensures a + [c] + b + [d] + rest == a + ([c] + (b + [d] + rest))
  {
  }

  lemma Enclose(c: char, a: string, d: char, rest: string)
    ensures [c] + a + [d] + rest == [c] + (a + [d] + rest)
    ensures a + [d] + rest == a + ([d] + rest)
  {
  }

  lemma SkipWsNothing(s: string)
    requires s == [] || !IsWs(s[0])
    ensures SkipWs(s) == s
  {
  }

  // ---------------------------------------------------------------------------
  // Which parser `ParseValue` hands the text to, by its first character
  // ---------------------------------------------------------------------------

  lemma ValueAtMinus(t: string)
    ensures ParseValue(['-'] + t) == ParseNumber(['-'] + t)
    ensures ParseNumber(['-'] + t) ==
      match ParseNatural(t)
      case None => None
      case Some((v, rest)) => Some((JNum(-(v as int)), rest))
  {
    DropHead('-', t);
  }

  lemma ValueAtDigit(s: string)
    requires s != [] && IsDigit(s[0])
    ensures ParseValue(s) == ParseNumber(s)
    ensures ParseNumber(s) ==
      match ParseNatural(s)
      case None => None
      case Some((v, rest)) => Some((JNum(v), rest))
  {
    assert s[0] != 'n' && s[0] != 't' && s[0] != 'f' && s[0] != '"' && s[0] != '[' && s[0] != '{';
  }

  lemma ValueAtQuote(t: string)
    ensures ParseValue(['"'] + t) == ParseString(t)
  {
    DropHead('"', t);
  }

  lemma ValueAtBracket(t: string)
    ensures ParseValue(['['] + t) == ParseArray(t)
  {
    DropHead('[', t);
  }

  lemma ValueAtBrace(t: string)
    ensures ParseValue(['{'] + t) == ParseObject(t)
  {
    DropHead('{', t);
  }

  // ---------------------------------------------------------------------------
  // Numbers
  // ---------------------------------------------------------------------------

  lemma DigitOf(k: nat)
    requires k < 10
    ensures IsDigit(Digits[k]) && DigitValue(Digits[k]) == k
  {
    assert Digits == ['0', '1', '2', '3', '4', '5', '6', '7', '8', '9'];
  }

  /** Only the number zero is written with a leading `0`. */
  lemma {:induction false} NaturalLeadingDigit(n: nat)
    ensures Natural(n)[0] == '0' ==> n == 0
  {
    if n >= 10 {
      assert Natural(n)[0] == Natural(n / 10)[0];
      NaturalLeadingDigit(n / 10);
    } else {
      DigitOf(n);
    }
  }

  lemma {:induction false} NaturalValue(n: nat)
    ensures DigitsValue(Natural(n)) == n
  {
    var d := Natural(n);
    if n < 10 {
      DigitOf(n);
      assert d[..0] == [];
    } else {
      DigitOf(n % 10);
      assert d[..|d| - 1] == Natural(n / 10);
      NaturalValue(n / 10);
    }
  }

  lemma {:induction false} DigitRunStops(d: string, rest: string)
    requires forall i :: 0 <= i < |d| ==> IsDigit(d[i])
    requires rest == [] || !IsDigit(rest[0])
    ensures DigitRun(d + rest) == d
  {
    if d != [] {
      assert (d + rest)[1..] == d[1..] + rest;
      DigitRunStops(d[1..], rest);
    } else {
      assert d + rest == rest;
    }
  }

  lemma ParseNaturalText(m: nat, rest: string)
    requires Delimits(rest)
    ensures ParseNatural(Natural(m) + rest) == Some((m, rest))
  {
    var d := Natural(m);
    NaturalLeadingDigit(m);
    NaturalValue(m);
    DigitRunStops(d, rest);
    assert (d + rest)[|d|..] == rest;
  }

  lemma NegativeText(m: nat, rest: string)
    requires m > 0
    ensures NumberText(-(m as int)) + rest == ['-'] + (Natural(m) + rest)
  {
    var a := Natural(m);
    assert NumberText(-(m as int)) == ['-'] + a;
    assert ['-'] + a + rest == ['-'] + (a + rest);
  }

  lemma MinusNatural(u: string, m: nat, rest: string)
    requires ParseNatural(u) == Some((m, rest))
    ensures ParseValue(['-'] + u) == Some((JNum(-(m as int)), rest))
  {
    ValueAtMinus(u);
  }

  /** The negative number `-m`. */
  lemma ParseNegative(m: nat, rest: string)
    requires m > 0 && Delimits(rest)
    ensures ParseValue(NumberText(-(m as int)) + rest) == Some((JNum(-(m as int)), rest))
  {
    NegativeText(m, rest);
    ParseNaturalText(m, rest);
    MinusNatural(Natural(m) + rest, m, rest);
  }

  lemma ParseNonNegative(n: nat, rest: string)
    requires Delimits(rest)
    ensures ParseValue(NumberText(n) + rest) == Some((JNum(n), rest))
  {
    var s := Natural(n) + rest;
    assert NumberText(n) + rest == s;
    HeadOf(Natural(n), rest);
    ValueAtDigit(s);
    ParseNaturalText(n, rest);
  }

  lemma ParseNumberValue(n: int, rest: string)
    requires Delimits(rest)
    ensures ParseValue(NumberText(n) + rest) == Some((JNum(n), rest))
  {
    if n < 0 {
      ParseNegative(-n, rest);
    } else {
      ParseNonNegative(n, rest);
    }
  }

  // ---------------------------------------------------------------------------
  // Strings
  // ---------------------------------------------------------------------------

  lemma ParsePlainChar(c: char, tail: string)
    requires EscapeChar(c) == [c]
    ensures ParseChars(EscapeChar(c) + tail) == Prepend(c, ParseChars(tail))
  {
    assert c != '"' && c != '\\' && c >= ' ';
    DropHead(c, tail);
  }

  /** An escape: a backslash and text that `Unescape` reads back. */
  lemma ParseEscape(c: char, esc: string, tail: string)
    requires EscapeChar(c) == ['\\'] + esc
    requires Unescape(esc + tail) == Some((c, tail))
    ensures ParseChars(EscapeChar(c) + tail) == Prepend(c, ParseChars(tail))
  {
    assert EscapeChar(c) + tail == ['\\'] + (esc + tail);
    DropHead('\\', esc + tail);
  }

  /** The hexadecimal digits of a `\u00XX` escape. */
  function UnicodeDigits(c: char): string
    requires c < ' '
  {
    ['0', '0', Hex.Digit(c as int / 16), Hex.Digit(c as int % 16)]
  }

  lemma Hex4Escape(c: char, tail: string)
    requires c < ' '
    ensures Hex4(UnicodeDigits(c) + tail) == Some(c as int)
  {
  }

  lemma UnescapeUnicode(c: char, tail: string)
    requires c < ' '
    ensures Unescape(['u'] + UnicodeDigits(c) + tail) == Some((c, tail))
  {
    var h := UnicodeDigits(c);
    var u := ['u'] + h + tail;
    assert u == ['u'] + (h + tail);
    DropHead('u', h + tail);
    Hex4Escape(c, tail);
    assert u[5..] == tail;
  }

  lemma UnicodeEscapeText(c: char)
    requires |EscapeChar(c)| == 6
    ensures c < ' ' && EscapeChar(c) == ['\\'] + (['u'] + UnicodeDigits(c))
  {
  }

  lemma ParseUnicodeEscape(c: char, tail: string)
    requires |EscapeChar(c)| == 6
    ensures ParseChars(EscapeChar(c) + tail) == Prepend(c, ParseChars(tail))
  {
    UnicodeEscapeText(c);
    UnescapeUnicode(c, tail);
    ParseEscape(c, ['u'] + UnicodeDigits(c), tail);
  }

  /** One escaped character is read back as that character. */
  lemma ParseCharsStep(c: char, tail: string)
    ensures ParseChars(EscapeChar(c) + tail) == Prepend(c, ParseChars(tail))
  {
    var letter := if c == '"' then '"' else if c == '\\' then '\\'
      else if c == '\U{8}' then 'b' else if c == '\U{C}' then 'f'
      else if c == '\n' then 'n' else if c == '\r' then 'r' else 't';
    if c in "\"\\\U{8}\U{C}\n\r\t" {
      DropHead(letter, tail);
      ParseEscape(c, [letter], tail);
    } else if c < ' ' {
      ParseUnicodeEscape(c, tail);
    } else {
      ParsePlainChar(c, tail);
    }
  }

  lemma {:induction false} ParseEscaped(str: string, rest: string)
    ensures ParseChars(Escaped(str) + "\"" + rest) == Some((str, rest))
  {
    if str == [] {
      assert Escaped(str) + "\"" + rest == ['"'] + rest;
    } else {
      var tail := Escaped(str[1..]) + "\"" + rest;
      assert Escaped(str) + "\"" + rest == EscapeChar(str[0]) + tail;
      ParseEscaped(str[1..], rest);
      ParseCharsStep(str[0], tail);
      Rejoin(str);
    }
  }

  lemma ParseQuoted(str: string, rest: string)
    ensures ParseValue(Quote(str) + rest) == Some((JStr(str), rest))
  {
    var body := Escaped(str) + "\"" + rest;
    assert Quote(str) + rest == ['"'] + body;
    ValueAtQuote(body);
    ParseEscaped(str, rest);
  }

  // ---------------------------------------------------------------------------
  // Values
  // ---------------------------------------------------------------------------

  lemma ParseLiteralValue(word: string, v: Json, rest: string)
    requires (word == "null" && v == JNull) || (word == "true" && v == JBool(true))
          || (word == "false" && v == JBool(false))
    ensures ParseValue(word + rest) == Some((v, rest))
  {
    assert (word + rest)[0] == word[0];
    assert (word + rest)[..|word|] == word && (word + rest)[|word|..] == rest;
  }

  lemma {:induction false} ParseStringified(j: Json, rest: string)
    requires Delimits(rest)
    ensures ParseValue(Stringify(j) + rest) == Some((j, rest))
    decreases j, 0
  {
    match j
    case JNull => ParseLiteralValue("null", j, rest);
    case JBool(b) => ParseLiteralValue(if b then "true" else "false", j, rest);
    case JNum(n) => ParseNumberValue(n, rest);
    case JStr(str) => ParseQuoted(str, rest);
    case JArr(items) => ParseArrayValue(items, rest);
    case JObj(fields) => ParseObjectValue(fields, rest);
  }

  lemma {:induction false} ParseArrayValue(items: seq<Json>, rest: string)
    ensures ParseValue("[" + Elements(items) + "]" + rest) == Some((JArr(items), rest))
    decreases items, 2
  {
    Enclose('[', Elements(items), ']', rest);
    ValueAtBracket(Elements(items) + "]" + rest);
    ParseArrayOf(items, rest);
  }

  lemma {:induction false} ParseArrayOf(items: seq<Json>, rest: string)
    ensures ParseArray(Elements(items) + "]" + rest) == Some((JArr(items), rest))
    decreases items, 1
  {
    var u := Elements(items) + "]" + rest;
    SkipWsNothing(u);
    if items == [] {
      assert u == [']'] + rest;
      DropHead(']', rest);
    } else {
      ParseElementsOf(items, rest);
    }
  }

  lemma {:induction false} ParseObjectValue(fields: seq<Field>, rest: string)
    ensures ParseValue("{" + Members(fields) + "}" + rest) == Some((JObj(fields), rest))
    decreases fields, 2
  {
    Enclose('{', Members(fields), '}', rest);
    ValueAtBrace(Members(fields) + "}" + rest);
    ParseObjectOf(fields, rest);
  }

  lemma {:induction false} ParseObjectOf(fields: seq<Field>, rest: string)
    ensures ParseObject(Members(fields) + "}" + rest) == Some((JObj(fields), rest))
    decreases fields, 1
  {
    var u := Members(fields) + "}" + rest;
    SkipWsNothing(u);
    if fields == [] {
      assert u == ['}'] + rest;
      DropHead('}', rest);
    } else {
      ParseMembersOf(fields, rest);
    }
  }

  /** How `ParseElements` continues once the first element is read: it stops at a
      closing bracket ... */
  lemma ElementsEnd(s: string, v: Json, after: string)
    requires ParseValue(SkipWs(s)) == Some((v, after))
    requires after != [] && after[0] == ']'
    ensures ParseElements(s) == Some(([v], after[1..]))
  {
    SkipWsNothing(after);
  }

  /** ... and reads on after a comma. */
  lemma ElementsMore(s: string, v: Json, after: string)
    requires ParseValue(SkipWs(s)) == Some((v, after))
    requires after != [] && after[0] == ','
    ensures ParseElements(s) == Prepend(v, ParseElements(after[1..]))
  {
    SkipWsNothing(after);
    assert ParseElements(s) == ElementsAfter(v, after);
  }

  lemma ElementsSplit(items: seq<Json>, rest: string)
    requires items != []
    ensures |items| == 1 ==> Elements(items) + "]" + rest == Stringify(items[0]) + ("]" + rest)
    ensures |items| > 1 ==>
      Elements(items) + "]" + rest == Stringify(items[0]) + ("," + (Elements(items[1..]) + "]" + rest))
  {
    if |items| > 1 {
      Regroup(Stringify(items[0]), ',', Elements(items[1..]), ']', rest);
    } else {
      Enclose('[', Stringify(items[0]), ']', rest);
    }
  }

  lemma {:induction false} ParseElementsOf(items: seq<Json>, rest: string)
    requires items != []
    ensures ParseElements(Elements(items) + "]" + rest) == Some((items, rest))
    decreases items, 0
  {
    var s := Elements(items) + "]" + rest;
    Rejoin(items);
    ElementsSplit(items, rest);
    SkipWsNothing(s);
    if |items| == 1 {
      var after := "]" + rest;
      ParseStringified(items[0], after);
      ElementsEnd(s, items[0], after);
      DropHead(']', rest);
    } else {
      var tail := Elements(items[1..]) + "]" + rest;
      var after := "," + tail;
      ParseStringified(items[0], after);
      ElementsMore(s, items[0], after);
      DropHead(',', tail);
      ParseElementsOf(items[1..], rest);
    }
  }

  /** How `ParseMembers` continues once the first member is read: it stops at a
      closing brace ... */
  lemma MembersEnd(s: string, f: Field, after: string)
    requires ParseMember(s) == Some((f, after))
    requires after != [] && after[0] == '}'
    ensures ParseMembers(s) == Some(([f], after[1..]))
  {
    SkipWsNothing(after);
  }

  /** ... and reads on after a comma. */
  lemma MembersMore(s: string, f: Field, after: string)
    requires ParseMember(s) == Some((f, after))
    requires after != [] && after[0] == ','
    ensures ParseMembers(s) == Prepend(f, ParseMembers(after[1..]))
  {
    SkipWsNothing(after);
    assert ParseMembers(s) == MembersAfter(f, after);
  }

  lemma MemberText(f: Field, after: string)
    ensures var s := Member(f) + after;
      var colon := ":" + (Stringify(f.value) + after);
      && s == "\"" + (Escaped(f.key) + "\"" + colon)
      && s[1..] == Escaped(f.key) + "\"" + colon
      && colon[1..] == Stringify(f.value) + after
  {
  }

  /** How `ParseMember` reads on once the key and the colon are found. */
  lemma MemberAt(s: string, key: string, colon: string)
    requires s != [] && s[0] == '"' && ParseChars(s[1..]) == Some((key, colon))
    requires colon != [] && colon[0] == ':'
    ensures ParseMember(s) ==
      match ParseValue(SkipWs(colon[1..]))
      case None => None
      case Some((v, rest)) => Some((Field(key, v), rest))
  {
    SkipWsNothing(s);
    SkipWsNothing(colon);
  }

  /** A printed member is read back, whatever text follows it. */
  lemma {:induction false} ParseMemberOf(f: Field, after: string)
    requires Delimits(after)
    ensures ParseMember(Member(f) + after) == Some((f, after))
    decreases f, 1
  {
    var v := Stringify(f.value);
    var colon := ":" + (v + after);
    var s := Member(f) + after;
    assert s != [] && s[0] == '"' && ParseChars(s[1..]) == Some((f.key, colon)) by {
      MemberText(f, after);
      ParseEscaped(f.key, colon);
    }
    assert ParseValue(SkipWs(colon[1..])) == Some((f.value, after)) by {
      MemberText(f, after);
      SkipWsNothing(v + after);
      ParseStringified(f.value, after);
    }
    MemberAt(s, f.key, colon);
  }

  lemma MembersSplit(fields: seq<Field>, rest: string)
    requires fields != []
    ensures |fields| == 1 ==> Members(fields) + "}" + rest == Member(fields[0]) + ("}" + rest)
    ensures |fields| > 1 ==>
      Members(fields) + "}" + rest == Member(fields[0]) + ("," + (Members(fields[1..]) + "}" + rest))
  {
    var a := Member(fields[0]);
    if |fields| > 1 {
      var b := Members(fields[1..]);
      assert Members(fields) == a + [','] + b;
      Regroup(a, ',', b, '}', rest);
    } else {
      assert Members(fields) == a;
      Enclose('{', a, '}', rest);
    }
  }

  lemma {:induction false} ParseMembersOf(fields: seq<Field>, rest: string)
    requires fields != []
    ensures ParseMembers(Members(fields) + "}" + rest) == Some((fields, rest))
    decreases fields, 0
  {
    var f := fields[0];
    var s := Members(fields) + "}" + rest;
    Rejoin(fields);
    MembersSplit(fields, rest);
    if |fields| == 1 {
      var after := "}" + rest;
      ParseMemberOf(f, after);
      MembersEnd(s, f, after);
      DropHead('}', rest);
    } else {
      var tail := Members(fields[1..]) + "}" + rest;
      var after := "," + tail;
      ParseMemberOf(f, after);
      MembersMore(s, f, after);
      DropHead(',', tail);
      ParseMembersOf(fields[1..], rest);
    }
  }

  // ---------------------------------------------------------------------------
  // What the parser rejects
  // ---------------------------------------------------------------------------

  lemma NaturalFraction(m: nat, rest: string)
    requires rest != [] && (rest[0] == '.' || rest[0] == 'e' || rest[0] == 'E')
    ensures ParseNatural(Natural(m) + rest) == None
  {
    var d := Natural(m);
    DigitRunStops(d, rest);
    assert (d + rest)[|d|..] == rest;
  }

  /** A number with a fraction or an exponent part is rejected, whatever follows. */
  lemma ParseRejectsFraction(n: int, rest: string)
    requires rest != [] && (rest[0] == '.' || rest[0] == 'e' || rest[0] == 'E')
    ensures Parse(NumberText(n) + rest) == None
  {
    var s := NumberText(n) + rest;
    if n < 0 {
      var m: nat := -n;
      NegativeText(m, rest);
      DropHead('-', Natural(m) + rest);
      NaturalFraction(m, rest);
      ValueAtMinus(Natural(m) + rest);
    } else {
      assert s == Natural(n) + rest;
      HeadOf(Natural(n), rest);
      NaturalFraction(n, rest);
      ValueAtDigit(s);
    }
    assert ParseValue(s) == None;
    SkipWsNothing(s);
  }

  lemma Hex4Prefix(h: string, tail: string)
    requires |h| == 4
    ensures Hex4(h + tail) == Hex4(h)
  {
    assert (h + tail)[..4] == h;
  }

  /** A `\u` escape of a surrogate code unit that is not followed by a second
      escape is rejected: a lone surrogate is not a character. */
  lemma ParseRejectsLoneSurrogate(h: string, tail: string)
    requires |h| == 4 && Hex4(h).Some? && 0xD800 <= Hex4(h).value < 0xE000
    requires tail == [] || tail[0] != '\\'
    ensures Parse(['"', '\\', 'u'] + h + tail) == None
  {
    var u := ['u'] + (h + tail);
    var t := ['\\'] + u;
    var s := ['"'] + t;
    assert ['"', '\\', 'u'] + h + tail == s;
    DropHead('u', h + tail);
    Hex4Prefix(h, tail);
    assert |u| >= 7 ==> u[5] == tail[0];
    assert Unescape(u) == None;
    DropHead('\\', u);
    assert ParseChars(t) == None;
    DropHead('"', t);
    ValueAtQuote(t);
    SkipWsNothing(s);
  }

  // ---------------------------------------------------------------------------
  // The theorem
  // ---------------------------------------------------------------------------

  /** `JSON.parse(JSON.stringify(v))` is `v`. */
  lemma ParseStringify(j: Json)
    ensures Parse(Stringify(j)) == Some(j)
  {
    SkipWsNothing(Stringify(j));
    ParseStringified(j, []);
    assert Stringify(j) + [] == Stringify(j);
  }

  /** The printer is injective: distinct values are written as distinct texts. */
  lemma StringifyInjective(a: Json, b: Json)
    ensures Stringify(a) == Stringify(b) <==> a == b
  {
    if Stringify(a) == Stringify(b) {
      ParseStringify(a);
      ParseStringify(b);
    }
  }
}
