/**
 * JSON values as JavaScript holds them, their text as `JSON.stringify` prints
 * it, and a parser for that text. Strings are sequences of UTF-16 code units; a
 * number is the text it prints as, which identifies it.
 */
module JsonText {
  import opened Common

  type CodeUnit = x: int | 0 <= x < 0x10000
  type Text = seq<CodeUnit>

  datatype Json =
    | Null
    | Bool(value: bool)
    | Number(text: Text)
    | Str(chars: Text)
    | Array(items: seq<Json>)
    | Object(members: seq<(Text, Json)>)  // own properties, in their order

  const QUOTE: CodeUnit := 34
  const COMMA: CodeUnit := 44
  const COLON: CodeUnit := 58
  const BACKSLASH: CodeUnit := 92
  const OPEN_ARRAY: CodeUnit := 91
  const CLOSE_ARRAY: CodeUnit := 93
  const OPEN_OBJECT: CodeUnit := 123
  const CLOSE_OBJECT: CodeUnit := 125
  const NULL_TEXT: Text := [110, 117, 108, 108]
  const TRUE_TEXT: Text := [116, 114, 117, 101]
  const FALSE_TEXT: Text := [102, 97, 108, 115, 101]

  /** The characters numbers are printed with: digits, sign, point, exponent. */
  predicate NumberUnit(c: CodeUnit) {
    48 <= c <= 57 || c == 43 || c == 45 || c == 46 || c == 101
  }

  predicate DistinctKeys(members: seq<(Text, Json)>) {
    forall i, k :: 0 <= i < k < |members| ==> members[i].0 != members[k].0
  }

  /** A value an engine can hold: number texts are number texts, and an object has each key once. */
  predicate WellFormed(v: Json) {
    match v
    case Number(text) => text != [] && forall i :: 0 <= i < |text| ==> NumberUnit(text[i])
    case Array(items) => forall i :: 0 <= i < |items| ==> WellFormed(items[i])
    case Object(members) => DistinctKeys(members) && forall i :: 0 <= i < |members| ==> WellFormed(members[i].1)
    case _ => true
  }

  // ----------------------------------------------------------------- printing

  function HexDigit(n: int): CodeUnit
    requires 0 <= n < 16
  {
    if n < 10 then 48 + n else 87 + n
  }

  function HexEscape(c: CodeUnit): Text {
    [BACKSLASH, 117, HexDigit(c / 4096), HexDigit(c / 256 % 16), HexDigit(c / 16 % 16), HexDigit(c % 16)]
  }

  predicate HighSurrogate(c: CodeUnit) { 0xD800 <= c < 0xDC00 }

  predicate LowSurrogate(c: CodeUnit) { 0xDC00 <= c < 0xE000 }

  /** The two-character escapes: backspace, tab, line feed, form feed, carriage return, quote, backslash. */
  function ShortEscape(c: CodeUnit): Option<CodeUnit> {
    if c == 8 then Some(98)
    else if c == 9 then Some(116)
    else if c == 10 then Some(110)
    else if c == 12 then Some(102)
    else if c == 13 then Some(114)
    else if c == QUOTE || c == BACKSLASH then Some(c)
    else None
  }

  // Every printer takes the text that is to follow.

  /** String contents: control characters and lone surrogates are escaped, surrogate pairs are not. */
  function Escape(s: Text, rest: Text): Text {
    if s == [] then rest
    else if ShortEscape(s[0]).Some? then [BACKSLASH, ShortEscape(s[0]).value] + Escape(s[1..], rest)
    else if s[0] < 32 then HexEscape(s[0]) + Escape(s[1..], rest)
    else if HighSurrogate(s[0]) && |s| > 1 && LowSurrogate(s[1]) then [s[0]] + ([s[1]] + Escape(s[2..], rest))
    else if HighSurrogate(s[0]) || LowSurrogate(s[0]) then HexEscape(s[0]) + Escape(s[1..], rest)
    else [s[0]] + Escape(s[1..], rest)
  }

  function Quoted(s: Text, rest: Text): Text {
    [QUOTE] + Escape(s, [QUOTE] + rest)
  }

  function PrintThen(v: Json, rest: Text): Text
    decreases v, 1
  {
    match v
    case Null => NULL_TEXT + rest
    case Bool(b) => (if b then TRUE_TEXT else FALSE_TEXT) + rest
    case Number(text) => text + rest
    case Str(chars) => Quoted(chars, rest)
    case Array(items) => [OPEN_ARRAY] + PrintItems(items, [CLOSE_ARRAY] + rest)
    case Object(members) => [OPEN_OBJECT] + PrintMembers(members, [CLOSE_OBJECT] + rest)
  }

  function PrintItems(items: seq<Json>, rest: Text): Text
    decreases items, 0
  {
    if items == [] then rest
    else if |items| == 1 then PrintThen(items[0], rest)
    else PrintThen(items[0], [COMMA] + PrintItems(items[1..], rest))
  }

  function PrintMember(m: (Text, Json), rest: Text): Text
    decreases m, 0
  {
    Quoted(m.0, [COLON] + PrintThen(m.1, rest))
  }

  function PrintMembers(members: seq<(Text, Json)>, rest: Text): Text
    decreases members, 0
  {
    if members == [] then rest
    else if |members| == 1 then PrintMember(members[0], rest)
    else PrintMember(members[0], [COMMA] + PrintMembers(members[1..], rest))
  }

  function Print(v: Json): Text {
    PrintThen(v, [])
  }

  // ------------------------------------------------------------------ parsing

  function HexValue(c: CodeUnit): int {
    if 48 <= c <= 57 then c - 48 else if 97 <= c <= 102 then c - 87 else 0
  }

  function Unescaped(c: CodeUnit): CodeUnit {
    if c == 98 then 8
    else if c == 116 then 9
    else if c == 110 then 10
    else if c == 102 then 12
    else if c == 114 then 13
    else c
  }

  /** String contents up to the closing quote, and what follows it. */
  function ParseChars(t: Text): (r: Option<(Text, Text)>)
    ensures r.Some? ==> |r.value.1| < |t|
    decreases |t|
  {
    if t == [] then None
    else if t[0] == QUOTE then Some(([], t[1..]))
    else
      var taken := if t[0] != BACKSLASH then 1 else if |t| > 1 && t[1] == 117 then 6 else 2;
      if |t| < taken then None
      else
        var c: CodeUnit :=
          if taken == 1 then t[0]
          else if taken == 2 then Unescaped(t[1])
          else HexValue(t[2]) * 4096 + HexValue(t[3]) * 256 + HexValue(t[4]) * 16 + HexValue(t[5]);
        match ParseChars(t[taken..])
        case None => None
        case Some((chars, rest)) => Some(([c] + chars, rest))
  }

  function NumberLength(t: Text): (n: nat)
    ensures n <= |t|
  {
    if t != [] && NumberUnit(t[0]) then 1 + NumberLength(t[1..]) else 0
  }

  function ParseValue(t: Text): (r: Option<(Json, Text)>)
    ensures r.Some? ==> |r.value.1| < |t|
    decreases |t|, 1
  {
    if t == [] then None
    else if t[0] == QUOTE then
      (match ParseChars(t[1..])
       case None => None
       case Some((chars, rest)) => Some((Str(chars), rest)))
    else if t[0] == OPEN_ARRAY then
      if |t| > 1 && t[1] == CLOSE_ARRAY then Some((Array([]), t[2..]))
      else
        (match ParseItems(t[1..])
         case None => None
         case Some((items, rest)) => Some((Array(items), rest)))
    else if t[0] == OPEN_OBJECT then
      if |t| > 1 && t[1] == CLOSE_OBJECT then Some((Object([]), t[2..]))
      else
        (match ParseMembers(t[1..])
         case None => None
         case Some((members, rest)) => Some((Object(members), rest)))
    else if NULL_TEXT <= t then Some((Null, t[4..]))
    else if TRUE_TEXT <= t then Some((Bool(true), t[4..]))
    else if FALSE_TEXT <= t then Some((Bool(false), t[5..]))
    else
      var n := NumberLength(t);
      if n == 0 then None else Some((Number(t[..n]), t[n..]))
  }

  /** One or more items, separated by commas, up to the closing bracket. */
  function ParseItems(t: Text): (r: Option<(seq<Json>, Text)>)
    ensures r.Some? ==> |r.value.1| < |t|
    decreases |t|, 2
  {
    match ParseValue(t)
    case None => None
    case Some((v, rest)) =>
      if rest != [] && rest[0] == CLOSE_ARRAY then Some(([v], rest[1..]))
      else if rest != [] && rest[0] == COMMA then
        (match ParseItems(rest[1..])
         case None => None
         case Some((items, rest')) => Some(([v] + items, rest')))
      else None
  }

  function ParseMember(t: Text): (r: Option<((Text, Json), Text)>)
    ensures r.Some? ==> |r.value.1| < |t|
    decreases |t|, 2
  {
    if t == [] || t[0] != QUOTE then None
    else
      match ParseChars(t[1..])
      case None => None
      case Some((key, rest)) =>
        if rest == [] || rest[0] != COLON then None
        else
          match ParseValue(rest[1..])
          case None => None
          case Some((v, rest')) => Some(((key, v), rest'))
  }

  function ParseMembers(t: Text): (r: Option<(seq<(Text, Json)>, Text)>)
    ensures r.Some? ==> |r.value.1| < |t|
    decreases |t|, 3
  {
    match ParseMember(t)
    case None => None
    case Some((m, rest)) =>
      if rest != [] && rest[0] == CLOSE_OBJECT then Some(([m], rest[1..]))
      else if rest != [] && rest[0] == COMMA then
        (match ParseMembers(rest[1..])
         case None => None
         case Some((members, rest')) => Some(([m] + members, rest')))
      else None
  }

  function Parse(t: Text): Option<Json> {
    match ParseValue(t)
    case Some((v, rest)) => if rest == [] then Some(v) else None
    case None => None
  }

  // --------------------------------------------------------------- round trip

  lemma HexDigits(c: CodeUnit)
    ensures c / 4096 * 4096 + c / 256 % 16 * 256 + c / 16 % 16 * 16 + c % 16 == c
    ensures c / 4096 < 16
  {
    var a := c / 16;
    var b := c / 256;
    assert c == 16 * a + c % 16;
    assert b == a / 16 && a == 16 * b + a % 16;
    assert c / 4096 == b / 16 && b == 16 * (b / 16) + b % 16;
  }

  lemma HexRoundTrip(n: int)
    requires 0 <= n < 16
    ensures HexValue(HexDigit(n)) == n
  {
  }

  lemma ParsePlain(c: CodeUnit, t: Text, chars: Text, rest: Text)
    requires c != QUOTE && c != BACKSLASH && ParseChars(t) == Some((chars, rest))
    ensures ParseChars([c] + t) == Some(([c] + chars, rest))
  {
    assert ([c] + t)[1..] == t;
  }

  lemma ParseShort(c: CodeUnit, t: Text, chars: Text, rest: Text)
    requires ShortEscape(c).Some? && ParseChars(t) == Some((chars, rest))
    ensures ParseChars([BACKSLASH, ShortEscape(c).value] + t) == Some(([c] + chars, rest))
  {
    assert ([BACKSLASH, ShortEscape(c).value] + t)[2..] == t;
  }

  lemma ParseHex(c: CodeUnit, t: Text, chars: Text, rest: Text)
    requires ParseChars(t) == Some((chars, rest))
    ensures ParseChars(HexEscape(c) + t) == Some(([c] + chars, rest))
  {
    HexDigits(c);
    HexRoundTrip(c / 4096);
    HexRoundTrip(c / 256 % 16);
    HexRoundTrip(c / 16 % 16);
    HexRoundTrip(c % 16);
    hide HexValue, HexDigit;
    assert (HexEscape(c) + t)[6..] == t;
  }

  lemma {:induction false} EscapeRoundTrip(s: Text, rest: Text)
    ensures ParseChars(Escape(s, [QUOTE] + rest)) == Some((s, rest))
  {
    hide ParseChars, HexEscape;
    if s == [] {
      ParseQuote(rest);
    } else if ShortEscape(s[0]).Some? {
      EscapeRoundTrip(s[1..], rest);
      ParseShort(s[0], Escape(s[1..], [QUOTE] + rest), s[1..], rest);
      assert s == [s[0]] + s[1..];
    } else if s[0] < 32 {
      EscapeRoundTrip(s[1..], rest);
      ParseHex(s[0], Escape(s[1..], [QUOTE] + rest), s[1..], rest);
      assert s == [s[0]] + s[1..];
    } else if HighSurrogate(s[0]) && |s| > 1 && LowSurrogate(s[1]) {
      EscapeRoundTrip(s[2..], rest);
      var t := Escape(s[2..], [QUOTE] + rest);
      ParsePlain(s[1], t, s[2..], rest);
      ParsePlain(s[0], [s[1]] + t, [s[1]] + s[2..], rest);
      assert s == [s[0]] + ([s[1]] + s[2..]);
    } else {
      EscapeRoundTrip(s[1..], rest);
      if HighSurrogate(s[0]) || LowSurrogate(s[0]) {
        ParseHex(s[0], Escape(s[1..], [QUOTE] + rest), s[1..], rest);
      } else {
        ParsePlain(s[0], Escape(s[1..], [QUOTE] + rest), s[1..], rest);
      }
      assert s == [s[0]] + s[1..];
    }
  }

  lemma ParseQuote(rest: Text)
    ensures ParseChars([QUOTE] + rest) == Some(([], rest))
  {
    assert ([QUOTE] + rest)[1..] == rest;
  }

  lemma {:induction false} NumberRoundTrip(text: Text, rest: Text)
    requires forall i :: 0 <= i < |text| ==> NumberUnit(text[i])
    requires Delimited(rest)
    ensures NumberLength(text + rest) == |text|
  {
    if text == [] {
      assert text + rest == rest;
    } else {
      NumberRoundTrip(text[1..], rest);
      assert (text + rest)[1..] == text[1..] + rest;
    }
  }

  /** A text that ends or continues with something no number contains. */
  predicate Delimited(rest: Text) {
    rest == [] || !NumberUnit(rest[0])
  }

  lemma ScalarRoundTrip(v: Json, rest: Text)
    requires WellFormed(v) && Delimited(rest) && (v.Null? || v.Bool? || v.Number?)
    ensures ParseValue(PrintThen(v, rest)) == Some((v, rest))
  {
    match v
    case Null => assert (NULL_TEXT + rest)[4..] == rest;
    case Bool(b) =>
      assert (TRUE_TEXT + rest)[4..] == rest;
      assert (FALSE_TEXT + rest)[5..] == rest;
    case Number(text) => PrintedNumber(text, rest);
  }

  lemma PrintedNumber(text: Text, rest: Text)
    requires WellFormed(Number(text)) && Delimited(rest)
    ensures ParseValue(PrintThen(Number(text), rest)) == Some((Number(text), rest))
  {
    NumberRoundTrip(text, rest);
    assert (text + rest)[0] == text[0];
    assert (text + rest)[..|text|] == text && (text + rest)[|text|..] == rest;
  }

  lemma Tail(c: CodeUnit, t: Text)
    ensures ([c] + t)[1..] == t && ([c] + t)[0] == c
  {
  }

  /** How a printed value can begin. */
  lemma Begins(v: Json, rest: Text)
    requires WellFormed(v)
    ensures PrintThen(v, rest) != []
    ensures PrintThen(v, rest)[0] != CLOSE_ARRAY && PrintThen(v, rest)[0] != CLOSE_OBJECT
  {
  }

  /** The parser recovers every well-formed value from its text, and stops where the text ends. */
  lemma {:induction false} ValueRoundTrip(v: Json, rest: Text)
    requires WellFormed(v) && Delimited(rest)
    ensures ParseValue(PrintThen(v, rest)) == Some((v, rest))
    decreases v, 1
  {
    match v
    case Str(chars) =>
      EscapeRoundTrip(chars, rest);
      Tail(QUOTE, Escape(chars, [QUOTE] + rest));
    case Array(items) =>
      Tail(OPEN_ARRAY, PrintItems(items, [CLOSE_ARRAY] + rest));
      Tail(CLOSE_ARRAY, rest);
      if items == [] {
        assert PrintThen(v, rest)[2..] == rest;
      } else {
        Begins(items[0], if |items| == 1 then [CLOSE_ARRAY] + rest else [COMMA] + PrintItems(items[1..], [CLOSE_ARRAY] + rest));
        ItemsRoundTrip(items, rest);
      }
    case Object(members) =>
      Tail(OPEN_OBJECT, PrintMembers(members, [CLOSE_OBJECT] + rest));
      Tail(CLOSE_OBJECT, rest);
      if members == [] {
        assert PrintThen(v, rest)[2..] == rest;
      } else {
        MembersRoundTrip(members, rest);
      }
    case _ => ScalarRoundTrip(v, rest);
  }

  lemma {:induction false} ItemsRoundTrip(items: seq<Json>, rest: Text)
    requires items != [] && forall i :: 0 <= i < |items| ==> WellFormed(items[i])
    ensures ParseItems(PrintItems(items, [CLOSE_ARRAY] + rest)) == Some((items, rest))
    decreases items, 0
  {
    hide ParseValue, PrintThen;
    if |items| == 1 {
      Tail(CLOSE_ARRAY, rest);
      ValueRoundTrip(items[0], [CLOSE_ARRAY] + rest);
      assert items == [items[0]];
    } else {
      var more := PrintItems(items[1..], [CLOSE_ARRAY] + rest);
      Tail(COMMA, more);
      ValueRoundTrip(items[0], [COMMA] + more);
      ItemsRoundTrip(items[1..], rest);
      assert items == [items[0]] + items[1..];
    }
  }

  lemma {:induction false} MemberRoundTrip(m: (Text, Json), rest: Text)
    requires WellFormed(m.1) && Delimited(rest)
    ensures ParseMember(PrintMember(m, rest)) == Some((m, rest))
    decreases m, 0
  {
    hide ParseValue, PrintThen, ParseChars, Escape;
    var more := [COLON] + PrintThen(m.1, rest);
    Tail(QUOTE, Escape(m.0, [QUOTE] + more));
    EscapeRoundTrip(m.0, more);
    Tail(COLON, PrintThen(m.1, rest));
    ValueRoundTrip(m.1, rest);
  }

  lemma {:induction false} MembersRoundTrip(members: seq<(Text, Json)>, rest: Text)
    requires members != [] && forall i :: 0 <= i < |members| ==> WellFormed(members[i].1)
    ensures ParseMembers(PrintMembers(members, [CLOSE_OBJECT] + rest)) == Some((members, rest))
    ensures PrintMembers(members, [CLOSE_OBJECT] + rest) != []
    ensures PrintMembers(members, [CLOSE_OBJECT] + rest)[0] == QUOTE
    decreases members, 0
  {
    hide ParseMember, PrintThen, Escape;
    if |members| == 1 {
      Tail(CLOSE_OBJECT, rest);
      MemberRoundTrip(members[0], [CLOSE_OBJECT] + rest);
      assert members == [members[0]];
    } else {
      var more := PrintMembers(members[1..], [CLOSE_OBJECT] + rest);
      Tail(COMMA, more);
      MemberRoundTrip(members[0], [COMMA] + more);
      MembersRoundTrip(members[1..], rest);
      assert members == [members[0]] + members[1..];
    }
  }

  /** Printing loses nothing: the text determines the value. */
  lemma PrintRoundTrip(v: Json)
    requires WellFormed(v)
    ensures Parse(Print(v)) == Some(v)
  {
    ValueRoundTrip(v, []);
  }
}
