/** A simplified stand-in for serde_json, the library wire_message.rs uses to turn a
    `WireMessage` into text and back. JSON values are a tree; `Print` writes the compact text
    `serde_json::to_string` writes (no whitespace, strings escaped the way serde_json escapes
    them, non-negative integers only) and `Parse` reads that compact form back, raising the
    serde_json error kind serde_json raises at the point where the parser stops. Whitespace,
    fractions, exponents, negative numbers and the nesting limit are not modelled.
    The round trip `Parse(Print(j)) == Success(j)` is proved for every value. */
module Json {
  import opened Wrappers
  import DebugFormat

  datatype Json =
    | JNull
    | JBool(b: bool)
    | JNum(n: nat)
    | JStr(s: string)
    | JArr(items: seq<Json>)
    | JObj(members: seq<Member>)

  datatype Member = Member(key: string, value: Json)

  /** The serde_json error kinds the parser below can raise. */
  datatype ErrorCode =
    | EofWhileParsingValue
    | EofWhileParsingString
    | EofWhileParsingList
    | EofWhileParsingObject
    | ExpectedValue
    | ExpectedIdent
    | ExpectedColon
    | ExpectedListCommaOrEnd
    | ExpectedObjectCommaOrEnd
    | KeyMustBeAString
    | InvalidNumber
    | TrailingComma
    | InvalidEscape
    | InvalidUnicodeCodePoint
    | ControlCharacterWhileParsingString
    | TrailingCharacters

  /** An error, with the length of the input left unread where it was raised. */
  datatype JsonError = JsonError(code: ErrorCode, remaining: nat)

  function Message(code: ErrorCode): string
  {
    match code
    case EofWhileParsingValue => "EOF while parsing a value"
    case EofWhileParsingString => "EOF while parsing a string"
    case EofWhileParsingList => "EOF while parsing a list"
    case EofWhileParsingObject => "EOF while parsing an object"
    case ExpectedValue => "expected value"
    case ExpectedIdent => "expected ident"
    case ExpectedColon => "expected `:`"
    case ExpectedListCommaOrEnd => "expected `,` or `]`"
    case ExpectedObjectCommaOrEnd => "expected `,` or `}`"
    case KeyMustBeAString => "key must be a string"
    case InvalidNumber => "invalid number"
    case TrailingComma => "trailing comma"
    case InvalidEscape => "invalid escape"
    case InvalidUnicodeCodePoint => "invalid unicode code point"
    case ControlCharacterWhileParsingString => "control character (\\u0000-\\u001F) found while parsing a string"
    case TrailingCharacters => "trailing characters"
  }

  // ---------------------------------------------------------------------------------------
  // Decimal numbers

  predicate IsDigit(c: char) { '0' <= c <= '9' }

  predicate AllDigits(s: string) { forall i :: 0 <= i < |s| ==> IsDigit(s[i]) }

  function DigitChar(d: nat): (c: char)
    requires d < 10
    ensures IsDigit(c)
  {
    ('0' as int + d) as char
  }

  function DigitValue(c: char): (d: nat)
    requires IsDigit(c)
    ensures d < 10 && DigitChar(d) == c
  {
    c as int - '0' as int
  }

  /** The decimal text of `n`, without leading zeros. */
  function NatToString(n: nat): (r: string)
    ensures |r| > 0 && AllDigits(r)
    ensures |r| > 1 ==> r[0] != '0'
  {
    if n < 10 then [DigitChar(n)] else NatToString(n / 10) + [DigitChar(n % 10)]
  }

  /** The number a string of decimal digits denotes. */
  function DigitsValue(ds: string): nat
    requires AllDigits(ds)
  {
    if ds == [] then 0 else DigitsValue(ds[..|ds| - 1]) * 10 + DigitValue(ds[|ds| - 1])
  }

  lemma {:induction false} DigitsValueOfNatToString(n: nat)
    ensures DigitsValue(NatToString(n)) == n
  {
    var r := NatToString(n);
    if n < 10 {
      assert r[..|r| - 1] == [];
    } else {
      DigitsValueOfNatToString(n / 10);
      assert r[..|r| - 1] == NatToString(n / 10);
    }
  }

  /** Splits off the longest prefix of digits. */
  function TakeDigits(s: string): (r: (string, string))
    ensures r.0 + r.1 == s && AllDigits(r.0)
    ensures r.1 == [] || !IsDigit(r.1[0])
  {
    if s != [] && IsDigit(s[0]) then
      var (ds, rest) := TakeDigits(s[1..]);
      ([s[0]] + ds, rest)
    else
      ([], s)
  }

  lemma {:induction false} TakeDigitsOf(ds: string, rest: string)
    requires AllDigits(ds)
    requires rest == [] || !IsDigit(rest[0])
    ensures TakeDigits(ds + rest) == (ds, rest)
    decreases |ds|
  {
    if ds != [] {
      assert AllDigits(ds[1..]) by {
        forall i | 0 <= i < |ds[1..]| ensures IsDigit(ds[1..][i]) { assert ds[1..][i] == ds[i + 1]; }
      }
      TakeDigitsOf(ds[1..], rest);
      assert (ds + rest)[0] == ds[0];
      assert (ds + rest)[1..] == ds[1..] + rest;
      assert [ds[0]] + ds[1..] == ds;
    } else {
      assert ds + rest == rest;
    }
  }

  // ---------------------------------------------------------------------------------------
  // Strings

  predicate IsControl(c: char) { c < ' ' }

  function HexDigit(d: nat): (c: char)
    requires d < 16
  {
    "0123456789abcdef"[d]
  }

  function HexValue(c: char): (r: Option<nat>)
    ensures r.Some? ==> r.value < 16
  {
    if '0' <= c <= '9' then Some(c as int - '0' as int)
    else if 'a' <= c <= 'f' then Some(c as int - 'a' as int + 10)
    else if 'A' <= c <= 'F' then Some(c as int - 'A' as int + 10)
    else None
  }

  /** The code unit written by the four hex digits of a `\uXXXX` escape. */
  function Hex4Value(h: string): (r: Option<nat>)
    requires |h| == 4
    ensures r.Some? ==> r.value < 0x10000
  {
    match (HexValue(h[0]), HexValue(h[1]), HexValue(h[2]), HexValue(h[3]))
    case (Some(a), Some(b), Some(c), Some(d)) => Some(a * 0x1000 + b * 0x100 + c * 0x10 + d)
    case _ => None
  }

  /** How serde_json writes one character inside a string literal. */
  function EscapeChar(c: char): (r: string)
    ensures |r| == 1 ==> r == [c] && c != '"' && c != '\\' && !IsControl(c)
    ensures |r| != 1 ==> |r| > 1 && r[0] == '\\'
  {
    if c == '"' then "\\\""
    else if c == '\\' then "\\\\"
    else if c == 8 as char then "\\b"
    else if c == 12 as char then "\\f"
    else if c == '\n' then "\\n"
    else if c == '\r' then "\\r"
    else if c == '\t' then "\\t"
    else if IsControl(c) then "\\u00" + [HexDigit(c as int / 16), HexDigit(c as int % 16)]
    else [c]
  }

  function Escape(s: string): string
  {
    if s == [] then [] else EscapeChar(s[0]) + Escape(s[1..])
  }

  /** A character serde_json writes as itself inside a string literal. */
  predicate IsPlain(c: char)
  {
    c != '"' && c != '\\' && !IsControl(c)
  }

  /** Text without quotes, backslashes or control characters is written unchanged. */
  lemma {:induction false} EscapePlain(s: string)
    requires forall i :: 0 <= i < |s| ==> IsPlain(s[i])
    ensures Escape(s) == s
  {
    if s != [] {
      EscapePlain(s[1..]);
      assert [s[0]] + s[1..] == s;
    }
  }

  /** The character a two-character escape `\x` stands for. */
  function UnescapeChar(x: char): Option<char>
  {
    if x == '"' then Some('"')
    else if x == '\\' then Some('\\')
    else if x == '/' then Some('/')
    else if x == 'b' then Some(8 as char)
    else if x == 'f' then Some(12 as char)
    else if x == 'n' then Some('\n')
    else if x == 'r' then Some('\r')
    else if x == 't' then Some('\t')
    else None
  }

  /** Reads the escape sequence at the front of `s` (which starts with a backslash): the
      character it stands for and the length of the sequence. */
  function ParseEscape(s: string): (r: Result<(char, nat), JsonError>)
    requires s != [] && s[0] == '\\'
    ensures r.Success? ==> 2 <= r.value.1 <= |s|
    ensures r.Failure? ==> r.error.remaining <= |s|
  {
    if |s| < 2 then Failure(JsonError(EofWhileParsingString, 0))
    else if s[1] == 'u' then
      if |s| < 6 then Failure(JsonError(EofWhileParsingString, 0))
      else match Hex4Value(s[2..6])
        case None => Failure(JsonError(InvalidEscape, |s| - 2))
        case Some(code) =>
          if 0xD800 <= code < 0xE000 then Failure(JsonError(InvalidUnicodeCodePoint, |s| - 6))
          else Success((code as char, 6))
    else match UnescapeChar(s[1])
      case None => Failure(JsonError(InvalidEscape, |s| - 1))
      case Some(c) => Success((c, 2))
  }

  /** Reads the rest of a string literal whose opening quote has been consumed: its contents
      and the text after the closing quote. */
  function ParseStringBody(s: string): (r: Result<(string, string), JsonError>)
    ensures r.Success? ==> |r.value.1| < |s|
    ensures r.Failure? ==> r.error.remaining <= |s|
    decreases |s|
  {
    if s == [] then Failure(JsonError(EofWhileParsingString, 0))
    else if s[0] == '"' then Success(([], s[1..]))
    else if IsControl(s[0]) then Failure(JsonError(ControlCharacterWhileParsingString, |s|))
    else
      var step: Result<(char, nat), JsonError> := if s[0] == '\\' then ParseEscape(s) else Success((s[0], 1));
      match step
      case Failure(e) => Failure(e)
      case Success((c, n)) =>
        match ParseStringBody(s[n..])
        case Failure(e) => Failure(e)
        case Success((t, rest)) => Success(([c] + t, rest))
  }

  lemma HexEscapeRoundTrip(c: char)
    requires IsControl(c)
    ensures Hex4Value("00" + [HexDigit(c as int / 16), HexDigit(c as int % 16)]) == Some(c as int)
  {
    var hi, lo := c as int / 16, c as int % 16;
    assert hi < 2;
    assert HexValue(HexDigit(hi)) == Some(hi);
    assert HexValue(HexDigit(lo)) == Some(lo);
  }

  /** One escaped character, then the rest, is read back as that character and the rest. */
  lemma EscapeCharStep(c: char, tail: string, t: string, rest: string)
    requires ParseStringBody(tail) == Success((t, rest))
    ensures ParseStringBody(EscapeChar(c) + tail) == Success(([c] + t, rest))
  {
    var e := EscapeChar(c);
    var s := e + tail;
    if |e| == 1 {
      assert s[1..] == tail;
    } else if |e| == 2 {
      assert s[2..] == tail;
    } else {
      assert IsControl(c) && e == "\\u00" + [HexDigit(c as int / 16), HexDigit(c as int % 16)];
      assert s[2..6] == "00" + [HexDigit(c as int / 16), HexDigit(c as int % 16)];
      HexEscapeRoundTrip(c);
      assert s[6..] == tail;
    }
  }

  lemma {:induction false} ParseStringBodyOfEscape(t: string, rest: string)
    ensures ParseStringBody(Escape(t) + "\"" + rest) == Success((t, rest))
    decreases |t|
  {
    if t == [] {
      assert Escape(t) + "\"" + rest == "\"" + rest;
      assert ("\"" + rest)[1..] == rest;
    } else {
      var tail := Escape(t[1..]) + "\"" + rest;
      assert Escape(t) + "\"" + rest == EscapeChar(t[0]) + tail by {
        Assoc(EscapeChar(t[0]), Escape(t[1..]), "\"");
        Assoc(EscapeChar(t[0]), Escape(t[1..]) + "\"", rest);
      }
      ParseStringBodyOfEscape(t[1..], rest);
      EscapeCharStep(t[0], tail, t[1..], rest);
      assert [t[0]] + t[1..] == t;
    }
  }

  // ---------------------------------------------------------------------------------------
  // Printing

  /** The characters a printed value can start with. */
  predicate IsValueStart(c: char)
  {
    c == 'n' || c == 't' || c == 'f' || c == '"' || c == '[' || c == '{' || IsDigit(c)
  }

  function Quote(s: string): string
  {
    "\"" + Escape(s) + "\""
  }

  /** The compact text of a value, as `serde_json::to_string` writes it. */
  function Print(j: Json): (r: string)
    ensures |r| > 0 && IsValueStart(r[0])
  {
    match j
    case JNull => "null"
    case JBool(b) => if b then "true" else "false"
    case JNum(n) => NatToString(n)
    case JStr(s) => Quote(s)
    case JArr(items) => "[" + PrintItems(items) + "]"
    case JObj(members) => "{" + PrintMembers(members) + "}"
  }

  function PrintItems(items: seq<Json>): string
  {
    if |items| == 0 then ""
    else if |items| == 1 then Print(items[0])
    else Print(items[0]) + "," + PrintItems(items[1..])
  }

  function PrintMember(m: Member): string
  {
    Quote(m.key) + ":" + Print(m.value)
  }

  function PrintMembers(members: seq<Member>): string
  {
    if |members| == 0 then ""
    else if |members| == 1 then PrintMember(members[0])
    else PrintMember(members[0]) + "," + PrintMembers(members[1..])
  }

  // ---------------------------------------------------------------------------------------
  // Parsing

  /** Reads one of the keywords `null`, `true`, `false`. */
  function ParseLiteral(s: string, word: string, v: Json): (r: Result<(Json, string), JsonError>)
    requires |word| > 0
    ensures r.Success? ==> |r.value.1| < |s|
    ensures r.Failure? ==> r.error.remaining <= |s|
  {
    if |s| >= |word| && s[..|word|] == word then Success((v, s[|word|..]))
    else if |s| < |word| && s == word[..|s|] then Failure(JsonError(EofWhileParsingValue, 0))
    else Failure(JsonError(ExpectedIdent, |s|))
  }

  /** Reads a number: the longest run of digits. A `0` followed by another digit is an
      invalid number, as JSON allows no leading zeros. */
  function ParseNumber(s: string): (r: Result<(Json, string), JsonError>)
    requires s != [] && IsDigit(s[0])
    ensures r.Success? <==> !(s[0] == '0' && |s| > 1 && IsDigit(s[1]))
    ensures r.Success? ==> |r.value.1| < |s|
    ensures r.Failure? ==> r.error == JsonError(InvalidNumber, |s| - 1)
  {
    if s[0] == '0' && |s| > 1 && IsDigit(s[1]) then Failure(JsonError(InvalidNumber, |s| - 1))
    else
      var (ds, rest) := TakeDigits(s);
      Success((JNum(DigitsValue(ds)), rest))
  }

  /** Reads a string literal whose opening quote has been consumed. */
  function ParseString(s: string): (r: Result<(Json, string), JsonError>)
    ensures r.Success? ==> |r.value.1| < |s|
    ensures r.Failure? ==> r.error.remaining <= |s|
  {
    match ParseStringBody(s)
    case Failure(e) => Failure(e)
    case Success((t, rest)) => Success((JStr(t), rest))
  }

  /** Reads one value from the front of `s`: the value and the text after it. */
  function ParseValue(s: string): (r: Result<(Json, string), JsonError>)
    ensures r.Success? ==> |r.value.1| < |s|
    ensures r.Failure? ==> r.error.remaining <= |s|
    decreases |s|, 1
  {
    if s == [] then Failure(JsonError(EofWhileParsingValue, 0))
    else if s[0] == 'n' then ParseLiteral(s, "null", JNull)
    else if s[0] == 't' then ParseLiteral(s, "true", JBool(true))
    else if s[0] == 'f' then ParseLiteral(s, "false", JBool(false))
    else if IsDigit(s[0]) then ParseNumber(s)
    else if s[0] == '"' then ParseString(s[1..])
    else if s[0] == '[' then ParseArray(s[1..])
    else if s[0] == '{' then ParseObject(s[1..])
    else Failure(JsonError(ExpectedValue, |s|))
  }

  /** Reads an array whose opening bracket has been consumed. */
  function ParseArray(s: string): (r: Result<(Json, string), JsonError>)
    ensures r.Success? ==> |r.value.1| < |s|
    ensures r.Failure? ==> r.error.remaining <= |s|
    decreases |s|, 3
  {
    if s == [] then Failure(JsonError(EofWhileParsingList, 0))
    else if s[0] == ']' then Success((JArr([]), s[1..]))
    else
      match ParseItems(s)
      case Failure(e) => Failure(e)
      case Success((items, rest)) => Success((JArr(items), rest))
  }

  /** Reads an object whose opening brace has been consumed. */
  function ParseObject(s: string): (r: Result<(Json, string), JsonError>)
    ensures r.Success? ==> |r.value.1| < |s|
    ensures r.Failure? ==> r.error.remaining <= |s|
    decreases |s|, 4
  {
    if s == [] then Failure(JsonError(EofWhileParsingObject, 0))
    else if s[0] == '}' then Success((JObj([]), s[1..]))
    else
      match ParseMembers(s)
      case Failure(e) => Failure(e)
      case Success((members, rest)) => Success((JObj(members), rest))
  }

  /** Reads the items of a non-empty array and its closing bracket. */
  function ParseItems(s: string): (r: Result<(seq<Json>, string), JsonError>)
    ensures r.Success? ==> |r.value.1| < |s|
    ensures r.Failure? ==> r.error.remaining <= |s|
    decreases |s|, 2
  {
    match ParseValue(s)
    case Failure(e) => Failure(e)
    case Success((v, rest)) =>
      if rest == [] then Failure(JsonError(EofWhileParsingList, 0))
      else if rest[0] == ']' then Success(([v], rest[1..]))
      else if rest[0] == ',' then
        if |rest| > 1 && rest[1] == ']' then Failure(JsonError(TrailingComma, |rest| - 1))
        else
          match ParseItems(rest[1..])
          case Failure(e) => Failure(e)
          case Success((vs, rest')) => Success(([v] + vs, rest'))
      else Failure(JsonError(ExpectedListCommaOrEnd, |rest|))
  }

  /** Reads one `"key":value` member of an object. */
  function ParseMember(s: string): (r: Result<(Member, string), JsonError>)
    ensures r.Success? ==> |r.value.1| < |s|
    ensures r.Failure? ==> r.error.remaining <= |s|
    decreases |s|, 2
  {
    if s == [] then Failure(JsonError(EofWhileParsingObject, 0))
    else if s[0] != '"' then Failure(JsonError(KeyMustBeAString, |s|))
    else
      match ParseStringBody(s[1..])
      case Failure(e) => Failure(e)
      case Success((k, r1)) =>
        if r1 == [] then Failure(JsonError(EofWhileParsingObject, 0))
        else if r1[0] != ':' then Failure(JsonError(ExpectedColon, |r1|))
        else
          match ParseValue(r1[1..])
          case Failure(e) => Failure(e)
          case Success((v, r2)) => Success((Member(k, v), r2))
  }

  /** Reads the members of a non-empty object and its closing brace. */
  function ParseMembers(s: string): (r: Result<(seq<Member>, string), JsonError>)
    ensures r.Success? ==> |r.value.1| < |s|
    ensures r.Failure? ==> r.error.remaining <= |s|
    decreases |s|, 3
  {
    match ParseMember(s)
    case Failure(e) => Failure(e)
    case Success((m, rest)) =>
      if rest == [] then Failure(JsonError(EofWhileParsingObject, 0))
      else if rest[0] == '}' then Success(([m], rest[1..]))
      else if rest[0] == ',' then
        if |rest| == 1 then Failure(JsonError(EofWhileParsingValue, 0))
        else if rest[1] == '}' then Failure(JsonError(TrailingComma, |rest| - 1))
        else
          match ParseMembers(rest[1..])
          case Failure(e) => Failure(e)
          case Success((ms, rest')) => Success(([m] + ms, rest'))
      else Failure(JsonError(ExpectedObjectCommaOrEnd, |rest|))
  }

  /** Reads a whole document: one value and nothing after it, as `serde_json::from_str`. */
  function Parse(s: string): (r: Result<Json, JsonError>)
    ensures r.Failure? ==> r.error.remaining <= |s|
  {
    match ParseValue(s)
    case Failure(e) => Failure(e)
    case Success((v, rest)) =>
      if rest == [] then Success(v) else Failure(JsonError(TrailingCharacters, |rest|))
  }

  // ---------------------------------------------------------------------------------------
  // Round trip

  lemma Assoc(a: string, b: string, c: string)
    ensures a + b + c == a + (b + c)
  {
  }

  lemma ParseNullOfPrint(rest: string)
    ensures ParseValue("null" + rest) == Success((JNull, rest))
  {
    var s := "null" + rest;
    assert s[0] == 'n' && s[..4] == "null" && s[4..] == rest;
  }

  lemma ParseBoolOfPrint(b: bool, rest: string)
    ensures ParseValue(Print(JBool(b)) + rest) == Success((JBool(b), rest))
  {
    var s := Print(JBool(b)) + rest;
    if b {
      assert s[0] == 't' && s[..4] == "true" && s[4..] == rest;
    } else {
      assert s[0] == 'f' && s[..5] == "false" && s[5..] == rest;
    }
  }

  lemma ParseNumOfPrint(n: nat, rest: string)
    requires rest == [] || !IsDigit(rest[0])
    ensures ParseValue(NatToString(n) + rest) == Success((JNum(n), rest))
  {
    var s := NatToString(n) + rest;
    assert s[0] == NatToString(n)[0];
    TakeDigitsOf(NatToString(n), rest);
    DigitsValueOfNatToString(n);
  }

  lemma ParseStrOfPrint(t: string, rest: string)
    ensures ParseValue(Quote(t) + rest) == Success((JStr(t), rest))
  {
    var body := Escape(t) + "\"" + rest;
    assert Quote(t) + rest == "\"" + body by {
      Assoc("\"" + Escape(t), "\"", rest);
      Assoc("\"", Escape(t), "\"" + rest);
      Assoc(Escape(t), "\"", rest);
    }
    assert ("\"" + body)[0] == '"' && ("\"" + body)[1..] == body;
    ParseStringBodyOfEscape(t, rest);
  }

  lemma ParseValueOfBracket(x: string)
    ensures ParseValue("[" + x) == ParseArray(x)
  {
    assert ("[" + x)[0] == '[' && ("[" + x)[1..] == x;
  }

  lemma ParseValueOfBrace(x: string)
    ensures ParseValue("{" + x) == ParseObject(x)
  {
    assert ("{" + x)[0] == '{' && ("{" + x)[1..] == x;
  }

  lemma {:induction false} ParseValueOfPrint(j: Json, rest: string)
    requires rest == [] || !IsDigit(rest[0])
    ensures ParseValue(Print(j) + rest) == Success((j, rest))
    decreases j, 2
  {
    match j
    case JNull => ParseNullOfPrint(rest);
    case JBool(b) => ParseBoolOfPrint(b, rest);
    case JNum(n) => ParseNumOfPrint(n, rest);
    case JStr(t) => ParseStrOfPrint(t, rest);
    case JArr(items) =>
      Assoc("[" + PrintItems(items), "]", rest);
      Assoc("[", PrintItems(items), "]" + rest);
      Assoc(PrintItems(items), "]", rest);
      ParseValueOfBracket(PrintItems(items) + "]" + rest);
      ParseArrayOfPrint(items, rest);
    case JObj(members) =>
      Assoc("{" + PrintMembers(members), "}", rest);
      Assoc("{", PrintMembers(members), "}" + rest);
      Assoc(PrintMembers(members), "}", rest);
      ParseValueOfBrace(PrintMembers(members) + "}" + rest);
      ParseObjectOfPrint(members, rest);
  }

  lemma {:induction false} ParseArrayOfPrint(items: seq<Json>, rest: string)
    ensures ParseArray(PrintItems(items) + "]" + rest) == Success((JArr(items), rest))
    decreases items, 1
  {
    var s := PrintItems(items) + "]" + rest;
    if items == [] {
      assert s == "]" + rest;
      assert s[1..] == rest;
    } else {
      ParseItemsOfPrint(items, rest);
      assert s[0] == Print(items[0])[0];
    }
  }

  lemma {:induction false} ParseObjectOfPrint(members: seq<Member>, rest: string)
    ensures ParseObject(PrintMembers(members) + "}" + rest) == Success((JObj(members), rest))
    decreases members, 1
  {
    var s := PrintMembers(members) + "}" + rest;
    if members == [] {
      assert s == "}" + rest;
      assert s[1..] == rest;
    } else {
      ParseMembersOfPrint(members, rest);
      assert s[0] == '"';
    }
  }

  /** How ParseItems ends when the first item is followed by the closing bracket. */
  lemma ParseItemsLast(s: string, v: Json, rest: string)
    requires ParseValue(s) == Success((v, "]" + rest))
    ensures ParseItems(s) == Success(([v], rest))
  {
    assert ("]" + rest)[1..] == rest;
  }

  /** How ParseItems continues when the first item is followed by a comma and a value. */
  lemma ParseItemsNext(s: string, v: Json, more: string)
    requires ParseValue(s) == Success((v, "," + more))
    requires more != [] && more[0] != ']'
    requires ParseItems(more).Success?
    ensures ParseItems(s) == Success(([v] + ParseItems(more).value.0, ParseItems(more).value.1))
  {
    assert ("," + more)[1..] == more;
  }

  /** The text of a non-empty list of items starts the way a value starts. */
  lemma PrintItemsStart(items: seq<Json>)
    requires items != []
    ensures PrintItems(items) != [] && IsValueStart(PrintItems(items)[0])
  {
    if |items| > 1 {
      assert PrintItems(items)[0] == Print(items[0])[0];
    }
  }

  lemma {:induction false} ParseItemsOfPrint(items: seq<Json>, rest: string)
    requires items != []
    ensures ParseItems(PrintItems(items) + "]" + rest) == Success((items, rest))
    decreases items, 0
  {
    var s := PrintItems(items) + "]" + rest;
    if |items| == 1 {
      assert s == Print(items[0]) + ("]" + rest);
      ParseValueOfPrint(items[0], "]" + rest);
      ParseItemsLast(s, items[0], rest);
      assert [items[0]] == items;
    } else {
      var more := PrintItems(items[1..]) + "]" + rest;
      assert s == Print(items[0]) + ("," + more);
      ParseValueOfPrint(items[0], "," + more);
      PrintItemsStart(items[1..]);
      assert more[0] == PrintItems(items[1..])[0];
      ParseItemsOfPrint(items[1..], rest);
      ParseItemsNext(s, items[0], more);
      assert [items[0]] + items[1..] == items;
    }
  }

  /** How ParseMember continues once the key and the colon have been read. */
  lemma ParseMemberStep(s: string, key: string, r1: string)
    requires s != [] && s[0] == '"'
    requires ParseStringBody(s[1..]) == Success((key, r1))
    requires r1 != [] && r1[0] == ':'
    ensures ParseValue(r1[1..]).Success? ==>
      ParseMember(s) == Success((Member(key, ParseValue(r1[1..]).value.0), ParseValue(r1[1..]).value.1))
  {
  }

  lemma {:induction false} ParseMemberOfPrint(m: Member, after: string)
    requires after == [] || !IsDigit(after[0])
    ensures ParseMember(PrintMember(m) + after) == Success((m, after))
    decreases m, 0
  {
    var valueText := ":" + (Print(m.value) + after);
    var s := PrintMember(m) + after;
    assert s == "\"" + (Escape(m.key) + "\"" + valueText) by {
      Assoc(Quote(m.key) + ":", Print(m.value), after);
      Assoc(Quote(m.key), ":", Print(m.value) + after);
      Assoc("\"" + Escape(m.key), "\"", valueText);
      Assoc("\"", Escape(m.key), "\"" + valueText);
      Assoc("\"", Escape(m.key) + "\"", valueText);
    }
    assert ParseStringBody(s[1..]) == Success((m.key, valueText)) by {
      ParseStringBodyOfEscape(m.key, valueText);
    }
    assert ParseValue(valueText[1..]) == Success((m.value, after)) by {
      ParseValueOfPrint(m.value, after);
    }
    ParseMemberStep(s, m.key, valueText);
  }

  /** How ParseMembers ends when the first member is followed by the closing brace. */
  lemma ParseMembersLast(s: string, m: Member, rest: string)
    requires ParseMember(s) == Success((m, "}" + rest))
    ensures ParseMembers(s) == Success(([m], rest))
  {
    assert ("}" + rest)[1..] == rest;
  }

  /** How ParseMembers continues when the first member is followed by a comma and a key. */
  lemma ParseMembersNext(s: string, m: Member, more: string)
    requires ParseMember(s) == Success((m, "," + more))
    requires more != [] && more[0] != '}'
    requires ParseMembers(more).Success?
    ensures ParseMembers(s) == Success(([m] + ParseMembers(more).value.0, ParseMembers(more).value.1))
  {
    assert ("," + more)[1..] == more;
  }

  /** The printed members, then `}` and `rest`, split after the first member. */
  lemma PrintMembersSplit(members: seq<Member>, rest: string)
    requires members != []
    ensures |members| == 1 ==> PrintMembers(members) + "}" + rest == PrintMember(members[0]) + ("}" + rest)
    ensures |members| > 1 ==>
      (PrintMembers(members) + "}" + rest
         == PrintMember(members[0]) + ("," + (PrintMembers(members[1..]) + "}" + rest)))
  {
    var head := PrintMember(members[0]);
    if |members| == 1 {
      Assoc(head, "}", rest);
    } else {
      var tail := PrintMembers(members[1..]);
      calc {
        PrintMembers(members) + "}" + rest;
        head + "," + tail + "}" + rest;
        { Assoc(head + ",", tail, "}"); }
        head + "," + (tail + "}") + rest;
        { Assoc(head + ",", tail + "}", rest); }
        head + "," + (tail + "}" + rest);
        { Assoc(head, ",", tail + "}" + rest); }
        head + ("," + (tail + "}" + rest));
      }
    }
  }

  lemma {:induction false} ParseMembersOfPrint(members: seq<Member>, rest: string)
    requires members != []
    ensures ParseMembers(PrintMembers(members) + "}" + rest) == Success((members, rest))
    decreases members, 0
  {
    var m := members[0];
    var s := PrintMembers(members) + "}" + rest;
    PrintMembersSplit(members, rest);
    if |members| == 1 {
      ParseMemberOfPrint(m, "}" + rest);
      ParseMembersLast(s, m, rest);
      assert [m] == members;
    } else {
      var more := PrintMembers(members[1..]) + "}" + rest;
      ParseMemberOfPrint(m, "," + more);
      assert more[0] == '"' by {
        assert PrintMembers(members[1..])[0] == PrintMember(members[1])[0];
      }
      ParseMembersOfPrint(members[1..], rest);
      ParseMembersNext(s, m, more);
      assert [m] + members[1..] == members;
    }
  }

  /** Every value is read back from its printed text. */
  lemma ParsePrint(j: Json)
    ensures Parse(Print(j)) == Success(j)
  {
    ParseValueOfPrint(j, []);
    assert Print(j) + [] == Print(j);
  }

  /** Distinct values print to distinct texts. */
  lemma PrintInjective(a: Json, b: Json)
    ensures Print(a) == Print(b) <==> a == b
  {
    ParsePrint(a);
    ParsePrint(b);
  }

  /** Texts the compact printer never writes, rejected with serde_json's error kinds. */
  lemma LeadingZeroRejected()
    ensures Parse("01") == Failure(JsonError(InvalidNumber, 1))
  {
  }

  lemma TrailingCommaInList()
    ensures Parse("[1,]") == Failure(JsonError(TrailingComma, 1))
  {
  }

  lemma TrailingCommaInObject()
    ensures Parse("{\"a\":1,}") == Failure(JsonError(TrailingComma, 1))
  {
  }

  // ---------------------------------------------------------------------------------------
  // Error reports

  /** The number of bytes UTF-8 encodes `c` in. */
  function Utf8Width(c: char): (w: nat)
    ensures 1 <= w <= 4
    ensures w == 1 <==> c < 128 as char
  {
    if c < 128 as char then 1
    else if c < 0x800 as char then 2
    else if c < 0x1_0000 as char then 3
    else 4
  }

  /** Line (from 1) and column (from 0, in bytes, as serde_json counts it) reached after
      reading `consumed`. */
  function Position(consumed: string): (r: (nat, nat))
    ensures r.0 >= 1
  {
    if consumed == [] then (1, 0)
    else
      var (line, column) := Position(consumed[..|consumed| - 1]);
      var c := consumed[|consumed| - 1];
      if c == '\n' then (line + 1, 0) else (line, column + Utf8Width(c))
  }

  /** The `Debug` text of a serde_json error: `Error("<message>", line: L, column: C)`. */
  function DebugError(message: string, consumed: string): (r: string)
    ensures |r| > |message|
  {
    var (line, column) := Position(consumed);
    "Error(" + DebugFormat.DebugStr(message) + ", line: " + NatToString(line)
      + ", column: " + NatToString(column) + ")"
  }

  /** The `Debug` text of a syntax error raised while parsing `input`. */
  function DebugParseError(e: JsonError, input: string): (r: string)
    requires e.remaining <= |input|
    ensures |r| > 0
  {
    DebugError(Message(e.code), input[..|input| - e.remaining])
  }
}
