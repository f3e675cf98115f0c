/** Rust's `Debug` rendering of a string slice, `format!("{:?}", s)`: the text between double
    quotes, with quote, backslash, NUL, tab, carriage return and line feed escaped, as Rust 1.61
    and later write them (earlier releases wrote NUL as `\u{0}`). Used by
    `WireError::from(&str)` and by the `Debug` form of a JSON error. */
module DebugFormat {
  import opened Wrappers

  /** The escape Rust's `str::escape_debug` writes for one character. */
  function EscapeDebugChar(c: char): (r: string)
    ensures 1 <= |r| <= 2
    ensures |r| == 2 <==> c in "\"\\\0\t\r\n"
  {
    if c == '"' then "\\\""
    else if c == '\\' then "\\\\"
    else if c == '\0' then "\\0"
    else if c == '\t' then "\\t"
    else if c == '\r' then "\\r"
    else if c == '\n' then "\\n"
    else [c]
  }

  function EscapeDebug(s: string): (r: string)
    ensures |r| >= |s|
  {
    if s == [] then [] else EscapeDebugChar(s[0]) + EscapeDebug(s[1..])
  }

  /** `format!("{:?}", s)` for a `&str` `s`. */
  function DebugStr(s: string): (r: string)
    ensures |r| >= |s| + 2
    ensures r[0] == '"' && r[|r| - 1] == '"'
  {
    "\"" + EscapeDebug(s) + "\""
  }

  /** Text without characters Rust escapes is rendered unchanged between the quotes. */
  lemma {:induction false} EscapeDebugPlain(s: string)
    requires forall i :: 0 <= i < |s| ==> s[i] !in "\"\\\0\t\r\n"
    ensures EscapeDebug(s) == s
  {
    if s != [] {
      EscapeDebugPlain(s[1..]);
      assert [s[0]] + s[1..] == s;
    }
  }

  /** The character a two-character escape `\x` stands for. */
  function UnescapeDebugChar(x: char): Option<char>
  {
    if x == '"' then Some('"')
    else if x == '\\' then Some('\\')
    else if x == '0' then Some('\0')
    else if x == 't' then Some('\t')
    else if x == 'r' then Some('\r')
    else if x == 'n' then Some('\n')
    else None
  }

  /** Reads back the inside of a debug-quoted string, up to and excluding its closing quote;
      None when the text is not the output of EscapeDebug followed by a quote. */
  function UnescapeDebug(t: string): Option<string>
    decreases |t|
  {
    if t == [] then None
    else if t[0] == '"' then (if |t| == 1 then Some([]) else None)
    else if t[0] == '\\' then
      if |t| < 2 then None
      else match UnescapeDebugChar(t[1])
        case None => None
        case Some(c) =>
          match UnescapeDebug(t[2..])
          case None => None
          case Some(rest) => Some([c] + rest)
    else
      match UnescapeDebug(t[1..])
      case None => None
      case Some(rest) => Some([t[0]] + rest)
  }

  /** Reads back a debug-quoted string. */
  function UndebugStr(t: string): Option<string>
  {
    if t == [] || t[0] != '"' then None else UnescapeDebug(t[1..])
  }

  lemma {:induction false} UnescapeDebugOfEscape(s: string)
    ensures UnescapeDebug(EscapeDebug(s) + "\"") == Some(s)
    decreases |s|
  {
    if s == [] {
      assert EscapeDebug(s) + "\"" == "\"";
    } else {
      var e := EscapeDebugChar(s[0]);
      var tail := EscapeDebug(s[1..]) + "\"";
      UnescapeDebugOfEscape(s[1..]);
      assert EscapeDebug(s) + "\"" == e + tail;
      if |e| == 2 {
        assert (e + tail)[2..] == tail;
      } else {
        assert (e + tail)[1..] == tail;
      }
      assert [s[0]] + s[1..] == s;
    }
  }

  /** Debug quoting can be undone, so it loses nothing. */
  lemma DebugStrRoundTrip(s: string)
    ensures UndebugStr(DebugStr(s)) == Some(s)
  {
    UnescapeDebugOfEscape(s);
    assert DebugStr(s)[1..] == EscapeDebug(s) + "\"";
  }

  /** Distinct texts have distinct debug renderings. */
  lemma DebugStrInjective(a: string, b: string)
    ensures DebugStr(a) == DebugStr(b) <==> a == b
  {
    DebugStrRoundTrip(a);
    DebugStrRoundTrip(b);
  }
}
