/**
  `JSON.stringify` and `JSON.parse` on the one kind of value the dashboard
  keeps as JSON: an array of strings (the caregiver notes).

  Characters are Unicode scalar values, so a string never holds a lone
  surrogate and `JSON.stringify` has no surrogate to escape.
 */
module JsonStrings {

  import opened Wrappers
  import opened Text

  // ---------------------------------------------------------------- stringify

  /** A hexadecimal digit in lower case, the case `JSON.stringify` writes. */
  function HexDigit(d: nat): (c: char)
    requires d < 16
  {
    if d < 10 then ('0' as int + d) as char else ('a' as int + d - 10) as char
  }

  /**
    How `JSON.stringify` writes one character inside a string literal: the
    quote, the backslash and the control characters are escaped (with a
    short escape where JSON has one, `\u00xx` otherwise); everything else
    is written as it is.
   */
  function EscapeChar(c: char): (e: string)
    ensures e != []
    ensures e[0] == '\\' || (e == [c] && c != '"' && c >= ' ')
  {
    if c == '"' then "\\\""
    else if c == '\\' then "\\\\"
    else if c == '\U{0008}' then "\\b"
    else if c == '\U{000C}' then "\\f"
    else if c == '\n' then "\\n"
    else if c == '\r' then "\\r"
    else if c == '\t' then "\\t"
    else if c < ' ' then "\\u00" + [HexDigit(c as int / 16), HexDigit(c as int % 16)]
    else [c]
  }

  function Escape(s: string): string {
    if s == [] then "" else EscapeChar(s[0]) + Escape(s[1..])
  }

  /** A string as a JSON string literal. */
  function Quote(s: string): string {
    "\"" + Escape(s) + "\""
  }

  function QuoteAll(xs: seq<string>): (qs: seq<string>)
    ensures |qs| == |xs|
  {
    if xs == [] then [] else [Quote(xs[0])] + QuoteAll(xs[1..])
  }

  /**
    `JSON.stringify(xs)`: the literals of the elements between brackets,
    separated by commas, with no white space. The text is never empty, so
    it is truthy.
   */
  function Stringify(xs: seq<string>): (json: string)
    ensures |json| >= 2 && json[0] == '[' && json[|json| - 1] == ']'
  {
    "[" + Join(QuoteAll(xs), ',') + "]"
  }

  // ---------------------------------------------------------------- parse

  /** The white space JSON allows between tokens. */
  predicate IsJsonSpace(c: char) {
    c == ' ' || c == '\t' || c == '\n' || c == '\r'
  }

  function SkipSpace(s: string): (r: string)
    ensures |r| <= |s|
    ensures r == "" || !IsJsonSpace(r[0])
  {
    if s != [] && IsJsonSpace(s[0]) then SkipSpace(s[1..]) else s
  }

  /** The value of a hexadecimal digit in either case. */
  function HexValue(c: char): (r: Option<nat>)
    ensures r.Some? ==> r.value < 16
  {
    if '0' <= c <= '9' then Some(c as int - '0' as int)
    else if 'a' <= c <= 'f' then Some(c as int - 'a' as int + 10)
    else if 'A' <= c <= 'F' then Some(c as int - 'A' as int + 10)
    else None
  }

  /** The four hexadecimal digits of a `\u` escape. */
  function HexQuad(s: string): (r: Option<nat>)
    requires |s| == 4
    ensures r.Some? ==> r.value < 0x1_0000
  {
    match (HexValue(s[0]), HexValue(s[1]), HexValue(s[2]), HexValue(s[3]))
    case (Some(a), Some(b), Some(c), Some(d)) => Some(((a * 16 + b) * 16 + c) * 16 + d)
    case _ => None
  }

  /** The character a one-letter escape stands for. */
  function Unescape(c: char): Option<char> {
    if c == '"' then Some('"')
    else if c == '\\' then Some('\\')
    else if c == '/' then Some('/')
    else if c == 'b' then Some('\U{0008}')
    else if c == 'f' then Some('\U{000C}')
    else if c == 'n' then Some('\n')
    else if c == 'r' then Some('\r')
    else if c == 't' then Some('\t')
    else None
  }

  function Prepend(c: char, r: Option<(string, string)>): (r': Option<(string, string)>)
    ensures r'.Some? <==> r.Some?
    ensures r'.Some? ==> r'.value == ([c] + r.value.0, r.value.1)
  {
    match r
    case None => None
    case Some((body, rest)) => Some(([c] + body, rest))
  }

  /**
    Reads a string literal from just after its opening quote: the characters
    it stands for and the text after its closing quote, or None where
    `JSON.parse` throws (no closing quote, a raw control character, an
    unknown escape). An escaped surrogate is refused as well, since a
    character here is a scalar value.
   */
  function StringBody(s: string): (r: Option<(string, string)>)
    ensures r.Some? ==> |r.value.1| < |s|
    decreases |s|
  {
    if s == [] then None
    else if s[0] == '"' then Some(("", s[1..]))
    else if s[0] == '\\' then
      if |s| < 2 then None
      else if s[1] == 'u' then
        if |s| < 6 then None
        else match HexQuad(s[2..6])
          case None => None
          case Some(v) =>
            if 0xD800 <= v < 0xE000 then None else Prepend(v as char, StringBody(s[6..]))
      else match Unescape(s[1])
        case None => None
        case Some(c) => Prepend(c, StringBody(s[2..]))
    else if s[0] < ' ' then None
    else Prepend(s[0], StringBody(s[1..]))
  }

  /** The elements of an array from its first element on, through the closing bracket to the end of the text. */
  function Elements(s: string): Option<seq<string>>
    decreases |s|
  {
    if s == [] || s[0] != '"' then None
    else match StringBody(s[1..])
      case None => None
      case Some((x, rest)) =>
        var t := SkipSpace(rest);
        if t == [] then None
        else if t[0] == ']' then (if SkipSpace(t[1..]) == [] then Some([x]) else None)
        else if t[0] == ',' then
          match Elements(SkipSpace(t[1..]))
          case None => None
          case Some(ys) => Some([x] + ys)
        else None
  }

  /**
    `JSON.parse(text)` for a text that should hold an array of strings:
    None where `JSON.parse` throws, and also where the text is valid JSON of
    another shape.
   */
  function Parse(text: string): Option<seq<string>> {
    var t := SkipSpace(text);
    if t == [] || t[0] != '[' then None
    else
      var u := SkipSpace(t[1..]);
      if u != [] && u[0] == ']' then (if SkipSpace(u[1..]) == [] then Some([]) else None)
      else Elements(u)
  }

  // ---------------------------------------------------------------- round trip

  lemma HexDigitValue(d: nat)
    requires d < 16
    ensures HexValue(HexDigit(d)) == Some(d)
  {
  }

  /** Reading back the escape of one character gives that character, whatever follows. */
  lemma EscapeCharBody(c: char, rest: string)
    ensures StringBody(EscapeChar(c) + rest) == Prepend(c, StringBody(rest))
  {
    var e := EscapeChar(c);
    var s := e + rest;
    if e[0] == '\\' {
      if c < ' ' && c != '\U{0008}' && c != '\U{000C}' && c != '\n' && c != '\r' && c != '\t' {
        var hi, lo := c as int / 16, c as int % 16;
        HexDigitValue(0);
        HexDigitValue(hi);
        HexDigitValue(lo);
        assert s[2..6] == ['0', '0', HexDigit(hi), HexDigit(lo)];
        assert s[6..] == rest;
      } else {
        assert s[2..] == rest;
      }
    } else {
      assert s[1..] == rest;
    }
  }

  /** Reading back an escaped text up to the closing quote gives the text and leaves what follows. */
  lemma {:induction false} EscapeBody(x: string, tail: string)
    ensures StringBody(Escape(x) + "\"" + tail) == Some((x, tail))
  {
    if x == [] {
      assert Escape(x) + "\"" + tail == "\"" + tail;
    } else {
      var rest := Escape(x[1..]) + "\"" + tail;
      EscapeBody(x[1..], tail);
      assert Escape(x) + "\"" + tail == EscapeChar(x[0]) + rest;
      EscapeCharBody(x[0], rest);
      assert [x[0]] + x[1..] == x;
    }
  }

  lemma ElementsLast(x: string)
    ensures Elements(Quote(x) + "]") == Some([x])
  {
    var s := Quote(x) + "]";
    assert s[1..] == Escape(x) + "\"" + "]";
    EscapeBody(x, "]");
    assert SkipSpace("]") == "]";
    assert "]"[1..] == [];
  }

  lemma ElementsNext(x: string, more: string)
    requires more != [] && more[0] == '"'
    ensures Elements(more).None? ==> Elements(Quote(x) + "," + more).None?
    ensures Elements(more).Some? ==> Elements(Quote(x) + "," + more) == Some([x] + Elements(more).value)
  {
    var tail := "," + more;
    var s := Quote(x) + "," + more;
    assert s[1..] == Escape(x) + "\"" + tail;
    EscapeBody(x, tail);
    assert SkipSpace(tail) == tail;
    assert tail[1..] == more;
    assert SkipSpace(more) == more;
  }

  lemma {:induction false} ElementsOfQuoted(xs: seq<string>)
    requires xs != []
    ensures Elements(Join(QuoteAll(xs), ',') + "]") == Some(xs)
  {
    var qs := QuoteAll(xs);
    if |xs| == 1 {
      ElementsLast(xs[0]);
      assert [xs[0]] == xs;
    } else {
      var more := Join(QuoteAll(xs[1..]), ',') + "]";
      ElementsOfQuoted(xs[1..]);
      assert qs[1..] == QuoteAll(xs[1..]);
      assert Join(qs, ',') + "]" == Quote(xs[0]) + "," + more;
      ElementsNext(xs[0], more);
      assert [xs[0]] + xs[1..] == xs;
    }
  }

  /** What `JSON.stringify` writes, `JSON.parse` reads back as the same array. */
  lemma ParseStringify(xs: seq<string>)
    ensures Parse(Stringify(xs)) == Some(xs)
  {
    var j := Join(QuoteAll(xs), ',');
    assert Stringify(xs)[1..] == j + "]";
    if xs == [] {
      assert j + "]" == "]";
    } else {
      ElementsOfQuoted(xs);
    }
  }

  /** Distinct arrays are written as distinct texts. */
  lemma StringifyInjective(xs: seq<string>, ys: seq<string>)
    requires Stringify(xs) == Stringify(ys)
    ensures xs == ys
  {
    ParseStringify(xs);
    ParseStringify(ys);
  }
}
