/** JSON texts as in RFC 8259: values, string escaping, number lexemes, and a parser with a nesting limit. */
module Json {
  import opened Basics

  /** A parsed JSON text. An object is a map: a repeated key keeps its last value, and key order carries nothing. */
  datatype Json =
    | Null
    | Bool(b: bool)
    | Number(lexeme: Text)
    | String(text: Text)
    | Array(items: seq<Json>)
    | Object(members: map<Text, Json>)

  /** Arrays and objects nest at most `depth` deep. */
  ghost predicate Within(j: Json, depth: nat)
    decreases j
  {
    match j
    case Array(items) => depth > 0 && forall i | 0 <= i < |items| :: Within(items[i], depth - 1)
    case Object(members) => depth > 0 && forall k | k in members :: Within(members[k], depth - 1)
    case _ => true
  }

  datatype Parsed<+T> = Parsed(value: T, rest: Text) | Malformed

  // ---------- strings: section 7 of RFC 8259 ----------

  function HexDigit(d: nat): char
    requires d < 16
  {
    if d < 10 then '0' + d as char else 'a' + (d - 10) as char
  }

  function HexValue(c: char): (r: Option<nat>)
    ensures r.Some? ==> r.value < 16
  {
    if '0' <= c <= '9' then Some((c - '0') as nat)
    else if 'a' <= c <= 'f' then Some((c - 'a') as nat + 10)
    else if 'A' <= c <= 'F' then Some((c - 'A') as nat + 10)
    else None
  }

  /** The bytes serde_json writes for one byte of a string. */
  function EscapeChar(c: char): Text {
    match c
    case '\"' => "\\\""
    case '\\' => "\\\\"
    case '\n' => "\\n"
    case '\r' => "\\r"
    case '\t' => "\\t"
    case _ =>
      if c == 8 as char then "\\b"
      else if c == 12 as char then "\\f"
      else if c < ' ' then "\\u00" + [HexDigit(c as nat / 16), HexDigit(c as nat % 16)]
      else [c]
  }

  function Escape(t: Text): Text {
    if t == "" then "" else EscapeChar(t[0]) + Escape(t[1..])
  }

  function Quote(t: Text): Text {
    "\"" + Escape(t) + "\""
  }

  function Hex4(s: Text): Option<nat>
    ensures Hex4(s).Some? ==> |s| >= 4 && Hex4(s).value < 0x10000
  {
    if |s| < 4 then None
    else
      match (HexValue(s[0]), HexValue(s[1]), HexValue(s[2]), HexValue(s[3]))
      case (Some(a), Some(b), Some(c), Some(d)) =>
        Some(4096 * a + 256 * b + 16 * c + d)
      case _ => None
  }

  /** The UTF-8 bytes of a code point. */
  function Utf8(code: nat): Text
    requires code < 0x110000
    ensures Utf8(code) != ""
  {
    if code < 0x80 then [code as char]
    else if code < 0x800 then [(0xC0 + code / 64) as char, (0x80 + code % 64) as char]
    else if code < 0x10000 then
      [(0xE0 + code / 4096) as char, (0x80 + code / 64 % 64) as char, (0x80 + code % 64) as char]
    else
      [(0xF0 + code / 262144) as char, (0x80 + code / 4096 % 64) as char,
       (0x80 + code / 64 % 64) as char, (0x80 + code % 64) as char]
  }

  /** `\u` escapes, with surrogate pairs joined and lone surrogates refused. */
  function UnicodeEscape(s: Text): (r: Parsed<Text>)
    ensures r.Parsed? ==> |r.rest| < |s|
  {
    match Hex4(s)
    case None => Malformed
    case Some(high) =>
      if 0xD800 <= high < 0xDC00 then
        if |s| >= 6 && s[4] == '\\' && s[5] == 'u' then
          match Hex4(s[6..])
          case Some(low) =>
            if 0xDC00 <= low < 0xE000 then
              Parsed(Utf8(0x10000 + 1024 * (high - 0xD800) + (low - 0xDC00)), s[10..])
            else Malformed
          case None => Malformed
        else Malformed
      else if 0xDC00 <= high < 0xE000 then Malformed
      else Parsed(Utf8(high), s[4..])
  }

  /** One escape, after its backslash. */
  function EscapeSequence(s: Text): (r: Parsed<Text>)
    ensures r.Parsed? ==> |r.rest| < |s|
  {
    if s == "" then Malformed
    else match s[0]
      case '\"' => Parsed("\"", s[1..])
      case '\\' => Parsed("\\", s[1..])
      case '/' => Parsed("/", s[1..])
      case 'b' => Parsed([8 as char], s[1..])
      case 'f' => Parsed([12 as char], s[1..])
      case 'n' => Parsed("\n", s[1..])
      case 'r' => Parsed("\r", s[1..])
      case 't' => Parsed("\t", s[1..])
      case 'u' => UnicodeEscape(s[1..])
      case _ => Malformed
  }

  /** A string after its opening quotation mark, up to and including the closing one. */
  function StringBody(s: Text): (r: Parsed<Text>)
    ensures r.Parsed? ==> |r.rest| < |s|
    decreases |s|
  {
    if s == "" || s[0] < ' ' then Malformed
    else if s[0] == '\"' then Parsed("", s[1..])
    else if s[0] == '\\' then
      match EscapeSequence(s[1..])
      case Malformed => Malformed
      case Parsed(bytes, rest) => Prepend(bytes, StringBody(rest))
    else Prepend([s[0]], StringBody(s[1..]))
  }

  function Prepend(bytes: Text, body: Parsed<Text>): Parsed<Text> {
    match body
    case Malformed => Malformed
    case Parsed(text, rest) => Parsed(bytes + text, rest)
  }

  // ---------- numbers: section 6 of RFC 8259 ----------

  predicate IsDigit(c: char) { '0' <= c <= '9' }

  predicate NumberChar(c: char) {
    IsDigit(c) || c == '-' || c == '+' || c == '.' || c == 'e' || c == 'E'
  }

  /** How many leading characters of `s` are digits. */
  function DigitRun(s: Text): (n: nat)
    ensures n <= |s|
  {
    if s == "" || !IsDigit(s[0]) then 0 else 1 + DigitRun(s[1..])
  }

  function NumberRun(s: Text): (n: nat)
    ensures n <= |s|
  {
    if s == "" || !NumberChar(s[0]) then 0 else 1 + NumberRun(s[1..])
  }

  predicate ValidExponent(s: Text) {
    s == "" ||
    ((s[0] == 'e' || s[0] == 'E') &&
     var digits := if |s| > 1 && (s[1] == '+' || s[1] == '-') then s[2..] else s[1..];
     digits != "" && DigitRun(digits) == |digits|)
  }

  predicate ValidFraction(s: Text) {
    if s != "" && s[0] == '.' then
      DigitRun(s[1..]) > 0 && ValidExponent(s[1 + DigitRun(s[1..])..])
    else ValidExponent(s)
  }

  /** number = [ "-" ] int [ frac ] [ exp ], where int has no superfluous leading zero. */
  predicate ValidNumber(s: Text) {
    var body := if s != "" && s[0] == '-' then s[1..] else s;
    var n := DigitRun(body);
    && n > 0
    && (n == 1 || body[0] != '0')
    && ValidFraction(body[n..])
  }

  function Digits(n: nat): Text {
    if n < 10 then ['0' + n as char] else Digits(n / 10) + ['0' + (n % 10) as char]
  }

  /** How an integer is displayed. */
  function Decimal(n: int): Text {
    if n < 0 then "-" + Digits(-n) else Digits(n)
  }

  predicate AllDigits(s: Text) { forall i | 0 <= i < |s| :: IsDigit(s[i]) }

  function NatOf(digits: Text): nat
    requires AllDigits(digits)
  {
    if digits == "" then 0
    else NatOf(digits[..|digits| - 1]) * 10 + (digits[|digits| - 1] - '0') as nat
  }

  /**
   * The integer a parsed number denotes, when it is one that i64 or u64 holds. A fraction, an
   * exponent, a value out of range and `-0` are floating-point numbers instead.
   */
  function AsInteger(lexeme: Text): Option<int> {
    var negative := lexeme != "" && lexeme[0] == '-';
    var body := if negative then lexeme[1..] else lexeme;
    if body == "" || !AllDigits(body) then None
    else
      var n: int := NatOf(body);
      if negative then
        if 0 < n <= 0x8000_0000_0000_0000 then Some(-n) else None
      else if n < 0x1_0000_0000_0000_0000 then Some(n) else None
  }

  // ---------- the parser ----------

  predicate IsSpace(c: char) { c == ' ' || c == '\t' || c == '\n' || c == '\r' }

  function SkipSpace(s: Text): (r: Text)
    ensures |r| <= |s|
  {
    if s != "" && IsSpace(s[0]) then SkipSpace(s[1..]) else s
  }

  function Literal(s: Text, word: Text, value: Json): (r: Parsed<Json>)
    requires word != ""
    ensures r.Parsed? ==> |r.rest| < |s|
  {
    if word <= s then Parsed(value, s[|word|..]) else Malformed
  }

  /** A string, number, or one of the three words. */
  function ParseScalar(s: Text): (r: Parsed<Json>)
    requires s != ""
    ensures r.Parsed? ==> |r.rest| < |s|
  {
    match s[0]
    case '\"' =>
      (match StringBody(s[1..])
       case Malformed => Malformed
       case Parsed(text, rest) => Parsed(String(text), rest))
    case 't' => Literal(s, "true", Bool(true))
    case 'f' => Literal(s, "false", Bool(false))
    case 'n' => Literal(s, "null", Null)
    case _ =>
      var n := NumberRun(s);
      if n > 0 && ValidNumber(s[..n]) then Parsed(Number(s[..n]), s[n..]) else Malformed
  }

  /** One value with at most `depth` levels of arrays and objects. */
  function ParseValue(s: Text, depth: nat): (r: Parsed<Json>)
    ensures r.Parsed? ==> |r.rest| < |s|
    decreases |s|, 0
  {
    var s := SkipSpace(s);
    if s == "" then Malformed
    else if s[0] == '{' then ParseObject(s[1..], depth)
    else if s[0] == '[' then ParseArray(s[1..], depth)
    else ParseScalar(s)
  }

  /** An object after its opening brace. */
  function ParseObject(s: Text, depth: nat): (r: Parsed<Json>)
    ensures r.Parsed? ==> |r.rest| < |s|
    decreases |s|, 2
  {
    var s := SkipSpace(s);
    if depth == 0 then Malformed
    else if s != "" && s[0] == '}' then Parsed(Object(map[]), s[1..])
    else ParseMembers(s, depth - 1, map[])
  }

  /** An array after its opening bracket. */
  function ParseArray(s: Text, depth: nat): (r: Parsed<Json>)
    ensures r.Parsed? ==> |r.rest| < |s|
    decreases |s|, 2
  {
    var s := SkipSpace(s);
    if depth == 0 then Malformed
    else if s != "" && s[0] == ']' then Parsed(Array([]), s[1..])
    else ParseItems(s, depth - 1, [])
  }

  /** The elements of an array from the next one on, up to and including its bracket. */
  function ParseItems(s: Text, depth: nat, done: seq<Json>): (r: Parsed<Json>)
    ensures r.Parsed? ==> |r.rest| < |s|
    decreases |s|, 1
  {
    match ParseValue(s, depth)
    case Malformed => Malformed
    case Parsed(item, rest) =>
      var next := SkipSpace(rest);
      if next == "" then Malformed
      else if next[0] == ',' then ParseItems(next[1..], depth, done + [item])
      else if next[0] == ']' then Parsed(Array(done + [item]), next[1..])
      else Malformed
  }

  /** The members of an object from the next one on, up to and including its brace. */
  function ParseMembers(s: Text, depth: nat, done: map<Text, Json>): (r: Parsed<Json>)
    ensures r.Parsed? ==> |r.rest| < |s|
    decreases |s|, 1
  {
    var s := SkipSpace(s);
    if s == "" || s[0] != '\"' then Malformed
    else
      match StringBody(s[1..])
      case Malformed => Malformed
      case Parsed(key, rest) =>
        var colon := SkipSpace(rest);
        if colon == "" || colon[0] != ':' then Malformed
        else
          match ParseValue(colon[1..], depth)
          case Malformed => Malformed
          case Parsed(value, rest) =>
            var next := SkipSpace(rest);
            if next == "" then Malformed
            else if next[0] == ',' then ParseMembers(next[1..], depth, done[key := value])
            else if next[0] == '}' then Parsed(Object(done[key := value]), next[1..])
            else Malformed
  }

  /** A whole JSON text: one value, and nothing but white space after it. */
  function Parse(s: Text, depth: nat): Option<Json> {
    match ParseValue(s, depth)
    case Malformed => None
    case Parsed(value, rest) => if SkipSpace(rest) == "" then Some(value) else None
  }
}
