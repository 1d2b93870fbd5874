/**
  A reader for JSON texts, written from RFC 8259 without reference to the event writer. It takes no
  white space between tokens and no surrogate pairs. Numbers are kept as their text.
 */
module JsonReader {
  import opened Bytes

  datatype Json =
    | Null
    | Bool(b: bool)
    | Number(text: string)
    | String(s: string)
    | Array(items: seq<Json>)
    | Object(members: seq<(string, Json)>)

  datatype Read<+T> = Got(value: T, rest: string) | Bad

  /** Section 7: these must be escaped. */
  predicate IsControl(c: char) {
    c < ' '
  }

  function HexDigit(c: char): (d: int)
    ensures -1 <= d < 16
  {
    if '0' <= c <= '9' then c as int - '0' as int
    else if 'a' <= c <= 'f' then c as int - 'a' as int + 10
    else if 'A' <= c <= 'F' then c as int - 'A' as int + 10
    else -1
  }

  /** The character an escape stands for, after the backslash, and how many characters it takes. */
  function ReadEscape(s: string): (r: Read<char>)
    ensures r.Got? ==> |r.rest| < |s|
  {
    if s == "" then Bad
    else
      match s[0]
      case '"' => Got('"', s[1..])
      case '\\' => Got('\\', s[1..])
      case '/' => Got('/', s[1..])
      case 'b' => Got('\U{0008}', s[1..])
      case 'f' => Got('\U{000C}', s[1..])
      case 'n' => Got('\n', s[1..])
      case 'r' => Got('\r', s[1..])
      case 't' => Got('\t', s[1..])
      case 'u' => ReadHex(s[1..])
      case _ => Bad
  }

  /** Four hexadecimal digits; surrogates are not taken. */
  function ReadHex(s: string): (r: Read<char>)
    ensures r.Got? ==> |r.rest| < |s|
  {
    if |s| < 4 || exists i :: 0 <= i < 4 && HexDigit(s[i]) < 0 then Bad
    else
      var n := 4096 * HexDigit(s[0]) + 256 * HexDigit(s[1]) + 16 * HexDigit(s[2]) + HexDigit(s[3]);
      if 0xD800 <= n < 0xE000 then Bad else Got(n as char, s[4..])
  }

  /** The rest of a string, after its opening quote. */
  function ReadString(s: string): (r: Read<string>)
    ensures r.Got? ==> |r.rest| < |s|
    decreases |s|
  {
    if s == "" || IsControl(s[0]) then Bad
    else if s[0] == '"' then Got("", s[1..])
    else if s[0] == '\\' then
      match ReadEscape(s[1..])
      case Bad => Bad
      case Got(c, rest) => Before(c, ReadString(rest))
    else Before(s[0], ReadString(s[1..]))
  }

  function Before(c: char, r: Read<string>): Read<string> {
    match r
    case Bad => Bad
    case Got(t, rest) => Got([c] + t, rest)
  }

  predicate IsNumberChar(c: char) {
    '0' <= c <= '9' || c == '+' || c == '-' || c == '.' || c == 'e' || c == 'E'
  }

  function NumberLength(s: string): (n: nat)
    ensures n <= |s|
  {
    if s == "" || !IsNumberChar(s[0]) then 0 else 1 + NumberLength(s[1..])
  }

  predicate IsDigit(c: char) {
    '0' <= c <= '9'
  }

  function SkipDigits(t: string): (r: string)
    ensures |r| <= |t|
  {
    if t != "" && IsDigit(t[0]) then SkipDigits(t[1..]) else t
  }

  function SkipSign(t: string, signs: set<char>): string {
    if t != "" && t[0] in signs then t[1..] else t
  }

  /** Section 6: an optional minus, digits without a leading zero, and optional fraction and exponent. */
  predicate IsNumber(t: string) {
    var s := SkipSign(t, {'-'});
    s != "" && IsDigit(s[0]) && IsFraction(if s[0] == '0' then s[1..] else SkipDigits(s))
  }

  predicate IsFraction(t: string) {
    if t != "" && t[0] == '.' then |t| > 1 && IsDigit(t[1]) && IsExponent(SkipDigits(t[1..])) else IsExponent(t)
  }

  predicate IsExponent(t: string) {
    t != "" ==>
      && (t[0] == 'e' || t[0] == 'E')
      && var s := SkipSign(t[1..], {'+', '-'}); s != "" && IsDigit(s[0]) && SkipDigits(s) == ""
  }

  function ReadValue(s: string): (r: Read<Json>)
    ensures r.Got? ==> |r.rest| < |s|
    decreases |s|, 0
  {
    if s == "" then Bad
    else if s[0] == '"' then
      match ReadString(s[1..])
      case Bad => Bad
      case Got(t, rest) => Got(String(t), rest)
    else if s[0] == '[' then
      if |s| > 1 && s[1] == ']' then Got(Array([]), s[2..])
      else
        match ReadItems(s[1..])
        case Bad => Bad
        case Got(items, rest) => Got(Array(items), rest)
    else if s[0] == '{' then
      if |s| > 1 && s[1] == '}' then Got(Object([]), s[2..])
      else
        match ReadMembers(s[1..])
        case Bad => Bad
        case Got(members, rest) => Got(Object(members), rest)
    else ReadAtom(s)
  }

  function ReadAtom(s: string): (r: Read<Json>)
    requires s != ""
    ensures r.Got? ==> |r.rest| < |s|
  {
    if s[0] == 't' then if "true" <= s then Got(Bool(true), s[4..]) else Bad
    else if s[0] == 'f' then if "false" <= s then Got(Bool(false), s[5..]) else Bad
    else if s[0] == 'n' then if "null" <= s then Got(Null, s[4..]) else Bad
    else if IsNumber(s[..NumberLength(s)]) then Got(Number(s[..NumberLength(s)]), s[NumberLength(s)..])
    else Bad
  }

  /** One or more values separated by commas, and the closing bracket. */
  function ReadItems(s: string): (r: Read<seq<Json>>)
    ensures r.Got? ==> |r.rest| < |s|
    decreases |s|, 1
  {
    match ReadValue(s)
    case Bad => Bad
    case Got(v, rest) =>
      if rest != "" && rest[0] == ']' then Got([v], rest[1..])
      else if rest != "" && rest[0] == ',' then
        match ReadItems(rest[1..])
        case Bad => Bad
        case Got(vs, after) => Got([v] + vs, after)
      else Bad
  }

  /** One member: a quoted name, a colon and a value. */
  function ReadMember(s: string): (r: Read<(string, Json)>)
    ensures r.Got? ==> |r.rest| < |s|
    decreases |s|, 1
  {
    if s == "" || s[0] != '"' then Bad
    else
      match ReadString(s[1..])
      case Bad => Bad
      case Got(name, rest) =>
        if rest == "" || rest[0] != ':' then Bad
        else
          match ReadValue(rest[1..])
          case Bad => Bad
          case Got(v, after) => Got((name, v), after)
  }

  /** One or more members separated by commas, and the closing brace. */
  function ReadMembers(s: string): (r: Read<seq<(string, Json)>>)
    ensures r.Got? ==> |r.rest| < |s|
    decreases |s|, 2
  {
    match ReadMember(s)
    case Bad => Bad
    case Got(m, rest) =>
      if rest != "" && rest[0] == '}' then Got([m], rest[1..])
      else if rest != "" && rest[0] == ',' then
        match ReadMembers(rest[1..])
        case Bad => Bad
        case Got(ms, after) => Got([m] + ms, after)
      else Bad
  }
}
