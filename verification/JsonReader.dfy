/**
 * The strict reader that inverts the canonical printer: JSON text without white space or fractions.
 * Like Python's, it takes any escape and any key order, and the last of two equal keys wins.
 */
module JsonReader {
  import opened CanonicalJson
  import opened Decimal
  import opened TextFormats
  import opened Wrappers

  /** A value read from the front of a text, and what is left of the text. */
  type Reading<T> = Option<(T, string)>

  // Strings.

  function HexValue(c: char): Option<int> {
    if IsDigit(c) then Some(c as int - '0' as int)
    else if 'a' <= c <= 'f' then Some(c as int - 'a' as int + 10)
    else if 'A' <= c <= 'F' then Some(c as int - 'A' as int + 10)
    else None
  }

  /** Four hexadecimal digits that name a scalar value. */
  function HexChar(s: string): Option<char>
    requires |s| >= 4
  {
    match (HexValue(s[0]), HexValue(s[1]), HexValue(s[2]), HexValue(s[3]))
    case (Some(a), Some(b), Some(c), Some(d)) =>
      var n := 0x1000 * a + 0x100 * b + 0x10 * c + d;
      if 0 <= n < 0xD800 || 0xE000 <= n < 0x1_0000 then Some(n as char) else None
    case _ => None
  }

  function ShortEscape(c: char): Option<char> {
    if c == '"' || c == '\\' || c == '/' then Some(c)
    else if c == 'b' then Some('\U{8}')
    else if c == 'f' then Some('\U{c}')
    else if c == 'n' then Some('\n')
    else if c == 'r' then Some('\r')
    else if c == 't' then Some('\t')
    else None
  }

  /** One character of a string literal. */
  function ReadChar(s: string): (r: Reading<char>)
    ensures r.Some? ==> |r.value.1| < |s|
  {
    if s == "" || s[0] as int < 0x20 || s[0] == '"' then None
    else if s[0] != '\\' then Some((s[0], s[1..]))
    else if |s| >= 2 && ShortEscape(s[1]).Some? then Some((ShortEscape(s[1]).value, s[2..]))
    else if |s| >= 6 && s[1] == 'u' && HexChar(s[2..6]).Some? then Some((HexChar(s[2..6]).value, s[6..]))
    else None
  }

  /** The characters up to the closing quote. */
  function ReadChars(s: string): (r: Reading<string>)
    ensures r.Some? ==> |r.value.1| < |s|
    decreases |s|
  {
    if s != "" && s[0] == '"' then Some(("", s[1..]))
    else match ReadChar(s)
      case None => None
      case Some(first) => match ReadChars(first.1)
        case None => None
        case Some(others) => Some(([first.0] + others.0, others.1))
  }

  // Numbers.

  function DigitRun(s: string): (n: nat)
    ensures n <= |s| && AllDigits(s[..n])
    ensures n < |s| ==> !IsDigit(s[n])
  {
    if s == "" || !IsDigit(s[0]) then 0 else 1 + DigitRun(s[1..])
  }

  function ReadNat(s: string): (r: Reading<int>)
    ensures r.Some? ==> |r.value.1| < |s|
  {
    if s == "" || !IsDigit(s[0]) then None
    else if s[0] == '0' then Some((0, s[1..]))
    else Some((ToNat(s[..DigitRun(s)]), s[DigitRun(s)..]))
  }

  function ReadInt(s: string): (r: Reading<int>)
    ensures r.Some? ==> |r.value.1| < |s|
  {
    if s != "" && s[0] == '-' then
      match ReadNat(s[1..])
      case None => None
      case Some(n) => Some((-n.0, n.1))
    else ReadNat(s)
  }

  // Values.

  function ReadLiteral(word: string, v: Value, s: string): (r: Reading<Value>)
    requires word != ""
    ensures r.Some? ==> |r.value.1| < |s|
  {
    if word <= s then Some((v, s[|word|..])) else None
  }

  function ReadValue(s: string): (r: Reading<Value>)
    ensures r.Some? ==> |r.value.1| < |s|
    decreases |s|, 0
  {
    if s == "" then None
    else if s[0] == 'n' then ReadLiteral("null", Null, s)
    else if s[0] == 't' then ReadLiteral("true", Bool(true), s)
    else if s[0] == 'f' then ReadLiteral("false", Bool(false), s)
    else if s[0] == '"' then
      match ReadChars(s[1..])
      case None => None
      case Some(t) => Some((Str(t.0), t.1))
    else if s[0] == '[' then
      if |s| > 1 && s[1] == ']' then Some((List([]), s[2..])) else
      match ReadItems(s[1..])
      case None => None
      case Some(items) => Some((List(items.0), items.1))
    else if s[0] == '{' then
      if |s| > 1 && s[1] == '}' then Some((Dict(map[]), s[2..])) else
      match ReadMembers(s[1..])
      case None => None
      case Some(fields) => Some((Dict(fields.0), fields.1))
    else
      match ReadInt(s)
      case None => None
      case Some(n) => Some((Int(n.0), n.1))
  }

  /** Items up to the closing bracket, which is read too. */
  function ReadItems(s: string): (r: Reading<seq<Value>>)
    ensures r.Some? ==> |r.value.1| < |s|
    decreases |s|, 1
  {
    match ReadValue(s)
    case None => None
    case Some(item) =>
      if item.1 == "" then None
      else if item.1[0] == ']' then Some(([item.0], item.1[1..]))
      else if item.1[0] == ',' then
        match ReadItems(item.1[1..])
        case None => None
        case Some(others) => Some(([item.0] + others.0, others.1))
      else None
  }

  /** A key, its colon and its value. */
  function ReadMember(s: string): (r: Reading<(string, Value)>)
    ensures r.Some? ==> |r.value.1| < |s|
    decreases |s|, 1
  {
    if s == "" || s[0] != '"' then None
    else match ReadChars(s[1..])
      case None => None
      case Some(key) =>
        if key.1 == "" || key.1[0] != ':' then None
        else match ReadValue(key.1[1..])
          case None => None
          case Some(field) => Some(((key.0, field.0), field.1))
  }

  /** Members up to the closing brace, which is read too. */
  function ReadMembers(s: string): (r: Reading<map<string, Value>>)
    ensures r.Some? ==> |r.value.1| < |s|
    decreases |s|, 2
  {
    match ReadMember(s)
    case None => None
    case Some(m) =>
      var field := map[m.0.0 := m.0.1];
      if m.1 == "" then None
      else if m.1[0] == '}' then Some((field, m.1[1..]))
      else if m.1[0] == ',' then
        match ReadMembers(m.1[1..])
        case None => None
        case Some(others) => Some((field + others.0, others.1))
      else None
  }

  /** `json.loads`: one value and nothing after it. */
  function Load(s: string): Option<Value> {
    match ReadValue(s)
    case None => None
    case Some(r) => if r.1 == "" then Some(r.0) else None
  }
}
