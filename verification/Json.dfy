/**
 * JSON texts and values: the printer follows JSON.stringify, the parser sections 2 and 7 of
 * RFC 8259. Texts and strings are sequences of UTF-16 code units.
 */
module Json {
  import opened Wrappers

  type Unit = c: int | 0 <= c < 0x1_0000
  type Text = seq<Unit>

  const QUOTE: Unit := 0x22
  const BACKSLASH: Unit := 0x5C
  const COMMA: Unit := 0x2C
  const COLON: Unit := 0x3A
  const OPEN_BRACKET: Unit := 0x5B
  const CLOSE_BRACKET: Unit := 0x5D
  const OPEN_BRACE: Unit := 0x7B
  const CLOSE_BRACE: Unit := 0x7D
  const LOWER_U: Unit := 0x75

  const NULL_TEXT: Text := [0x6E, 0x75, 0x6C, 0x6C]
  const TRUE_TEXT: Text := [0x74, 0x72, 0x75, 0x65]
  const FALSE_TEXT: Text := [0x66, 0x61, 0x6C, 0x73, 0x65]

  /** Object members keep their order; numbers are kept as the text that denotes them. */
  datatype Value =
    | Null
    | Bool(b: bool)
    | Number(literal: Text)
    | String(chars: Text)
    | Array(items: seq<Value>)
    | Object(members: seq<Member>)

  datatype Member = Member(key: Text, value: Value)

  // ---- Numbers ----

  predicate Digit(c: Unit) { 0x30 <= c <= 0x39 }

  /** Every unit that can occur in a number. */
  predicate NumberUnit(c: Unit) {
    Digit(c) || c == 0x2B || c == 0x2D || c == 0x2E || c == 0x45 || c == 0x65
  }

  function SkipDigits(t: Text): (rest: Text)
    ensures |rest| <= |t|
  {
    if t != [] && Digit(t[0]) then SkipDigits(t[1..]) else t
  }

  predicate ExponentPart(t: Text) {
    t == [] || ((t[0] == 0x45 || t[0] == 0x65)
                && (var u := if |t| > 1 && (t[1] == 0x2B || t[1] == 0x2D) then t[2..] else t[1..];
                    u != [] && SkipDigits(u) == []))
  }

  predicate FractionPart(t: Text) {
    if t != [] && t[0] == 0x2E then
      var rest := SkipDigits(t[1..]);
      |rest| < |t| - 1 && ExponentPart(rest)
    else ExponentPart(t)
  }

  /** The number grammar: sign, integer without leading zeros, fraction, exponent. */
  predicate NumberLiteral(t: Text) {
    && (forall c <- t :: NumberUnit(c))
    && (var u := if t != [] && t[0] == 0x2D then t[1..] else t;
        u != [] && Digit(u[0]) && FractionPart(if u[0] == 0x30 then u[1..] else SkipDigits(u)))
  }

  /** The longest prefix made of number units. */
  function NumberRun(t: Text): (run: Text)
    ensures run <= t
    ensures forall c <- run :: NumberUnit(c)
  {
    if t != [] && NumberUnit(t[0]) then [t[0]] + NumberRun(t[1..]) else []
  }

  // ---- Strings ----

  function HexDigit(n: int): Unit
    requires 0 <= n < 16
  {
    if n < 10 then 0x30 + n else 0x57 + n
  }

  function HexValue(c: Unit): Option<int> {
    if Digit(c) then Some(c - 0x30)
    else if 0x61 <= c <= 0x66 then Some(c - 0x57)
    else if 0x41 <= c <= 0x46 then Some(c - 0x37)
    else None
  }

  /** The escape of a unit by its number. */
  function UnicodeEscape(c: Unit): Text {
    [BACKSLASH, LOWER_U, HexDigit(c / 0x1000), HexDigit(c / 0x100 % 16),
     HexDigit(c / 16 % 16), HexDigit(c % 16)]
  }

  /** The unit four hexadecimal digits denote. */
  function Hex4(t: Text): Option<Unit>
    requires |t| >= 4
  {
    var a, b, c, d := HexValue(t[0]), HexValue(t[1]), HexValue(t[2]), HexValue(t[3]);
    if a.Some? && b.Some? && c.Some? && d.Some?
       && 0 <= a.value * 0x1000 + b.value * 0x100 + c.value * 16 + d.value < 0x1_0000 then
      Some(a.value * 0x1000 + b.value * 0x100 + c.value * 16 + d.value)
    else None
  }

  /** What a one-letter escape stands for. */
  function ShortEscape(e: Unit): Option<Unit> {
    if e == QUOTE || e == BACKSLASH || e == 0x2F then Some(e)
    else if e == 0x62 then Some(0x08)
    else if e == 0x66 then Some(0x0C)
    else if e == 0x6E then Some(0x0A)
    else if e == 0x72 then Some(0x0D)
    else if e == 0x74 then Some(0x09)
    else None
  }

  predicate LeadSurrogate(c: Unit) { 0xD800 <= c <= 0xDBFF }
  predicate TrailSurrogate(c: Unit) { 0xDC00 <= c <= 0xDFFF }

  /** How one unit is printed inside a string; a surrogate pair is handled by the caller. */
  function PrintUnit(c: Unit): Text {
    if c == QUOTE || c == BACKSLASH then [BACKSLASH, c]
    else if c == 0x08 then [BACKSLASH, 0x62]
    else if c == 0x0C then [BACKSLASH, 0x66]
    else if c == 0x0A then [BACKSLASH, 0x6E]
    else if c == 0x0D then [BACKSLASH, 0x72]
    else if c == 0x09 then [BACKSLASH, 0x74]
    else if c < 0x20 || LeadSurrogate(c) || TrailSurrogate(c) then UnicodeEscape(c)
    else [c]
  }

  /** The body of a printed string and its closing quote; paired surrogates are kept as they are. */
  function PrintChars(s: Text): Text
  {
    if s == [] then [QUOTE]
    else if |s| > 1 && LeadSurrogate(s[0]) && TrailSurrogate(s[1]) then
      [s[0], s[1]] + PrintChars(s[2..])
    else PrintUnit(s[0]) + PrintChars(s[1..])
  }

  // ---- Printing ----

  function Print(v: Value): Text
    decreases v, 1
  {
    match v
    case Null => NULL_TEXT
    case Bool(b) => if b then TRUE_TEXT else FALSE_TEXT
    case Number(literal) => literal
    case String(chars) => [QUOTE] + PrintChars(chars)
    case Array(items) => [OPEN_BRACKET] + (if items == [] then [CLOSE_BRACKET] else PrintItems(items))
    case Object(members) => [OPEN_BRACE] + (if members == [] then [CLOSE_BRACE] else PrintMembers(members))
  }

  function PrintItems(items: seq<Value>): Text
    requires items != []
    decreases items, 0
  {
    Print(items[0]) + (if |items| == 1 then [CLOSE_BRACKET] else [COMMA] + PrintItems(items[1..]))
  }

  function PrintMembers(members: seq<Member>): Text
    requires members != []
    decreases members, 0
  {
    [QUOTE] + PrintChars(members[0].key) + [COLON] + Print(members[0].value)
    + (if |members| == 1 then [CLOSE_BRACE] else [COMMA] + PrintMembers(members[1..]))
  }

  // ---- Parsing ----

  datatype Parsed<+T> = Fail | Done(value: T, rest: Text)

  predicate Whitespace(c: Unit) { c == 0x20 || c == 0x09 || c == 0x0A || c == 0x0D }

  function SkipSpace(t: Text): (rest: Text)
    ensures |rest| <= |t|
    ensures rest != [] ==> !Whitespace(rest[0])
  {
    if t != [] && Whitespace(t[0]) then SkipSpace(t[1..]) else t
  }

  /** The rest of a string literal, after its opening quote. */
  function ParseChars(t: Text): (r: Parsed<Text>)
    ensures r.Done? ==> |r.rest| < |t|
    decreases |t|
  {
    if t == [] then Fail
    else if t[0] == QUOTE then Done([], t[1..])
    else if t[0] == BACKSLASH then
      if |t| > 1 && ShortEscape(t[1]).Some? then
        Prepend(ShortEscape(t[1]).value, ParseChars(t[2..]))
      else if |t| > 5 && t[1] == LOWER_U && Hex4(t[2..]).Some? then
        Prepend(Hex4(t[2..]).value, ParseChars(t[6..]))
      else Fail
    else if t[0] < 0x20 then Fail
    else Prepend(t[0], ParseChars(t[1..]))
  }

  function Prepend(c: Unit, r: Parsed<Text>): Parsed<Text> {
    match r
    case Fail => Fail
    case Done(s, rest) => Done([c] + s, rest)
  }

  function ParseLiteral(t: Text, literal: Text, v: Value): (r: Parsed<Value>)
    requires literal != []
    ensures r.Done? ==> |r.rest| < |t|
  {
    if literal <= t then Done(v, t[|literal|..]) else Fail
  }

  function ParseNumber(t: Text): (r: Parsed<Value>)
    ensures r.Done? ==> |r.rest| < |t|
  {
    var run := NumberRun(t);
    if NumberLiteral(run) then Done(Number(run), t[|run|..]) else Fail
  }

  function ParseValue(t: Text): (r: Parsed<Value>)
    ensures r.Done? ==> |r.rest| < |t|
    decreases |t|, 2
  {
    var u := SkipSpace(t);
    if u == [] then Fail
    else if u[0] == 0x6E then ParseLiteral(u, NULL_TEXT, Null)
    else if u[0] == 0x74 then ParseLiteral(u, TRUE_TEXT, Bool(true))
    else if u[0] == 0x66 then ParseLiteral(u, FALSE_TEXT, Bool(false))
    else if u[0] == QUOTE then
      (match ParseChars(u[1..])
       case Fail => Fail
       case Done(s, rest) => Done(String(s), rest))
    else if u[0] == OPEN_BRACKET then
      var w := SkipSpace(u[1..]);
      if w != [] && w[0] == CLOSE_BRACKET then Done(Array([]), w[1..])
      else
        (match ParseItems(u[1..])
         case Fail => Fail
         case Done(items, rest) => Done(Array(items), rest))
    else if u[0] == OPEN_BRACE then
      var w := SkipSpace(u[1..]);
      if w != [] && w[0] == CLOSE_BRACE then Done(Object([]), w[1..])
      else
        (match ParseMembers(u[1..])
         case Fail => Fail
         case Done(members, rest) => Done(Object(members), rest))
    else ParseNumber(u)
  }

  /** One or more values separated by commas, up to and including the closing bracket. */
  function ParseItems(t: Text): (r: Parsed<seq<Value>>)
    ensures r.Done? ==> |r.rest| < |t|
    decreases |t|, 3
  {
    match ParseValue(t)
    case Fail => Fail
    case Done(v, rest) =>
      var u := SkipSpace(rest);
      if u == [] then Fail
      else if u[0] == CLOSE_BRACKET then Done([v], u[1..])
      else if u[0] == COMMA then
        (match ParseItems(u[1..])
         case Fail => Fail
         case Done(vs, more) => Done([v] + vs, more))
      else Fail
  }

  function ParseMember(t: Text): (r: Parsed<Member>)
    ensures r.Done? ==> |r.rest| < |t|
    decreases |t|, 3
  {
    var u := SkipSpace(t);
    if u == [] || u[0] != QUOTE then Fail
    else
      match ParseChars(u[1..])
      case Fail => Fail
      case Done(key, rest) =>
        var w := SkipSpace(rest);
        if w == [] || w[0] != COLON then Fail
        else
          match ParseValue(w[1..])
          case Fail => Fail
          case Done(v, more) => Done(Member(key, v), more)
  }

  /** One or more members separated by commas, up to and including the closing brace. */
  function ParseMembers(t: Text): (r: Parsed<seq<Member>>)
    ensures r.Done? ==> |r.rest| < |t|
    decreases |t|, 4
  {
    match ParseMember(t)
    case Fail => Fail
    case Done(m, rest) =>
      var u := SkipSpace(rest);
      if u == [] then Fail
      else if u[0] == CLOSE_BRACE then Done([m], u[1..])
      else if u[0] == COMMA then
        (match ParseMembers(u[1..])
         case Fail => Fail
         case Done(ms, more) => Done([m] + ms, more))
      else Fail
  }

  /** The value of a whole text. */
  function Parse(t: Text): (r: Option<Value>) {
    match ParseValue(t)
    case Fail => None
    case Done(v, rest) => if SkipSpace(rest) == [] then Some(v) else None
  }
}
