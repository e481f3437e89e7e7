/** JSON values and their compact printed form, over UTF-16 code units. */
module Json {
  import opened Keys

  type Text = seq<CodeUnit>

  const QUOTE: CodeUnit := 34
  const COMMA: CodeUnit := 44
  const COLON: CodeUnit := 58
  const OPEN_BRACKET: CodeUnit := 91
  const BACKSLASH: CodeUnit := 92
  const CLOSE_BRACKET: CodeUnit := 93
  const OPEN_BRACE: CodeUnit := 123
  const CLOSE_BRACE: CodeUnit := 125

  predicate NumeralUnit(c: CodeUnit)
  {
    48 <= c <= 57 || c == 43 || c == 45 || c == 46 || c == 69 || c == 101
  }

  predicate IsNumeral(t: Text)
  {
    |t| > 0 && forall i :: 0 <= i < |t| ==> NumeralUnit(t[i])
  }

  /** A number, identified with the numeral that printing it yields. */
  type Numeral = t: Text | IsNumeral(t) witness [48]

  datatype Json =
    | Null
    | Bool(value: bool)
    | Num(numeral: Numeral)
    | Str(text: Text)
    | Arr(items: Items)
    | Obj(members: Members)

  datatype Items = NoItems | Item(head: Json, tail: Items)

  datatype Members = NoMembers | Member(key: Text, value: Json, rest: Members)

  const NULL_TEXT: Text := [110, 117, 108, 108]
  const TRUE_TEXT: Text := [116, 114, 117, 101]
  const FALSE_TEXT: Text := [102, 97, 108, 115, 101]

  function HexDigit(n: nat): CodeUnit
    requires n < 16
  {
    if n < 10 then (48 + n) as CodeUnit else (87 + n) as CodeUnit
  }

  function UnicodeEscape(c: CodeUnit): Text
  {
    var n := c as int;
    [BACKSLASH, 117, HexDigit(n / 4096), HexDigit(n / 256 % 16), HexDigit(n / 16 % 16), HexDigit(n % 16)]
  }

  predicate HighSurrogate(c: CodeUnit)
  {
    0xD800 <= c <= 0xDBFF
  }

  predicate LowSurrogate(c: CodeUnit)
  {
    0xDC00 <= c <= 0xDFFF
  }

  /** The escape of one unit that is not half of a surrogate pair. */
  function Escape(c: CodeUnit): Text
  {
    if c == 8 then [BACKSLASH, 98]
    else if c == 9 then [BACKSLASH, 116]
    else if c == 10 then [BACKSLASH, 110]
    else if c == 12 then [BACKSLASH, 102]
    else if c == 13 then [BACKSLASH, 114]
    else if c == QUOTE || c == BACKSLASH then [BACKSLASH, c]
    else if c < 32 || HighSurrogate(c) || LowSurrogate(c) then UnicodeEscape(c)
    else [c]
  }

  /** The short escapes (section 7 of RFC 8259), and the controls that have none. */
  lemma EscapeTable(c: CodeUnit)
    ensures Escape(8) == [92, 98] && Escape(9) == [92, 116] && Escape(10) == [92, 110] && Escape(12) == [92, 102]
    ensures Escape(13) == [92, 114] && Escape(34) == [92, 34] && Escape(92) == [92, 92]
    ensures Escape(0) == [92, 117, 48, 48, 48, 48] && Escape(31) == [92, 117, 48, 48, 49, 102]
    ensures 32 <= c < 0xD800 && c != 34 && c != 92 ==> Escape(c) == [c]
  {
  }

  function EscapeAll(s: Text): Text
  {
    if s == [] then []
    else if |s| > 1 && HighSurrogate(s[0]) && LowSurrogate(s[1]) then [s[0], s[1]] + EscapeAll(s[2..])
    else Escape(s[0]) + EscapeAll(s[1..])
  }

  function Quote(s: Text): Text
  {
    [QUOTE] + EscapeAll(s) + [QUOTE]
  }

  /** `JSON.stringify` without spacing. */
  function Print(v: Json): Text
  {
    match v
    case Null => NULL_TEXT
    case Bool(b) => if b then TRUE_TEXT else FALSE_TEXT
    case Num(numeral) => numeral
    case Str(s) => Quote(s)
    case Arr(items) => [OPEN_BRACKET] + PrintItems(items) + [CLOSE_BRACKET]
    case Obj(members) => [OPEN_BRACE] + PrintMembers(members) + [CLOSE_BRACE]
  }

  function PrintItems(items: Items): Text
  {
    match items
    case NoItems => []
    case Item(head, tail) => Print(head) + if tail.NoItems? then [] else [COMMA] + PrintItems(tail)
  }

  function PrintMembers(members: Members): Text
  {
    match members
    case NoMembers => []
    case Member(key, value, rest) =>
      Quote(key) + [COLON] + Print(value) + if rest.NoMembers? then [] else [COMMA] + PrintMembers(rest)
  }
}
