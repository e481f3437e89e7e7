/** A recursive-descent parser for the compact printed form of JSON values. */
module JsonParser {
  import opened Options
  import opened Keys
  import opened Json

  datatype Parsed<+T> = Parsed(value: T, rest: Text)

  // ---------- strings ----------

  function HexValue(c: CodeUnit): Option<nat>
  {
    if 48 <= c <= 57 then Some(c as int - 48) else if 97 <= c <= 102 then Some(c as int - 87) else None
  }

  /** The unit after a backslash and "u". */
  function HexUnit(a: CodeUnit, b: CodeUnit, c: CodeUnit, d: CodeUnit): Option<CodeUnit>
  {
    var (p, q, r, s) := (HexValue(a), HexValue(b), HexValue(c), HexValue(d));
    if p.Some? && q.Some? && r.Some? && s.Some? && p.value < 16 && q.value < 16 && r.value < 16 && s.value < 16 then
      Some((p.value * 4096 + q.value * 256 + r.value * 16 + s.value) as CodeUnit)
    else None
  }

  /** The unit a two-character escape stands for. */
  function ShortEscape(c: CodeUnit): Option<CodeUnit>
  {
    if c == 98 then Some(8)
    else if c == 116 then Some(9)
    else if c == 110 then Some(10)
    else if c == 102 then Some(12)
    else if c == 114 then Some(13)
    else if c == QUOTE || c == BACKSLASH then Some(c)
    else None
  }

  /** One unit of a string, from the front of its text. */
  function ParseUnit(t: Text): (r: Option<Parsed<CodeUnit>>)
    ensures r.Some? ==> |r.value.rest| < |t|
  {
    if t == [] then None
    else if t[0] != BACKSLASH then Some(Parsed(t[0], t[1..]))
    else if |t| >= 6 && t[1] == 117 then
      var unit := HexUnit(t[2], t[3], t[4], t[5]);
      if unit.Some? then Some(Parsed(unit.value, t[6..])) else None
    else if |t| >= 2 then
      var unit := ShortEscape(t[1]);
      if unit.Some? then Some(Parsed(unit.value, t[2..])) else None
    else None
  }

  /** The rest of a string, up to and over its closing quote. */
  function ParseString(t: Text): (r: Option<Parsed<Text>>)
    ensures r.Some? ==> |r.value.rest| < |t|
    decreases |t|
  {
    if t != [] && t[0] == QUOTE then Some(Parsed([], t[1..]))
    else
      var unit := ParseUnit(t);
      if unit.None? then None
      else
        var more := ParseString(unit.value.rest);
        if more.None? then None else Some(Parsed([unit.value.value] + more.value.value, more.value.rest))
  }

  lemma HexRound(n: nat)
    requires n < 16
    ensures HexValue(HexDigit(n)) == Some(n)
  {
  }

  lemma HexUnitRound(c: CodeUnit)
    ensures var n := c as int;
      HexUnit(HexDigit(n / 4096), HexDigit(n / 256 % 16), HexDigit(n / 16 % 16), HexDigit(n % 16)) == Some(c)
  {
    var n := c as int;
    HexRound(n / 4096);
    HexRound(n / 256 % 16);
    HexRound(n / 16 % 16);
    HexRound(n % 16);
    hide HexDigit, HexValue;
    Digits(n);
  }

  lemma Digits(n: nat)
    ensures n / 4096 * 4096 + n / 256 % 16 * 256 + n / 16 % 16 * 16 + n % 16 == n
  {
    assert n / 256 == n / 4096 * 16 + n / 256 % 16;
    assert n / 16 == n / 256 * 16 + n / 16 % 16;
  }

  lemma UnicodeUnit(c: CodeUnit, rest: Text)
    ensures ParseUnit(UnicodeEscape(c) + rest) == Some(Parsed(c, rest))
  {
    HexUnitRound(c);
    hide HexDigit, HexUnit;
    assert (UnicodeEscape(c) + rest)[6..] == rest;
  }

  lemma EscapedUnit(c: CodeUnit, rest: Text)
    ensures ParseUnit(Escape(c) + rest) == Some(Parsed(c, rest))
    ensures |Escape(c)| > 0 && Escape(c)[0] != QUOTE
  {
    UnicodeUnit(c, rest);
    hide HexDigit, HexUnit;
    if |Escape(c)| == 1 {
      assert ([c] + rest)[1..] == rest;
    } else if |Escape(c)| == 2 {
      assert (Escape(c) + rest)[2..] == rest;
    }
  }

  lemma EscapedThen(c: CodeUnit, more: Text)
    ensures var r := ParseString(more);
      ParseString(Escape(c) + more) == if r.None? then None else Some(Parsed([c] + r.value.value, r.value.rest))
  {
    EscapedUnit(c, more);
    hide Escape, ParseUnit;
  }

  lemma RawThen(c: CodeUnit, more: Text)
    requires c != QUOTE && c != BACKSLASH
    ensures var r := ParseString(more);
      ParseString([c] + more) == if r.None? then None else Some(Parsed([c] + r.value.value, r.value.rest))
  {
    assert ([c] + more)[1..] == more;
  }

  predicate Pair(s: Text)
  {
    |s| > 1 && HighSurrogate(s[0]) && LowSurrogate(s[1])
  }

  lemma PairText(s: Text, rest: Text)
    requires Pair(s)
    ensures EscapeAll(s) + [QUOTE] + rest == [s[0]] + ([s[1]] + (EscapeAll(s[2..]) + [QUOTE] + rest))
    ensures s == [s[0]] + ([s[1]] + s[2..])
  {
    PairEscapes(s);
    Shift(s[0], s[1], EscapeAll(s[2..]), [QUOTE], rest);
    hide EscapeAll;
  }

  lemma PairEscapes(s: Text)
    requires Pair(s)
    ensures EscapeAll(s) == [s[0], s[1]] + EscapeAll(s[2..])
  {
  }

  lemma Shift(a: CodeUnit, b: CodeUnit, x: Text, y: Text, z: Text)
    ensures [a, b] + x + y + z == [a] + ([b] + (x + y + z))
  {
  }

  lemma UnitText(s: Text, rest: Text)
    requires s != [] && !Pair(s)
    ensures EscapeAll(s) + [QUOTE] + rest == Escape(s[0]) + (EscapeAll(s[1..]) + [QUOTE] + rest)
  {
    hide Escape;
    var more := EscapeAll(s[1..]);
    assert EscapeAll(s) == Escape(s[0]) + more;
    hide EscapeAll;
  }

  /** Reading an escaped text up to its closing quote gives the text. */
  lemma {:induction false} StringParses(s: Text, rest: Text)
    ensures ParseString(EscapeAll(s) + [QUOTE] + rest) == Some(Parsed(s, rest))
    decreases |s|
  {
    hide Escape, ParseUnit;
    if s == [] {
      assert EscapeAll(s) + [QUOTE] + rest == [QUOTE] + rest;
      assert ([QUOTE] + rest)[1..] == rest;
    } else {
      hide ParseString, EscapeAll;
      if Pair(s) {
        PairText(s, rest);
        var more := EscapeAll(s[2..]) + [QUOTE] + rest;
        StringParses(s[2..], rest);
        RawThen(s[1], more);
        RawThen(s[0], [s[1]] + more);
      } else {
        UnitText(s, rest);
        StringParses(s[1..], rest);
        EscapedThen(s[0], EscapeAll(s[1..]) + [QUOTE] + rest);
        assert s == [s[0]] + s[1..];
      }
    }
  }

  // ---------- numbers and words ----------

  function NumeralLength(t: Text): (n: nat)
    ensures n <= |t| && forall i :: 0 <= i < n ==> NumeralUnit(t[i])
    ensures n < |t| ==> !NumeralUnit(t[n])
  {
    if t == [] || !NumeralUnit(t[0]) then 0 else 1 + NumeralLength(t[1..])
  }

  ghost predicate EndsNumeral(rest: Text)
  {
    rest == [] || !NumeralUnit(rest[0])
  }

  lemma NumeralEnds(n: Numeral, rest: Text)
    requires EndsNumeral(rest)
    ensures NumeralLength(n + rest) == |n|
  {
    assert forall i :: 0 <= i < |n| ==> NumeralUnit((n + rest)[i]);
    assert rest != [] ==> (n + rest)[|n|] == rest[0];
  }

  // ---------- values ----------

  function ParseValue(t: Text): (r: Option<Parsed<Json>>)
    ensures r.Some? ==> |r.value.rest| < |t|
    decreases |t|, 0
  {
    if t == [] then None
    else if t[0] == QUOTE then
      var s := ParseString(t[1..]);
      if s.None? then None else Some(Parsed(Str(s.value.value), s.value.rest))
    else if t[0] == OPEN_BRACKET then ParseArray(t[1..])
    else if t[0] == OPEN_BRACE then ParseObject(t[1..])
    else if NumeralUnit(t[0]) then
      var n := NumeralLength(t);
      Some(Parsed(Num(t[..n]), t[n..]))
    else if NULL_TEXT <= t then Some(Parsed(Null, t[4..]))
    else if TRUE_TEXT <= t then Some(Parsed(Bool(true), t[4..]))
    else if FALSE_TEXT <= t then Some(Parsed(Bool(false), t[5..]))
    else None
  }

  function ParseArray(t: Text): (r: Option<Parsed<Json>>)
    ensures r.Some? ==> |r.value.rest| <= |t|
    decreases |t|, 2
  {
    if t != [] && t[0] == CLOSE_BRACKET then Some(Parsed(Arr(NoItems), t[1..]))
    else
      var items := ParseItems(t);
      if items.None? then None else Some(Parsed(Arr(items.value.value), items.value.rest))
  }

  function ParseObject(t: Text): (r: Option<Parsed<Json>>)
    ensures r.Some? ==> |r.value.rest| <= |t|
    decreases |t|, 2
  {
    if t != [] && t[0] == CLOSE_BRACE then Some(Parsed(Obj(NoMembers), t[1..]))
    else
      var members := ParseMembers(t);
      if members.None? then None else Some(Parsed(Obj(members.value.value), members.value.rest))
  }

  /** One item or more, over the closing bracket. */
  function ParseItems(t: Text): (r: Option<Parsed<Items>>)
    ensures r.Some? ==> |r.value.rest| < |t|
    decreases |t|, 1
  {
    var head := ParseValue(t);
    if head.None? || head.value.rest == [] then None
    else
      var rest := head.value.rest;
      if rest[0] == CLOSE_BRACKET then Some(Parsed(Item(head.value.value, NoItems), rest[1..]))
      else if rest[0] != COMMA then None
      else
        var tail := ParseItems(rest[1..]);
        if tail.None? then None else Some(Parsed(Item(head.value.value, tail.value.value), tail.value.rest))
  }

  /** One member or more, over the closing brace. */
  function ParseMembers(t: Text): (r: Option<Parsed<Members>>)
    ensures r.Some? ==> |r.value.rest| < |t|
    decreases |t|, 1
  {
    if t == [] || t[0] != QUOTE then None
    else
      var key := ParseString(t[1..]);
      if key.None? || key.value.rest == [] || key.value.rest[0] != COLON then None
      else
        var value := ParseValue(key.value.rest[1..]);
        if value.None? || value.value.rest == [] then None
        else
          var rest := value.value.rest;
          if rest[0] == CLOSE_BRACE then Some(Parsed(Member(key.value.value, value.value.value, NoMembers), rest[1..]))
          else if rest[0] != COMMA then None
          else
            var more := ParseMembers(rest[1..]);
            if more.None? then None
            else Some(Parsed(Member(key.value.value, value.value.value, more.value.value), more.value.rest))
  }

  /** The whole text is one value. */
  function Parse(t: Text): Option<Json>
  {
    var r := ParseValue(t);
    if r.Some? && r.value.rest == [] then Some(r.value.value) else None
  }

  // ---------- parsing undoes printing ----------

  lemma QuoteParses(s: Text, rest: Text)
    ensures Quote(s) + rest == [QUOTE] + (EscapeAll(s) + [QUOTE] + rest)
    ensures ParseString((Quote(s) + rest)[1..]) == Some(Parsed(s, rest))
  {
    hide EscapeAll, ParseString;
    StringParses(s, rest);
    var more := EscapeAll(s) + [QUOTE] + rest;
    assert Quote(s) + rest == [QUOTE] + more;
    assert ([QUOTE] + more)[1..] == more;
  }

  lemma WordParses(v: Json, rest: Text)
    requires v.Null? || v.Bool?
    ensures ParseValue(Print(v) + rest) == Some(Parsed(v, rest))
  {
    var t := Print(v) + rest;
    assert t[..|Print(v)|] == Print(v) && t[|Print(v)|..] == rest;
    assert t[0] == Print(v)[0];
    if v == Bool(true) { assert NULL_TEXT[0] != t[0]; }
    if v == Bool(false) { assert NULL_TEXT[0] != t[0] && TRUE_TEXT[0] != t[0]; }
  }

  lemma NumberParses(n: Numeral, rest: Text)
    requires EndsNumeral(rest)
    ensures ParseValue(n + rest) == Some(Parsed(Num(n), rest))
  {
    NumeralEnds(n, rest);
    hide NumeralLength, ParseString, ParseArray, ParseObject;
    var t := n + rest;
    assert NumeralUnit(t[0]);
    assert t[..|n|] == n && t[|n|..] == rest;
  }

  lemma {:induction false} ValueParses(v: Json, rest: Text)
    requires EndsNumeral(rest)
    ensures ParseValue(Print(v) + rest) == Some(Parsed(v, rest))
    decreases v, 0
  {
    match v
    case Null => WordParses(v, rest);
    case Bool(_) => WordParses(v, rest);
    case Num(n) => NumberParses(n, rest);
    case Str(s) => StrParses(s, rest);
    case Arr(items) =>
      if items.Item? {
        ItemsParse(items, rest);
        ItemsOpen(items, rest);
      }
      ArrParses(items, rest);
    case Obj(members) =>
      if members.Member? { MembersParse(members, rest); }
      ObjParses(members, rest);
  }

  lemma StrParses(s: Text, rest: Text)
    ensures ParseValue(Print(Str(s)) + rest) == Some(Parsed(Str(s), rest))
  {
    hide Quote, ParseString, ParseArray, ParseObject, NumeralLength;
    QuoteParses(s, rest);
  }

  /** A value's text starts with no closing bracket. */
  lemma ValueOpens(v: Json)
    ensures |Print(v)| > 0 && Print(v)[0] != CLOSE_BRACKET
  {
    hide EscapeAll, PrintItems, PrintMembers;
  }

  lemma ItemsOpen(items: Items, rest: Text)
    requires items.Item?
    ensures var t := PrintItems(items) + [CLOSE_BRACKET] + rest; t != [] && t[0] != CLOSE_BRACKET
  {
    ValueOpens(items.head);
    hide Print;
  }

  lemma ArrParses(items: Items, rest: Text)
    requires items.Item? ==> (
      var t := PrintItems(items) + [CLOSE_BRACKET] + rest;
      t != [] && t[0] != CLOSE_BRACKET && ParseItems(t) == Some(Parsed(items, rest)))
    ensures ParseValue(Print(Arr(items)) + rest) == Some(Parsed(Arr(items), rest))
  {
    hide ParseItems, PrintItems, ParseString, ParseObject, NumeralLength;
    var t := PrintItems(items) + [CLOSE_BRACKET] + rest;
    assert Print(Arr(items)) + rest == [OPEN_BRACKET] + t;
    assert ([OPEN_BRACKET] + t)[1..] == t;
    if items.NoItems? {
      NoText();
      assert t == [CLOSE_BRACKET] + rest && t[1..] == rest;
    }
  }

  lemma NoText()
    ensures PrintItems(NoItems) == [] && PrintMembers(NoMembers) == []
  {
  }

  lemma ObjParses(members: Members, rest: Text)
    requires members.Member? ==> (
      var t := PrintMembers(members) + [CLOSE_BRACE] + rest;
      t != [] && t[0] == QUOTE && ParseMembers(t) == Some(Parsed(members, rest)))
    ensures ParseValue(Print(Obj(members)) + rest) == Some(Parsed(Obj(members), rest))
  {
    hide ParseMembers, PrintMembers, ParseString, ParseArray, NumeralLength;
    var t := PrintMembers(members) + [CLOSE_BRACE] + rest;
    assert Print(Obj(members)) + rest == [OPEN_BRACE] + t;
    assert ([OPEN_BRACE] + t)[1..] == t;
    if members.NoMembers? {
      NoText();
      assert t == [CLOSE_BRACE] + rest && t[1..] == rest;
    }
  }

  lemma {:induction false} ItemsParse(items: Items, rest: Text)
    requires items.Item?
    ensures ParseItems(PrintItems(items) + [CLOSE_BRACKET] + rest) == Some(Parsed(items, rest))
    decreases items, 1
  {
    var head := items.head;
    if items.tail.NoItems? {
      var after := [CLOSE_BRACKET] + rest;
      ValueParses(head, after);
      LastItem(head, rest);
    } else {
      var more := PrintItems(items.tail) + [CLOSE_BRACKET] + rest;
      ItemsParse(items.tail, rest);
      ValueParses(head, [COMMA] + more);
      MoreItems(head, items.tail, rest);
    }
  }

  lemma LastItem(head: Json, rest: Text)
    requires ParseValue(Print(head) + ([CLOSE_BRACKET] + rest)) == Some(Parsed(head, [CLOSE_BRACKET] + rest))
    ensures ParseItems(PrintItems(Item(head, NoItems)) + [CLOSE_BRACKET] + rest) ==
      Some(Parsed(Item(head, NoItems), rest))
  {
    hide Print, ParseValue;
    var after := [CLOSE_BRACKET] + rest;
    assert PrintItems(Item(head, NoItems)) + [CLOSE_BRACKET] + rest == Print(head) + after;
    assert after[1..] == rest;
  }

  lemma MoreItems(head: Json, tail: Items, rest: Text)
    requires tail.Item? && ParseItems(PrintItems(tail) + [CLOSE_BRACKET] + rest) == Some(Parsed(tail, rest))
    requires var after := [COMMA] + (PrintItems(tail) + [CLOSE_BRACKET] + rest);
      ParseValue(Print(head) + after) == Some(Parsed(head, after))
    ensures ParseItems(PrintItems(Item(head, tail)) + [CLOSE_BRACKET] + rest) == Some(Parsed(Item(head, tail), rest))
  {
    hide Print, ParseValue;
    var more := PrintItems(tail) + [CLOSE_BRACKET] + rest;
    var after := [COMMA] + more;
    assert PrintItems(Item(head, tail)) + [CLOSE_BRACKET] + rest == Print(head) + after;
    assert after[1..] == more;
  }

  /** A member's text: key, colon, value and what follows. */
  lemma MemberText(key: Text, value: Json, after: Text)
    ensures var t := Quote(key) + [COLON] + Print(value) + after;
      && t != [] && t[0] == QUOTE
      && ParseString(t[1..]) == Some(Parsed(key, [COLON] + (Print(value) + after)))
  {
    hide Print, ParseString, EscapeAll;
    var tail := [COLON] + (Print(value) + after);
    QuoteParses(key, tail);
    assert Quote(key) + [COLON] + Print(value) + after == Quote(key) + tail;
  }

  lemma {:induction false} MembersParse(members: Members, rest: Text)
    requires members.Member?
    ensures var t := PrintMembers(members) + [CLOSE_BRACE] + rest;
      t != [] && t[0] == QUOTE && ParseMembers(t) == Some(Parsed(members, rest))
    decreases members, 1
  {
    var value := members.value;
    if members.rest.NoMembers? {
      var after := [CLOSE_BRACE] + rest;
      ValueParses(value, after);
      LastMember(members.key, value, rest);
    } else {
      var more := PrintMembers(members.rest) + [CLOSE_BRACE] + rest;
      MembersParse(members.rest, rest);
      ValueParses(value, [COMMA] + more);
      MoreMembers(members.key, value, members.rest, rest);
    }
  }

  lemma LastMember(key: Text, value: Json, rest: Text)
    requires ParseValue(Print(value) + ([CLOSE_BRACE] + rest)) == Some(Parsed(value, [CLOSE_BRACE] + rest))
    ensures var m := Member(key, value, NoMembers); var t := PrintMembers(m) + [CLOSE_BRACE] + rest;
      t != [] && t[0] == QUOTE && ParseMembers(t) == Some(Parsed(m, rest))
  {
    hide Print, ParseValue, Quote, ParseString;
    var after := [CLOSE_BRACE] + rest;
    MemberText(key, value, after);
    assert PrintMembers(Member(key, value, NoMembers)) + [CLOSE_BRACE] + rest ==
      Quote(key) + [COLON] + Print(value) + after;
    assert ([COLON] + (Print(value) + after))[1..] == Print(value) + after;
    assert after[1..] == rest;
  }

  lemma MoreMembers(key: Text, value: Json, others: Members, rest: Text)
    requires others.Member? && ParseMembers(PrintMembers(others) + [CLOSE_BRACE] + rest) == Some(Parsed(others, rest))
    requires var after := [COMMA] + (PrintMembers(others) + [CLOSE_BRACE] + rest);
      ParseValue(Print(value) + after) == Some(Parsed(value, after))
    ensures var m := Member(key, value, others); var t := PrintMembers(m) + [CLOSE_BRACE] + rest;
      t != [] && t[0] == QUOTE && ParseMembers(t) == Some(Parsed(m, rest))
  {
    hide Print, ParseValue, Quote, ParseString;
    var more := PrintMembers(others) + [CLOSE_BRACE] + rest;
    var after := [COMMA] + more;
    MemberText(key, value, after);
    assert PrintMembers(Member(key, value, others)) + [CLOSE_BRACE] + rest ==
      Quote(key) + [COLON] + Print(value) + after;
    assert ([COLON] + (Print(value) + after))[1..] == Print(value) + after;
    assert after[1..] == more;
  }

  /** Parsing undoes printing, for every JSON value. */
  lemma ParsePrint(v: Json)
    ensures Parse(Print(v)) == Some(v)
  {
    hide Print, ParseValue;
    ValueParses(v, []);
    assert Print(v) + [] == Print(v);
  }
}
