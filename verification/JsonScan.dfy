/** How the value scanner moves over printed JSON, and what the reader captures of it. */
module JsonScan {
  import opened Options
  import opened Keys
  import opened Json
  import opened JsonReader

  /** The scanner goes from `s` over `t` to `e` without an error, without completing, and without
      meeting a delimiter at the top level. */
  ghost predicate Passes(s: Scan, t: Text, e: Scan)
    decreases |t|
  {
    if t == [] then s == e
    else
      var next := AcceptChar(s, t[0]);
      && !s.complete && !(s.depth == 0 && !s.inString && (t[0] == COMMA || t[0] == CLOSE_BRACE))
      && next.Some? && !next.value.complete && Passes(next.value, t[1..], e)
  }

  lemma {:induction false} PassesConcat(s: Scan, a: Text, m: Scan, b: Text, e: Scan)
    requires Passes(s, a, m) && Passes(m, b, e)
    ensures Passes(s, a + b, e)
    decreases |a|
  {
    hide AcceptChar;
    if a == [] {
      assert a + b == b;
    } else {
      assert (a + b)[1..] == a[1..] + b;
      PassesConcat(AcceptChar(s, a[0]).value, a[1..], m, b, e);
    }
  }

  function Level(depth: nat): Scan
  {
    Scan(depth, false, false, false)
  }

  function Inside(depth: nat): Scan
  {
    Scan(depth, true, false, false)
  }

  predicate PlainUnit(c: CodeUnit)
  {
    c != QUOTE && c != BACKSLASH
  }

  /** Inside a string, ordinary characters leave the scanner where it is. */
  lemma {:induction false} PassesPlain(depth: nat, t: Text)
    requires forall i :: 0 <= i < |t| ==> PlainUnit(t[i])
    ensures Passes(Inside(depth), t, Inside(depth))
    decreases |t|
  {
    if t != [] { PassesPlain(depth, t[1..]); }
  }

  /** A backslash hides the next character. */
  lemma PassesEscaped(depth: nat, c: CodeUnit)
    ensures Passes(Inside(depth), [BACKSLASH, c], Inside(depth))
  {
    var mid := Scan(depth, true, true, false);
    assert AcceptChar(Inside(depth), BACKSLASH) == Some(mid);
    assert AcceptChar(mid, c) == Some(Inside(depth));
    assert [BACKSLASH, c][1..] == [c] && [c][1..] == [];
    assert Passes(mid, [c], Inside(depth));
  }

  lemma PassesEscape(depth: nat, c: CodeUnit)
    ensures Passes(Inside(depth), Escape(c), Inside(depth))
  {
    hide Passes;
    var t := Escape(c);
    if t == [c] {
      PassesPlain(depth, t);
    } else {
      PassesEscaped(depth, t[1]);
      if |t| == 6 {
        HexPlain(c);
        PassesPlain(depth, t[2..]);
        assert t == t[..2] + t[2..] && t[..2] == [BACKSLASH, t[1]];
        PassesConcat(Inside(depth), t[..2], Inside(depth), t[2..], Inside(depth));
      } else {
        assert t == [BACKSLASH, t[1]];
      }
    }
  }

  lemma HexPlain(c: CodeUnit)
    ensures var t := UnicodeEscape(c); forall i :: 2 <= i < 6 ==> PlainUnit(t[i])
  {
  }

  lemma {:induction false} PassesEscapeAll(depth: nat, s: Text)
    ensures Passes(Inside(depth), EscapeAll(s), Inside(depth))
    decreases |s|
  {
    if s != [] {
      hide Passes, Escape;
      if |s| > 1 && HighSurrogate(s[0]) && LowSurrogate(s[1]) {
        PassesPlain(depth, [s[0], s[1]]);
        PassesEscapeAll(depth, s[2..]);
        PassesConcat(Inside(depth), [s[0], s[1]], Inside(depth), EscapeAll(s[2..]), Inside(depth));
      } else {
        PassesEscape(depth, s[0]);
        PassesEscapeAll(depth, s[1..]);
        PassesConcat(Inside(depth), Escape(s[0]), Inside(depth), EscapeAll(s[1..]), Inside(depth));
      }
    }
  }

  lemma PassesOne(s: Scan, c: CodeUnit, e: Scan)
    requires !s.complete && !(s.depth == 0 && !s.inString && (c == COMMA || c == CLOSE_BRACE))
    requires AcceptChar(s, c) == Some(e) && !e.complete
    ensures Passes(s, [c], e)
  {
    assert [c][1..] == [];
  }

  lemma PassesQuote(depth: nat, s: Text)
    requires depth >= 1
    ensures Passes(Level(depth), Quote(s), Level(depth))
  {
    PassesOne(Level(depth), QUOTE, Inside(depth));
    PassesOne(Inside(depth), QUOTE, Level(depth));
    PassesEscapeAll(depth, s);
    hide Passes, EscapeAll;
    PassesConcat(Level(depth), [QUOTE], Inside(depth), EscapeAll(s), Inside(depth));
    PassesConcat(Level(depth), [QUOTE] + EscapeAll(s), Inside(depth), [QUOTE], Level(depth));
  }

  predicate InertUnit(c: CodeUnit)
  {
    c != QUOTE && c != OPEN_BRACE && c != CLOSE_BRACE && c != OPEN_BRACKET && c != CLOSE_BRACKET && c != COMMA
  }

  /** Outside strings, characters that are no punctuation leave the scanner where it is. */
  lemma {:induction false} PassesInert(depth: nat, t: Text)
    requires forall i :: 0 <= i < |t| ==> InertUnit(t[i])
    ensures Passes(Level(depth), t, Level(depth))
    decreases |t|
  {
    if t != [] { PassesInert(depth, t[1..]); }
  }

  predicate IsScalar(v: Json)
  {
    v.Null? || v.Bool? || v.Num?
  }

  lemma ScalarInert(v: Json)
    requires IsScalar(v)
    ensures |Print(v)| > 0 && forall i :: 0 <= i < |Print(v)| ==>
      InertUnit(Print(v)[i]) && !IsTrimmed(Print(v)[i]) && !IsWhitespace(Print(v)[i])
  {
    if v.Num? { assert IsNumeral(v.numeral); }
  }

  /** Nested inside a container, a printed value brings the scanner back to where it was. */
  lemma {:induction false} PassesPrint(depth: nat, v: Json)
    requires depth >= 1
    ensures Passes(Level(depth), Print(v), Level(depth))
    decreases v
  {
    if IsScalar(v) {
      ScalarInert(v);
      PassesInert(depth, Print(v));
    } else if v.Str? {
      PassesQuote(depth, v.text);
    } else {
      PassesBody(depth + 1, v);
      PassesOne(Level(depth), Print(v)[0], Level(depth + 1));
      var close := if v.Arr? then CLOSE_BRACKET else CLOSE_BRACE;
      PassesOne(Level(depth + 1), close, Level(depth));
      hide Passes;
      var body := Body(v);
      PassesConcat(Level(depth), [Print(v)[0]], Level(depth + 1), body, Level(depth + 1));
      PassesConcat(Level(depth), [Print(v)[0]] + body, Level(depth + 1), [close], Level(depth));
      assert Print(v) == [Print(v)[0]] + body + [close];
    }
  }

  /** What a container prints between its brackets. */
  function Body(v: Json): Text
    requires v.Arr? || v.Obj?
  {
    if v.Arr? then PrintItems(v.items) else PrintMembers(v.members)
  }

  lemma {:induction false} PassesBody(depth: nat, v: Json)
    requires depth >= 1 && (v.Arr? || v.Obj?)
    ensures Passes(Level(depth), Body(v), Level(depth))
    decreases v, 0
  {
    if v.Arr? { PassesItems(depth, v.items); } else { PassesMembers(depth, v.members); }
  }

  lemma {:induction false} PassesItems(depth: nat, items: Items)
    requires depth >= 1
    ensures Passes(Level(depth), PrintItems(items), Level(depth))
    decreases items
  {
    if items.Item? {
      PassesPrint(depth, items.head);
      if items.tail.Item? {
        PassesOne(Level(depth), COMMA, Level(depth));
        PassesItems(depth, items.tail);
        hide Passes, Print, PrintItems;
        PassesConcat(Level(depth), [COMMA], Level(depth), PrintItems(items.tail), Level(depth));
        PassesConcat(Level(depth), Print(items.head), Level(depth), [COMMA] + PrintItems(items.tail), Level(depth));
        ItemsUnfold(items);
      } else {
        assert PrintItems(items) == Print(items.head);
      }
    }
  }

  lemma ItemsUnfold(items: Items)
    requires items.Item? && items.tail.Item?
    ensures PrintItems(items) == Print(items.head) + ([COMMA] + PrintItems(items.tail))
  {
  }

  lemma MembersUnfold(m: Members)
    requires m.Member?
    ensures PrintMembers(m) ==
      (Quote(m.key) + [COLON]) + Print(m.value) + if m.rest.NoMembers? then [] else [COMMA] + PrintMembers(m.rest)
  {
  }

  lemma {:induction false} PassesMembers(depth: nat, m: Members)
    requires depth >= 1
    ensures Passes(Level(depth), PrintMembers(m), Level(depth))
    decreases m
  {
    if m.Member? {
      MembersUnfold(m);
      PassesQuote(depth, m.key);
      PassesOne(Level(depth), COLON, Level(depth));
      PassesPrint(depth, m.value);
      if m.rest.Member? {
        PassesOne(Level(depth), COMMA, Level(depth));
        PassesMembers(depth, m.rest);
      }
      PassesJoin(depth, m);
    }
  }

  lemma PassesJoin(depth: nat, m: Members)
    requires m.Member? && depth >= 1
    requires Passes(Level(depth), Quote(m.key), Level(depth)) && Passes(Level(depth), [COLON], Level(depth))
    requires Passes(Level(depth), Print(m.value), Level(depth))
    requires m.rest.Member? ==>
      Passes(Level(depth), [COMMA], Level(depth)) && Passes(Level(depth), PrintMembers(m.rest), Level(depth))
    ensures Passes(Level(depth), PrintMembers(m), Level(depth))
  {
    MembersUnfold(m);
    hide Passes, Print, PrintMembers, Quote;
    var head := (Quote(m.key) + [COLON]) + Print(m.value);
    PassesConcat(Level(depth), Quote(m.key), Level(depth), [COLON], Level(depth));
    PassesConcat(Level(depth), Quote(m.key) + [COLON], Level(depth), Print(m.value), Level(depth));
    if m.rest.Member? {
      PassesConcat(Level(depth), [COMMA], Level(depth), PrintMembers(m.rest), Level(depth));
      PassesConcat(Level(depth), head, Level(depth), [COMMA] + PrintMembers(m.rest), Level(depth));
    } else {
      assert head + [] == head;
    }
  }

  // ---------- what the reader makes of a scanned text ----------

  /** Text the scanner passes over is captured in full. */
  lemma {:induction false} CaptureRun<Q>(cfg: Config<Q>, r: Reader<Q>, t: Text, e: Scan)
    requires Holding(r) && r.scan.Some? && !r.scan.value.complete && Passes(r.scan.value, t, e)
    requires |r.buffer| + |t| <= LimitFor(cfg, r)
    ensures !e.complete
    ensures FeedAll(cfg, Going(r), t) == Going(r.(scan := Some(e), buffer := r.buffer + t))
    decreases |t|
  {
    hide AcceptChar;
    if t == [] {
      assert r.buffer + t == r.buffer;
    } else {
      var next := AcceptChar(r.scan.value, t[0]);
      var mid := r.(scan := next, buffer := r.buffer + [t[0]]);
      CaptureOne(cfg, r, t[0]);
      hide Feed;
      CaptureRun(cfg, mid, t[1..], e);
      assert r.buffer + [t[0]] + t[1..] == r.buffer + t;
    }
  }

  lemma CaptureOne<Q>(cfg: Config<Q>, r: Reader<Q>, c: CodeUnit)
    requires Holding(r) && r.scan.Some? && !r.scan.value.complete && |r.buffer| < LimitFor(cfg, r)
    requires var s := r.scan.value; !(s.depth == 0 && !s.inString && (c == COMMA || c == CLOSE_BRACE))
    requires var next := AcceptChar(r.scan.value, c); next.Some? && !next.value.complete
    ensures Feed(cfg, r, c) == Going(r.(scan := AcceptChar(r.scan.value, c), buffer := r.buffer + [c]))
  {
    hide AcceptChar, FinishValue;
  }

  /** The character on which a captured value becomes complete. */
  lemma CaptureEnd<Q>(cfg: Config<Q>, r: Reader<Q>, c: CodeUnit)
    requires Holding(r) && r.scan.Some? && !r.scan.value.complete && |r.buffer| < LimitFor(cfg, r)
    requires var s := r.scan.value; !(s.depth == 0 && !s.inString && (c == COMMA || c == CLOSE_BRACE))
    requires var next := AcceptChar(r.scan.value, c); next.Some? && next.value.complete
    ensures var full := r.(scan := AcceptChar(r.scan.value, c), buffer := r.buffer + [c]);
      Feed(cfg, r, c) == if FinishValue(cfg, full).Some? then Going(FinishValue(cfg, full).value) else Failed
  {
    hide AcceptChar, FinishValue;
  }

  lemma TrimEndKeeps(t: Text)
    requires |t| == 0 || !IsTrimmed(t[|t| - 1])
    ensures TrimEnd(t) == t
  {
  }

  lemma {:induction false} TrimEndDrops(t: Text, space: Text)
    requires |t| == 0 || !IsTrimmed(t[|t| - 1])
    requires forall i :: 0 <= i < |space| ==> IsTrimmed(space[i])
    ensures TrimEnd(t + space) == t
    decreases |space|
  {
    if space == [] {
      assert t + space == t;
      TrimEndKeeps(t);
    } else {
      var rest := space[..|space| - 1];
      assert (t + space)[..|t + space| - 1] == t + rest && (t + space)[|t + space| - 1] == space[|space| - 1];
      TrimEndDrops(t, rest);
    }
  }

  function Outcome<Q>(r: Option<Reader<Q>>): Progress<Q>
  {
    if r.Some? then Going(r.value) else Failed
  }

  /** Storing a value does not look at the scan. */
  lemma FinishIgnoresScan<Q>(cfg: Config<Q>, r: Reader<Q>, s: Option<Scan>)
    ensures FinishValue(cfg, r.(scan := s)) == FinishValue(cfg, r)
  {
    hide TrimEnd;
  }

  function Inner(v: Json): Text
    requires !IsScalar(v)
  {
    if v.Str? then EscapeAll(v.text) else Body(v)
  }

  /** A delimited value is its first character, an inner text the scanner passes over, and a last
      character that completes it. */
  lemma DelimitedShape(v: Json)
    requires !IsScalar(v)
    ensures var t := Print(v); var n := |t|;
      n >= 2 && t == [t[0]] + Inner(v) + [t[n - 1]] && !IsWhitespace(t[0]) &&
      var at := StartScan(t[0]);
      Passes(at, Inner(v), at) && AcceptChar(at, t[n - 1]).Some? && AcceptChar(at, t[n - 1]).value.complete &&
      !(at.depth == 0 && !at.inString)
  {
    if v.Str? { PassesEscapeAll(0, v.text); } else { PassesBody(1, v); }
  }

  /** Objects, arrays and strings are stored on their last character. */
  lemma DelimitedReads<Q>(cfg: Config<Q>, r: Reader<Q>, v: Json)
    requires !IsScalar(v) && Holding(r) && |Print(v)| <= LimitFor(cfg, r)
    requires |Print(v)| > 0 && r.scan == Some(StartScan(Print(v)[0])) && r.buffer == [Print(v)[0]]
    ensures FeedAll(cfg, Going(r), Print(v)[1..]) == Outcome(FinishValue(cfg, r.(buffer := Print(v))))
  {
    hide Passes, Print, Inner, AcceptChar, FinishValue, StartScan, Feed, FeedAll, IsScalar, IsWhitespace;
    DelimitedShape(v);
    CapturedReads(cfg, r, Print(v), Inner(v));
  }

  lemma CapturedReads<Q>(cfg: Config<Q>, r: Reader<Q>, text: Text, inner: Text)
    requires |text| >= 2 && text == [text[0]] + inner + [text[|text| - 1]]
    requires Holding(r) && |text| <= LimitFor(cfg, r) && r.scan == Some(StartScan(text[0])) && r.buffer == [text[0]]
    requires var at := StartScan(text[0]); var end := AcceptChar(at, text[|text| - 1]);
      Passes(at, inner, at) && end.Some? && end.value.complete && !(at.depth == 0 && !at.inString)
    ensures FeedAll(cfg, Going(r), text[1..]) == Outcome(FinishValue(cfg, r.(buffer := text)))
  {
    var last := text[|text| - 1];
    var at := StartScan(text[0]);
    StartsOpen(text[0]);
    hide Passes, AcceptChar, FinishValue, StartScan, Feed, FeedAll;
    assert text[1..] == inner + [last];
    CaptureRun(cfg, r, inner, at);
    var mid := r.(scan := Some(at), buffer := r.buffer + inner);
    CaptureEnd(cfg, mid, last);
    FeedAllConcat(cfg, Going(r), inner, [last]);
    FeedAllOne(cfg, mid, last);
    assert mid.buffer + [last] == text;
    FinishIgnoresScan(cfg, r.(buffer := text), AcceptChar(at, last));
  }

  lemma FeedAllOne<Q>(cfg: Config<Q>, r: Reader<Q>, c: CodeUnit)
    ensures FeedAll(cfg, Going(r), [c]) == Feed(cfg, r, c)
  {
    hide Feed;
    assert [c][1..] == [];
  }

  /** A text without punctuation, captured up to the following delimiter. */
  lemma InertReads<Q>(cfg: Config<Q>, r: Reader<Q>, text: Text, c: CodeUnit)
    requires text != [] && forall i :: 0 <= i < |text| ==> InertUnit(text[i])
    requires r.state.MetadataValue? && r.scan == Some(Level(0)) && r.buffer == [text[0]]
    requires |text| <= MAX_METADATA_CHARS && (c == COMMA || c == CLOSE_BRACE)
    ensures var stored := FinishValue(cfg, r.(buffer := text));
      FeedAll(cfg, Going(r), text[1..] + [c]) == if stored.Some? then Feed(cfg, stored.value, c) else Failed
  {
    PassesInert(0, text[1..]);
    hide Passes, FinishValue, Feed;
    CaptureRun(cfg, r, text[1..], Level(0));
    var mid := r.(scan := Some(Level(0)), buffer := text);
    assert r.buffer + text[1..] == text;
    DelimiterHandedBack(cfg, mid, c);
    FinishIgnoresScan(cfg, mid, Some(Level(0).(complete := true)));
    FeedAllConcat(cfg, Going(r), text[1..], [c]);
    FeedAllOne(cfg, mid, c);
  }

  /** Other scalars are stored at the delimiter that follows, which is then looked at again. */
  lemma ScalarReads<Q>(cfg: Config<Q>, r: Reader<Q>, v: Json, c: CodeUnit)
    requires IsScalar(v) && r.state.MetadataValue? && |Print(v)| > 0 && r.scan == Some(Level(0)) &&
      r.buffer == [Print(v)[0]]
    requires |Print(v)| <= MAX_METADATA_CHARS && (c == COMMA || c == CLOSE_BRACE)
    ensures var stored := FinishValue(cfg, r.(buffer := Print(v)));
      FeedAll(cfg, Going(r), Print(v)[1..] + [c]) == if stored.Some? then Feed(cfg, stored.value, c) else Failed
  {
    ScalarInert(v);
    hide Print, FinishValue, Feed, FeedAll;
    InertReads(cfg, r, Print(v), c);
  }

  lemma DelimiterHandedBack<Q>(cfg: Config<Q>, r: Reader<Q>, c: CodeUnit)
    requires r.state.MetadataValue? && r.scan == Some(Level(0)) && (c == COMMA || c == CLOSE_BRACE)
    ensures var full := r.(scan := Some(Level(0).(complete := true)));
      Feed(cfg, r, c) == if FinishValue(cfg, full).Some? then Feed(cfg, FinishValue(cfg, full).value, c) else Failed
  {
    var full := r.(scan := Some(Level(0).(complete := true)));
    HandedBackOnce(cfg, r, c);
    if FinishValue(cfg, full).Some? {
      FinishSteady(cfg, full);
      hide FinishValue, FeedOnce;
      SecondLookConsumes(cfg, FinishValue(cfg, full).value, c);
    }
  }

  lemma HandedBackOnce<Q>(cfg: Config<Q>, r: Reader<Q>, c: CodeUnit)
    requires r.state.MetadataValue? && r.scan == Some(Level(0)) && (c == COMMA || c == CLOSE_BRACE)
    ensures var stored := FinishValue(cfg, r.(scan := Some(Level(0).(complete := true))));
      FeedOnce(cfg, r, c) == if stored.Some? then Moved(stored.value, false) else Refused
  {
    hide FinishValue;
    assert ConsumeChar(cfg, r, c) == Moved(r.(scan := Some(Level(0).(complete := true))), false);
  }

  // ---------- when the scanner completes ----------

  /** The scan after the first `i` characters of a text. */
  ghost function ScanTo(t: Text, i: nat): Option<Scan>
    requires 1 <= i <= |t|
  {
    if i == 1 then Some(StartScan(t[0]))
    else
      var before := ScanTo(t, i - 1);
      if before.None? then None else AcceptChar(before.value, t[i - 1])
  }

  /** Where the scanner stands after `i` characters of a text it passes over, and one before. */
  lemma {:induction false} PassesPrefix(s: Scan, t: Text, e: Scan, i: nat) returns (m: Scan, b: Scan)
    requires Passes(s, t, e) && !s.complete && i <= |t|
    ensures !m.complete && Passes(s, t[..i], m)
    ensures i > 0 ==> Passes(s, t[..i - 1], b) && AcceptChar(b, t[i - 1]) == Some(m)
    ensures i == |t| ==> m == e
    decreases |t|
  {
    hide AcceptChar;
    if i == 0 {
      m, b := s, s;
      assert t[..0] == [];
    } else {
      var next := AcceptChar(s, t[0]).value;
      m, b := PassesPrefix(next, t[1..], e, i - 1);
      assert t[..i][1..] == t[1..][..i - 1] && t[..i][0] == t[0];
      if i == 1 {
        b := s;
        assert t[1..][..0] == [] && t[..0] == [];
      } else {
        assert t[..i - 1][1..] == t[1..][..i - 2] && t[..i - 1][0] == t[0];
      }
    }
  }

  lemma {:induction false} PassesDetermined(s: Scan, t: Text, a: Scan, b: Scan)
    requires Passes(s, t, a) && Passes(s, t, b)
    ensures a == b
    decreases |t|
  {
    hide AcceptChar;
    if t != [] { PassesDetermined(AcceptChar(s, t[0]).value, t[1..], a, b); }
  }

  /** After `i` characters, all inside a text the scanner passes over, it stands where it passes to. */
  lemma {:induction false} ScanToPasses(t: Text, inner: Text, e: Scan, i: nat) returns (m: Scan)
    requires 1 <= i <= 1 + |inner| && |t| >= 1 + |inner| && t[1..1 + |inner|] == inner
    requires Passes(StartScan(t[0]), inner, e)
    ensures ScanTo(t, i) == Some(m) && !m.complete && Passes(StartScan(t[0]), inner[..i - 1], m)
    ensures i == 1 + |inner| ==> m == e
    decreases i
  {
    var s := StartScan(t[0]);
    StartsOpen(t[0]);
    hide AcceptChar, StartScan;
    var b: Scan;
    m, b := PassesPrefix(s, inner, e, i - 1);
    if i == 1 {
      PassesDetermined(s, inner[..0], m, s);
    } else {
      var before := ScanToPasses(t, inner, e, i - 1);
      PassesDetermined(s, inner[..i - 2], b, before);
      assert inner[i - 2] == t[i - 1];
    }
  }

  lemma ScalarNeverComplete(v: Json, i: nat)
    requires IsScalar(v) && 1 <= i <= |Print(v)|
    ensures ScanTo(Print(v), i).Some? && !ScanTo(Print(v), i).value.complete
  {
    var t := Print(v);
    ScalarInert(v);
    PassesInert(0, t[1..]);
    assert StartScan(t[0]) == Level(0);
    hide Passes, Print, AcceptChar;
    var m := ScanToPasses(t, t[1..], Level(0), i);
  }

  /** A text whose last character completes what its inside passes over is complete only there. */
  lemma LastCompletes(t: Text, inner: Text, i: nat)
    requires 1 <= i <= |t| && |t| >= 2 && t == [t[0]] + inner + [t[|t| - 1]]
    requires Passes(StartScan(t[0]), inner, StartScan(t[0]))
    requires AcceptChar(StartScan(t[0]), t[|t| - 1]).Some? && AcceptChar(StartScan(t[0]), t[|t| - 1]).value.complete
    ensures ScanTo(t, i).Some?
    ensures ScanTo(t, i).value.complete <==> i == |t|
  {
    hide Passes, AcceptChar, StartScan;
    assert t[1..1 + |inner|] == inner;
    var m := ScanToPasses(t, inner, StartScan(t[0]), if i < |t| then i else |t| - 1);
  }

  lemma DelimitedComplete(v: Json, i: nat)
    requires !IsScalar(v) && 1 <= i <= |Print(v)|
    ensures ScanTo(Print(v), i).Some?
    ensures ScanTo(Print(v), i).value.complete <==> i == |Print(v)|
  {
    hide Passes, Print, Inner, AcceptChar, StartScan, ScanTo, IsWhitespace;
    DelimitedShape(v);
    LastCompletes(Print(v), Inner(v), i);
  }

  /** For every JSON value: an object, array or string is complete exactly after its last
      character; any other scalar is not complete after any of its characters. */
  lemma CompleteExactlyAtEnd(v: Json, i: nat)
    requires 1 <= i <= |Print(v)|
    ensures ScanTo(Print(v), i).Some?
    ensures ScanTo(Print(v), i).value.complete <==> !IsScalar(v) && i == |Print(v)|
  {
    hide ScanTo, Print;
    if IsScalar(v) { ScalarNeverComplete(v, i); } else { DelimitedComplete(v, i); }
  }
}
