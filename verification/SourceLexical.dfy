/** Cutting source text and query tokens into bounded lexical units for the segmenter. Characters
    are code points; which of them are word characters, how a unit projects and how the native
    segmenter cuts are parameters. */
module SourceLexical {
  import opened Options

  type CodePoint = c: int | 0 <= c < 0x11_0000

  type Text = seq<CodePoint>

  const UNIT_BYTES: nat := 64
  const SPACE: CodePoint := 0x20

  /** UTF-8 length of a code point; a lone surrogate counts three bytes. */
  function ByteSize(c: CodePoint): (n: nat)
    ensures 1 <= n <= 4
  {
    if c < 0x80 then 1 else if c < 0x800 then 2 else if c < 0x1_0000 then 3 else 4
  }

  /** The UTF-8 bytes of a code point (section 3 of RFC 3629). */
  function Utf8(c: CodePoint): seq<int>
  {
    if c <= 0x7F then [c]
    else if c <= 0x7FF then [0xC0 + c / 0x40, 0x80 + c % 0x40]
    else if c <= 0xFFFF then [0xE0 + c / 0x1000, 0x80 + c / 0x40 % 0x40, 0x80 + c % 0x40]
    else [0xF0 + c / 0x4_0000, 0x80 + c / 0x1000 % 0x40, 0x80 + c / 0x40 % 0x40, 0x80 + c % 0x40]
  }

  /** The code point that one encoded character stands for. */
  function FromUtf8(b: seq<int>): int
  {
    if |b| == 1 then b[0]
    else if |b| == 2 then (b[0] - 0xC0) * 0x40 + b[1] - 0x80
    else if |b| == 3 then (b[0] - 0xE0) * 0x1000 + (b[1] - 0x80) * 0x40 + b[2] - 0x80
    else if |b| == 4 then (b[0] - 0xF0) * 0x4_0000 + (b[1] - 0x80) * 0x1000 + (b[2] - 0x80) * 0x40 + b[3] - 0x80
    else 0
  }

  /** The counted size is the number of UTF-8 bytes, which are bytes and give the code point back. */
  lemma ByteSizeIsUtf8(c: CodePoint)
    ensures |Utf8(c)| == ByteSize(c) && FromUtf8(Utf8(c)) == c
    ensures forall i :: 0 <= i < |Utf8(c)| ==> 0 <= Utf8(c)[i] < 0x100
  {
    if c > 0xFFFF {
      FourBytes(c);
    } else if c > 0x7FF {
      ThreeBytes(c);
    }
  }

  lemma ThreeBytes(c: CodePoint)
    requires 0x7FF < c <= 0xFFFF
    ensures |Utf8(c)| == 3 && FromUtf8(Utf8(c)) == c
    ensures forall i :: 0 <= i < |Utf8(c)| ==> 0 <= Utf8(c)[i] < 0x100
  {
    var a, b := c / 0x1000, c / 0x40 % 0x40;
    SixBits(c);
    assert c / 0x40 == a * 0x40 + b;
  }

  lemma FourBytes(c: CodePoint)
    requires 0xFFFF < c
    ensures |Utf8(c)| == 4 && FromUtf8(Utf8(c)) == c
    ensures forall i :: 0 <= i < |Utf8(c)| ==> 0 <= Utf8(c)[i] < 0x100
  {
    SixBits(c);
    SixBits(c / 0x40);
    SixBits(c / 0x1000);
    var p, q, r, t := c / 0x4_0000, c / 0x1000 % 0x40, c / 0x40 % 0x40, c % 0x40;
    assert c / 0x1000 == p * 0x40 + q;
    assert c / 0x40 == (p * 0x40 + q) * 0x40 + r;
    assert c == ((p * 0x40 + q) * 0x40 + r) * 0x40 + t;
  }

  lemma SixBits(n: nat)
    ensures n == n / 0x40 * 0x40 + n % 0x40 && 0 <= n % 0x40 < 0x40 && n / 0x40 / 0x40 == n / 0x1000
  {
  }

  function Bytes(s: Text): nat
  {
    if s == [] then 0 else Bytes(s[..|s| - 1]) + ByteSize(s[|s| - 1])
  }

  /** Length in UTF-16 code units, as JavaScript measures strings. */
  function Length(s: Text): nat
  {
    if s == [] then 0 else Length(s[..|s| - 1]) + if s[|s| - 1] < 0x1_0000 then 1 else 2
  }

  /** The UTF-16 code units of a text, with a surrogate pair above the basic plane. */
  function Utf16(s: Text): seq<int>
  {
    if s == [] then []
    else
      var c := s[|s| - 1];
      Utf16(s[..|s| - 1]) +
        if c <= 0xFFFF then [c] else [0xD800 + (c - 0x1_0000) / 0x400, 0xDC00 + (c - 0x1_0000) % 0x400]
  }

  lemma {:induction false} LengthIsUtf16(s: Text)
    ensures Length(s) == |Utf16(s)|
    decreases |s|
  {
    if s != [] { LengthIsUtf16(s[..|s| - 1]); }
  }

  function Concat(parts: seq<Text>): Text
  {
    if parts == [] then [] else parts[0] + Concat(parts[1..])
  }

  /** Joining with single spaces. */
  function Join(parts: seq<Text>): Text
  {
    if parts == [] then []
    else if |parts| == 1 then parts[0]
    else parts[0] + [SPACE] + Join(parts[1..])
  }

  lemma {:induction false} JoinConcat(a: seq<Text>, b: seq<Text>)
    requires a != [] && b != []
    ensures Join(a + b) == Join(a) + [SPACE] + Join(b)
    decreases |a|
  {
    assert (a + b)[1..] == a[1..] + b;
    if |a| == 1 {
      assert a[1..] + b == b;
    } else {
      JoinConcat(a[1..], b);
      assert a[0] + [SPACE] + (Join(a[1..]) + [SPACE] + Join(b)) == a[0] + [SPACE] + Join(a[1..]) + [SPACE] + Join(b);
    }
  }

  function Spaced(parts: seq<Text>): nat
  {
    if parts == [] then 0 else Spaced(parts[..|parts| - 1]) + |parts[|parts| - 1]| + 1
  }

  /** Every part stands in the joined text at its place, with one space before each but the first. */
  lemma {:induction false} JoinHolds(parts: seq<Text>, i: nat)
    requires i < |parts|
    ensures var at := Spaced(parts[..i]); var text := Join(parts);
      && at + |parts[i]| <= |text| && text[at..at + |parts[i]|] == parts[i]
      && (i > 0 ==> text[at - 1] == 0x20)
      && (i == |parts| - 1 ==> at + |parts[i]| == |text|)
    decreases |parts|
  {
    var n := |parts| - 1;
    var front, last := parts[..n], parts[n];
    assert parts == front + [last];
    assert Join([last]) == last;
    if n == 0 {
      assert parts[..0] == [];
      assert Join(parts) == last;
    } else {
      JoinConcat(front, [last]);
      SpacedLength(front);
      if i < n {
        JoinHolds(front, i);
        assert front[..i] == parts[..i] && front[i] == parts[i];
      } else {
        assert parts[..i] == front;
      }
    }
  }

  lemma {:induction false} SpacedLength(parts: seq<Text>)
    requires parts != []
    ensures Spaced(parts) == |Join(parts)| + 1
    decreases |parts|
  {
    var front, last := parts[..|parts| - 1], parts[|parts| - 1];
    assert parts == front + [last];
    assert Join([last]) == last;
    if front == [] {
      assert parts == [last];
    } else {
      SpacedLength(front);
      JoinConcat(front, [last]);
    }
  }

  // ---------- what the loops compute ----------

  /** The units flushed so far and the unit still open. */
  datatype Cut = Cut(units: seq<Text>, pending: Text)

  function Flushed(s: Cut): Cut
  {
    if s.pending == [] then s else Cut(s.units + [s.pending], [])
  }

  function Take(s: Cut, c: CodePoint, word: CodePoint -> bool): Cut
  {
    if !word(c) then Flushed(s)
    else
      var room := if Bytes(s.pending) + ByteSize(c) > UNIT_BYTES then Flushed(s) else s;
      Cut(room.units, room.pending + [c])
  }

  function CutFrom(s: Cut, text: Text, word: CodePoint -> bool): Cut
  {
    if text == [] then s else Take(CutFrom(s, text[..|text| - 1], word), text[|text| - 1], word)
  }

  function SourceUnits(text: Text, word: CodePoint -> bool): seq<Text>
  {
    Flushed(CutFrom(Cut([], []), text, word)).units
  }

  predicate Any(c: CodePoint)
  {
    true
  }

  /** The query side cuts a whole token, with every character in the unit. */
  function QueryUnits(token: Text): seq<Text>
  {
    SourceUnits(token, Any)
  }

  // ---------- the source side ----------

  datatype Progress = Progress(projection: Text, pending: Text, expanded: nat)

  ghost predicate AllAnalysed(units: seq<Text>, analyze: Text -> Option<Text>)
  {
    forall u :: u in units ==> analyze(u).Some?
  }

  function TotalLength(units: seq<Text>): nat
  {
    if units == [] then 0 else TotalLength(units[..|units| - 1]) + Length(units[|units| - 1])
  }

  function Projections(units: seq<Text>, analyze: Text -> Option<Text>): (r: seq<Text>)
    ensures |r| == |units|
  {
    if units == [] then []
    else
      var last := analyze(units[|units| - 1]);
      Projections(units[..|units| - 1], analyze) + [if last.Some? then last.value else []]
  }

  ghost function ProgressOf(s: Cut, analyze: Text -> Option<Text>): Option<Progress>
  {
    if AllAnalysed(s.units, analyze) then
      Some(Progress(Join(Projections(s.units, analyze)), s.pending, TotalLength(s.units)))
    else None
  }

  /** One flush: the unit is measured and analysed, and the analyser may refuse it. */
  method Flush(unit: Text, projections: seq<Text>, expanded: nat, analyze: Text -> Option<Text>, ghost units: seq<Text>)
    returns (failed: bool, projections': seq<Text>, expanded': nat)
    requires projections == Projections(units, analyze) && expanded == TotalLength(units) && AllAnalysed(units, analyze)
    ensures var s := Flushed(Cut(units, unit));
      && (failed <==> !AllAnalysed(s.units, analyze))
      && (!failed ==> projections' == Projections(s.units, analyze) && expanded' == TotalLength(s.units))
  {
    failed, projections', expanded' := false, projections, expanded;
    if unit == [] { return; }
    ghost var more := units + [unit];
    assert more[..|more| - 1] == units;
    expanded' := expanded + Length(unit);
    var projection := analyze(unit);
    if projection.None? {
      assert unit in more;
      failed := true;
      return;
    }
    projections' := projections + [projection.value];
  }

  lemma {:induction false} UnitsGrow(s: Cut, text: Text, i: nat, word: CodePoint -> bool)
    requires i <= |text|
    ensures CutFrom(s, text[..i], word).units <= CutFrom(s, text, word).units
    decreases |text|
  {
    if i == |text| {
      assert text[..i] == text;
    } else {
      var rest := text[..|text| - 1];
      assert rest[..i] == text[..i];
      UnitsGrow(s, rest, i, word);
    }
  }

  lemma FailureStays(a: seq<Text>, b: seq<Text>, analyze: Text -> Option<Text>)
    requires a <= b && !AllAnalysed(a, analyze)
    ensures !AllAnalysed(b, analyze)
  {
    var u :| u in a && analyze(u).None?;
    assert u in b;
  }

  /** One source read, continuing the pending unit of the read before it. */
  method AdvanceSourceIndexLexicalV2(text: Text, pending: Text, final: bool, word: CodePoint -> bool,
                                     analyze: Text -> Option<Text>)
    returns (r: Option<Progress>)
    ensures var s := CutFrom(Cut([], pending), text, word);
      r == ProgressOf(if final then Flushed(s) else s, analyze)
  {
    var projections: seq<Text>, unit, bytes, expanded := [], pending, Bytes(pending), 0;
    ghost var start := Cut([], pending);
    ghost var s := start;
    var failed := false;
    for i := 0 to |text|
      invariant s == CutFrom(start, text[..i], word)
      invariant unit == s.pending && bytes == Bytes(unit)
      invariant AllAnalysed(s.units, analyze)
      invariant projections == Projections(s.units, analyze) && expanded == TotalLength(s.units)
    {
      var c := text[i];
      ghost var next := CutFrom(start, text[..i + 1], word);
      NextCut(start, text, i, word);
      UnitsGrow(start, text, i + 1, word);
      var flush := !word(c) || bytes + ByteSize(c) > UNIT_BYTES;
      if flush {
        failed, projections, expanded := Flush(unit, projections, expanded, analyze, s.units);
        if failed {
          FailureStays(next.units, CutFrom(start, text, word).units, analyze);
          FailureStays(next.units, Flushed(CutFrom(start, text, word)).units, analyze);
          return None;
        }
        unit, bytes := [], 0;
      }
      if word(c) {
        assert (unit + [c])[..|unit|] == unit;
        unit, bytes := unit + [c], bytes + ByteSize(c);
      }
      s := next;
    }
    assert text[..|text|] == text;
    if final {
      failed, projections, expanded := Flush(unit, projections, expanded, analyze, s.units);
      if failed { return None; }
      unit := [];
    }
    r := Some(Progress(Join(projections), unit, expanded));
  }

  // ---------- reading in pieces ----------

  /** All the units of a source read chunk by chunk, each read carrying on the last one's pending. */
  function ReadAll(chunks: seq<Text>, word: CodePoint -> bool): Cut
  {
    if chunks == [] then Cut([], [])
    else
      var before := ReadAll(chunks[..|chunks| - 1], word);
      var now := CutFrom(Cut([], before.pending), chunks[|chunks| - 1], word);
      Cut(before.units + now.units, now.pending)
  }

  lemma {:induction false} CutConcat(s: Cut, a: Text, b: Text, word: CodePoint -> bool)
    ensures CutFrom(s, a + b, word) == CutFrom(CutFrom(s, a, word), b, word)
    decreases |b|
  {
    if b == [] {
      assert a + b == a;
    } else {
      var b' := b[..|b| - 1];
      assert (a + b)[..|a + b| - 1] == a + b';
      CutConcat(s, a, b', word);
    }
  }

  lemma {:induction false} EarlierUnits(units: seq<Text>, pending: Text, text: Text, word: CodePoint -> bool)
    ensures var s := CutFrom(Cut([], pending), text, word);
      CutFrom(Cut(units, pending), text, word) == Cut(units + s.units, s.pending)
    decreases |text|
  {
    if text == [] {
      assert units + [] == units;
    } else {
      var rest := text[..|text| - 1];
      EarlierUnits(units, pending, rest, word);
      var s := CutFrom(Cut([], pending), rest, word);
      assert units + (s.units + [s.pending]) == (units + s.units) + [s.pending];
    }
  }

  lemma {:induction false} ConcatSnoc(parts: seq<Text>, last: Text)
    ensures Concat(parts + [last]) == Concat(parts) + last
    decreases |parts|
  {
    if parts == [] {
      assert parts + [last] == [last];
      assert Concat([last][1..]) == [];
    } else {
      assert (parts + [last])[1..] == parts[1..] + [last];
      ConcatSnoc(parts[1..], last);
    }
  }

  lemma LastChunk(chunks: seq<Text>)
    requires chunks != []
    ensures Concat(chunks) == Concat(chunks[..|chunks| - 1]) + chunks[|chunks| - 1]
  {
    assert chunks == chunks[..|chunks| - 1] + [chunks[|chunks| - 1]];
    ConcatSnoc(chunks[..|chunks| - 1], chunks[|chunks| - 1]);
  }

  /** However a source is cut into reads, the units and the pending text are those of one read. */
  lemma {:induction false} CutsDoNotMatter(chunks: seq<Text>, word: CodePoint -> bool)
    ensures ReadAll(chunks, word) == CutFrom(Cut([], []), Concat(chunks), word)
    decreases |chunks|
  {
    if chunks != [] {
      var rest, last := chunks[..|chunks| - 1], chunks[|chunks| - 1];
      CutsDoNotMatter(rest, word);
      LastChunk(chunks);
      CutConcat(Cut([], []), Concat(rest), last, word);
      var before := ReadAll(rest, word);
      EarlierUnits(before.units, before.pending, last, word);
    }
  }

  // ---------- bounds and conservation ----------

  ghost predicate IsUnit(u: Text, word: CodePoint -> bool)
  {
    1 <= Bytes(u) <= 64 && forall c :: c in u ==> word(c)
  }

  ghost predicate Bounded(s: Cut, word: CodePoint -> bool)
  {
    && (forall u :: u in s.units ==> IsUnit(u, word))
    && (s.pending == [] || IsUnit(s.pending, word))
  }

  lemma BytesSnoc(s: Text, c: CodePoint)
    ensures Bytes(s + [c]) == Bytes(s) + ByteSize(c)
  {
    assert (s + [c])[..|s|] == s;
  }

  lemma FlushedBounded(s: Cut, word: CodePoint -> bool)
    requires Bounded(s, word)
    ensures Bounded(Flushed(s), word)
  {
  }

  lemma TakeBounded(s: Cut, c: CodePoint, word: CodePoint -> bool)
    requires Bounded(s, word)
    ensures Bounded(Take(s, c, word), word)
  {
    FlushedBounded(s, word);
    BytesSnoc(s.pending, c);
    BytesSnoc([], c);
    assert Bytes([]) == 0;
    hide Bytes;
  }

  /** Every unit, and the pending one, is 1 to 64 bytes of word characters. */
  lemma {:induction false} UnitsBounded(s: Cut, text: Text, word: CodePoint -> bool)
    requires Bounded(s, word)
    ensures Bounded(CutFrom(s, text, word), word)
    decreases |text|
  {
    if text != [] {
      hide Bounded, Take;
      UnitsBounded(s, text[..|text| - 1], word);
      TakeBounded(CutFrom(s, text[..|text| - 1], word), text[|text| - 1], word);
    }
  }

  function WordCharacters(text: Text, word: CodePoint -> bool): Text
  {
    if text == [] then []
    else WordCharacters(text[..|text| - 1], word) + if word(text[|text| - 1]) then [text[|text| - 1]] else []
  }

  lemma TakeConserves(s: Cut, c: CodePoint, word: CodePoint -> bool)
    ensures var t := Take(s, c, word);
      Concat(t.units) + t.pending == Concat(s.units) + s.pending + if word(c) then [c] else []
  {
    ConcatSnoc(s.units, s.pending);
  }

  /** Units and pending together are exactly the word characters, in order. */
  lemma {:induction false} UnitsConserve(s: Cut, text: Text, word: CodePoint -> bool)
    ensures var t := CutFrom(s, text, word);
      Concat(t.units) + t.pending == Concat(s.units) + s.pending + WordCharacters(text, word)
    decreases |text|
  {
    if text != [] {
      var before := CutFrom(s, text[..|text| - 1], word);
      UnitsConserve(s, text[..|text| - 1], word);
      TakeConserves(before, text[|text| - 1], word);
    }
  }

  lemma {:induction false} AllWords(text: Text, word: CodePoint -> bool)
    requires forall c :: c in text ==> word(c)
    ensures WordCharacters(text, word) == text
    decreases |text|
  {
    if text != [] {
      var rest, last := text[..|text| - 1], text[|text| - 1];
      AllWords(rest, word);
      assert text == rest + [last] && last in text;
    }
  }

  // ---------- the units are the greedy ones ----------

  /** Every unit fits, and no unit could have taken the next one's first character. */
  ghost predicate Greedy(units: seq<Text>)
  {
    && (forall i :: 0 <= i < |units| ==> units[i] != [] && Bytes(units[i]) <= 64)
    && (forall i :: 0 < i < |units| ==> units[i] != [] && Bytes(units[i - 1]) + ByteSize(units[i][0]) > 64)
  }

  ghost predicate GreedySoFar(s: Cut)
  {
    && Greedy(s.units)
    && (s.units != [] ==> s.pending != [])
    && (s.pending != [] ==> Greedy(s.units + [s.pending]))
  }

  lemma BytesOfOne(c: CodePoint)
    ensures Bytes([c]) == ByteSize(c) && Bytes([]) == 0
  {
    assert [c][..0] == [];
  }

  /** Greedy units with one more that the last could not have begun. */
  lemma GreedyAppend(units: seq<Text>, unit: Text)
    requires Greedy(units) && unit != [] && Bytes(unit) <= 64
    requires units != [] ==> Bytes(units[|units| - 1]) + ByteSize(unit[0]) > 64
    ensures Greedy(units + [unit])
  {
    hide Bytes, ByteSize;
  }

  lemma GreedyFull(s: Cut, c: CodePoint)
    requires GreedySoFar(s) && Bytes(s.pending) + ByteSize(c) > 64
    ensures GreedySoFar(Cut(s.units + [s.pending], [c]))
  {
    BytesOfOne(c);
    assert s.pending != [];
    hide Bytes, ByteSize, Greedy;
    GreedyAppend(s.units + [s.pending], [c]);
  }

  lemma GreedyMore(s: Cut, c: CodePoint)
    requires GreedySoFar(s) && s.pending != [] && Bytes(s.pending) + ByteSize(c) <= 64
    ensures GreedySoFar(Cut(s.units, s.pending + [c]))
  {
    BytesSnoc(s.pending, c);
    hide Bytes;
    var was, now := s.units + [s.pending], s.units + [s.pending + [c]];
    assert forall i :: 0 <= i < |s.units| ==> now[i] == was[i];
    assert now[|s.units|][0] == was[|s.units|][0];
    assert Greedy(now);
  }

  lemma GreedyFirst(c: CodePoint)
    ensures GreedySoFar(Cut([], [c]))
  {
    BytesOfOne(c);
    hide Bytes;
    assert Greedy([]);
    hide Greedy;
    GreedyAppend([], [c]);
  }

  lemma GreedyStep(s: Cut, c: CodePoint)
    requires GreedySoFar(s)
    ensures GreedySoFar(Take(s, c, Any))
    ensures Take(s, c, Any).pending != []
  {
    assert s.pending == [] ==> s.units == [];
    TakeAny(s, c);
    hide Greedy, Bytes, Take;
    if Bytes(s.pending) + ByteSize(c) > UNIT_BYTES {
      GreedyFull(s, c);
    } else if s.pending != [] {
      GreedyMore(s, c);
    } else {
      GreedyFirst(c);
      assert s.pending + [c] == [c];
    }
  }

  lemma {:induction false} GreedyCut(token: Text)
    ensures GreedySoFar(CutFrom(Cut([], []), token, Any))
    decreases |token|
  {
    if token != [] {
      GreedyCut(token[..|token| - 1]);
      GreedyStep(CutFrom(Cut([], []), token[..|token| - 1], Any), token[|token| - 1]);
    }
  }

  lemma {:induction false} BytesOfPrefix(s: Text, i: nat)
    requires i < |s|
    ensures Bytes(s[..i]) + ByteSize(s[i]) <= Bytes(s)
    decreases |s|
  {
    if i + 1 < |s| {
      var rest := s[..|s| - 1];
      assert rest[..i] == s[..i];
      BytesOfPrefix(rest, i);
    }
  }

  lemma FirstNotShorter(a: seq<Text>, b: seq<Text>)
    requires Greedy(a) && Greedy(b) && Concat(a) == Concat(b) && a != [] && b != []
    ensures |a[0]| >= |b[0]|
  {
    var text := Concat(a);
    if |a[0]| < |b[0]| {
      var k := |a[0]|;
      assert b[0] == text[..|b[0]|];
      assert |text| > k;
      assert |a| > 1;
      assert text[k] == a[1][0];
      assert b[0][..k] == a[0];
      BytesOfPrefix(b[0], k);
    }
  }

  /** A text has exactly one greedy cutting. */
  lemma {:induction false} GreedyUnique(a: seq<Text>, b: seq<Text>)
    requires Greedy(a) && Greedy(b) && Concat(a) == Concat(b)
    ensures a == b
    decreases |a|
  {
    if a == [] || b == [] {
      assert a != [] ==> Concat(a) != [];
      assert b != [] ==> Concat(b) != [];
    } else {
      FirstNotShorter(a, b);
      FirstNotShorter(b, a);
      assert a[0] == Concat(a)[..|a[0]|] == b[0];
      assert Concat(a[1..]) == Concat(a)[|a[0]|..] == Concat(b[1..]);
      assert Greedy(a[1..]) && Greedy(b[1..]);
      GreedyUnique(a[1..], b[1..]);
    }
  }

  /** The query side cuts a token into its one greedy cutting. */
  lemma QueryUnitsExact(token: Text, units: seq<Text>)
    ensures units == QueryUnits(token) <==> Greedy(units) && Concat(units) == token
  {
    assert Concat([]) == [];
    hide CutFrom, Take, Bytes, WordCharacters, Greedy, Concat;
    var s := CutFrom(Cut([], []), token, Any);
    GreedyCut(token);
    UnitsConserve(Cut([], []), token, Any);
    AllWords(token, Any);
    ConcatSnoc(s.units, s.pending);
    if Greedy(units) && Concat(units) == token { GreedyUnique(units, QueryUnits(token)); }
  }

  // ---------- source and query agree ----------

  /** The finished maximal runs of word characters, and the run still open. */
  function Runs(text: Text, word: CodePoint -> bool): Cut
  {
    if text == [] then Cut([], [])
    else
      var before := Runs(text[..|text| - 1], word);
      var c := text[|text| - 1];
      if word(c) then Cut(before.units, before.pending + [c]) else Flushed(before)
  }

  function EachCut(runs: seq<Text>): seq<Text>
  {
    if runs == [] then [] else EachCut(runs[..|runs| - 1]) + QueryUnits(runs[|runs| - 1])
  }

  lemma EachCutSnoc(runs: seq<Text>, run: Text)
    ensures EachCut(runs + [run]) == EachCut(runs) + QueryUnits(run)
  {
    assert (runs + [run])[..|runs|] == runs;
  }

  lemma CutSnoc(s: Cut, text: Text, c: CodePoint, word: CodePoint -> bool)
    ensures CutFrom(s, text + [c], word) == Take(CutFrom(s, text, word), c, word)
  {
    assert (text + [c])[..|text|] == text;
  }

  /** A word character goes into the open unit just as it does on the query side. */
  lemma TakeInRun(done: seq<Text>, open: Cut, c: CodePoint, word: CodePoint -> bool)
    requires word(c)
    ensures var t := Take(open, c, Any);
      Take(Cut(done + open.units, open.pending), c, word) == Cut(done + t.units, t.pending)
  {
    assert (done + open.units) + [open.pending] == done + (open.units + [open.pending]);
  }

  lemma FlushRun(done: seq<Text>, open: Cut)
    ensures var t := Flushed(open); Flushed(Cut(done + open.units, open.pending)) == Cut(done + t.units, t.pending)
  {
    assert (done + open.units) + [open.pending] == done + (open.units + [open.pending]);
  }

  ghost function CutRuns(runs: Cut): Cut
  {
    var open := CutFrom(Cut([], []), runs.pending, Any);
    Cut(EachCut(runs.units) + open.units, open.pending)
  }

  lemma RunEnds(runs: Cut)
    ensures CutRuns(Flushed(runs)) == Flushed(CutRuns(runs))
  {
    var done, open := EachCut(runs.units), CutFrom(Cut([], []), runs.pending, Any);
    FlushRun(done, open);
    if runs.pending != [] {
      PendingStays(runs.pending);
      EachCutSnoc(runs.units, runs.pending);
      assert CutFrom(Cut([], []), [], Any) == Cut([], []);
      assert EachCut(runs.units + [runs.pending]) + [] == EachCut(runs.units + [runs.pending]);
    }
  }

  lemma RunGrows(runs: Cut, c: CodePoint, word: CodePoint -> bool)
    requires word(c)
    ensures CutRuns(Cut(runs.units, runs.pending + [c])) == Take(CutRuns(runs), c, word)
  {
    CutSnoc(Cut([], []), runs.pending, c, Any);
    TakeInRun(EachCut(runs.units), CutFrom(Cut([], []), runs.pending, Any), c, word);
  }

  lemma {:induction false} RunByRun(text: Text, word: CodePoint -> bool)
    ensures CutFrom(Cut([], []), text, word) == CutRuns(Runs(text, word))
    decreases |text|
  {
    hide CutRuns, Bytes, EachCut;
    if text == [] {
      NoRuns();
    } else {
      var rest, c := text[..|text| - 1], text[|text| - 1];
      RunByRun(rest, word);
      var before := Runs(rest, word);
      if word(c) { RunGrows(before, c, word); } else { RunEnds(before); }
    }
  }

  lemma NoRuns()
    ensures CutRuns(Cut([], [])) == Cut([], [])
  {
  }

  lemma PendingStays(token: Text)
    requires token != []
    ensures CutFrom(Cut([], []), token, Any).pending != []
  {
    GreedyCut(token[..|token| - 1]);
    GreedyStep(CutFrom(Cut([], []), token[..|token| - 1], Any), token[|token| - 1]);
  }

  /** The source side cuts a text into what the query side cuts its word runs into, run by run. */
  lemma SourceMatchesQuery(text: Text, word: CodePoint -> bool)
    ensures SourceUnits(text, word) == EachCut(Flushed(Runs(text, word)).units)
  {
    hide Runs, EachCut;
    var runs := Runs(text, word);
    RunByRun(text, word);
    RunEnds(runs);
    assert CutFrom(Cut([], []), [], Any) == Cut([], []);
  }

  lemma {:induction false} OneRun(token: Text, word: CodePoint -> bool)
    requires forall c :: c in token ==> word(c)
    ensures Runs(token, word) == Cut([], token)
    decreases |token|
  {
    if token != [] {
      OneRun(token[..|token| - 1], word);
      assert token == token[..|token| - 1] + [token[|token| - 1]];
    }
  }

  /** On a word-only token the two sides give the same units. */
  lemma TokenMatchesQuery(token: Text, word: CodePoint -> bool)
    requires forall c :: c in token ==> word(c)
    ensures SourceUnits(token, word) == QueryUnits(token)
  {
    OneRun(token, word);
    SourceMatchesQuery(token, word);
    if token != [] {
      EachCutSnoc([], token);
      assert [] + [token] == [token];
      assert [] + QueryUnits(token) == QueryUnits(token);
    }
  }

  // ---------- the query side ----------

  /** The segmenter's output is refused when empty, blank in some piece or not conserving. */
  function Segment(cut: Text -> seq<Text>, blank: Text -> bool, token: Text): Option<seq<Text>>
  {
    var pieces := cut(token);
    if pieces == [] || exists p :: p in pieces && blank(p) then None
    else if Concat(pieces) != token then None
    else Some(pieces)
  }

  function SegmentSourceUnit(unit: Text, candidate: Text -> bool, cut: Text -> seq<Text>,
                             blank: Text -> bool): Option<seq<Text>>
  {
    if candidate(unit) then Segment(cut, blank, unit) else Some([unit])
  }

  ghost function PiecesOf(units: seq<Text>, candidate: Text -> bool, cut: Text -> seq<Text>,
                          blank: Text -> bool): Option<seq<Text>>
  {
    if units == [] then Some([])
    else
      var before := PiecesOf(units[..|units| - 1], candidate, cut, blank);
      var last := SegmentSourceUnit(units[|units| - 1], candidate, cut, blank);
      if before.None? || last.None? then None else Some(before.value + last.value)
  }

  lemma {:induction false} PiecesFail(a: seq<Text>, b: seq<Text>, candidate: Text -> bool, cut: Text -> seq<Text>,
                                      blank: Text -> bool)
    requires a <= b && PiecesOf(a, candidate, cut, blank).None?
    ensures PiecesOf(b, candidate, cut, blank).None?
    decreases |b|
  {
    if |a| < |b| {
      PiecesFail(a, b[..|b| - 1], candidate, cut, blank);
    } else {
      assert a == b;
    }
  }

  lemma PiecesSnoc(units: seq<Text>, unit: Text, candidate: Text -> bool, cut: Text -> seq<Text>, blank: Text -> bool)
    ensures var before := PiecesOf(units, candidate, cut, blank);
      var last := SegmentSourceUnit(unit, candidate, cut, blank);
      PiecesOf(units + [unit], candidate, cut, blank) ==
        if before.None? || last.None? then None else Some(before.value + last.value)
  {
    assert (units + [unit])[..|units|] == units;
  }

  lemma NextCut(s: Cut, text: Text, i: nat, word: CodePoint -> bool)
    requires i < |text|
    ensures CutFrom(s, text[..i + 1], word) == Take(CutFrom(s, text[..i], word), text[i], word)
  {
    assert text[..i + 1][..i] == text[..i];
  }

  /** What the query side's next character does, in terms of the open unit. */
  lemma TakeAny(s: Cut, c: CodePoint)
    ensures var full := Bytes(s.pending) + ByteSize(c) > UNIT_BYTES;
      Take(s, c, Any) == if full then Cut(s.units + [s.pending], [c]) else Cut(s.units, s.pending + [c])
  {
    assert Bytes([]) == 0;
  }

  /** A unit refused on the way refuses the token. */
  lemma EarlyFailure(token: Text, i: nat, unit: Text, candidate: Text -> bool, cut: Text -> seq<Text>,
                     blank: Text -> bool)
    requires i <= |token| && SegmentSourceUnit(unit, candidate, cut, blank).None?
    requires var s := CutFrom(Cut([], []), token[..i], Any); s.units != [] && s.units[|s.units| - 1] == unit
    ensures PiecesOf(QueryUnits(token), candidate, cut, blank).None?
  {
    hide SegmentSourceUnit, Take;
    UnitsGrow(Cut([], []), token, i, Any);
    PiecesFail(CutFrom(Cut([], []), token[..i], Any).units, QueryUnits(token), candidate, cut, blank);
  }

  method SegmentBoundedToken(token: Text, candidate: Text -> bool, cut: Text -> seq<Text>, blank: Text -> bool)
    returns (r: Option<seq<Text>>)
    ensures r == PiecesOf(QueryUnits(token), candidate, cut, blank)
  {
    hide SegmentSourceUnit, PiecesOf, Take, CutFrom, Bytes, ByteSize;
    var pieces: seq<Text>, unit: Text, bytes := [], [], 0;
    ghost var start := Cut([], []);
    NoPieces(candidate, cut, blank);
    NothingCut(token);
    for i := 0 to |token|
      invariant unit == CutFrom(start, token[..i], Any).pending && bytes == Bytes(unit)
      invariant Some(pieces) == PiecesOf(CutFrom(start, token[..i], Any).units, candidate, cut, blank)
    {
      var c := token[i];
      ghost var s := CutFrom(start, token[..i], Any);
      NextCut(start, token, i, Any);
      TakeAny(s, c);
      if bytes + ByteSize(c) > UNIT_BYTES {
        var more := SegmentSourceUnit(unit, candidate, cut, blank);
        if more.None? {
          EarlyFailure(token, i + 1, unit, candidate, cut, blank);
          return None;
        }
        PiecesSnoc(s.units, unit, candidate, cut, blank);
        pieces, unit, bytes := pieces + more.value, [], 0;
      }
      BytesSnoc(unit, c);
      unit, bytes := unit + [c], bytes + ByteSize(c);
    }
    assert token[..|token|] == token;
    if unit != [] {
      var more := SegmentSourceUnit(unit, candidate, cut, blank);
      PiecesSnoc(CutFrom(start, token, Any).units, unit, candidate, cut, blank);
      if more.None? { return None; }
      pieces := pieces + more.value;
    }
    r := Some(pieces);
  }

  lemma NothingCut(text: Text)
    ensures CutFrom(Cut([], []), text[..0], Any) == Cut([], []) && Bytes([]) == 0
  {
  }

  lemma NoPieces(candidate: Text -> bool, cut: Text -> seq<Text>, blank: Text -> bool)
    ensures PiecesOf([], candidate, cut, blank) == Some([])
  {
  }

  lemma {:induction false} ConcatAppend(a: seq<Text>, b: seq<Text>)
    ensures Concat(a + b) == Concat(a) + Concat(b)
    decreases |a|
  {
    if a == [] {
      assert a + b == b;
    } else {
      assert (a + b)[1..] == a[1..] + b;
      ConcatAppend(a[1..], b);
    }
  }

  lemma {:induction false} PiecesConserveUnits(units: seq<Text>, candidate: Text -> bool, cut: Text -> seq<Text>,
                                               blank: Text -> bool)
    requires PiecesOf(units, candidate, cut, blank).Some?
    ensures Concat(PiecesOf(units, candidate, cut, blank).value) == Concat(units)
    decreases |units|
  {
    if units != [] {
      var rest, last := units[..|units| - 1], units[|units| - 1];
      PiecesConserveUnits(rest, candidate, cut, blank);
      var more := SegmentSourceUnit(last, candidate, cut, blank).value;
      ConcatAppend(PiecesOf(rest, candidate, cut, blank).value, more);
      LastChunk(units);
      assert Concat([last]) == last + Concat([last][1..]);
    }
  }

  /** The segmenter's answer for a unit is refused. */
  ghost predicate Rejected(unit: Text, candidate: Text -> bool, cut: Text -> seq<Text>, blank: Text -> bool)
  {
    candidate(unit) && (|cut(unit)| == 0 || (exists p :: p in cut(unit) && blank(p)) || Concat(cut(unit)) != unit)
  }

  /** The pieces of each unit in turn: the segmenter's for a candidate, else the unit itself. */
  ghost function EachPieces(units: seq<Text>, candidate: Text -> bool, cut: Text -> seq<Text>): seq<Text>
  {
    if units == [] then []
    else
      var u := units[|units| - 1];
      EachPieces(units[..|units| - 1], candidate, cut) + if candidate(u) then cut(u) else [u]
  }

  /** A token fails exactly when the segmenter's answer for one of its candidate units is refused;
      else its pieces are those of the units in turn. */
  lemma {:induction false} PiecesExact(units: seq<Text>, candidate: Text -> bool, cut: Text -> seq<Text>,
                                       blank: Text -> bool)
    ensures var r := PiecesOf(units, candidate, cut, blank);
      && (r.None? <==> exists u :: u in units && Rejected(u, candidate, cut, blank))
      && (r.Some? ==> r.value == EachPieces(units, candidate, cut))
    decreases |units|
  {
    if units != [] {
      var rest, last := units[..|units| - 1], units[|units| - 1];
      assert units == rest + [last];
      PiecesExact(rest, candidate, cut, blank);
      assert SegmentSourceUnit(last, candidate, cut, blank).None? <==> Rejected(last, candidate, cut, blank);
      hide Rejected;
    }
  }

  /** Whatever pieces a token is accepted with, they concatenate back to the token. */
  lemma PiecesConserve(token: Text, candidate: Text -> bool, cut: Text -> seq<Text>, blank: Text -> bool)
    requires PiecesOf(QueryUnits(token), candidate, cut, blank).Some?
    ensures Concat(PiecesOf(QueryUnits(token), candidate, cut, blank).value) == token
  {
    PiecesConserveUnits(QueryUnits(token), candidate, cut, blank);
    QueryUnitsExact(token, QueryUnits(token));
  }
}
