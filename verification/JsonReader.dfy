/** The streaming diagnostics reader: a character machine fed in chunks. */
module JsonReader {
  import opened Options
  import opened Keys
  import opened Json

  const MAX_METADATA_CHARS: nat := 16 * 1024 * 1024
  const MAX_KEY_CHARS: nat := 1024

  datatype ReaderState =
    | AtStart | KeyOrEnd | InKey | AtColon | ValueStart | MetadataValue
    | QuestionsStart | QuestionValue | QuestionSeparator | AfterValue | Done

  datatype Scan = Scan(depth: nat, inString: bool, escaped: bool, complete: bool)

  /** "questions" and "schema_version". */
  const QUESTIONS: Text := [113, 117, 101, 115, 116, 105, 111, 110, 115]
  const SCHEMA_VERSION: Text := [115, 99, 104, 101, 109, 97, 95, 118, 101, 114, 115, 105, 111, 110]

  /** What the constructor receives, with the JSON parser the platform provides. */
  datatype Config<!Q> = Config(
    maxQuestionChars: nat,
    streamQuestions: bool,
    parseQuestion: (Json, nat) -> Option<Q>,
    expectedVersion: Json,
    parse: Text -> Option<Json>)

  datatype Reader<Q> = Reader(
    state: ReaderState,
    key: Text,
    keyRaw: Text,
    buffer: Text,
    scan: Option<Scan>,
    questionsSeen: bool,
    afterComma: bool,
    questionCount: nat,
    metadata: map<Text, Json>,
    questions: seq<Q>,
    pending: seq<Q>)

  function Initial<Q>(): Reader<Q>
  {
    Reader(AtStart, [], [], [], None, false, false, 0, map[], [], [])
  }

  predicate IsWhitespace(c: CodeUnit)
  {
    c == 32 || c == 10 || c == 13 || c == 9
  }

  /** The white space that `trimEnd` removes, wider than that of JSON. */
  predicate IsTrimmed(c: CodeUnit)
  {
    9 <= c <= 13 || c == 32 || c == 0xA0 || c == 0x1680 || 0x2000 <= c <= 0x200A || c == 0x2028 || c == 0x2029
    || c == 0x202F || c == 0x205F || c == 0x3000 || c == 0xFEFF
  }

  function TrimEnd(t: Text): Text
  {
    if |t| > 0 && IsTrimmed(t[|t| - 1]) then TrimEnd(t[..|t| - 1]) else t
  }

  // ---------- the value scanner ----------

  function StartScan(c: CodeUnit): Scan
  {
    if c == QUOTE then Scan(0, true, false, false)
    else if c == OPEN_BRACE || c == OPEN_BRACKET then Scan(1, false, false, false)
    else Scan(0, false, false, false)
  }

  /** None when a bracket closes more than was opened. */
  function AcceptChar(s: Scan, c: CodeUnit): Option<Scan>
  {
    if s.inString then
      if s.escaped then Some(s.(escaped := false))
      else if c == BACKSLASH then Some(s.(escaped := true))
      else if c == QUOTE then Some(s.(inString := false, complete := s.complete || s.depth == 0))
      else Some(s)
    else if c == QUOTE then Some(s.(inString := true))
    else if c == OPEN_BRACE || c == OPEN_BRACKET then Some(s.(depth := s.depth + 1))
    else if c == CLOSE_BRACE || c == CLOSE_BRACKET then
      if s.depth == 0 then None else Some(s.(depth := s.depth - 1, complete := s.complete || s.depth == 1))
    else Some(s)
  }

  // ---------- one character ----------

  /** The effect of one character on the machine, before any captured text is stored:
      refused, or the next reader and whether the character was consumed. */
  datatype Moved<Q> = Refused | Moved(reader: Reader<Q>, consumed: bool)

  function ConsumeKey<Q>(cfg: Config<Q>, r: Reader<Q>, c: CodeUnit): Moved<Q>
  {
    var raw := r.keyRaw + [c];
    if |raw| > MAX_KEY_CHARS || r.scan.None? then Refused
    else
      var next := AcceptChar(r.scan.value, c);
      if next.None? then Refused
      else if !next.value.complete then Moved(r.(keyRaw := raw, scan := next), true)
      else
        var parsed := cfg.parse(raw);
        if parsed.None? || !parsed.value.Str? then Refused
        else
          var key := parsed.value.text;
          if key in r.metadata || (key == QUESTIONS && r.questionsSeen) then Refused
          else Moved(r.(keyRaw := raw, key := key, scan := None, state := AtColon), true)
  }

  function ConsumeMetadata<Q>(r: Reader<Q>, c: CodeUnit): Moved<Q>
  {
    if r.scan.None? then Refused
    else
      var scan := r.scan.value;
      if scan.complete then
        if IsWhitespace(c) then Moved(r, true)
        else if c == COMMA || c == CLOSE_BRACE then Moved(r, false)
        else Refused
      else if scan.depth == 0 && !scan.inString && (c == COMMA || c == CLOSE_BRACE) then
        Moved(r.(scan := Some(scan.(complete := true))), false)
      else
        var next := AcceptChar(scan, c);
        if next.None? then Refused else Moved(r.(scan := next), true)
  }

  function ConsumeValueStart<Q>(r: Reader<Q>, c: CodeUnit): Moved<Q>
  {
    if r.key == QUESTIONS then
      if c != OPEN_BRACKET then Refused
      else Moved(r.(questionsSeen := true, afterComma := false, state := QuestionsStart), true)
    else Moved(r.(scan := Some(StartScan(c)), state := MetadataValue), true)
  }

  function ConsumeQuestion<Q>(r: Reader<Q>, c: CodeUnit): Moved<Q>
  {
    if r.scan.None? then Refused
    else
      var next := AcceptChar(r.scan.value, c);
      if next.None? then Refused else Moved(r.(scan := next), true)
  }

  /** A character that is not white space, outside keys and captured values. */
  function ConsumePunctuation<Q>(r: Reader<Q>, c: CodeUnit): Moved<Q>
  {
    match r.state
    case AtStart => if c == OPEN_BRACE then Moved(r.(state := KeyOrEnd), true) else Refused
    case KeyOrEnd =>
      if c == CLOSE_BRACE && !r.afterComma then Moved(r.(state := Done), true)
      else if c == QUOTE then Moved(r.(keyRaw := [QUOTE], scan := Some(StartScan(c)), state := InKey), true)
      else Refused
    case AtColon => if c == COLON then Moved(r.(state := ValueStart), true) else Refused
    case ValueStart => ConsumeValueStart(r, c)
    case QuestionsStart =>
      if c == CLOSE_BRACKET && !r.afterComma then Moved(r.(state := AfterValue), true)
      else if c == OPEN_BRACE then Moved(r.(scan := Some(StartScan(c)), state := QuestionValue), true)
      else Refused
    case QuestionSeparator =>
      if c == COMMA then Moved(r.(afterComma := true, state := QuestionsStart), true)
      else if c == CLOSE_BRACKET then Moved(r.(afterComma := false, state := AfterValue), true)
      else Refused
    case AfterValue =>
      if c == COMMA then Moved(r.(afterComma := true, state := KeyOrEnd), true)
      else if c == CLOSE_BRACE then Moved(r.(afterComma := false, state := Done), true)
      else Refused
    case _ => Refused
  }

  function ConsumeChar<Q>(cfg: Config<Q>, r: Reader<Q>, c: CodeUnit): Moved<Q>
  {
    match r.state
    case InKey => ConsumeKey(cfg, r, c)
    case MetadataValue => ConsumeMetadata(r, c)
    case QuestionValue => ConsumeQuestion(r, c)
    case _ => if IsWhitespace(c) then Moved(r, true) else ConsumePunctuation(r, c)
  }

  predicate Capturing<Q>(r: Reader<Q>)
  {
    (r.state.MetadataValue? || r.state.QuestionValue?) && (r.scan.None? || !r.scan.value.complete)
  }

  function LimitFor<Q>(cfg: Config<Q>, r: Reader<Q>): nat
  {
    if r.state.QuestionValue? then cfg.maxQuestionChars else MAX_METADATA_CHARS
  }

  /** A value's captured text is complete: parse and store it. */
  function FinishValue<Q>(cfg: Config<Q>, r: Reader<Q>): Option<Reader<Q>>
  {
    var done := r.(buffer := [], scan := None);
    if r.state.MetadataValue? then
      var value := cfg.parse(TrimEnd(r.buffer));
      if value.None? then None
      else Some(done.(metadata := r.metadata[r.key := value.value], state := AfterValue))
    else if r.state.QuestionValue? then
      var raw := cfg.parse(r.buffer);
      if raw.None? then None
      else
        var question := cfg.parseQuestion(raw.value, r.questionCount);
        if question.None? then None
        else
          var counted := done.(questionCount := r.questionCount + 1, state := QuestionSeparator);
          Some(if cfg.streamQuestions then counted.(pending := r.pending + [question.value])
               else counted.(questions := r.questions + [question.value]))
    else Some(done)
  }

  // ---------- the meaning of a text ----------

  /** Where reading stands: it failed, or it goes on. */
  datatype Progress<Q> = Failed | Going(reader: Reader<Q>)

  /** One character, with captured text stored at once instead of per chunk. A character that a
      scalar hands back is looked at once more. */
  function FeedOnce<Q>(cfg: Config<Q>, r: Reader<Q>, c: CodeUnit): Moved<Q>
  {
    var m := ConsumeChar(cfg, r, c);
    if m.Refused? then Refused
    else
      var taken := (Capturing(r) && m.consumed) || (!Capturing(r) && Capturing(m.reader));
      var next := if taken then m.reader.(buffer := r.buffer + [c]) else m.reader;
      if taken && |next.buffer| > LimitFor(cfg, next) then Refused
      else if Capturing(r) && !Capturing(next) then
        var done := FinishValue(cfg, next);
        if done.None? then Refused else Moved(done.value, m.consumed)
      else Moved(next, m.consumed)
  }

  function Feed<Q>(cfg: Config<Q>, r: Reader<Q>, c: CodeUnit): Progress<Q>
  {
    var m := FeedOnce(cfg, r, c);
    if m.Refused? then Failed
    else if m.consumed then Going(m.reader)
    else
      var again := FeedOnce(cfg, m.reader, c);
      if again.Refused? then Failed else Going(again.reader)
  }

  function FeedAll<Q>(cfg: Config<Q>, p: Progress<Q>, text: Text): Progress<Q>
    decreases |text|
  {
    if p.Failed? || text == [] then p else FeedAll(cfg, Feed(cfg, p.reader, text[0]), text[1..])
  }

  datatype Document<Q> = Document(metadata: map<Text, Json>, questions: seq<Q>)

  /** `finish`: the document, or nothing if the text was truncated, lacked questions, or has the
      wrong schema version. */
  function Finish<Q>(cfg: Config<Q>, p: Progress<Q>): Option<Document<Q>>
  {
    if p.Failed? || !p.reader.state.Done? || !p.reader.questionsSeen
       || SCHEMA_VERSION !in p.reader.metadata || p.reader.metadata[SCHEMA_VERSION] != cfg.expectedVersion
    then None
    else Some(Document(p.reader.metadata, p.reader.questions))
  }

  // ---------- chunk independence ----------

  /** Feeding two texts in turn is feeding their concatenation. */
  lemma {:induction false} FeedAllConcat<Q>(cfg: Config<Q>, p: Progress<Q>, a: Text, b: Text)
    ensures FeedAll(cfg, FeedAll(cfg, p, a), b) == FeedAll(cfg, p, a + b)
    decreases |a|
  {
    hide Feed;
    if a == [] {
      assert a + b == b;
    } else if p.Going? {
      assert (a + b)[1..] == a[1..] + b;
      FeedAllConcat(cfg, Feed(cfg, p.reader, a[0]), a[1..], b);
    }
  }

  ghost function Concat(chunks: seq<Text>): Text
  {
    if chunks == [] then [] else chunks[0] + Concat(chunks[1..])
  }

  ghost function FeedChunks<Q>(cfg: Config<Q>, p: Progress<Q>, chunks: seq<Text>): Progress<Q>
    decreases |chunks|
  {
    if chunks == [] then p else FeedChunks(cfg, FeedAll(cfg, p, chunks[0]), chunks[1..])
  }

  lemma {:induction false} ChunksAreOneText<Q>(cfg: Config<Q>, p: Progress<Q>, chunks: seq<Text>)
    ensures FeedChunks(cfg, p, chunks) == FeedAll(cfg, p, Concat(chunks))
    decreases |chunks|
  {
    hide Feed;
    if chunks != [] {
      ChunksAreOneText(cfg, FeedAll(cfg, p, chunks[0]), chunks[1..]);
      FeedAllConcat(cfg, p, chunks[0], Concat(chunks[1..]));
    }
  }

  /** Two ways of cutting the same text are accepted or rejected alike and give the same document. */
  lemma ChunkIndependence<Q>(cfg: Config<Q>, a: seq<Text>, b: seq<Text>)
    requires Concat(a) == Concat(b)
    ensures FeedChunks(cfg, Going(Initial()), a) == FeedChunks(cfg, Going(Initial()), b)
    ensures Finish(cfg, FeedChunks(cfg, Going(Initial()), a)) == Finish(cfg, FeedChunks(cfg, Going(Initial()), b))
  {
    hide FeedAll, FeedChunks;
    ChunksAreOneText(cfg, Going(Initial()), a);
    ChunksAreOneText(cfg, Going(Initial()), b);
  }

  // ---------- the machine's invariant ----------

  /** While a value or key is being read its scan is there and unfinished. */
  ghost predicate Steady<Q>(r: Reader<Q>)
  {
    (r.state.MetadataValue? || r.state.QuestionValue? || r.state.InKey?) ==> r.scan.Some? && !r.scan.value.complete
  }

  predicate Holding<Q>(r: Reader<Q>)
  {
    r.state.MetadataValue? || r.state.QuestionValue?
  }

  /** What one character can do to a steady machine. */
  lemma ConsumeSteady<Q>(cfg: Config<Q>, r: Reader<Q>, c: CodeUnit)
    requires Steady(r) && ConsumeChar(cfg, r, c).Moved?
    ensures var m := ConsumeChar(cfg, r, c);
      (Holding(m.reader) || m.reader.state.InKey? ==> m.reader.scan.Some?) &&
      (m.reader.state.InKey? ==> !m.reader.scan.value.complete) &&
      (Holding(r) ==> m.reader.state == r.state) &&
      (!Holding(r) && Holding(m.reader) ==> !m.reader.scan.value.complete) &&
      (!m.consumed ==> r.state.MetadataValue? && m.reader.scan.value.complete) &&
      m.reader.buffer == r.buffer && m.reader.questionCount == r.questionCount
  {
    hide ConsumeKey, ConsumeMetadata, ConsumeQuestion, IsWhitespace, StartScan;
    match r.state
    case InKey => KeySteady(cfg, r, c);
    case MetadataValue => MetadataSteady(r, c);
    case QuestionValue => QuestionSteady(r, c);
    case _ => StartsOpen(c);
  }

  lemma StartsOpen(c: CodeUnit)
    ensures !StartScan(c).complete
  {
  }

  lemma KeySteady<Q>(cfg: Config<Q>, r: Reader<Q>, c: CodeUnit)
    requires r.state.InKey?
    ensures var m := ConsumeKey(cfg, r, c);
      m.Moved? ==> (m.consumed && m.reader.buffer == r.buffer && m.reader.questionCount == r.questionCount &&
        (m.reader.state.InKey? ==> m.reader.scan.Some? && !m.reader.scan.value.complete) &&
        (m.reader.state == r.state || m.reader.state.AtColon?))
  {
    hide AcceptChar;
  }

  lemma MetadataSteady<Q>(r: Reader<Q>, c: CodeUnit)
    requires r.scan.Some? && !r.scan.value.complete
    ensures var m := ConsumeMetadata(r, c);
      m.Moved? ==> (
        && m.reader.scan.Some? && m.reader == r.(scan := m.reader.scan)
        && (!m.consumed ==> m.reader.scan.value.complete))
  {
    hide AcceptChar;
  }

  lemma QuestionSteady<Q>(r: Reader<Q>, c: CodeUnit)
    ensures var m := ConsumeQuestion(r, c);
      m.Moved? ==> m.consumed && m.reader.scan.Some? && m.reader == r.(scan := m.reader.scan)
  {
    hide AcceptChar;
  }

  lemma FinishSteady<Q>(cfg: Config<Q>, r: Reader<Q>)
    requires FinishValue(cfg, r).Some? && Holding(r)
    ensures var d := FinishValue(cfg, r).value;
      Steady(d) && !Holding(d) && d.buffer == [] &&
      (r.state.MetadataValue? ==> d.state.AfterValue?)
  {
    hide TrimEnd;
  }

  lemma FeedOnceSteady<Q>(cfg: Config<Q>, r: Reader<Q>, c: CodeUnit)
    requires Steady(r)
    ensures var m := FeedOnce(cfg, r, c);
      m.Moved? ==> Steady(m.reader) && (!m.consumed ==> Capturing(r) && m.reader.state.AfterValue?)
  {
    hide ConsumeChar, FinishValue;
    var m := ConsumeChar(cfg, r, c);
    if m.Moved? {
      ConsumeSteady(cfg, r, c);
      var taken := (Capturing(r) && m.consumed) || (!Capturing(r) && Capturing(m.reader));
      var next := if taken then m.reader.(buffer := r.buffer + [c]) else m.reader;
      if Capturing(r) && !Capturing(next) && FinishValue(cfg, next).Some? {
        FinishSteady(cfg, next);
      }
    }
  }

  /** No character is looked at more than twice: what is handed back is consumed next time. */
  lemma SecondLookConsumes<Q>(cfg: Config<Q>, r: Reader<Q>, c: CodeUnit)
    requires r.state.AfterValue?
    ensures var m := FeedOnce(cfg, r, c); m.Moved? ==> m.consumed && Feed(cfg, r, c) == Going(m.reader)
    ensures FeedOnce(cfg, r, c).Refused? ==> Feed(cfg, r, c).Failed?
  {
  }

  // ---------- capturing by slices of a chunk ----------

  function Rebuffered<Q>(m: Moved<Q>, b: Text): Moved<Q>
  {
    if m.Refused? then Refused else Moved(m.reader.(buffer := b), m.consumed)
  }

  lemma KeyIgnoresBuffer<Q>(cfg: Config<Q>, r: Reader<Q>, b: Text, c: CodeUnit)
    ensures ConsumeKey(cfg, r.(buffer := b), c) == Rebuffered(ConsumeKey(cfg, r, c), b)
  {
    hide AcceptChar;
  }

  lemma ValueIgnoresBuffer<Q>(r: Reader<Q>, b: Text, c: CodeUnit)
    ensures ConsumeMetadata(r.(buffer := b), c) == Rebuffered(ConsumeMetadata(r, c), b)
    ensures ConsumeQuestion(r.(buffer := b), c) == Rebuffered(ConsumeQuestion(r, c), b)
    ensures ConsumeValueStart(r.(buffer := b), c) == Rebuffered(ConsumeValueStart(r, c), b)
  {
    hide AcceptChar, StartScan, IsWhitespace;
  }

  lemma PunctuationIgnoresBuffer<Q>(r: Reader<Q>, b: Text, c: CodeUnit)
    ensures ConsumePunctuation(r.(buffer := b), c) == Rebuffered(ConsumePunctuation(r, c), b)
  {
    hide ConsumeValueStart, StartScan;
    match r.state
    case AtStart =>
    case KeyOrEnd =>
    case AtColon =>
    case ValueStart => ValueIgnoresBuffer(r, b, c);
    case QuestionsStart =>
    case QuestionSeparator =>
    case _ =>
  }

  /** The buffer plays no part until a value is finished. */
  lemma ConsumeIgnoresBuffer<Q>(cfg: Config<Q>, r: Reader<Q>, b: Text, c: CodeUnit)
    ensures ConsumeChar(cfg, r.(buffer := b), c) == Rebuffered(ConsumeChar(cfg, r, c), b)
  {
    hide ConsumeKey, ConsumeMetadata, ConsumeQuestion, ConsumePunctuation, IsWhitespace;
    KeyIgnoresBuffer(cfg, r, b, c);
    ValueIgnoresBuffer(r, b, c);
    PunctuationIgnoresBuffer(r, b, c);
  }

  ghost predicate Fits<Q>(cfg: Config<Q>, r: Reader<Q>)
  {
    Holding(r) ==> |r.buffer| <= LimitFor(cfg, r)
  }

  /** The reader as the character-by-character meaning sees it: with the slice of the current
      chunk that is captured but not yet appended. */
  ghost function Virtual<Q>(r: Reader<Q>, chunk: Text, captureStart: int, index: nat): Reader<Q>
    requires captureStart <= index <= |chunk|
  {
    if captureStart >= 0 then r.(buffer := r.buffer + chunk[captureStart..index]) else r
  }

  /** Loop invariant of `consume`: either the meaning of the whole chunk is that of the rest from
      here, or the captured slice is already too long and the chunk is bound to fail. */
  ghost predicate Tracks<Q>(cfg: Config<Q>, total: Progress<Q>, chunk: Text, r: Reader<Q>, captureStart: int,
                            index: nat)
  {
    && captureStart <= index <= |chunk| && Steady(r) && (captureStart >= 0 <==> Capturing(r))
    && (if Fits(cfg, Virtual(r, chunk, captureStart, index))
        then total == FeedAll(cfg, Going(Virtual(r, chunk, captureStart, index)), chunk[index..])
        else total.Failed?)
  }

  lemma FeedNext<Q>(cfg: Config<Q>, r: Reader<Q>, chunk: Text, index: nat)
    requires index < |chunk|
    ensures FeedAll(cfg, Going(r), chunk[index..]) == FeedAll(cfg, Feed(cfg, r, chunk[index]), chunk[index + 1..])
  {
    hide Feed;
    assert chunk[index..][1..] == chunk[index + 1..];
  }

  /** A character that is kept being captured. */
  lemma TracksCapture<Q>(cfg: Config<Q>, total: Progress<Q>, chunk: Text, r: Reader<Q>, captureStart: int, index: nat)
    requires index < |chunk| && Tracks(cfg, total, chunk, r, captureStart, index)
    requires var m := ConsumeChar(cfg, r, chunk[index]); m.Moved? && Capturing(m.reader)
    ensures var m := ConsumeChar(cfg, r, chunk[index]);
      m.consumed && Tracks(cfg, total, chunk, m.reader, if captureStart >= 0 then captureStart else index, index + 1)
  {
    var c := chunk[index];
    var v := Virtual(r, chunk, captureStart, index);
    var m := ConsumeChar(cfg, r, c);
    var start := if captureStart >= 0 then captureStart else index;
    var w := Virtual(m.reader, chunk, start, index + 1);
    hide ConsumeChar, FinishValue, FeedAll;
    ConsumeSteady(cfg, r, c);
    ConsumeIgnoresBuffer(cfg, r, v.buffer, c);
    assert chunk[start..index + 1] == chunk[start..index] + [c];
    assert w == m.reader.(buffer := v.buffer + [c]);
    FeedNext(cfg, v, chunk, index);
    if Fits(cfg, v) {
      if !Fits(cfg, w) { assert Feed(cfg, v, c).Failed?; FailedStays(cfg, chunk[index + 1..]); }
    }
  }

  lemma FailedStays<Q>(cfg: Config<Q>, text: Text)
    ensures FeedAll(cfg, Failed, text) == Failed
  {
  }

  /** A character that ends a capture: the slice is appended, checked and parsed. */
  lemma TracksFinish<Q>(cfg: Config<Q>, total: Progress<Q>, chunk: Text, r: Reader<Q>, captureStart: int, index: nat)
    requires index < |chunk| && Tracks(cfg, total, chunk, r, captureStart, index) && captureStart >= 0
    requires var m := ConsumeChar(cfg, r, chunk[index]); m.Moved? && !Capturing(m.reader)
    ensures var m := ConsumeChar(cfg, r, chunk[index]);
      var end := if m.consumed then index + 1 else index;
      var full := m.reader.(buffer := r.buffer + chunk[captureStart..end]);
      (|full.buffer| > LimitFor(cfg, full) || FinishValue(cfg, full).None? ==> total.Failed?) &&
      (|full.buffer| <= LimitFor(cfg, full) && FinishValue(cfg, full).Some? ==>
        Tracks(cfg, total, chunk, FinishValue(cfg, full).value, -1, end))
  {
    var c := chunk[index];
    var v := Virtual(r, chunk, captureStart, index);
    var m := ConsumeChar(cfg, r, c);
    var end := if m.consumed then index + 1 else index;
    var full := m.reader.(buffer := r.buffer + chunk[captureStart..end]);
    hide ConsumeChar, FinishValue, FeedAll;
    ConsumeSteady(cfg, r, c);
    ConsumeIgnoresBuffer(cfg, r, v.buffer, c);
    assert m.consumed ==> chunk[captureStart..end] == chunk[captureStart..index] + [c];
    assert full.buffer == if m.consumed then v.buffer + [c] else v.buffer;
    FeedNext(cfg, v, chunk, index);
    FailedStays(cfg, chunk[index + 1..]);
    assert Holding(full) && full.state == r.state;
    if Fits(cfg, v) && FinishValue(cfg, full).Some? {
      var d := FinishValue(cfg, full).value;
      FinishSteady(cfg, full);
      assert Virtual(d, chunk, -1, end) == d;
      if !m.consumed {
        SecondLookConsumes(cfg, d, c);
        FeedNext(cfg, d, chunk, index);
      }
    }
  }

  /** A character outside any captured value. */
  lemma TracksPlain<Q>(cfg: Config<Q>, total: Progress<Q>, chunk: Text, r: Reader<Q>, index: nat)
    requires index < |chunk| && Tracks(cfg, total, chunk, r, -1, index)
    requires var m := ConsumeChar(cfg, r, chunk[index]); m.Moved? && !Capturing(m.reader)
    ensures var m := ConsumeChar(cfg, r, chunk[index]); m.consumed && Tracks(cfg, total, chunk, m.reader, -1, index + 1)
  {
    hide ConsumeChar, FinishValue, FeedAll;
    ConsumeSteady(cfg, r, chunk[index]);
    FeedNext(cfg, r, chunk, index);
  }

  lemma TracksRefused<Q>(cfg: Config<Q>, total: Progress<Q>, chunk: Text, r: Reader<Q>, captureStart: int, index: nat)
    requires index < |chunk| && Tracks(cfg, total, chunk, r, captureStart, index)
    requires ConsumeChar(cfg, r, chunk[index]).Refused?
    ensures total.Failed?
  {
    var v := Virtual(r, chunk, captureStart, index);
    hide ConsumeChar, FinishValue, FeedAll;
    ConsumeIgnoresBuffer(cfg, r, v.buffer, chunk[index]);
    FeedNext(cfg, v, chunk, index);
    FailedStays(cfg, chunk[index + 1..]);
  }
}
