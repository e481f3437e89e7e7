/** Taking the parsed questions from the reader while it is still being fed. */
module JsonStreaming {
  import opened Options
  import opened Keys
  import opened Json
  import opened JsonReader

  /** The reader as if the questions taken from it were still waiting in front. */
  function Returned<Q>(taken: seq<Q>, r: Reader<Q>): Reader<Q>
  {
    r.(pending := taken + r.pending)
  }

  function ReturnedTo<Q>(taken: seq<Q>, m: Moved<Q>): Moved<Q>
  {
    if m.Refused? then Refused else Moved(Returned(taken, m.reader), m.consumed)
  }

  // ---------- waiting questions influence nothing ----------

  lemma KeyApart<Q>(cfg: Config<Q>, taken: seq<Q>, r: Reader<Q>, c: CodeUnit)
    ensures ConsumeKey(cfg, Returned(taken, r), c) == ReturnedTo(taken, ConsumeKey(cfg, r, c))
  {
    hide AcceptChar;
  }

  lemma ValueApart<Q>(taken: seq<Q>, r: Reader<Q>, c: CodeUnit)
    ensures ConsumeMetadata(Returned(taken, r), c) == ReturnedTo(taken, ConsumeMetadata(r, c))
    ensures ConsumeQuestion(Returned(taken, r), c) == ReturnedTo(taken, ConsumeQuestion(r, c))
    ensures ConsumeValueStart(Returned(taken, r), c) == ReturnedTo(taken, ConsumeValueStart(r, c))
  {
    hide AcceptChar, StartScan, IsWhitespace;
  }

  lemma PunctuationApart<Q>(taken: seq<Q>, r: Reader<Q>, c: CodeUnit)
    ensures ConsumePunctuation(Returned(taken, r), c) == ReturnedTo(taken, ConsumePunctuation(r, c))
  {
    hide ConsumeValueStart, StartScan;
    match r.state
    case AtStart =>
    case KeyOrEnd =>
    case AtColon =>
    case ValueStart => ValueApart(taken, r, c);
    case QuestionsStart =>
    case QuestionSeparator =>
    case _ =>
  }

  lemma ConsumeApart<Q>(cfg: Config<Q>, taken: seq<Q>, r: Reader<Q>, c: CodeUnit)
    ensures ConsumeChar(cfg, Returned(taken, r), c) == ReturnedTo(taken, ConsumeChar(cfg, r, c))
  {
    hide ConsumeKey, ConsumeMetadata, ConsumeQuestion, ConsumePunctuation, IsWhitespace;
    KeyApart(cfg, taken, r, c);
    ValueApart(taken, r, c);
    PunctuationApart(taken, r, c);
  }

  lemma FinishApart<Q>(cfg: Config<Q>, taken: seq<Q>, r: Reader<Q>)
    ensures var f := FinishValue(cfg, r);
      FinishValue(cfg, Returned(taken, r)) == if f.None? then None else Some(Returned(taken, f.value))
  {
    hide TrimEnd;
    if r.state.QuestionValue? && FinishValue(cfg, r).Some? && cfg.streamQuestions {
      var x := cfg.parseQuestion(cfg.parse(r.buffer).value, r.questionCount).value;
      assert taken + r.pending + [x] == taken + (r.pending + [x]);
    }
  }

  lemma FeedOnceApart<Q>(cfg: Config<Q>, taken: seq<Q>, r: Reader<Q>, c: CodeUnit)
    ensures FeedOnce(cfg, Returned(taken, r), c) == ReturnedTo(taken, FeedOnce(cfg, r, c))
  {
    hide ConsumeChar, FinishValue;
    ConsumeApart(cfg, taken, r, c);
    var m := ConsumeChar(cfg, r, c);
    if m.Moved? {
      FinishApart(cfg, taken, m.reader);
      FinishApart(cfg, taken, m.reader.(buffer := r.buffer + [c]));
    }
  }

  function ReturnedAll<Q>(taken: seq<Q>, p: Progress<Q>): Progress<Q>
  {
    if p.Failed? then Failed else Going(Returned(taken, p.reader))
  }

  lemma FeedApart<Q>(cfg: Config<Q>, taken: seq<Q>, r: Reader<Q>, c: CodeUnit)
    ensures Feed(cfg, Returned(taken, r), c) == ReturnedAll(taken, Feed(cfg, r, c))
  {
    hide FeedOnce;
    FeedOnceApart(cfg, taken, r, c);
    var m := FeedOnce(cfg, r, c);
    if m.Moved? { FeedOnceApart(cfg, taken, m.reader, c); }
  }

  lemma {:induction false} FeedAllApart<Q>(cfg: Config<Q>, taken: seq<Q>, p: Progress<Q>, text: Text)
    ensures FeedAll(cfg, ReturnedAll(taken, p), text) == ReturnedAll(taken, FeedAll(cfg, p, text))
    decreases |text|
  {
    hide Feed;
    if p.Going? && text != [] {
      FeedApart(cfg, taken, p.reader, text[0]);
      FeedAllApart(cfg, taken, Feed(cfg, p.reader, text[0]), text[1..]);
    }
  }

  lemma {:induction false} FeedChunksApart<Q>(cfg: Config<Q>, taken: seq<Q>, p: Progress<Q>, chunks: seq<Text>)
    ensures FeedChunks(cfg, ReturnedAll(taken, p), chunks) == ReturnedAll(taken, FeedChunks(cfg, p, chunks))
    decreases |chunks|
  {
    hide FeedAll;
    if chunks != [] {
      FeedAllApart(cfg, taken, p, chunks[0]);
      FeedChunksApart(cfg, taken, FeedAll(cfg, p, chunks[0]), chunks[1..]);
    }
  }

  // ---------- taking after every chunk ----------

  /** Where reading stands after all chunks, and all the questions taken, one batch after each
      chunk that was read. */
  ghost function FeedAndTake<Q>(cfg: Config<Q>, p: Progress<Q>, chunks: seq<Text>): (Progress<Q>, seq<Q>)
    decreases |chunks|
  {
    if chunks == [] then (p, [])
    else
      var q := FeedAll(cfg, p, chunks[0]);
      if q.Failed? then (q, [])
      else
        var (rest, more) := FeedAndTake(cfg, Going(q.reader.(pending := [])), chunks[1..]);
        (rest, q.reader.pending + more)
  }

  lemma {:induction false} FailedChunks<Q>(cfg: Config<Q>, chunks: seq<Text>)
    ensures FeedChunks<Q>(cfg, Failed, chunks) == Failed
    decreases |chunks|
  {
    if chunks != [] { FailedChunks(cfg, chunks[1..]); }
  }

  /** Taking questions between chunks loses, repeats and reorders none, and changes nothing else:
      put back in front of those still waiting, they make the reader that was left alone. */
  lemma {:induction false} TakingIsHarmless<Q>(cfg: Config<Q>, p: Progress<Q>, chunks: seq<Text>)
    ensures var (rest, taken) := FeedAndTake(cfg, p, chunks);
      var whole := FeedChunks(cfg, p, chunks);
      if whole.Failed? then rest.Failed? else whole == ReturnedAll(taken, rest)
    decreases |chunks|, 0
  {
    hide FeedAll;
    if chunks == [] {
      if p.Going? { assert [] + p.reader.pending == p.reader.pending; }
    } else {
      var q := FeedAll(cfg, p, chunks[0]);
      if q.Failed? {
        FailedChunks(cfg, chunks[1..]);
      } else {
        TakeOne(cfg, q.reader, chunks[1..]);
      }
    }
  }

  lemma {:induction false} TakeOne<Q>(cfg: Config<Q>, r: Reader<Q>, chunks: seq<Text>)
    ensures var (rest, more) := FeedAndTake(cfg, Going(r.(pending := [])), chunks);
      var whole := FeedChunks(cfg, Going(r), chunks);
      if whole.Failed? then rest.Failed? else whole == ReturnedAll(r.pending + more, rest)
    decreases |chunks|, 1
  {
    var emptied := r.(pending := []);
    assert Returned(r.pending, emptied) == r by { assert r.pending + [] == r.pending; }
    FeedChunksApart(cfg, r.pending, Going(emptied), chunks);
    TakingIsHarmless(cfg, Going(emptied), chunks);
    hide FeedChunks, FeedAndTake;
    var (rest, more) := FeedAndTake(cfg, Going(emptied), chunks);
    if rest.Going? { assert r.pending + (more + rest.reader.pending) == r.pending + more + rest.reader.pending; }
  }
}
