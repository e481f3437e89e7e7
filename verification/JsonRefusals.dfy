/** Texts that the diagnostics reader refuses. */
module JsonRefusals {
  import opened Options
  import opened Keys
  import opened Json
  import opened JsonReader

  /** Only spaces, newlines, carriage returns and tabs. */
  ghost predicate Blank(t: Text)
  {
    forall i :: 0 <= i < |t| ==> t[i] in {32, 10, 13, 9}
  }

  ghost function Read<Q>(cfg: Config<Q>, t: Text): Progress<Q>
  {
    FeedAll(cfg, Going(Initial()), t)
  }

  ghost predicate Accepted<Q>(cfg: Config<Q>, t: Text)
  {
    Finish(cfg, Read(cfg, t)).Some?
  }

  /** A document comes exactly of a text that was closed, had a questions array and gave the expected
      schema version; it holds what was read. */
  lemma FinishExact<Q>(cfg: Config<Q>, r: Reader<Q>)
    ensures var d := Finish(cfg, Going(r));
      && (d.Some? <==> r.state == Done && r.questionsSeen && SCHEMA_VERSION in r.metadata
                       && r.metadata[SCHEMA_VERSION] == cfg.expectedVersion)
      && (d.Some? ==> d.value.metadata == r.metadata && d.value.questions == r.questions)
  {
  }

  lemma DoneFeeds<Q>(cfg: Config<Q>, r: Reader<Q>, c: CodeUnit)
    requires r.state.Done?
    ensures Feed(cfg, r, c) == if c in {32, 10, 13, 9} then Going(r) else Failed
  {
  }

  lemma {:induction false} DoneReads<Q>(cfg: Config<Q>, r: Reader<Q>, t: Text)
    requires r.state.Done?
    ensures FeedAll(cfg, Going(r), t) == if Blank(t) then Going(r) else Failed
    decreases |t|
  {
    hide Feed;
    if t != [] {
      DoneFeeds(cfg, r, t[0]);
      if t[0] in {32, 10, 13, 9} {
        DoneReads(cfg, r, t[1..]);
        assert t == [t[0]] + t[1..];
      } else {
        FailedStays(cfg, t[1..]);
      }
    }
  }

  /** Trailing garbage: after an accepted text only white space may follow, and it changes nothing. */
  lemma TrailingGarbageRefused<Q>(cfg: Config<Q>, t: Text, more: Text)
    requires Accepted(cfg, t)
    ensures Read(cfg, t + more) == if Blank(more) then Read(cfg, t) else Failed
    ensures Accepted(cfg, t + more) <==> Blank(more)
  {
    hide FeedAll;
    FeedAllConcat<Q>(cfg, Going(Initial()), t, more);
    DoneReads(cfg, Read(cfg, t).reader, more);
  }

  /** Truncation: no front part of an accepted text that leaves out more than white space is accepted. */
  lemma TruncatedRefused<Q>(cfg: Config<Q>, t: Text, more: Text)
    requires Accepted(cfg, t + more) && !Blank(more)
    ensures !Accepted(cfg, t)
  {
    hide FeedAll, Blank, Finish;
    if Accepted(cfg, t) { TrailingGarbageRefused(cfg, t, more); }
  }

  lemma {:induction false} BlankSkipped<Q>(cfg: Config<Q>, r: Reader<Q>, t: Text)
    requires Blank(t) && r.state in {AtStart, KeyOrEnd, AtColon, ValueStart, QuestionsStart, QuestionSeparator,
      AfterValue}
    ensures FeedAll(cfg, Going(r), t) == Going(r)
    decreases |t|
  {
    if t != [] {
      assert Feed(cfg, r, t[0]) == Going(r);
      hide Feed;
      BlankSkipped(cfg, r, t[1..]);
    }
  }

  /** A text whose first character beyond white space is no open brace is refused, whatever follows. */
  lemma OtherStartRefused<Q>(cfg: Config<Q>, space: Text, c: CodeUnit, more: Text)
    requires Blank(space) && !Blank([c]) && c != OPEN_BRACE
    ensures Read(cfg, space + [c] + more) == Failed
  {
    BlankSkipped<Q>(cfg, Initial(), space);
    assert [c][0] == c;
    assert Feed<Q>(cfg, Initial(), c) == Failed;
    FailedStays<Q>(cfg, more);
    FeedAllConcat<Q>(cfg, Going(Initial()), space, [c]);
    FeedAllConcat<Q>(cfg, Going(Initial()), space + [c], more);
  }

  lemma CommaThen<Q>(cfg: Config<Q>, r: Reader<Q>, close: CodeUnit)
    requires (r.state.AfterValue? && close == CLOSE_BRACE) || (r.state.QuestionSeparator? && close == CLOSE_BRACKET)
    ensures var next := r.(afterComma := true, state := if r.state.AfterValue? then KeyOrEnd else QuestionsStart);
      Feed(cfg, r, COMMA) == Going(next) && Feed(cfg, next, close) == Failed
  {
  }

  /** A trailing comma: after the comma that follows a property no closing brace may come, and after
      the one that follows a question no closing bracket, whatever comes after. */
  lemma TrailingCommaRefused<Q>(cfg: Config<Q>, r: Reader<Q>, space: Text, more: Text)
    requires Blank(space) && (r.state.AfterValue? || r.state.QuestionSeparator?)
    ensures var close := if r.state.AfterValue? then CLOSE_BRACE else CLOSE_BRACKET;
      FeedAll(cfg, Going(r), [COMMA] + space + [close] + more) == Failed
  {
    var close := if r.state.AfterValue? then CLOSE_BRACE else CLOSE_BRACKET;
    var next := r.(afterComma := true, state := if r.state.AfterValue? then KeyOrEnd else QuestionsStart);
    CommaThen(cfg, r, close);
    BlankSkipped(cfg, next, space);
    FailedStays(cfg, more);
    OneFed(cfg, r, COMMA);
    OneFed(cfg, next, close);
    hide FeedAll, Feed;
    FeedAllConcat(cfg, Going(r), [COMMA], space);
    FeedAllConcat(cfg, Going(r), [COMMA] + space, [close]);
    FeedAllConcat(cfg, Going(r), [COMMA] + space + [close], more);
  }

  lemma OneFed<Q>(cfg: Config<Q>, r: Reader<Q>, c: CodeUnit)
    ensures FeedAll(cfg, Going(r), [c]) == Feed(cfg, r, c)
  {
    hide Feed;
    assert [c][1..] == [];
  }

  /** Size limits: a key of 1024 characters that is still open, a question at the reader's limit and a
      metadata string or container at 16 Mi characters take no further character. */
  lemma OversizeRefused<Q>(cfg: Config<Q>, r: Reader<Q>, c: CodeUnit)
    requires r.scan.Some? && !r.scan.value.complete
    requires
      || (r.state.InKey? && |r.keyRaw| >= 1024)
      || (r.state.QuestionValue? && |r.buffer| >= cfg.maxQuestionChars)
      || (r.state.MetadataValue? && |r.buffer| >= 16 * 1024 * 1024 && (r.scan.value.depth > 0 || r.scan.value.inString))
    ensures Feed(cfg, r, c) == Failed
  {
    hide AcceptChar, FinishValue;
  }
}
