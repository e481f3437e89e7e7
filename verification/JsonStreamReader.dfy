/** The reader object: its fields are updated character by character, captured text chunk by
    chunk. An error is kept in `failed`, after which the source's caller stops. */
module JsonStreamReader {
  import opened Options
  import opened Keys
  import opened Json
  import opened JsonReader

  class DiagnosticsJsonStreamReader<Q> {
    const cfg: Config<Q>
    var state: ReaderState
    var key: Text
    var keyRaw: Text
    var buffer: Text
    var scan: Option<Scan>
    var questionsSeen: bool
    var afterComma: bool
    var questionCount: nat
    var metadata: map<Text, Json>
    var questions: seq<Q>
    var pending: seq<Q>
    var failed: bool

    ghost function View(): Reader<Q>
      reads this
    {
      Reader(state, key, keyRaw, buffer, scan, questionsSeen, afterComma, questionCount, metadata, questions, pending)
    }

    ghost function Now(): Progress<Q>
      reads this
    {
      if failed then Failed else Going(View())
    }

    ghost predicate Valid()
      reads this
    {
      Steady(View()) && Fits(cfg, View())
    }

    constructor (cfg: Config<Q>)
      requires cfg.maxQuestionChars >= 1
      ensures this.cfg == cfg && Now() == Going(Initial()) && Valid()
    {
      this.cfg := cfg;
      state, key, keyRaw, buffer, scan := AtStart, [], [], [], None;
      questionsSeen, afterComma, questionCount := false, false, 0;
      metadata, questions, pending, failed := map[], [], [], false;
    }

    function IsCapturing(): bool
      reads this
    {
      (state.MetadataValue? || state.QuestionValue?) && (scan.None? || !scan.value.complete)
    }

    /** `acceptValueChar` on the stored scan. */
    method Accept(c: CodeUnit)
      requires scan.Some?
      modifies `scan, `failed
      ensures failed <==> old(failed) || AcceptChar(old(scan).value, c).None?
      ensures AcceptChar(old(scan).value, c).Some? ==> scan == AcceptChar(old(scan).value, c)
    {
      var s := scan.value;
      if s.inString {
        if s.escaped {
          scan := Some(s.(escaped := false));
        } else if c == BACKSLASH {
          scan := Some(s.(escaped := true));
        } else if c == QUOTE {
          scan := Some(s.(inString := false, complete := s.complete || s.depth == 0));
        }
        return;
      }
      if c == QUOTE {
        scan := Some(s.(inString := true));
      } else if c == OPEN_BRACE || c == OPEN_BRACKET {
        scan := Some(s.(depth := s.depth + 1));
      } else if c == CLOSE_BRACE || c == CLOSE_BRACKET {
        if s.depth == 0 {
          failed := true;
        } else {
          scan := Some(s.(depth := s.depth - 1, complete := s.complete || s.depth == 1));
        }
      }
    }

    method TakeKeyChar(c: CodeUnit)
      requires !failed && scan.Some? && state.InKey?
      modifies `keyRaw, `scan, `key, `state, `failed
      ensures var m := ConsumeKey(cfg, old(View()), c); failed <==> m.Refused?
      ensures var m := ConsumeKey(cfg, old(View()), c); m.Moved? ==> m.consumed && View() == m.reader
    {
      hide AcceptChar;
      keyRaw := keyRaw + [c];
      if |keyRaw| > MAX_KEY_CHARS { failed := true; return; }
      Accept(c);
      if failed || !scan.value.complete { return; }
      var parsed := cfg.parse(keyRaw);
      if parsed.None? || !parsed.value.Str? { failed := true; return; }
      key := parsed.value.text;
      if key in metadata || (key == QUESTIONS && questionsSeen) { failed := true; return; }
      scan := None;
      state := AtColon;
    }

    method TakeMetadataChar(c: CodeUnit) returns (consumed: bool)
      requires !failed && scan.Some?
      modifies `scan, `failed
      ensures var m := ConsumeMetadata(old(View()), c); failed <==> m.Refused?
      ensures var m := ConsumeMetadata(old(View()), c); m.Moved? ==> consumed == m.consumed && View() == m.reader
    {
      hide AcceptChar, IsWhitespace;
      var s := scan.value;
      if s.complete {
        if IsWhitespace(c) { return true; }
        if c == COMMA || c == CLOSE_BRACE { return false; }
        failed := true;
        return true;
      }
      if s.depth == 0 && !s.inString && (c == COMMA || c == CLOSE_BRACE) {
        scan := Some(s.(complete := true));
        return false;
      }
      Accept(c);
      return true;
    }

    method TakeValueStart(c: CodeUnit)
      requires !failed
      modifies `questionsSeen, `afterComma, `state, `scan, `failed
      ensures var m := ConsumeValueStart(old(View()), c); failed <==> m.Refused?
      ensures var m := ConsumeValueStart(old(View()), c); m.Moved? ==> m.consumed && View() == m.reader
    {
      hide StartScan;
      if key == QUESTIONS {
        if c != OPEN_BRACKET { failed := true; return; }
        questionsSeen := true;
        afterComma := false;
        state := QuestionsStart;
        return;
      }
      scan := Some(StartScan(c));
      state := MetadataValue;
    }

    method TakePunctuation(c: CodeUnit)
      requires !failed
      modifies `questionsSeen, `afterComma, `state, `scan, `keyRaw, `failed
      ensures var m := ConsumePunctuation(old(View()), c); failed <==> m.Refused?
      ensures var m := ConsumePunctuation(old(View()), c); m.Moved? ==> m.consumed && View() == m.reader
    {
      hide StartScan, ConsumeValueStart;
      match state {
        case AtStart =>
          if c == OPEN_BRACE { state := KeyOrEnd; } else { failed := true; }
        case KeyOrEnd =>
          if c == CLOSE_BRACE && !afterComma {
            state := Done;
          } else if c == QUOTE {
            keyRaw := [QUOTE];
            scan := Some(StartScan(c));
            state := InKey;
          } else {
            failed := true;
          }
        case AtColon =>
          if c == COLON { state := ValueStart; } else { failed := true; }
        case ValueStart => TakeValueStart(c);
        case QuestionsStart =>
          if c == CLOSE_BRACKET && !afterComma {
            state := AfterValue;
          } else if c == OPEN_BRACE {
            scan := Some(StartScan(c));
            state := QuestionValue;
          } else {
            failed := true;
          }
        case QuestionSeparator => TakeSeparator(c, CLOSE_BRACKET, QuestionsStart, AfterValue);
        case AfterValue => TakeSeparator(c, CLOSE_BRACE, KeyOrEnd, Done);
        case _ => failed := true;
      }
    }

    /** After a question or a property: a comma goes on, the closing bracket ends the list. */
    method TakeSeparator(c: CodeUnit, close: CodeUnit, more: ReaderState, end: ReaderState)
      requires !failed && close != COMMA
      modifies `afterComma, `state, `failed
      ensures failed <==> c != COMMA && c != close
      ensures !failed ==> afterComma == (c == COMMA) && state == if c == COMMA then more else end
    {
      if c == COMMA {
        afterComma := true;
        state := more;
      } else if c == close {
        afterComma := false;
        state := end;
      } else {
        failed := true;
      }
    }

    /** `#consumeChar`: dispatch on the state. */
    method Advance(c: CodeUnit) returns (consumed: bool)
      requires !failed && Steady(View())
      modifies `keyRaw, `scan, `key, `state, `failed, `questionsSeen, `afterComma
      ensures var m := ConsumeChar(cfg, old(View()), c); failed <==> m.Refused?
      ensures var m := ConsumeChar(cfg, old(View()), c); m.Moved? ==> consumed == m.consumed && View() == m.reader
    {
      hide ConsumeKey, ConsumeMetadata, ConsumePunctuation, IsWhitespace, AcceptChar;
      consumed := true;
      match state {
        case InKey => TakeKeyChar(c);
        case MetadataValue => consumed := TakeMetadataChar(c);
        case QuestionValue => Accept(c);
        case _ => if !IsWhitespace(c) { TakePunctuation(c); }
      }
    }

    method AppendCaptured(fragment: Text)
      requires !failed
      modifies `buffer, `failed
      ensures buffer == old(buffer) + fragment
      ensures failed <==> |buffer| > LimitFor(cfg, View())
    {
      buffer := buffer + fragment;
      var limit := if state.QuestionValue? then cfg.maxQuestionChars else MAX_METADATA_CHARS;
      if |buffer| > limit { failed := true; }
    }

    method FinishCapturedValue()
      requires !failed
      modifies `buffer, `scan, `metadata, `state, `questions, `pending, `questionCount, `failed
      ensures var d := FinishValue(cfg, old(View())); failed <==> d.None?
      ensures var d := FinishValue(cfg, old(View())); d.Some? ==> View() == d.value
    {
      hide TrimEnd;
      if state.MetadataValue? {
        var value := cfg.parse(TrimEnd(buffer));
        if value.None? { failed := true; return; }
        metadata := metadata[key := value.value];
        state := AfterValue;
      } else if state.QuestionValue? {
        StoreQuestion();
        if failed { return; }
      }
      buffer := [];
      scan := None;
    }

    method StoreQuestion()
      requires !failed && state.QuestionValue?
      modifies `state, `questions, `pending, `questionCount, `failed
      ensures failed <==> FinishValue(cfg, old(View())).None?
      ensures !failed ==> View().(buffer := [], scan := None) == FinishValue(cfg, old(View())).value
    {
      hide TrimEnd;
      var raw := cfg.parse(buffer);
      if raw.None? { failed := true; return; }
      var question := cfg.parseQuestion(raw.value, questionCount);
      if question.None? { failed := true; return; }
      if cfg.streamQuestions {
        pending := pending + [question.value];
      } else {
        questions := questions + [question.value];
      }
      questionCount := questionCount + 1;
      state := QuestionSeparator;
    }

    /** Consuming a chunk has exactly the effect of its characters one by one, however the value
        being captured straddles the chunk's ends. */
    method Consume(chunk: Text)
      requires !failed && Valid()
      modifies this
      ensures Now() == FeedAll(cfg, Going(old(View())), chunk)
      ensures !failed ==> Valid()
    {
      hide ConsumeChar, FinishValue, FeedAll, Tracks;
      ghost var total := FeedAll(cfg, Going(View()), chunk);
      var captureStart := if IsCapturing() then 0 else -1;
      var index := 0;
      TracksStart(cfg, chunk, View());
      while index < |chunk|
        invariant 0 <= index <= |chunk| && captureStart <= index && !failed
        invariant Tracks(cfg, total, chunk, View(), captureStart, index)
        decreases 2 * (|chunk| - index) + if captureStart >= 0 then 1 else 0
      {
        ghost var r := View();
        var wasCapturing := captureStart >= 0;
        var consumed := AdvanceTracked(chunk[index], cfg, total, chunk, captureStart, index);
        if failed { return; }
        var isCapturing := IsCapturing();
        ghost var m := ConsumeChar(cfg, r, chunk[index]);
        assert isCapturing == Capturing(m.reader);
        if wasCapturing && !isCapturing {
          TracksFinish(cfg, total, chunk, r, captureStart, index);
          AppendCaptured(chunk[captureStart..index + if consumed then 1 else 0]);
          if failed { return; }
          captureStart := -1;
          FinishCapturedValue();
          if failed { return; }
        } else if isCapturing {
          TracksCapture(cfg, total, chunk, r, captureStart, index);
          if !wasCapturing { captureStart := index; }
        } else {
          TracksPlain(cfg, total, chunk, r, index);
        }
        if consumed { index := index + 1; }
      }
      TracksEnd(cfg, total, chunk, View(), captureStart);
      if captureStart >= 0 { AppendCaptured(chunk[captureStart..]); }
    }

    method AdvanceTracked(c: CodeUnit, ghost config: Config<Q>, ghost total: Progress<Q>, ghost chunk: Text,
                          ghost captureStart: int, ghost index: nat)
      returns (consumed: bool)
      requires !failed && config == cfg && index < |chunk| && c == chunk[index]
      requires Tracks(cfg, total, chunk, View(), captureStart, index)
      modifies `keyRaw, `scan, `key, `state, `failed, `questionsSeen, `afterComma
      ensures failed ==> total.Failed?
      ensures !failed ==> ConsumeChar(cfg, old(View()), c) == Moved(View(), consumed)
    {
      hide ConsumeChar, FinishValue, FeedAll;
      if ConsumeChar(cfg, View(), c).Refused? { TracksRefused(cfg, total, chunk, View(), captureStart, index); }
      consumed := Advance(c);
    }

    method Finish() returns (document: Option<Document<Q>>)
      ensures document == JsonReader.Finish(cfg, Now())
    {
      if failed || !state.Done? { return None; }
      if !questionsSeen { return None; }
      if SCHEMA_VERSION !in metadata || metadata[SCHEMA_VERSION] != cfg.expectedVersion { return None; }
      return Some(Document(metadata, questions));
    }

    method TakeQuestions() returns (taken: seq<Q>)
      modifies `pending
      ensures taken == old(pending) && View() == old(View()).(pending := [])
      ensures old(Valid()) ==> Valid()
    {
      taken := pending;
      pending := [];
    }
  }

  lemma TracksStart<Q>(cfg: Config<Q>, chunk: Text, r: Reader<Q>)
    requires Steady(r) && Fits(cfg, r)
    ensures Tracks(cfg, FeedAll(cfg, Going(r), chunk), chunk, r, if Capturing(r) then 0 else -1, 0)
  {
    hide FeedAll;
    var start := if Capturing(r) then 0 else -1;
    assert chunk[0..] == chunk;
    assert Virtual(r, chunk, start, 0) == r;
  }

  lemma TracksEnd<Q>(cfg: Config<Q>, total: Progress<Q>, chunk: Text, r: Reader<Q>, captureStart: int)
    requires Tracks(cfg, total, chunk, r, captureStart, |chunk|)
    ensures var v := Virtual(r, chunk, captureStart, |chunk|);
      Steady(v) && Steady(r) && (if Fits(cfg, v) then total == Going(v) else total.Failed?) && v.state == r.state &&
      (captureStart >= 0 ==> v.buffer == r.buffer + chunk[captureStart..] && Holding(v)) &&
      (captureStart < 0 ==> v == r && Fits(cfg, v))
  {
    assert chunk[|chunk|..] == [];
  }
}
