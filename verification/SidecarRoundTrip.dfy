/** For every sidecar within the reader's limits, reading what the writer rendered returns the
    same metadata and the same questions in order. */
module SidecarRoundTrip {
  import opened Options
  import opened Keys
  import opened Json
  import opened JsonReader
  import opened JsonParser
  import opened JsonScan
  import opened JsonStreaming
  import opened SidecarArtifact

  // ---------- questions ----------

  /** The questions are objects within the limit, and the question parser accepts each. */
  ghost predicate QuestionsParse<Q>(cfg: Config<Q>, questions: seq<Json>, base: nat, xs: seq<Q>)
  {
    && |xs| == |questions|
    && forall i :: 0 <= i < |xs| ==>
         questions[i].Obj? && |Print(questions[i])| <= cfg.maxQuestionChars &&
         cfg.parseQuestion(questions[i], base + i) == Some(xs[i])
  }

  ghost function WithQuestions<Q>(cfg: Config<Q>, r: Reader<Q>, xs: seq<Q>): Reader<Q>
  {
    var counted := r.(questionCount := r.questionCount + |xs|);
    if cfg.streamQuestions then counted.(pending := r.pending + xs) else counted.(questions := r.questions + xs)
  }

  lemma QuestionStarts<Q>(cfg: Config<Q>, r: Reader<Q>)
    requires r.state.QuestionsStart? && r.buffer == [] && cfg.maxQuestionChars >= 1
    ensures Feed(cfg, r, OPEN_BRACE) ==
      Going(r.(scan := Some(Level(1)), state := QuestionValue, buffer := [OPEN_BRACE]))
  {
  }

  lemma StoresQuestion<Q>(cfg: Config<Q>, r: Reader<Q>, q: Json, x: Q)
    requires ParseUndoesPrint(cfg) && r.state.QuestionValue? && r.buffer == Print(q)
    requires cfg.parseQuestion(q, r.questionCount) == Some(x)
    ensures FinishValue(cfg, r) ==
      Some(WithQuestions(cfg, r, [x]).(buffer := [], scan := None, state := QuestionSeparator))
  {
    hide Print;
  }

  lemma QuestionReads<Q>(cfg: Config<Q>, r: Reader<Q>, q: Json, x: Q)
    requires ParseUndoesPrint(cfg) && r.state.QuestionsStart? && r.buffer == [] && r.scan.None?
    requires q.Obj? && |Print(q)| <= cfg.maxQuestionChars && cfg.parseQuestion(q, r.questionCount) == Some(x)
    ensures FeedAll(cfg, Going(r), Print(q)) == Going(WithQuestions(cfg, r, [x]).(state := QuestionSeparator))
  {
    hide Print, ParseUndoesPrint, Feed, FeedAll, FinishValue, StartScan, IsScalar;
    ObjectText(q);
    var text := Print(q);
    var begun := r.(scan := Some(Level(1)), state := QuestionValue, buffer := [OPEN_BRACE]);
    QuestionStarts(cfg, r);
    FeedAllOne(cfg, r, OPEN_BRACE);
    DelimitedReads(cfg, begun, q);
    StoresQuestion(cfg, begun.(buffer := text), q, x);
    FeedAllConcat(cfg, Going(r), [OPEN_BRACE], text[1..]);
    assert [OPEN_BRACE] + text[1..] == text;
  }

  lemma ObjectText(q: Json)
    requires q.Obj?
    ensures |Print(q)| > 0 && Print(q)[0] == OPEN_BRACE && StartScan(OPEN_BRACE) == Level(1) && !IsScalar(q)
  {
    hide PrintMembers;
  }

  lemma SeparatorReads<Q>(cfg: Config<Q>, r: Reader<Q>)
    requires r.state.QuestionSeparator?
    ensures Feed(cfg, r, COMMA) == Going(r.(afterComma := true, state := QuestionsStart))
    ensures Feed(cfg, r, CLOSE_BRACKET) == Going(r.(afterComma := false, state := AfterValue))
  {
  }

  lemma TailParses<Q>(cfg: Config<Q>, questions: seq<Json>, base: nat, xs: seq<Q>)
    requires QuestionsParse(cfg, questions, base, xs) && questions != []
    ensures QuestionsParse(cfg, questions[1..], base + 1, xs[1..])
  {
    hide Print;
    forall i | 0 <= i < |xs| - 1
      ensures cfg.parseQuestion(questions[1..][i], base + 1 + i) == Some(xs[1..][i])
    {
      assert questions[1..][i] == questions[i + 1] && base + 1 + i == base + (i + 1);
    }
  }

  /** A non-empty list of questions and its closing bracket. */
  lemma {:induction false} QuestionsRead<Q>(cfg: Config<Q>, r: Reader<Q>, questions: seq<Json>, xs: seq<Q>)
    requires ParseUndoesPrint(cfg) && r.state.QuestionsStart? && r.buffer == [] && r.scan.None?
    requires questions != [] && QuestionsParse(cfg, questions, r.questionCount, xs)
    ensures FeedAll(cfg, Going(r), JoinQuestions(questions) + [CLOSE_BRACKET]) ==
      Going(WithQuestions(cfg, r, xs).(afterComma := false, state := AfterValue))
    decreases |questions|
  {
    hide ParseUndoesPrint, Feed, FeedAll, Print;
    var q := questions[0];
    QuestionReads(cfg, r, q, xs[0]);
    var mid := WithQuestions(cfg, r, [xs[0]]).(state := QuestionSeparator);
    SeparatorReads(cfg, mid);
    FeedAllOne(cfg, mid, CLOSE_BRACKET);
    FeedAllOne(cfg, mid, COMMA);
    if |questions| == 1 {
      assert JoinQuestions(questions) == Print(q);
      FeedAllConcat(cfg, Going(r), Print(q), [CLOSE_BRACKET]);
      assert xs == [xs[0]];
    } else {
      var next := mid.(afterComma := true, state := QuestionsStart);
      TailParses(cfg, questions, r.questionCount, xs);
      QuestionsRead(cfg, next, questions[1..], xs[1..]);
      var rest := JoinQuestions(questions[1..]) + [CLOSE_BRACKET];
      FeedAllConcat(cfg, Going(r), Print(q), [COMMA]);
      FeedAllConcat(cfg, Going(r), Print(q) + [COMMA], rest);
      assert JoinQuestions(questions) + [CLOSE_BRACKET] == Print(q) + [COMMA] + rest;
      assert [xs[0]] + xs[1..] == xs;
      WithMore(cfg, r, mid, xs);
    }
  }

  lemma WithMore<Q>(cfg: Config<Q>, r: Reader<Q>, mid: Reader<Q>, xs: seq<Q>)
    requires |xs| > 1 && mid == WithQuestions(cfg, r, [xs[0]]).(state := QuestionSeparator)
    ensures var next := mid.(afterComma := true, state := QuestionsStart);
      WithQuestions(cfg, next, xs[1..]).(afterComma := false, state := AfterValue)
      == WithQuestions(cfg, r, xs).(afterComma := false, state := AfterValue)
  {
    assert [xs[0]] + xs[1..] == xs;
    assert r.questions + [xs[0]] + xs[1..] == r.questions + xs;
    assert r.pending + [xs[0]] + xs[1..] == r.pending + xs;
  }

  // ---------- properties ----------

  ghost function AfterProp<Q>(cfg: Config<Q>, r: Reader<Q>, p: Prop, xs: seq<Q>): Reader<Q>
  {
    var named := r.(state := AfterValue, key := KeyOf(p), keyRaw := Quote(KeyOf(p)));
    if p.Questions? then WithQuestions(cfg, named, xs).(questionsSeen := true, afterComma := false)
    else named.(metadata := r.metadata[p.key := p.value])
  }

  ghost predicate PropFits(p: Prop)
  {
    |Quote(KeyOf(p))| <= MAX_KEY_CHARS && (p.Meta? ==> p.key != QUESTIONS && |Print(p.value)| <= MAX_METADATA_CHARS)
  }

  /** Between properties: ready for a key, nothing half read. */
  ghost predicate Ready<Q>(r: Reader<Q>)
  {
    r.state.KeyOrEnd? && r.buffer == [] && r.scan.None?
  }

  lemma BracketOpens<Q>(cfg: Config<Q>, r: Reader<Q>)
    requires r.state.ValueStart? && r.key == QUESTIONS
    ensures Feed(cfg, r, OPEN_BRACKET) == Going(r.(questionsSeen := true, afterComma := false, state := QuestionsStart))
  {
  }

  lemma EmptyListReads<Q>(cfg: Config<Q>, r: Reader<Q>)
    requires r.state.QuestionsStart? && !r.afterComma
    ensures Feed(cfg, r, CLOSE_BRACKET) == Going(r.(state := AfterValue))
  {
  }

  /** The bracketed question list after its key. */
  lemma ListReads<Q>(cfg: Config<Q>, r: Reader<Q>, questions: seq<Json>, xs: seq<Q>)
    requires ParseUndoesPrint(cfg) && r.state.ValueStart? && r.key == QUESTIONS && r.buffer == [] && r.scan.None?
    requires QuestionsParse(cfg, questions, r.questionCount, xs)
    ensures FeedAll(cfg, Going(r), [OPEN_BRACKET] + JoinQuestions(questions) + [CLOSE_BRACKET]) ==
      Going(WithQuestions(cfg, r, xs).(questionsSeen := true, afterComma := false, state := AfterValue))
  {
    hide ParseUndoesPrint, Feed, FeedAll, Print;
    var open := r.(questionsSeen := true, afterComma := false, state := QuestionsStart);
    BracketOpens(cfg, r);
    FeedAllOne(cfg, r, OPEN_BRACKET);
    FeedAllConcat(cfg, Going(r), [OPEN_BRACKET], JoinQuestions(questions) + [CLOSE_BRACKET]);
    assert [OPEN_BRACKET] + JoinQuestions(questions) + [CLOSE_BRACKET] ==
      [OPEN_BRACKET] + (JoinQuestions(questions) + [CLOSE_BRACKET]);
    if questions == [] {
      EmptyListReads(cfg, open);
      FeedAllOne(cfg, open, CLOSE_BRACKET);
      assert JoinQuestions(questions) + [CLOSE_BRACKET] == [CLOSE_BRACKET];
      assert xs == [];
      assert r.questions + xs == r.questions && r.pending + xs == r.pending;
    } else {
      QuestionsRead(cfg, open, questions, xs);
    }
  }

  /** One written property and the delimiter after it. */
  lemma PropReads<Q>(cfg: Config<Q>, r: Reader<Q>, p: Prop, questions: seq<Json>, xs: seq<Q>, c: CodeUnit)
    requires ParseUndoesPrint(cfg) && Ready(r) && KeyFree(r, KeyOf(p)) && PropFits(p)
    requires p.Questions? ==> QuestionsParse(cfg, questions, r.questionCount, xs)
    requires c == COMMA || c == CLOSE_BRACE
    ensures FeedAll(cfg, Going(r), PropText(p, questions) + [c]) == Feed(cfg, AfterProp(cfg, r, p, xs), c)
  {
    hide ParseUndoesPrint, Feed, FeedAll, Print, Quote, JoinQuestions, QuestionsParse;
    var k := KeyOf(p);
    var head := Quote(k) + [COLON];
    KeyReads(cfg, r, k);
    var named := AfterKey(r, k);
    if p.Questions? {
      var list := [OPEN_BRACKET] + JoinQuestions(questions) + [CLOSE_BRACKET];
      ListReads(cfg, named, questions, xs);
      FeedAllConcat(cfg, Going(r), head, list);
      FeedAllConcat(cfg, Going(r), head + list, [c]);
      FeedAllOne(cfg, AfterProp(cfg, r, p, xs), c);
    } else {
      ValueReads(cfg, named, p.value, c);
      FeedAllConcat(cfg, Going(r), head, Print(p.value) + [c]);
      assert head + (Print(p.value) + [c]) == PropText(p, questions) + [c];
      assert named.(metadata := named.metadata[named.key := p.value], state := AfterValue) == AfterProp(cfg, r, p, xs);
    }
  }

  lemma DelimiterReads<Q>(cfg: Config<Q>, r: Reader<Q>)
    requires r.state.AfterValue?
    ensures Feed(cfg, r, COMMA) == Going(r.(afterComma := true, state := KeyOrEnd))
    ensures Feed(cfg, r, CLOSE_BRACE) == Going(r.(afterComma := false, state := Done))
  {
  }

  ghost predicate DistinctKeys(ps: seq<Prop>)
  {
    forall i, j :: 0 <= i < j < |ps| ==> KeyOf(ps[i]) != KeyOf(ps[j])
  }

  ghost function AfterAll<Q>(cfg: Config<Q>, r: Reader<Q>, ps: seq<Prop>, xs: seq<Q>): Reader<Q>
    requires ps != []
    decreases |ps|
  {
    var done := AfterProp(cfg, r, ps[0], xs);
    if |ps| == 1 then done.(afterComma := false, state := Done)
    else AfterAll(cfg, done.(afterComma := true, state := KeyOrEnd), ps[1..], xs)
  }

  ghost predicate Readable<Q>(cfg: Config<Q>, r: Reader<Q>, ps: seq<Prop>, questions: seq<Json>, xs: seq<Q>)
  {
    && Ready(r) && DistinctKeys(ps)
    && (forall i :: 0 <= i < |ps| ==> PropFits(ps[i]) && KeyFree(r, KeyOf(ps[i])))
    && (Questions in ps ==> QuestionsParse(cfg, questions, r.questionCount, xs))
  }

  lemma ReadableNext<Q>(cfg: Config<Q>, r: Reader<Q>, ps: seq<Prop>, questions: seq<Json>, xs: seq<Q>)
    requires |ps| > 1 && Readable(cfg, r, ps, questions, xs)
    ensures Readable(cfg, AfterProp(cfg, r, ps[0], xs).(afterComma := true, state := KeyOrEnd), ps[1..], questions, xs)
  {
    hide QuestionsParse, PropFits, Quote;
    var next := AfterProp(cfg, r, ps[0], xs).(afterComma := true, state := KeyOrEnd);
    var rest := ps[1..];
    forall i | 0 <= i < |rest| ensures KeyFree(next, KeyOf(rest[i])) && PropFits(rest[i]) {
      assert rest[i] == ps[i + 1];
      assert KeyOf(ps[0]) != KeyOf(ps[i + 1]);
    }
  }

  /** All written properties and the closing brace. */
  lemma {:induction false} PropsRead<Q>(cfg: Config<Q>, r: Reader<Q>, ps: seq<Prop>, questions: seq<Json>, xs: seq<Q>)
    requires ParseUndoesPrint(cfg) && ps != [] && Readable(cfg, r, ps, questions, xs)
    ensures FeedAll(cfg, Going(r), JoinProps(ps, questions) + [CLOSE_BRACE]) == Going(AfterAll(cfg, r, ps, xs))
    decreases |ps|
  {
    hide ParseUndoesPrint, Feed, FeedAll, PropText, QuestionsParse, PropFits;
    var text := PropText(ps[0], questions);
    var done := AfterProp(cfg, r, ps[0], xs);
    DelimiterReads(cfg, done);
    if |ps| == 1 {
      PropReads(cfg, r, ps[0], questions, xs, CLOSE_BRACE);
      assert JoinProps(ps, questions) == text;
    } else {
      var next := done.(afterComma := true, state := KeyOrEnd);
      PropReads(cfg, r, ps[0], questions, xs, COMMA);
      ReadableNext(cfg, r, ps, questions, xs);
      hide Readable;
      PropsRead(cfg, next, ps[1..], questions, xs);
      var rest := JoinProps(ps[1..], questions) + [CLOSE_BRACE];
      FeedAllConcat(cfg, Going(r), text + [COMMA], rest);
      assert JoinProps(ps, questions) + [CLOSE_BRACE] == text + [COMMA] + rest;
    }
  }

  // ---------- the document ----------

  ghost function MetaMap(ps: seq<Prop>): map<Text, Json>
  {
    if ps == [] then map[]
    else
      var rest := MetaMap(ps[1..]);
      if ps[0].Meta? then map[ps[0].key := ps[0].value] + rest else rest
  }

  lemma DistinctTail(ps: seq<Prop>)
    requires ps != [] && DistinctKeys(ps)
    ensures DistinctKeys(ps[1..]) && (ps[0].Questions? ==> Questions !in ps[1..])
    ensures ps[0].Meta? ==> ps[0].key !in MetaMap(ps[1..])
  {
    var rest := ps[1..];
    forall i | 0 <= i < |rest| ensures KeyOf(rest[i]) != KeyOf(ps[0]) { assert rest[i] == ps[i + 1]; }
    forall i, j | 0 <= i < j < |rest| ensures KeyOf(rest[i]) != KeyOf(rest[j]) {
      assert KeyOf(ps[i + 1]) != KeyOf(ps[j + 1]);
    }
    if ps[0].Meta? { MetaMapKeys(rest, ps[0].key); }
  }

  lemma {:induction false} MetaMapKeys(ps: seq<Prop>, k: Text)
    requires forall i :: 0 <= i < |ps| ==> KeyOf(ps[i]) != k
    ensures k !in MetaMap(ps)
  {
    if ps != [] {
      assert KeyOf(ps[0]) != k;
      MetaMapKeys(ps[1..], k);
    }
  }

  lemma PropMetadata<Q>(cfg: Config<Q>, r: Reader<Q>, p: Prop, xs: seq<Q>)
    ensures AfterProp(cfg, r, p, xs).metadata == if p.Meta? then r.metadata[p.key := p.value] else r.metadata
  {
    hide Quote;
  }

  lemma MapShift(m: map<Text, Json>, k: Text, v: Json, rest: map<Text, Json>)
    requires k !in rest
    ensures m[k := v] + rest == m + (map[k := v] + rest)
  {
  }

  lemma {:induction false} AfterAllMetadata<Q>(cfg: Config<Q>, r: Reader<Q>, ps: seq<Prop>, xs: seq<Q>)
    requires ps != [] && DistinctKeys(ps)
    ensures var d := AfterAll(cfg, r, ps, xs); d.state.Done? && d.metadata == r.metadata + MetaMap(ps)
    decreases |ps|
  {
    hide Quote, DistinctKeys, AfterProp;
    DistinctTail(ps);
    PropMetadata(cfg, r, ps[0], xs);
    var rest := ps[1..];
    if ps[0].Meta? { MapShift(r.metadata, ps[0].key, ps[0].value, MetaMap(rest)); }
    if |ps| > 1 {
      AfterAllMetadata(cfg, AfterProp(cfg, r, ps[0], xs).(afterComma := true, state := KeyOrEnd), rest, xs);
    } else {
      assert rest == [];
      assert AfterProp(cfg, r, ps[0], xs).metadata + map[] == AfterProp(cfg, r, ps[0], xs).metadata;
    }
  }

  lemma {:induction false} AfterAllQuestions<Q>(cfg: Config<Q>, r: Reader<Q>, ps: seq<Prop>, xs: seq<Q>)
    requires ps != [] && DistinctKeys(ps)
    ensures var d := AfterAll(cfg, r, ps, xs);
      && (d.questionsSeen <==> r.questionsSeen || Questions in ps)
      && d.questions == (if Questions in ps && !cfg.streamQuestions then r.questions + xs else r.questions)
      && d.pending == (if Questions in ps && cfg.streamQuestions then r.pending + xs else r.pending)
    decreases |ps|
  {
    hide Quote, DistinctKeys, MetaMap;
    DistinctTail(ps);
    var rest := ps[1..];
    assert ps == [ps[0]] + rest;
    var next := AfterProp(cfg, r, ps[0], xs).(afterComma := true, state := KeyOrEnd);
    assert next.questionsSeen == (r.questionsSeen || ps[0].Questions?);
    assert next.questions == if ps[0].Questions? && !cfg.streamQuestions then r.questions + xs else r.questions;
    assert next.pending == if ps[0].Questions? && cfg.streamQuestions then r.pending + xs else r.pending;
    hide AfterProp;
    if |ps| > 1 { AfterAllQuestions(cfg, next, rest, xs); }
  }

  lemma Opens<Q>(cfg: Config<Q>)
    ensures Feed(cfg, Initial(), OPEN_BRACE) == Going(Initial().(state := KeyOrEnd))
  {
  }

  lemma TrailingNewline<Q>(cfg: Config<Q>, r: Reader<Q>)
    requires r.state.Done?
    ensures Feed(cfg, r, NEWLINE) == Going(r)
  {
  }

  /** Distinct own keys stay distinct when written, summary included. */
  ghost predicate DistinctProperties(properties: seq<(Text, Option<Json>)>)
  {
    forall i, j :: 0 <= i < j < |properties| ==> properties[i].0 != properties[j].0
  }

  lemma {:induction false} EntriesFrom(properties: seq<(Text, Option<Json>)>, summary: Json)
    requires DistinctProperties(properties)
    ensures var ps := Entries(properties, summary);
      DistinctKeys(ps) &&
      (forall i :: 0 <= i < |ps| ==> HasKey(properties, KeyOf(ps[i])) && (ps[i].Meta? ==> ps[i].key != QUESTIONS)) &&
      (HasKey(properties, QUESTIONS) ==> Questions in ps)
  {
    if properties != [] {
      var n := |properties| - 1;
      var less := properties[..n];
      EntriesFrom(less, summary);
      assert properties[..n + 1] == properties;
      forall key ensures HasKey(properties, key) <==> HasKey(less, key) || properties[n].0 == key {
        HasKeyNext(properties, n, key);
      }
      forall i | 0 <= i < |less| ensures less[i].0 != properties[n].0 { assert less[i] == properties[i]; }
    }
  }

  lemma WrittenDistinct(properties: seq<(Text, Option<Json>)>, summary: Json)
    requires DistinctProperties(properties) && HasKey(properties, QUESTIONS)
    ensures DistinctKeys(Written(properties, summary)) && Questions in Written(properties, summary)
    ensures forall i :: 0 <= i < |Written(properties, summary)| && Written(properties, summary)[i].Meta? ==>
      Written(properties, summary)[i].key != QUESTIONS
  {
    hide Entries, HasKey;
    EntriesFrom(properties, summary);
    var ps := Written(properties, summary);
    var es := Entries(properties, summary);
    assert SUMMARY != QUESTIONS by { assert |SUMMARY| != |QUESTIONS|; }
    forall i | 0 <= i < |ps| ensures i < |es| ==> ps[i] == es[i] { }
    var j :| 0 <= j < |es| && es[j] == Questions;
    assert ps[j] == Questions;
  }

  // ---------- what the metadata must be ----------

  ghost predicate Gives(properties: seq<(Text, Option<Json>)>, k: Text, v: Json)
  {
    exists i :: 0 <= i < |properties| && properties[i] == (k, Some(v))
  }

  /** The metadata of a sidecar, read off its properties: the summary, and every other defined property
      but the questions, each under its key with its value. */
  ghost predicate IsMetadata(properties: seq<(Text, Option<Json>)>, summary: Json, m: map<Text, Json>)
  {
    && SUMMARY in m && m[SUMMARY] == summary && QUESTIONS !in m
    && forall k :: k != SUMMARY && k != QUESTIONS ==>
         (k in m ==> Gives(properties, k, m[k])) && (forall v :: Gives(properties, k, v) ==> k in m && m[k] == v)
  }

  lemma {:induction false} MetaMapHolds(ps: seq<Prop>, k: Text)
    requires DistinctKeys(ps)
    ensures k in MetaMap(ps) ==> Meta(k, MetaMap(ps)[k]) in ps
    ensures forall v :: Meta(k, v) in ps ==> k in MetaMap(ps) && MetaMap(ps)[k] == v
    decreases |ps|
  {
    if ps != [] {
      DistinctTail(ps);
      MetaMapHolds(ps[1..], k);
      assert ps == [ps[0]] + ps[1..];
    }
  }

  lemma WrittenMembers(properties: seq<(Text, Option<Json>)>, summary: Json, ps: seq<Prop>, k: Text, v: Json)
    requires IsRendering(properties, summary, ps)
    ensures k == SUMMARY ==> (Meta(k, v) in ps <==> v == summary)
    ensures k == QUESTIONS ==> Meta(k, v) !in ps
    ensures k != SUMMARY && k != QUESTIONS ==> (Meta(k, v) in ps <==> Gives(properties, k, v))
  {
    var own, places :| WrittenAt(properties, summary, own, places) &&
      ps == own + if HasKey(properties, SUMMARY) then [] else [Meta(SUMMARY, summary)];
    assert SUMMARY != QUESTIONS by { assert |SUMMARY| != |QUESTIONS|; }
    OwnMembers(properties, summary, own, places, k, v);
    hide WrittenAt, Gives;
    assert Meta(k, v) in ps <==> Meta(k, v) in own || (!HasKey(properties, SUMMARY) && k == SUMMARY && v == summary);
  }

  lemma OwnMembers(properties: seq<(Text, Option<Json>)>, summary: Json, own: seq<Prop>, places: seq<int>, k: Text,
                   v: Json)
    requires WrittenAt(properties, summary, own, places)
    ensures k == SUMMARY ==> (Meta(k, v) in own <==> HasKey(properties, SUMMARY) && v == summary)
    ensures k == QUESTIONS ==> Meta(k, v) !in own
    ensures k != SUMMARY && k != QUESTIONS ==> (Meta(k, v) in own <==> Gives(properties, k, v))
  {
    assert SUMMARY != QUESTIONS by { assert |SUMMARY| != |QUESTIONS|; }
    if Meta(k, v) in own {
      var j :| 0 <= j < |own| && own[j] == Meta(k, v);
      assert WrittenAs(properties[places[j]], summary, own[j]);
      var i := places[j];
      assert properties[i].0 == k;
    }
    forall i | 0 <= i < |properties| && IsWritten(properties[i]) && properties[i].0 == k && k != QUESTIONS
      ensures exists j :: 0 <= j < |own| && WrittenAs(properties[i], summary, own[j])
    {
      var j :| 0 <= j < |places| && places[j] == i;
      assert WrittenAs(properties[places[j]], summary, own[j]);
    }
  }

  lemma SummaryKept(properties: seq<(Text, Option<Json>)>, summary: Json, m: map<Text, Json>)
    requires IsMetadata(properties, summary, m)
    ensures SCHEMA_VERSION in m ==> Gives(properties, SCHEMA_VERSION, m[SCHEMA_VERSION])
    ensures forall v :: Gives(properties, SCHEMA_VERSION, v) ==> SCHEMA_VERSION in m && m[SCHEMA_VERSION] == v
  {
    hide Gives;
    assert |SCHEMA_VERSION| != |QUESTIONS| && |SCHEMA_VERSION| != |SUMMARY|;
  }

  lemma RenderingMetadata(properties: seq<(Text, Option<Json>)>, summary: Json, ps: seq<Prop>)
    requires IsRendering(properties, summary, ps) && DistinctKeys(ps)
    ensures IsMetadata(properties, summary, MetaMap(ps))
  {
    hide Gives, IsRendering, DistinctKeys, MetaMap;
    var m := MetaMap(ps);
    forall k
      ensures k in m ==> Meta(k, m[k]) in ps
      ensures forall v :: Meta(k, v) in ps ==> k in m && m[k] == v
    {
      MetaMapHolds(ps, k);
    }
    forall k, v
      ensures k == SUMMARY ==> (Meta(k, v) in ps <==> v == summary)
      ensures k == QUESTIONS ==> Meta(k, v) !in ps
      ensures k != SUMMARY && k != QUESTIONS ==> (Meta(k, v) in ps <==> Gives(properties, k, v))
    {
      WrittenMembers(properties, summary, ps, k, v);
    }
    assert Meta(SUMMARY, summary) in ps;
  }

  /** A sidecar within the reader's limits: distinct own keys, a questions property, keys of at most
      1024 and values of at most 16 Mi characters as printed, and questions its parser takes. */
  ghost predicate WithinLimits<Q>(cfg: Config<Q>, properties: seq<(Text, Option<Json>)>, questions: seq<Json>,
                                  summary: Json, xs: seq<Q>)
  {
    && DistinctProperties(properties) && HasKey(properties, QUESTIONS)
    && (forall k, v :: Gives(properties, k, v) ==> |Quote(k)| <= 1024 && |Print(v)| <= 16 * 1024 * 1024)
    && |Print(summary)| <= 16 * 1024 * 1024
    && QuestionsParse(cfg, questions, 0, xs)
  }

  ghost predicate Plain(t: Text)
  {
    forall i :: 0 <= i < |t| ==> 93 <= t[i] < 128
  }

  lemma FixedKeysPlain()
    ensures Plain(SUMMARY) && Plain(QUESTIONS)
  {
  }

  lemma PlainFits(t: Text)
    requires Plain(t) && |t| <= 1000
    ensures |Quote(t)| <= 1024
  {
    PlainEscapes(t);
    hide EscapeAll;
  }

  lemma FixedKeysFit()
    ensures |Quote(SUMMARY)| <= 1024 && |Quote(QUESTIONS)| <= 1024
  {
    hide Plain, Quote;
    FixedKeysPlain();
    PlainFits(SUMMARY);
    PlainFits(QUESTIONS);
  }

  lemma {:induction false} PlainEscapes(t: Text)
    requires Plain(t)
    ensures |EscapeAll(t)| == |t|
    decreases |t|
  {
    if t != [] {
      assert !HighSurrogate(t[0]) && |Escape(t[0])| == 1;
      PlainEscapes(t[1..]);
    }
  }

  lemma PropsFit<Q>(cfg: Config<Q>, properties: seq<(Text, Option<Json>)>, questions: seq<Json>, summary: Json,
                    xs: seq<Q>, ps: seq<Prop>, i: nat)
    requires WithinLimits(cfg, properties, questions, summary, xs) && IsRendering(properties, summary, ps) && i < |ps|
    ensures PropFits(ps[i])
  {
    hide QuestionsParse, Print, Quote, IsRendering, Gives, DistinctProperties, HasKey;
    FixedKeysFit();
    if ps[i].Meta? {
      assert ps[i] in ps;
      WrittenMembers(properties, summary, ps, ps[i].key, ps[i].value);
    }
  }

  lemma StartReadable<Q>(cfg: Config<Q>, properties: seq<(Text, Option<Json>)>, questions: seq<Json>, summary: Json,
                         xs: seq<Q>)
    requires WithinLimits(cfg, properties, questions, summary, xs)
    ensures var ps := Written(properties, summary);
      ps != [] && DistinctKeys(ps) && Questions in ps && Readable(cfg, Initial().(state := KeyOrEnd), ps, questions, xs)
  {
    hide Written, QuestionsParse, Print, Quote, MetaMap, HasKey, PropFits, IsRendering, Gives;
    WrittenDistinct(properties, summary);
    WrittenIsRendering(properties, summary);
    var ps := Written(properties, summary);
    forall i | 0 <= i < |ps|
      ensures PropFits(ps[i])
    {
      PropsFit(cfg, properties, questions, summary, xs, ps, i);
    }
  }

  /** The rendered text leads the reader through all its properties to the end. */
  lemma TextReads<Q>(cfg: Config<Q>, ps: seq<Prop>, questions: seq<Json>, xs: seq<Q>)
    requires ParseUndoesPrint(cfg) && ps != [] && DistinctKeys(ps)
    requires Readable(cfg, Initial().(state := KeyOrEnd), ps, questions, xs)
    ensures FeedAll(cfg, Going(Initial()), SidecarText(ps, questions)) ==
      Going(AfterAll(cfg, Initial().(state := KeyOrEnd), ps, xs))
  {
    hide ParseUndoesPrint, Feed, FeedAll, Readable, AfterAll, JoinProps, DistinctKeys;
    var r: Reader<Q> := Initial().(state := KeyOrEnd);
    Opens(cfg);
    PropsRead(cfg, r, ps, questions, xs);
    AfterAllMetadata(cfg, r, ps, xs);
    var d := AfterAll(cfg, r, ps, xs);
    TrailingNewline(cfg, d);
    FeedAllOne<Q>(cfg, Initial(), OPEN_BRACE);
    FeedAllOne(cfg, d, NEWLINE);
    var body := JoinProps(ps, questions) + [CLOSE_BRACE];
    FeedAllConcat<Q>(cfg, Going(Initial()), [OPEN_BRACE], body);
    FeedAllConcat<Q>(cfg, Going(Initial()), [OPEN_BRACE] + body, [NEWLINE]);
    assert SidecarText(ps, questions) == [OPEN_BRACE] + body + [NEWLINE];
  }

  /** What a reader has made of a sidecar at its end. With the expected schema version that is a
      document with the sidecar's metadata and the questions, which wait to be taken instead when it
      streams them; with another version, or none, it is a refusal. */
  ghost predicate Reads<Q>(cfg: Config<Q>, p: Progress<Q>, properties: seq<(Text, Option<Json>)>, summary: Json,
                           xs: seq<Q>)
  {
    && p.Going? && p.reader.pending == (if cfg.streamQuestions then xs else [])
    && var document := Finish(cfg, p);
    && (document.Some? <==> Gives(properties, SCHEMA_VERSION, cfg.expectedVersion))
    && (document.Some? ==> (
      && IsMetadata(properties, summary, document.value.metadata)
      && document.value.questions == if cfg.streamQuestions then [] else xs))
  }

  lemma AllDocument<Q>(cfg: Config<Q>, properties: seq<(Text, Option<Json>)>, summary: Json, ps: seq<Prop>, xs: seq<Q>)
    requires ps != [] && DistinctKeys(ps) && Questions in ps && IsRendering(properties, summary, ps)
    ensures Reads(cfg, Going(AfterAll(cfg, Initial().(state := KeyOrEnd), ps, xs)), properties, summary, xs)
  {
    hide AfterAll, DistinctKeys, MetaMap, IsRendering, IsMetadata, Gives;
    var r: Reader<Q> := Initial().(state := KeyOrEnd);
    AfterAllMetadata(cfg, r, ps, xs);
    AfterAllQuestions(cfg, r, ps, xs);
    assert [] + xs == xs && map[] + MetaMap(ps) == MetaMap(ps);
    RenderingMetadata(properties, summary, ps);
    SummaryKept(properties, summary, MetaMap(ps));
  }

  /** The round trip, for every way of cutting the rendered text into chunks. */
  lemma RoundTrip<Q>(cfg: Config<Q>, properties: seq<(Text, Option<Json>)>, questions: seq<Json>, summary: Json,
                     xs: seq<Q>, chunks: seq<Text>)
    requires ParseUndoesPrint(cfg) && WithinLimits(cfg, properties, questions, summary, xs)
    requires Concat(chunks) == SidecarText(Written(properties, summary), questions)
    ensures Reads(cfg, FeedChunks(cfg, Going(Initial()), chunks), properties, summary, xs)
  {
    hide ParseUndoesPrint, Feed, FeedAll, FeedChunks, Readable, Written, Print, Quote, MetaMap, AfterAll, HasKey,
      QuestionsParse, JoinProps, Concat, DistinctKeys, Finish, SidecarText, Reads, IsRendering, Gives;
    var ps := Written(properties, summary);
    StartReadable(cfg, properties, questions, summary, xs);
    WrittenIsRendering(properties, summary);
    TextReads(cfg, ps, questions, xs);
    AllDocument(cfg, properties, summary, ps, xs);
    ChunksAreOneText<Q>(cfg, Going(Initial()), chunks);
  }

  /** The round trip of a streaming reader whose questions are taken after every chunk: together
      the batches are the questions, in order, and nothing waits at the end. */
  lemma RoundTripStreamed<Q>(cfg: Config<Q>, properties: seq<(Text, Option<Json>)>, questions: seq<Json>, summary: Json,
                             xs: seq<Q>, chunks: seq<Text>)
    requires ParseUndoesPrint(cfg) && WithinLimits(cfg, properties, questions, summary, xs) && cfg.streamQuestions
    requires Concat(chunks) == SidecarText(Written(properties, summary), questions)
    ensures var (rest, taken) := FeedAndTake(cfg, Going(Initial()), chunks); var document := Finish(cfg, rest);
      && taken == xs && rest.Going? && rest.reader.pending == []
      && (document.Some? <==> Gives(properties, SCHEMA_VERSION, cfg.expectedVersion))
      && (document.Some? ==> IsMetadata(properties, summary, document.value.metadata) && document.value.questions == [])
  {
    hide ParseUndoesPrint, FeedChunks, Written, Concat, SidecarText, WithinLimits, FeedAndTake, IsMetadata, Gives;
    RoundTrip(cfg, properties, questions, summary, xs, chunks);
    TakingIsHarmless(cfg, Going(Initial()), chunks);
    NothingWaits(cfg, Initial(), chunks);
    var (rest, taken) := FeedAndTake(cfg, Going(Initial()), chunks);
    assert taken + [] == taken;
  }

  lemma {:induction false} NothingWaits<Q>(cfg: Config<Q>, r: Reader<Q>, chunks: seq<Text>)
    requires r.pending == []
    ensures var rest := FeedAndTake(cfg, Going(r), chunks).0; rest.Going? ==> rest.reader.pending == []
    decreases |chunks|
  {
    hide FeedAll;
    if chunks != [] {
      var q := FeedAll(cfg, Going(r), chunks[0]);
      if q.Going? { NothingWaits(cfg, q.reader.(pending := []), chunks[1..]); }
    }
  }

  /** The round trip with a parser at hand: nothing is left to assume of it. */
  lemma RoundTripParsed<Q>(cfg: Config<Q>, properties: seq<(Text, Option<Json>)>, questions: seq<Json>, summary: Json,
                           xs: seq<Q>, chunks: seq<Text>)
    requires (forall t :: cfg.parse(t) == Parse(t)) && WithinLimits(cfg, properties, questions, summary, xs)
    requires Concat(chunks) == SidecarText(Written(properties, summary), questions)
    ensures Reads(cfg, FeedChunks(cfg, Going(Initial()), chunks), properties, summary, xs)
  {
    hide Parse, Feed, FeedAll, FeedChunks, Written, Print, Quote, Concat, Finish, SidecarText, WithinLimits, Reads;
    forall v: Json
      ensures cfg.parse(Print(v)) == Some(v)
    {
      ParsePrint(v);
    }
    RoundTrip(cfg, properties, questions, summary, xs, chunks);
  }
}
