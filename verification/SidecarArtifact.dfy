/** The sidecar writer, and the round trip through the streaming reader. */
module SidecarArtifact {
  import opened Options
  import opened Keys
  import opened Json
  import opened JsonReader
  import opened JsonScan

  /** "miss_taxonomy_summary". */
  const SUMMARY: Text := [109, 105, 115, 115, 95, 116, 97, 120, 111, 110, 111, 109, 121, 95, 115, 117, 109, 109, 97,
    114, 121]

  const NEWLINE: CodeUnit := 10

  // ---------- what is written ----------

  datatype Prop = Meta(key: Text, value: Json) | Questions

  function KeyOf(p: Prop): Text
  {
    if p.Questions? then QUESTIONS else p.key
  }

  /** What the writer makes of one own property of the sidecar; an undefined value is skipped. */
  function Entry(property: (Text, Option<Json>), summary: Json): Option<Prop>
  {
    if property.0 == QUESTIONS then Some(Questions)
    else if property.0 == SUMMARY then Some(Meta(SUMMARY, summary))
    else if property.1.None? then None
    else Some(Meta(property.0, property.1.value))
  }

  ghost function Entries(properties: seq<(Text, Option<Json>)>, summary: Json): seq<Prop>
  {
    if properties == [] then []
    else
      var prior := Entries(properties[..|properties| - 1], summary);
      var e := Entry(properties[|properties| - 1], summary);
      if e.Some? then prior + [e.value] else prior
  }

  /** What one own property is written as: the questions, the summary whatever was given for it, or the
      value given. */
  ghost predicate IsWritten(property: (Text, Option<Json>))
  {
    property.0 == QUESTIONS || property.0 == SUMMARY || property.1.Some?
  }

  ghost predicate WrittenAs(property: (Text, Option<Json>), summary: Json, p: Prop)
  {
    if property.0 == QUESTIONS then p == Questions
    else if property.0 == SUMMARY then p == Meta(SUMMARY, summary)
    else p.Meta? && p.key == property.0 && Some(p.value) == property.1
  }

  /** `ps` are, in order, exactly the written ones of the properties; `places` are their indices. */
  ghost predicate WrittenAt(properties: seq<(Text, Option<Json>)>, summary: Json, ps: seq<Prop>, places: seq<int>)
  {
    && |places| == |ps|
    && (forall i, j :: 0 <= i < j < |places| ==> places[i] < places[j])
    && (forall j :: 0 <= j < |places| ==>
          0 <= places[j] < |properties| && WrittenAs(properties[places[j]], summary, ps[j]))
    && (forall k :: 0 <= k < |properties| ==> (k in places <==> IsWritten(properties[k])))
  }

  lemma EntryWritten(property: (Text, Option<Json>), summary: Json)
    ensures Entry(property, summary).Some? <==> IsWritten(property)
    ensures Entry(property, summary).Some? ==> WrittenAs(property, summary, Entry(property, summary).value)
  {
  }

  lemma WrittenNext(properties: seq<(Text, Option<Json>)>, summary: Json, ps: seq<Prop>, places: seq<int>,
                    property: (Text, Option<Json>), p: Prop)
    requires WrittenAt(properties, summary, ps, places)
    ensures !IsWritten(property) ==> WrittenAt(properties + [property], summary, ps, places)
    ensures IsWritten(property) && WrittenAs(property, summary, p) ==>
      WrittenAt(properties + [property], summary, ps + [p], places + [|properties|])
  {
    hide IsWritten, WrittenAs;
    var more := properties + [property];
    assert forall k :: 0 <= k < |properties| ==> more[k] == properties[k];
    assert |properties| !in places;
  }

  lemma {:induction false} EntriesAt(properties: seq<(Text, Option<Json>)>, summary: Json) returns (places: seq<int>)
    ensures WrittenAt(properties, summary, Entries(properties, summary), places)
    decreases |properties|
  {
    if properties == [] {
      places := [];
    } else {
      hide WrittenAt, Entry, IsWritten, WrittenAs;
      var rest, last := properties[..|properties| - 1], properties[|properties| - 1];
      places := EntriesAt(rest, summary);
      EntryWritten(last, summary);
      var e := Entry(last, summary);
      assert properties == rest + [last];
      WrittenNext(rest, summary, Entries(rest, summary), places, last, if e.Some? then e.value else Questions);
      if e.Some? { places := places + [|rest|]; }
    }
  }

  /** The rendered object's properties, read off the sidecar: its written ones in order, and the
      summary at the end if it has none. */
  ghost predicate IsRendering(properties: seq<(Text, Option<Json>)>, summary: Json, ps: seq<Prop>)
  {
    exists own, places ::
      && WrittenAt(properties, summary, own, places)
      && ps == own + if HasKey(properties, SUMMARY) then [] else [Meta(SUMMARY, summary)]
  }

  lemma WrittenIsRendering(properties: seq<(Text, Option<Json>)>, summary: Json)
    ensures IsRendering(properties, summary, Written(properties, summary))
  {
    hide WrittenAt, HasKey, Entries;
    var places := EntriesAt(properties, summary);
  }

  ghost predicate HasKey(properties: seq<(Text, Option<Json>)>, key: Text)
  {
    exists i :: 0 <= i < |properties| && properties[i].0 == key
  }

  /** The properties in the written object: the sidecar's own, and the summary if it had none. */
  ghost function Written(properties: seq<(Text, Option<Json>)>, summary: Json): seq<Prop>
  {
    Entries(properties, summary) + if HasKey(properties, SUMMARY) then [] else [Meta(SUMMARY, summary)]
  }

  function JoinQuestions(questions: seq<Json>): Text
  {
    if questions == [] then []
    else Print(questions[0]) + if |questions| == 1 then [] else [COMMA] + JoinQuestions(questions[1..])
  }

  function PropText(p: Prop, questions: seq<Json>): Text
  {
    Quote(KeyOf(p)) + [COLON] +
      if p.Questions? then [OPEN_BRACKET] + JoinQuestions(questions) + [CLOSE_BRACKET] else Print(p.value)
  }

  function JoinProps(ps: seq<Prop>, questions: seq<Json>): Text
  {
    if ps == [] then []
    else PropText(ps[0], questions) + if |ps| == 1 then [] else [COMMA] + JoinProps(ps[1..], questions)
  }

  function SidecarText(ps: seq<Prop>, questions: seq<Json>): Text
  {
    [OPEN_BRACE] + JoinProps(ps, questions) + [CLOSE_BRACE, NEWLINE]
  }

  // ---------- the written text is JSON ----------

  ghost function AsItems(questions: seq<Json>): Items
  {
    if questions == [] then NoItems else Item(questions[0], AsItems(questions[1..]))
  }

  /** The object that the properties and questions make. */
  ghost function AsMembers(ps: seq<Prop>, questions: seq<Json>): Members
  {
    if ps == [] then NoMembers
    else
      Member(KeyOf(ps[0]), if ps[0].Questions? then Arr(AsItems(questions))
        else ps[0].value, AsMembers(ps[1..], questions))
  }

  lemma {:induction false} QuestionsAreItems(questions: seq<Json>)
    ensures JoinQuestions(questions) == PrintItems(AsItems(questions))
    decreases |questions|
  {
    hide Print;
    if questions != [] {
      QuestionsAreItems(questions[1..]);
      assert |questions| == 1 ==> questions[1..] == [];
    }
  }

  lemma PropIsMember(p: Prop, questions: seq<Json>)
    ensures PropText(p, questions) ==
      Quote(KeyOf(p)) + [COLON] + Print(if p.Questions? then Arr(AsItems(questions)) else p.value)
  {
    hide JoinQuestions, PrintItems, Quote, AsItems;
    QuestionsAreItems(questions);
  }

  lemma {:induction false} PropsAreMembers(ps: seq<Prop>, questions: seq<Json>)
    ensures JoinProps(ps, questions) == PrintMembers(AsMembers(ps, questions))
    decreases |ps|
  {
    hide Print, PropText, Quote;
    if ps != [] {
      PropsAreMembers(ps[1..], questions);
      PropIsMember(ps[0], questions);
      assert |ps| == 1 ==> ps[1..] == [];
    }
  }

  /** What is written is the compact form of one JSON object, and a newline. */
  lemma TextIsJson(ps: seq<Prop>, questions: seq<Json>)
    ensures SidecarText(ps, questions) == Print(Obj(AsMembers(ps, questions))) + [NEWLINE]
  {
    hide JoinProps, PrintMembers, AsMembers;
    PropsAreMembers(ps, questions);
  }

  // ---------- the writer ----------

  lemma {:induction false} ConcatSnoc(chunks: seq<Text>, t: Text)
    ensures Concat(chunks + [t]) == Concat(chunks) + t
  {
    if chunks == [] {
      assert chunks + [t] == [t] && [t][1..] == [];
      assert Concat([t]) == t + Concat([]);
    } else {
      ConcatSnoc(chunks[1..], t);
      assert (chunks + [t])[1..] == chunks[1..] + [t];
    }
  }

  lemma Regroup(first: Text, comma: Text, rest: Text, more: Text, last: Text)
    ensures first + (comma + (rest + more + last)) == first + (comma + rest) + more + last
  {
  }

  lemma QuestionsUnfold(qs: seq<Json>)
    requires qs != []
    ensures JoinQuestions(qs) == Print(qs[0]) + if |qs| == 1 then [] else [COMMA] + JoinQuestions(qs[1..])
  {
    hide Print;
  }

  lemma {:induction false} JoinQuestionsSnoc(qs: seq<Json>, q: Json)
    ensures JoinQuestions(qs + [q]) == JoinQuestions(qs) + (if qs == [] then [] else [COMMA]) + Print(q)
    decreases |qs|
  {
    hide Print;
    QuestionsUnfold(qs + [q]);
    if qs == [] {
      assert qs + [q] == [q];
    } else {
      var rest := qs[1..];
      JoinQuestionsSnoc(rest, q);
      QuestionsUnfold(qs);
      assert (qs + [q])[1..] == rest + [q];
      if |qs| == 1 { assert rest == []; }
      hide JoinQuestions;
      if |qs| > 1 { Regroup(Print(qs[0]), [COMMA], JoinQuestions(rest), [COMMA], Print(q)); }
    }
  }

  lemma PropsUnfold(ps: seq<Prop>, questions: seq<Json>)
    requires ps != []
    ensures JoinProps(ps, questions) ==
      PropText(ps[0], questions) + if |ps| == 1 then [] else [COMMA] + JoinProps(ps[1..], questions)
  {
    hide PropText;
  }

  lemma {:induction false} JoinPropsSnoc(ps: seq<Prop>, p: Prop, questions: seq<Json>)
    ensures JoinProps(ps + [p], questions) ==
      JoinProps(ps, questions) + (if ps == [] then [] else [COMMA]) + PropText(p, questions)
    decreases |ps|
  {
    hide PropText;
    PropsUnfold(ps + [p], questions);
    if ps == [] {
      assert ps + [p] == [p];
    } else {
      var rest := ps[1..];
      JoinPropsSnoc(rest, p, questions);
      PropsUnfold(ps, questions);
      assert (ps + [p])[1..] == rest + [p];
      if |ps| == 1 { assert rest == []; }
      hide JoinProps;
      if |ps| > 1 {
        Regroup(PropText(ps[0], questions), [COMMA], JoinProps(rest, questions), [COMMA], PropText(p, questions));
      }
    }
  }

  lemma QuestionsText(questions: seq<Json>)
    ensures PropText(Questions, questions) ==
      (Quote(QUESTIONS) + [COLON, OPEN_BRACKET]) + JoinQuestions(questions) + [CLOSE_BRACKET]
  {
    hide Quote, JoinQuestions;
    assert [COLON, OPEN_BRACKET] == [COLON] + [OPEN_BRACKET];
  }

  lemma ConcatTwo(chunks: seq<Text>, a: Text, b: Text)
    ensures Concat(chunks + [a] + [b]) == Concat(chunks) + a + b
  {
    hide Concat;
    ConcatSnoc(chunks, a);
    ConcatSnoc(chunks + [a], b);
  }

  /** The question loop of `renderQuestionsProperty`. */
  method RenderItems(chunks0: seq<Text>, questions: seq<Json>) returns (chunks: seq<Text>)
    ensures Concat(chunks) == Concat(chunks0) + JoinQuestions(questions)
  {
    hide Print, Concat, JoinQuestions;
    chunks := chunks0;
    var first := true;
    NoQuestions();
    for i := 0 to |questions|
      invariant first <==> i == 0
      invariant Concat(chunks) == Concat(chunks0) + JoinQuestions(questions[..i])
    {
      var comma := if first then [] else [COMMA];
      ConcatTwo(chunks, comma, Print(questions[i]));
      JoinQuestionsSnoc(questions[..i], questions[i]);
      assert questions[..i + 1] == questions[..i] + [questions[i]];
      chunks := chunks + [comma] + [Print(questions[i])];
      first := false;
    }
    assert questions[..|questions|] == questions;
  }

  lemma NoQuestions()
    ensures JoinQuestions([]) == []
  {
  }

  /** `renderQuestionsProperty`, with its chunks appended to those written before. */
  method RenderQuestions(chunks0: seq<Text>, questions: seq<Json>) returns (chunks: seq<Text>)
    ensures Concat(chunks) == Concat(chunks0) + PropText(Questions, questions)
  {
    hide Quote, Concat, JoinQuestions, PropText;
    var head := Quote(QUESTIONS) + [COLON, OPEN_BRACKET];
    ConcatSnoc(chunks0, head);
    chunks := RenderItems(chunks0 + [head], questions);
    ConcatSnoc(chunks, [CLOSE_BRACKET]);
    chunks := chunks + [[CLOSE_BRACKET]];
    QuestionsText(questions);
  }

  /** An open brace and the properties `done` are written. */
  ghost predicate WrittenSoFar(chunks: seq<Text>, wroteProperty: bool, done: seq<Prop>, questions: seq<Json>)
  {
    Concat(chunks) == [OPEN_BRACE] + JoinProps(done, questions) && (wroteProperty <==> done != [])
  }

  method AddProp(chunks0: seq<Text>, wroteProperty: bool, p: Prop, questions: seq<Json>, ghost done: seq<Prop>)
    returns (chunks: seq<Text>)
    requires WrittenSoFar(chunks0, wroteProperty, done, questions)
    ensures WrittenSoFar(chunks, true, done + [p], questions)
  {
    hide PropText, JoinProps, Concat;
    JoinPropsSnoc(done, p, questions);
    chunks := WriteProp(chunks0, wroteProperty, p, questions);
  }

  lemma EntriesNext(properties: seq<(Text, Option<Json>)>, i: nat, summary: Json)
    requires i < |properties|
    ensures var e := Entry(properties[i], summary); var done := Entries(properties[..i], summary);
      Entries(properties[..i + 1], summary) == if e.Some? then done + [e.value] else done
  {
    hide Entry;
    assert properties[..i + 1][..i] == properties[..i];
  }

  /** `renderSidecarChunks`; `questions` are the normalised question objects. */
  method RenderSidecar(properties: seq<(Text, Option<Json>)>, questions: seq<Json>, summary: Json)
    returns (chunks: seq<Text>)
    ensures Concat(chunks) == SidecarText(Written(properties, summary), questions)
    ensures exists ps ::
      IsRendering(properties, summary, ps) && Concat(chunks) == Print(Obj(AsMembers(ps, questions))) + [NEWLINE]
  {
    hide Entry, Entries, HasKey, WrittenSoFar, Concat, SidecarText, IsRendering, Print, AsMembers;
    WrittenIsRendering(properties, summary);
    TextIsJson(Written(properties, summary), questions);
    var wroteProperty, wroteSummary := false, false;
    chunks := [[OPEN_BRACE]];
    NothingWritten(properties, questions, summary);
    for i := 0 to |properties|
      invariant WrittenSoFar(chunks, wroteProperty, Entries(properties[..i], summary), questions)
      invariant wroteSummary <==> HasKey(properties[..i], SUMMARY)
    {
      var (key, given) := properties[i];
      EntriesNext(properties, i, summary);
      HasKeyNext(properties, i, SUMMARY);
      if key == SUMMARY { wroteSummary := true; }
      var entry := Entry(properties[i], summary);
      if entry.Some? {
        chunks := AddProp(chunks, wroteProperty, entry.value, questions, Entries(properties[..i], summary));
        wroteProperty := true;
      }
    }
    assert properties[..|properties|] == properties;
    ghost var done := Entries(properties, summary);
    assert done + [] == done;
    if !wroteSummary {
      chunks := AddProp(chunks, wroteProperty, Meta(SUMMARY, summary), questions, done);
      wroteProperty := true;
    }
    ClosingText(chunks, wroteProperty, Written(properties, summary), questions);
    chunks := chunks + [[CLOSE_BRACE, NEWLINE]];
  }

  lemma NothingWritten(properties: seq<(Text, Option<Json>)>, questions: seq<Json>, summary: Json)
    ensures WrittenSoFar([[OPEN_BRACE]], false, Entries(properties[..0], summary), questions)
    ensures !HasKey(properties[..0], SUMMARY)
  {
    ConcatOne([OPEN_BRACE]);
    NothingJoined(questions);
    hide JoinProps, Concat;
    assert [OPEN_BRACE] + [] == [OPEN_BRACE];
  }

  lemma ClosingText(chunks: seq<Text>, wroteProperty: bool, ps: seq<Prop>, questions: seq<Json>)
    requires WrittenSoFar(chunks, wroteProperty, ps, questions)
    ensures Concat(chunks + [[CLOSE_BRACE, NEWLINE]]) == SidecarText(ps, questions)
  {
    hide JoinProps, Concat;
    ConcatSnoc(chunks, [CLOSE_BRACE, NEWLINE]);
  }

  lemma ConcatOne(t: Text)
    ensures Concat([t]) == t
  {
    assert [t][1..] == [];
  }

  lemma NothingJoined(questions: seq<Json>)
    ensures JoinProps([], questions) == []
  {
  }

  lemma HasKeyNext(properties: seq<(Text, Option<Json>)>, i: nat, key: Text)
    requires i < |properties|
    ensures HasKey(properties[..i + 1], key) <==> HasKey(properties[..i], key) || properties[i].0 == key
  {
    var more, less := properties[..i + 1], properties[..i];
    if HasKey(less, key) {
      var j :| 0 <= j < |less| && less[j].0 == key;
      assert more[j].0 == key;
    }
    if properties[i].0 == key { assert more[i].0 == key; }
    if HasKey(more, key) {
      var j :| 0 <= j < |more| && more[j].0 == key;
      if j < i { assert less[j].0 == key; }
    }
  }

  method WriteProp(chunks0: seq<Text>, wroteProperty: bool, p: Prop, questions: seq<Json>) returns (chunks: seq<Text>)
    ensures Concat(chunks) == Concat(chunks0) + (if wroteProperty then [COMMA] else []) + PropText(p, questions)
  {
    hide Print, Quote, Concat;
    var comma := if wroteProperty then [COMMA] else [];
    ConcatSnoc(chunks0, comma);
    chunks := chunks0 + [comma];
    if p.Questions? {
      chunks := RenderQuestions(chunks, questions);
    } else {
      var text := Quote(p.key) + [COLON] + Print(p.value);
      ConcatSnoc(chunks, text);
      chunks := chunks + [text];
    }
  }

  // ---------- reading it back ----------

  /** `JSON.parse` undoes `JSON.stringify`. */
  ghost predicate ParseUndoesPrint<Q>(cfg: Config<Q>)
  {
    forall v: Json :: cfg.parse(Print(v)) == Some(v)
  }

  /** In a key: text the scanner passes over is kept in `keyRaw`. */
  lemma {:induction false} KeyRun<Q>(cfg: Config<Q>, r: Reader<Q>, t: Text, e: Scan)
    requires r.state.InKey? && r.scan.Some? && Passes(r.scan.value, t, e) && |r.keyRaw| + |t| <= MAX_KEY_CHARS
    ensures FeedAll(cfg, Going(r), t) == Going(r.(scan := Some(e), keyRaw := r.keyRaw + t))
    decreases |t|
  {
    hide AcceptChar;
    if t == [] {
      assert r.keyRaw + t == r.keyRaw;
    } else {
      var mid := r.(scan := AcceptChar(r.scan.value, t[0]), keyRaw := r.keyRaw + [t[0]]);
      KeyOne(cfg, r, t[0]);
      hide Feed;
      KeyRun(cfg, mid, t[1..], e);
      assert r.keyRaw + [t[0]] + t[1..] == r.keyRaw + t;
    }
  }

  lemma KeyOne<Q>(cfg: Config<Q>, r: Reader<Q>, c: CodeUnit)
    requires r.state.InKey? && r.scan.Some? && |r.keyRaw| < MAX_KEY_CHARS
    requires var next := AcceptChar(r.scan.value, c); next.Some? && !next.value.complete
    ensures Feed(cfg, r, c) == Going(r.(scan := AcceptChar(r.scan.value, c), keyRaw := r.keyRaw + [c]))
  {
    hide AcceptChar;
  }

  predicate KeyFree<Q>(r: Reader<Q>, k: Text)
  {
    k !in r.metadata && !(k == QUESTIONS && r.questionsSeen)
  }

  lemma KeyClose<Q>(cfg: Config<Q>, r: Reader<Q>, k: Text)
    requires ParseUndoesPrint(cfg) && KeyFree(r, k)
    requires r.state.InKey? && r.scan == Some(Inside(0)) && r.keyRaw + [QUOTE] == Quote(k) &&
      |Quote(k)| <= MAX_KEY_CHARS
    ensures Feed(cfg, r, QUOTE) == Going(r.(keyRaw := Quote(k), key := k, scan := None, state := AtColon))
  {
    hide EscapeAll;
    assert cfg.parse(Print(Str(k))) == Some(Str(k));
    assert Print(Str(k)) == Quote(k);
  }

  ghost function AfterKey<Q>(r: Reader<Q>, k: Text): Reader<Q>
  {
    r.(state := ValueStart, key := k, keyRaw := Quote(k), scan := None)
  }

  /** A printed key and its colon. */
  lemma KeyReads<Q>(cfg: Config<Q>, r: Reader<Q>, k: Text)
    requires ParseUndoesPrint(cfg) && KeyFree(r, k) && r.state.KeyOrEnd? && |Quote(k)| <= MAX_KEY_CHARS
    ensures FeedAll(cfg, Going(r), Quote(k) + [COLON]) == Going(AfterKey(r, k))
  {
    var body := EscapeAll(k);
    var open := r.(keyRaw := [QUOTE], scan := Some(Inside(0)), state := InKey);
    var full := open.(keyRaw := [QUOTE] + body);
    var named := full.(keyRaw := Quote(k), key := k, scan := None, state := AtColon);
    KeyOpens(cfg, r);
    PassesEscapeAll(0, k);
    hide Passes, EscapeAll, ParseUndoesPrint, Feed, FeedAll;
    KeyRun(cfg, open, body, Inside(0));
    KeyClose(cfg, full, k);
    ColonReads(cfg, named);
    FeedAllOne(cfg, r, QUOTE);
    FeedAllOne(cfg, full, QUOTE);
    FeedAllOne(cfg, named, COLON);
    FeedAllConcat(cfg, Going(r), [QUOTE], body);
    FeedAllConcat(cfg, Going(r), [QUOTE] + body, [QUOTE]);
    FeedAllConcat(cfg, Going(r), Quote(k), [COLON]);
  }

  lemma KeyCloseRefused<Q>(cfg: Config<Q>, r: Reader<Q>, k: Text)
    requires ParseUndoesPrint(cfg) && !KeyFree(r, k)
    requires r.state.InKey? && r.scan == Some(Inside(0)) && r.keyRaw + [QUOTE] == Quote(k)
    ensures Feed(cfg, r, QUOTE) == Failed
  {
    hide EscapeAll;
    assert cfg.parse(Print(Str(k))) == Some(Str(k));
    assert Print(Str(k)) == Quote(k);
  }

  /** A key that was read before is refused at its closing quote, whatever follows. */
  lemma DuplicateKeyRefused<Q>(cfg: Config<Q>, r: Reader<Q>, k: Text, more: Text)
    requires ParseUndoesPrint(cfg) && r.state.KeyOrEnd? && |Quote(k)| <= MAX_KEY_CHARS
    requires k in r.metadata || (k == QUESTIONS && r.questionsSeen)
    ensures FeedAll(cfg, Going(r), Quote(k) + more) == Failed
  {
    var body := EscapeAll(k);
    var open := r.(keyRaw := [QUOTE], scan := Some(Inside(0)), state := InKey);
    var full := open.(keyRaw := [QUOTE] + body);
    KeyOpens(cfg, r);
    PassesEscapeAll(0, k);
    FailedStays(cfg, more);
    hide Passes, EscapeAll, ParseUndoesPrint, Feed, FeedAll;
    KeyRun(cfg, open, body, Inside(0));
    KeyCloseRefused(cfg, full, k);
    FeedAllOne(cfg, r, QUOTE);
    FeedAllOne(cfg, full, QUOTE);
    FeedAllConcat(cfg, Going(r), [QUOTE], body);
    FeedAllConcat(cfg, Going(r), [QUOTE] + body, [QUOTE]);
    FeedAllConcat(cfg, Going(r), Quote(k), more);
  }

  lemma KeyOpens<Q>(cfg: Config<Q>, r: Reader<Q>)
    requires r.state.KeyOrEnd?
    ensures Feed(cfg, r, QUOTE) == Going(r.(keyRaw := [QUOTE], scan := Some(Inside(0)), state := InKey))
  {
  }

  lemma ColonReads<Q>(cfg: Config<Q>, r: Reader<Q>)
    requires r.state.AtColon?
    ensures Feed(cfg, r, COLON) == Going(r.(state := ValueStart))
  {
  }

  lemma ValueStarts<Q>(cfg: Config<Q>, r: Reader<Q>, c: CodeUnit)
    requires r.state.ValueStart? && r.key != QUESTIONS && r.buffer == [] && !IsWhitespace(c)
    ensures Feed(cfg, r, c) == Going(r.(scan := Some(StartScan(c)), state := MetadataValue, buffer := [c]))
  {
    hide StartScan;
    StartsOpen(c);
  }

  lemma StoresMetadata<Q>(cfg: Config<Q>, r: Reader<Q>, v: Json)
    requires ParseUndoesPrint(cfg) && r.state.MetadataValue? && r.buffer == Print(v)
    ensures FinishValue(cfg, r) ==
      Some(r.(buffer := [], scan := None, metadata := r.metadata[r.key := v], state := AfterValue))
  {
    LastNotTrimmed(v);
    TrimEndKeeps(Print(v));
    hide Print, TrimEnd;
  }

  lemma LastNotTrimmed(v: Json)
    ensures |Print(v)| > 0 && !IsTrimmed(Print(v)[|Print(v)| - 1]) && !IsWhitespace(Print(v)[0])
  {
    if IsScalar(v) { ScalarInert(v); }
  }

  /** Metadata values are read from this state on. */
  ghost predicate AtMetadata<Q>(r: Reader<Q>)
  {
    r.state.ValueStart? && r.key != QUESTIONS && r.buffer == [] && r.scan.None?
  }

  /** The first character of a printed value starts its capture. */
  lemma ValueBegins<Q>(cfg: Config<Q>, r: Reader<Q>, v: Json)
    requires ParseUndoesPrint(cfg) && AtMetadata(r)
    ensures var text := Print(v);
      && |text| > 0
      && var begun := r.(scan := Some(StartScan(text[0])), state := MetadataValue, buffer := [text[0]]);
      && FeedAll(cfg, Going(r), [text[0]]) == Going(begun)
      && FinishValue(cfg, begun.(buffer := text)) == Some(r.(metadata := r.metadata[r.key := v], state := AfterValue))
  {
    var text := Print(v);
    LastNotTrimmed(v);
    hide Print, ParseUndoesPrint, Feed, FeedAll, FinishValue, StartScan, IsTrimmed;
    ValueStarts(cfg, r, text[0]);
    FeedAllOne(cfg, r, text[0]);
    StoresMetadata(cfg, r.(scan := Some(StartScan(text[0])), state := MetadataValue, buffer := text), v);
  }

  lemma ScalarStarts(v: Json)
    requires IsScalar(v)
    ensures |Print(v)| > 0 && StartScan(Print(v)[0]) == Level(0)
  {
    ScalarInert(v);
    hide Print;
  }

  lemma ScalarValueReads<Q>(cfg: Config<Q>, r: Reader<Q>, v: Json, c: CodeUnit)
    requires IsScalar(v) && ParseUndoesPrint(cfg) && AtMetadata(r)
    requires |Print(v)| <= MAX_METADATA_CHARS && (c == COMMA || c == CLOSE_BRACE)
    ensures FeedAll(cfg, Going(r), Print(v) + [c]) ==
      Feed(cfg, r.(metadata := r.metadata[r.key := v], state := AfterValue), c)
  {
    hide Print, ParseUndoesPrint, Feed, FeedAll, FinishValue, StartScan, IsScalar;
    ScalarStarts(v);
    ValueBegins(cfg, r, v);
    var text := Print(v);
    ScalarReads(cfg, r.(scan := Some(Level(0)), state := MetadataValue, buffer := [text[0]]), v, c);
    FeedAllConcat(cfg, Going(r), [text[0]], text[1..] + [c]);
    assert [text[0]] + (text[1..] + [c]) == text + [c];
  }

  lemma DelimitedValueReads<Q>(cfg: Config<Q>, r: Reader<Q>, v: Json, c: CodeUnit)
    requires !IsScalar(v) && ParseUndoesPrint(cfg) && AtMetadata(r) && |Print(v)| <= MAX_METADATA_CHARS
    ensures FeedAll(cfg, Going(r), Print(v) + [c]) ==
      Feed(cfg, r.(metadata := r.metadata[r.key := v], state := AfterValue), c)
  {
    hide Print, ParseUndoesPrint, Feed, FeedAll, FinishValue, StartScan, IsScalar;
    ValueBegins(cfg, r, v);
    var text := Print(v);
    var begun := r.(scan := Some(StartScan(text[0])), state := MetadataValue, buffer := [text[0]]);
    DelimitedReads(cfg, begun, v);
    FeedAllConcat(cfg, Going(r), [text[0]], text[1..]);
    assert [text[0]] + text[1..] == text;
    FeedAllConcat(cfg, Going(r), text, [c]);
    FeedAllOne(cfg, r.(metadata := r.metadata[r.key := v], state := AfterValue), c);
  }

  /** A printed metadata value followed by a delimiter is stored, and the delimiter is then read
      after the value. */
  lemma ValueReads<Q>(cfg: Config<Q>, r: Reader<Q>, v: Json, c: CodeUnit)
    requires ParseUndoesPrint(cfg) && AtMetadata(r)
    requires |Print(v)| <= MAX_METADATA_CHARS && (c == COMMA || c == CLOSE_BRACE)
    ensures FeedAll(cfg, Going(r), Print(v) + [c]) ==
      Feed(cfg, r.(metadata := r.metadata[r.key := v], state := AfterValue), c)
  {
    hide Print, ParseUndoesPrint, Feed, FeedAll, IsScalar;
    if IsScalar(v) { ScalarValueReads(cfg, r, v, c); } else { DelimitedValueReads(cfg, r, v, c); }
  }

  /** White space between a scalar and its delimiter is no part of the value. */
  lemma SpacedScalarReads<Q>(cfg: Config<Q>, r: Reader<Q>, v: Json, space: Text, c: CodeUnit)
    requires IsScalar(v) && ParseUndoesPrint(cfg) && AtMetadata(r)
    requires forall i :: 0 <= i < |space| ==> space[i] in {32, 10, 13, 9}
    requires |Print(v) + space| <= MAX_METADATA_CHARS && (c == COMMA || c == CLOSE_BRACE)
    ensures FeedAll(cfg, Going(r), Print(v) + space + [c]) ==
      Feed(cfg, r.(metadata := r.metadata[r.key := v], state := AfterValue), c)
  {
    var text := Print(v) + space;
    ScalarInert(v);
    ScalarStarts(v);
    LastNotTrimmed(v);
    assert forall i :: 0 <= i < |text| ==> InertUnit(text[i]);
    TrimEndDrops(Print(v), space);
    assert cfg.parse(TrimEnd(text)) == Some(v);
    hide Print, ParseUndoesPrint, Feed, FeedAll, StartScan, IsScalar, TrimEnd, InertUnit;
    ValueBegins(cfg, r, v);
    assert text[0] == Print(v)[0];
    InertReads(cfg, r.(scan := Some(Level(0)), state := MetadataValue, buffer := [text[0]]), text, c);
    FeedAllConcat(cfg, Going(r), [text[0]], text[1..] + [c]);
    assert [text[0]] + (text[1..] + [c]) == text + [c];
  }
}
