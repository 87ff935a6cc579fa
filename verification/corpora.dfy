/** The reader of the NLU-Evaluation corpora (AskUbuntu, Chatbot,
    WebApplications). Their entities give inclusive token indices, which are
    translated to character offsets through the word/punctuation tokens of
    the sentence. The sentence list of a corpus file is a parameter: loading
    the file is not modelled. */
module Corpora {
  import opened Types
  import opened WordPunct
  import opened Utils
  import opened Text

  /** An entity as an NLU-Evaluation corpus annotates it: the indices of its
      first (`start`) and last (`stop`) token, its type and its text. */
  datatype RawEntity = RawEntity(start: int, stop: int, entity: string, text: string)

  /** A sentence of an NLU-Evaluation corpus file. */
  datatype Sentence = Sentence(text: string, intent: string, entities: seq<RawEntity>, training: bool)

  /** Where token `index` of a list of `n` tokens is: Python counts a negative
      index from the end, and an index outside `-n .. n-1` is an error. */
  function TokenPosition(index: int, n: nat): (r: Result<nat>)
    ensures r.Ok? <==> -(n as int) <= index < n
    ensures r.Ok? ==> r.value < n && (r.value == index || r.value == index + n)
    ensures r.Err? ==> r.error == IndexError(index, n)
  {
    if 0 <= index < n then Ok(index)
    else if -(n as int) <= index < 0 then Ok((index + n) as nat)
    else Err(IndexError(index, n))
  }

  /** `convert_index`: the character offset where token `index` starts
      (`start`) or ends (otherwise). */
  function ConvertIndex(text: string, index: int, start: bool): (r: Result<int>)
    ensures var n := |Tokenize(text)|; r.Ok? <==> -(n as int) <= index < n
    ensures r.Err? ==> r.error == IndexError(index, |Tokenize(text)|)
    ensures 0 <= index < |Tokenize(text)| ==>
      r == Ok(if start then Tokenize(text)[index].start else Tokenize(text)[index].end)
  {
    var spans := Tokenize(text);
    var k := TokenPosition(index, |spans|);
    if k.Err? then Err(k.error)
    else Ok(if start then spans[k.value].start else spans[k.value].end)
  }

  /** A converted start offset is where a token begins: a character that is
      not whitespace and does not continue a run of its class. A converted
      end offset is where a token ends. */
  lemma ConvertIndexIsBoundary(text: string, index: int, start: bool)
    requires ConvertIndex(text, index, start).Ok?
    ensures var p := ConvertIndex(text, index, start).value;
      if start then
        && 0 <= p < |text| && Classify(text[p]) != SpaceChar
        && (p == 0 || Classify(text[p - 1]) != Classify(text[p]))
      else
        && 0 < p <= |text| && Classify(text[p - 1]) != SpaceChar
        && (p == |text| || Classify(text[p]) != Classify(text[p - 1]))
  {
    var spans := Tokenize(text);
    TokenizeSound(text);
    var k := TokenPosition(index, |spans|).value;
    assert IsRun(text, spans[k], 0);
  }

  /** `convert_nlu_evaluation_entity`: the start offset of the first token,
      the end offset of the last token, the type and the text. The start
      index is converted first, so its error is the one raised. */
  function ConvertNluEvaluationEntity(text: string, e: RawEntity): (r: Result<Entity>)
    ensures r.Ok? <==> ConvertIndex(text, e.start, true).Ok? && ConvertIndex(text, e.stop, false).Ok?
    ensures ConvertIndex(text, e.start, true).Err? ==> r == Err(ConvertIndex(text, e.start, true).error)
    ensures ConvertIndex(text, e.start, true).Ok? && ConvertIndex(text, e.stop, false).Err? ==>
      r == Err(ConvertIndex(text, e.stop, false).error)
    ensures r.Ok? ==> r.value.entityType == e.entity && r.value.value == e.text
    ensures r.Ok? ==> r.value.start == ConvertIndex(text, e.start, true).value
    ensures r.Ok? ==> r.value.end == ConvertIndex(text, e.stop, false).value
  {
    var start := ConvertIndex(text, e.start, true);
    if start.Err? then Err(start.error)
    else
      var end := ConvertIndex(text, e.stop, false);
      if end.Err? then Err(end.error)
      else Ok(CreateEntity(start.value, end.value, e.entity, e.text))
  }

  /** An entity whose token indices are in range and in order converts to a
      non-empty character range of the text. */
  lemma ConvertedEntityNonEmpty(text: string, e: RawEntity)
    requires 0 <= e.start <= e.stop < |Tokenize(text)|
    ensures var r := ConvertNluEvaluationEntity(text, e);
      r.Ok? && 0 <= r.value.start < r.value.end <= |text|
  {
    var spans := Tokenize(text);
    TokensWellFormed(text);
    var a := spans[e.start];
    var b := spans[e.stop];
    assert ConvertIndex(text, e.start, true) == Ok(a.start);
    assert ConvertIndex(text, e.stop, false) == Ok(b.end);
    assert 0 <= a.start < a.end && b.end <= |text|;
    if e.start < e.stop {
      assert a.end <= b.start < b.end;
    }
  }

  /** The entities from position `i` on, converted in order; the first that
      fails to convert stops the conversion with its error. */
  function ConvertEntitiesFrom(text: string, entities: seq<RawEntity>, i: nat): (r: Result<seq<Entity>>)
    requires i <= |entities|
    ensures r.Ok? <==> forall k :: i <= k < |entities| ==> ConvertNluEvaluationEntity(text, entities[k]).Ok?
    ensures r.Ok? ==> (
      && |r.value| == |entities| - i
      && forall k :: 0 <= k < |r.value| ==> r.value[k] == ConvertNluEvaluationEntity(text, entities[i + k]).value)
    decreases |entities| - i
  {
    if i == |entities| then Ok([])
    else
      var head := ConvertNluEvaluationEntity(text, entities[i]);
      if head.Err? then Err(head.error)
      else
        var rest := ConvertEntitiesFrom(text, entities, i + 1);
        if rest.Err? then rest
        else
          assert forall k :: 0 < k < |entities| - i ==> ([head.value] + rest.value)[k] == rest.value[k - 1];
          Ok([head.value] + rest.value)
  }

  /** The entities of a sentence, converted one for one and in order. */
  function ConvertEntities(text: string, entities: seq<RawEntity>): (r: Result<seq<Entity>>)
    ensures r.Ok? <==> forall k :: 0 <= k < |entities| ==> ConvertNluEvaluationEntity(text, entities[k]).Ok?
    ensures r.Ok? ==> (
      && |r.value| == |entities|
      && forall k :: 0 <= k < |entities| ==> r.value[k] == ConvertNluEvaluationEntity(text, entities[k]).value)
  {
    ConvertEntitiesFrom(text, entities, 0)
  }

  /** A failed conversion fails with the error of the first entity that does
      not convert: every entity before it converts. */
  lemma {:induction false} ConvertEntitiesFromError(text: string, entities: seq<RawEntity>, i: nat)
    requires i <= |entities|
    requires ConvertEntitiesFrom(text, entities, i).Err?
    ensures exists k :: FirstFailure(text, entities, i, k, ConvertEntitiesFrom(text, entities, i).error)
    decreases |entities| - i
  {
    var e := ConvertEntitiesFrom(text, entities, i).error;
    if ConvertNluEvaluationEntity(text, entities[i]).Err? {
      assert FirstFailure(text, entities, i, i, e);
    } else {
      ConvertEntitiesFromError(text, entities, i + 1);
      var k :| FirstFailure(text, entities, i + 1, k, e);
      assert FirstFailure(text, entities, i, k, e);
    }
  }

  /** Entity `k` (at or after `i`) fails with `error` and those from `i` up to
      it convert. */
  ghost predicate FirstFailure(text: string, entities: seq<RawEntity>, i: nat, k: int, error: Error) {
    && i <= k < |entities|
    && (forall j :: i <= j < k ==> ConvertNluEvaluationEntity(text, entities[j]).Ok?)
    && ConvertNluEvaluationEntity(text, entities[k]) == Err(error)
  }

  /** The error of a sentence's entities is the error of its first entity
      that does not convert. */
  lemma ConvertEntitiesError(text: string, entities: seq<RawEntity>)
    requires ConvertEntities(text, entities).Err?
    ensures exists k :: FirstFailure(text, entities, 0, k, ConvertEntities(text, entities).error)
  {
    ConvertEntitiesFromError(text, entities, 0);
  }

  /** `build_message` of the package copy: a built message that also records
      the sentence's training flag. */
  function BuildTrainingMessage(text: string, intent: string, entities: seq<Entity>, training: bool): (m: Message)
    ensures m.text == text && m.intent == intent && m.entities == entities
    ensures m.training == Some(training) && m.corpus == None
  {
    BuildMessage(text, intent, entities).(training := Some(training))
  }

  /** One sentence as a message. The package copy records the training flag
      (`withTraining`); the script copy builds the message without it. */
  function ConvertSentence(s: Sentence, withTraining: bool): (r: Result<Message>)
    ensures r.Ok? <==> ConvertEntities(s.text, s.entities).Ok?
    ensures r.Err? ==> r.error == ConvertEntities(s.text, s.entities).error
    ensures r.Ok? ==> && r.value.text == s.text && r.value.intent == s.intent
                      && r.value.entities == ConvertEntities(s.text, s.entities).value
                      && r.value.training == (if withTraining then Some(s.training) else None)
                      && r.value.corpus == None
  {
    var entities := ConvertEntities(s.text, s.entities);
    if entities.Err? then Err(entities.error)
    else if withTraining then Ok(BuildTrainingMessage(s.text, s.intent, entities.value, s.training))
    else Ok(BuildMessage(s.text, s.intent, entities.value))
  }

  /** The sentences as messages, in order; the first failing sentence decides
      the error. */
  function ConvertSentences(sentences: seq<Sentence>, withTraining: bool): (r: Result<seq<Message>>)
    ensures r.Ok? <==> forall k :: 0 <= k < |sentences| ==> ConvertSentence(sentences[k], withTraining).Ok?
    ensures r.Ok? ==> (
      && |r.value| == |sentences|
      && forall k :: 0 <= k < |sentences| ==> r.value[k] == ConvertSentence(sentences[k], withTraining).value)
  {
    ConvertSentencesFrom(sentences, withTraining, 0)
  }

  function ConvertSentencesFrom(sentences: seq<Sentence>, withTraining: bool, i: nat): (r: Result<seq<Message>>)
    requires i <= |sentences|
    ensures r.Ok? <==> forall k :: i <= k < |sentences| ==> ConvertSentence(sentences[k], withTraining).Ok?
    ensures r.Ok? ==> (
      && |r.value| == |sentences| - i
      && forall k :: 0 <= k < |r.value| ==> r.value[k] == ConvertSentence(sentences[i + k], withTraining).value)
    decreases |sentences| - i
  {
    if i == |sentences| then Ok([])
    else
      var head := ConvertSentence(sentences[i], withTraining);
      if head.Err? then Err(head.error)
      else
        var rest := ConvertSentencesFrom(sentences, withTraining, i + 1);
        if rest.Err? then rest
        else
          ConsIndex(head.value, rest.value);
          assert i + 0 == i;
          Ok([head.value] + rest.value)
  }

  /** Sentence `k` (at or after `i`) fails with `error` and those from `i`
      up to it convert. */
  ghost predicate FirstFailingSentence(sentences: seq<Sentence>, withTraining: bool, i: nat, k: int, error: Error) {
    && i <= k < |sentences|
    && (forall j :: i <= j < k ==> ConvertSentence(sentences[j], withTraining).Ok?)
    && ConvertSentence(sentences[k], withTraining) == Err(error)
  }

  /** A failed conversion from sentence `i` on fails with the error of the
      first sentence that does not convert. */
  lemma {:induction false} ConvertSentencesFromError(sentences: seq<Sentence>, withTraining: bool, i: nat)
    requires i <= |sentences|
    requires ConvertSentencesFrom(sentences, withTraining, i).Err?
    ensures exists k :: FirstFailingSentence(sentences, withTraining, i, k, ConvertSentencesFrom(sentences, withTraining, i).error)
    decreases |sentences| - i
  {
    var e := ConvertSentencesFrom(sentences, withTraining, i).error;
    if ConvertSentence(sentences[i], withTraining).Err? {
      assert FirstFailingSentence(sentences, withTraining, i, i, e);
    } else {
      ConvertSentencesFromError(sentences, withTraining, i + 1);
      var k :| FirstFailingSentence(sentences, withTraining, i + 1, k, e);
      assert FirstFailingSentence(sentences, withTraining, i, k, e);
    }
  }

  /** Converting the sentences fails with the error of the first sentence
      that does not convert, which is the error of its first entity that
      does not convert. */
  lemma ConvertSentencesError(sentences: seq<Sentence>, withTraining: bool)
    requires ConvertSentences(sentences, withTraining).Err?
    ensures exists k :: FirstFailingSentence(sentences, withTraining, 0, k, ConvertSentences(sentences, withTraining).error)
  {
    ConvertSentencesFromError(sentences, withTraining, 0);
  }

  /** `read_nlu_evaluation_corpora`, given the sentences of the corpus's file:
      the path lookup rejects the mock corpus, then every sentence becomes one
      message with its text, its intent and its entities converted one for one. */
  function ReadNluEvaluationCorpora(corpus: Corpus, sentences: seq<Sentence>, withTraining: bool): (r: Result<seq<Message>>)
    ensures corpus == Mock ==> r == Err(UnsupportedCorpus(Mock))
    ensures r.Ok? <==> corpus != Mock && forall k :: 0 <= k < |sentences| ==>
      ConvertEntities(sentences[k].text, sentences[k].entities).Ok?
    ensures r.Ok? ==> |r.value| == |sentences| && forall k :: 0 <= k < |sentences| ==>
      var m := r.value[k];
      && m.text == sentences[k].text && m.intent == sentences[k].intent
      && m.entities == ConvertEntities(sentences[k].text, sentences[k].entities).value
      && |m.entities| == |sentences[k].entities|
      && m.training == (if withTraining then Some(sentences[k].training) else None)
    ensures corpus != Mock && r.Err? ==> exists k :: FirstFailingSentence(sentences, withTraining, 0, k, r.error)
  {
    var path := GetPath(corpus);
    if path.Err? then Err(path.error)
    else
      var r := ConvertSentences(sentences, withTraining);
      assert r.Err? ==> exists k :: FirstFailingSentence(sentences, withTraining, 0, k, r.error) by {
        if r.Err? { ConvertSentencesError(sentences, withTraining); }
      }
      r
  }

  /** The sentences of the package copy carry their training flag through,
      so the train and test filters split them by it. */
  lemma ReadCorporaFilters(corpus: Corpus, sentences: seq<Sentence>, train: bool)
    requires ReadNluEvaluationCorpora(corpus, sentences, true).Ok?
    ensures var ms := ReadNluEvaluationCorpora(corpus, sentences, true).value;
      FilterByTraining(ms, train).Ok?
  {
  }

  /** The script copy sets no training flag, so filtering its messages by the
      flag fails with a key error whenever there is a message. */
  lemma ReadCorporaUntaggedFilters(corpus: Corpus, sentences: seq<Sentence>, train: bool)
    requires ReadNluEvaluationCorpora(corpus, sentences, false).Ok?
    requires sentences != []
    ensures var ms := ReadNluEvaluationCorpora(corpus, sentences, false).value;
      FilterByTraining(ms, train) == Err(MissingKey("training"))
  {
    var ms := ReadNluEvaluationCorpora(corpus, sentences, false).value;
    assert ms[0].training == None;
  }

  lemma UpgradingCount(t: string)
    requires t == "Upgrading from 11.10 to"
    ensures |Tokenize(t)| == 6
  {
    assert t == "Upgrading from" + " " + "11.10 to";
    UpgradingFromCount("Upgrading from");
    VersionToCount("11.10 to");
    SpaceSeamCount("Upgrading from", "11.10 to", 2, 4);
  }

  lemma UpgradingFromCount(u: string)
    requires u == "Upgrading from"
    ensures |Tokenize(u)| == 2
  {
    assert u == Join(["Upgrading", "from"], " ");
    SpacedWordsCount(["Upgrading", "from"]);
  }

  lemma VersionToCount(v: string)
    requires v == "11.10 to"
    ensures |Tokenize(v)| == 4
  {
    assert v == "11.10" + " " + "to";
    VersionTokens("11.10");
    WordToken("to");
    SpaceSeamCount("11.10", "to", 3, 1);
  }

  lemma UpgradingTokens(t: string)
    requires t == "Upgrading from 11.10 to 12.04"
    ensures |Tokenize(t)| == 9
    ensures Tokenize(t)[6] == Span(24, 26) && Tokenize(t)[8] == Span(27, 29)
  {
    var p := "Upgrading from 11.10 to";
    assert t == p + " " + "12.04";
    UpgradingCount(p);
    VersionTokens("12.04");
    SpaceSeamCount(p, "12.04", 6, 3);
    SpaceSeamAt(p, "12.04", 0);
    SpaceSeamAt(p, "12.04", 2);
  }

  /** In `Upgrading from 11.10 to 12.04`, token 6 starts at character 24 and
      token 8 ends at character 29. */
  lemma UpgradingIndices(t: string)
    requires t == "Upgrading from 11.10 to 12.04"
    ensures ConvertIndex(t, 6, true) == Ok(24)
    ensures ConvertIndex(t, 8, false) == Ok(29)
  {
    UpgradingTokens(t);
  }

  /** The four-word phrases of the test sentences are four tokens each. */
  lemma FourWordPhrases(p: string)
    requires p == "when is the next" || p == "all the blog entries"
    ensures |Tokenize(p)| == 4
  {
    if p == "when is the next" {
      var words := ["when", "is", "the", "next"];
      assert p == Join(words, " ");
      SpacedWordsCount(words);
    } else {
      var words := ["all", "the", "blog", "entries"];
      assert p == Join(words, " ");
      SpacedWordsCount(words);
    }
  }


  lemma TrainFirst(r: string)
    requires r == "train in muncher freiheit?"
    ensures |Tokenize(r)| > 0 && Tokenize(r)[0] == Span(0, 5)
  {
    var w, rest := "train", "in muncher freiheit?";
    assert r == w + " " + rest && IsWord(w) && |w| == 5;
    WordToken(w);
    SpaceSeam(w, rest);
  }

  /** Slicing after a prefix and a space reads into the rest. */
  lemma SliceAfter(p: string, r: string, n: nat)
    requires n <= |r|
    ensures (p + " " + r)[|p| + 1..|p| + 1 + n] == r[..n]
  {
  }

  lemma TrainParts(p: string, r: string)
    requires p == "when is the next" && r == "train in muncher freiheit?"
    ensures |Tokenize(p + " " + r)| > 4 && Tokenize(p + " " + r)[4] == Span(17, 22)
    ensures (p + " " + r)[17..22] == "train"
  {
    FourWordPhrases(p);
    TrainFirst(r);
    SpaceSeamAt(p, r, 0);
    SliceAfter(p, r, 5);
  }

  lemma TrainTokens(t: string)
    requires t == "when is the next" + " " + "train in muncher freiheit?"
    ensures |Tokenize(t)| > 4 && Tokenize(t)[4] == Span(17, 22)
    ensures t[17..22] == "train"
  {
    TrainParts("when is the next", "train in muncher freiheit?");
  }

  /** The single-token entity `train` (token 4) of `when is the next train in
      muncher freiheit?` covers characters 17 to 22. */
  lemma TrainEntity(t: string)
    requires t == "when is the next train in muncher freiheit?"
    ensures ConvertNluEvaluationEntity(t, RawEntity(4, 4, "Vehicle", "train"))
      == Ok(Entity(17, 22, "Vehicle", "train"))
    ensures t[17..22] == "train"
  {
    TrainTokens(t);
    assert ConvertIndex(t, 4, true) == Ok(17);
    assert ConvertIndex(t, 4, false) == Ok(22);
  }

  lemma FeedCount(m: string)
    requires m == "from a RSS feed in"
    ensures |Tokenize(m)| == 5
  {
    var words := ["from", "a", "RSS", "feed", "in"];
    assert m == Join(words, " ");
    SpacedWordsCount(words);
  }

  lemma MiddleCount(m: string)
    requires m == "all the blog entries from a RSS feed in"
    ensures |Tokenize(m)| == 9
  {
    var first := "all the blog entries";
    var second := "from a RSS feed in";
    assert m == first + " " + second;
    FourWordPhrases(first);
    FeedCount(second);
    SpaceSeamCount(first, second, 4, 5);
  }



  lemma ArchiveSlash(a: string)
    requires a == "Archive/export"
    ensures Tokenize(a) == [Span(0, 7), Span(7, 8), Span(8, 14)]
  {
    var w, x := "Archive", "/export";
    assert a == w + x;
    SlashExport(x);
    WordToken(w);
    assert Seam(w, x) by { assert Classify(w[6]) == WordChar && Classify(x[0]) == PunctChar; }
    TokenizeConcat(w, x);
    assert Shift([Span(0, 1), Span(1, 7)], 7) == [Span(7, 8), Span(8, 14)];
  }

  lemma SlashExport(x: string)
    requires x == "/export"
    ensures Tokenize(x) == [Span(0, 1), Span(1, 7)]
  {
    assert x == "/" + "export";
    WordToken("export");
    assert Tokenize("/") == [Span(0, 1)];
    TokenizeConcat("/", "export");
  }

  lemma ArchiveParts(a: string, m: string)
    requires a == "Archive/export" && m == "all the blog entries from a RSS feed in"
    ensures |Tokenize(a + " " + m)| == 12
  {
    MiddleCount(m);
    ArchiveSlash(a);
    SpaceSeamCount(a, m, 3, 9);
  }

  lemma ArchiveCount(p: string)
    requires p == "Archive/export" + " " + "all the blog entries from a RSS feed in"
    ensures |Tokenize(p)| == 12
  {
    ArchiveParts("Archive/export", "all the blog entries from a RSS feed in");
  }

  lemma GoogleReaderPair(g: string)
    requires g == "Google Reader"
    ensures Tokenize(g) == [Span(0, 6), Span(7, 13)]
  {
    assert g == "Google" + " " + "Reader";
    WordToken("Google");
    WordToken("Reader");
    SpaceSeam("Google", "Reader");
  }

  lemma GoogleReaderParts(p: string, g: string)
    requires p == "Archive/export" + " " + "all the blog entries from a RSS feed in"
    requires g == "Google Reader"
    ensures |Tokenize(p + " " + g)| == 14
    ensures Tokenize(p + " " + g)[12] == Span(55, 61) && Tokenize(p + " " + g)[13] == Span(62, 68)
    ensures (p + " " + g)[55..68] == "Google Reader"
  {
    ArchiveCount(p);
    GoogleReaderPair(g);
    SpaceSeamCount(p, g, 12, 2);
    SpaceSeamAt(p, g, 0);
    SpaceSeamAt(p, g, 1);
    SliceAfter(p, g, 13);
  }

  lemma GoogleReaderTokens(t: string)
    requires t == "Archive/export" + " " + "all the blog entries from a RSS feed in" + " " + "Google Reader"
    ensures |Tokenize(t)| == 14
    ensures Tokenize(t)[12] == Span(55, 61) && Tokenize(t)[13] == Span(62, 68)
    ensures t[55..68] == "Google Reader"
  {
    GoogleReaderParts("Archive/export" + " " + "all the blog entries from a RSS feed in", "Google Reader");
  }

  /** In `Archive/export all the blog entries from a RSS feed in Google
      Reader` the slash is a token of its own, so tokens 12 to 13 are the
      characters of `Google Reader`. */
  lemma GoogleReaderEntity(t: string)
    requires t == "Archive/export" + " " + "all the blog entries from a RSS feed in" + " " + "Google Reader"
    ensures ConvertNluEvaluationEntity(t, RawEntity(12, 13, "WebService", "Google Reader"))
      == Ok(Entity(55, 68, "WebService", "Google Reader"))
    ensures t[55..68] == "Google Reader"
  {
    GoogleReaderTokens(t);
  }
}
