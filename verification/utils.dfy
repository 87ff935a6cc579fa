/** The canonical-record helpers: building entities and messages, the corpus
    paths, and the train/test filter and intent listing over a corpus's
    messages. Reading a corpus from disk is not modelled: the functions that
    work on "a corpus's messages" take those messages as a parameter. */
module Utils {
  import opened Types
  import opened Text

  /** `create_entity`. */
  function CreateEntity(start: int, end: int, entity: string, value: string): (e: Entity)
    ensures e.start == start && e.end == end && e.entityType == entity && e.value == value
  {
    Entity(start, end, entity, value)
  }

  /** Rasa's `Message.build`: text, intent and entities, no flags. */
  function BuildMessage(text: string, intent: string, entities: seq<Entity>): (m: Message)
    ensures m.text == text && m.intent == intent && m.entities == entities
    ensures m.training == None && m.corpus == None
  {
    Message(text, intent, entities, None, None)
  }

  /** `create_message`: a built message that also records the training flag
      and the corpus. */
  function CreateMessage(text: string, intent: string, entities: seq<Entity>, training: bool, corpus: Corpus): (m: Message)
    ensures m.text == text && m.intent == intent && m.entities == entities
    ensures m.training == Some(training) && m.corpus == Some(corpus)
  {
    BuildMessage(text, intent, entities).(training := Some(training), corpus := Some(corpus))
  }

  /** `get_path`, relative to the project root, as path components. The mock
      corpus has no file and asking for its path is an error. */
  function GetPath(corpus: Corpus): (r: Result<seq<string>>)
    ensures r.Err? <==> corpus == Mock
    ensures r.Err? ==> r.error == UnsupportedCorpus(Mock)
    ensures r.Ok? ==> |r.value| >= 3 && r.value[0] == "data" && r.value[2] == "original"
    ensures r.Ok? ==> (|r.value| == 3 <==> corpus == Snips2017)
  {
    match corpus
    case Mock => Err(UnsupportedCorpus(Mock))
    case AskUbuntu => Ok(["data", "askubuntu", "original", "AskUbuntuCorpus.json"])
    case Chatbot => Ok(["data", "chatbot", "original", "ChatbotCorpus.json"])
    case WebApplications => Ok(["data", "webapplications", "original", "WebApplicationsCorpus.json"])
    case Snips2017 => Ok(["data", "snips2017", "original"])
  }

  /** Each corpus has a folder of its own: two different corpora never share
      the folder under `data`, so never share a path. */
  lemma GetPathFolders(a: Corpus, b: Corpus)
    requires GetPath(a).Ok? && GetPath(b).Ok?
    ensures GetPath(a).value[1] == GetPath(b).value[1] <==> a == b
  {
  }

  /** The reader family `get_messages` dispatches a corpus to. */
  datatype Reader = NluEvaluationReader | SnipsReader

  /** The dispatch table of `get_messages`; the mock corpus is not in it. */
  function ReaderFor(corpus: Corpus): (r: Option<Reader>)
    ensures r.None? <==> corpus == Mock
    ensures r == Some(SnipsReader) <==> corpus == Snips2017
  {
    match corpus
    case Mock => None
    case Snips2017 => Some(SnipsReader)
    case _ => Some(NluEvaluationReader)
  }

  /** Every corpus that has a reader has a path for it to read. */
  lemma ReadableCorporaHavePaths(corpus: Corpus)
    ensures ReaderFor(corpus).Some? <==> GetPath(corpus).Ok?
  {
  }

  /** The messages whose training flag is `train`, in order. */
  function KeepTraining(messages: seq<Message>, train: bool): (r: seq<Message>)
    ensures |r| <= |messages|
    ensures forall k :: 0 <= k < |r| ==> r[k].training == Some(train)
  {
    if messages == [] then []
    else (if messages[0].training == Some(train) then [messages[0]] else []) + KeepTraining(messages[1..], train)
  }

  /** `get_filtered_messages` and the filter of `write_filtered_ner`: reading
      the training flag of a message that has none raises a key error. */
  function FilterByTraining(messages: seq<Message>, train: bool): (r: Result<seq<Message>>)
    ensures r.Ok? <==> forall k :: 0 <= k < |messages| ==> messages[k].training.Some?
    ensures r.Err? ==> r.error == MissingKey("training")
    ensures r.Ok? ==> r.value == KeepTraining(messages, train)
  {
    if forall k :: 0 <= k < |messages| ==> messages[k].training.Some? then Ok(KeepTraining(messages, train))
    else Err(MissingKey("training"))
  }

  /** Filtering keeps every message of the wanted flag as often as it occurs. */
  lemma {:induction false} KeepTrainingCounts(messages: seq<Message>, train: bool, m: Message)
    ensures multiset(KeepTraining(messages, train))[m] == if m.training == Some(train) then multiset(messages)[m] else 0
    decreases |messages|
  {
    if messages != [] {
      KeepTrainingCounts(messages[1..], train, m);
      assert messages == [messages[0]] + messages[1..];
    }
  }

  /** The train messages and the test messages partition a corpus in which
      every message carries a training flag. */
  lemma TrainTestPartition(messages: seq<Message>)
    requires forall k :: 0 <= k < |messages| ==> messages[k].training.Some?
    ensures |KeepTraining(messages, true)| + |KeepTraining(messages, false)| == |messages|
    ensures multiset(KeepTraining(messages, true)) + multiset(KeepTraining(messages, false)) == multiset(messages)
  {
    var a := multiset(KeepTraining(messages, true)) + multiset(KeepTraining(messages, false));
    forall x
      ensures a[x] == multiset(messages)[x]
    {
      KeepTrainingCounts(messages, true, x);
      KeepTrainingCounts(messages, false, x);
      if x.training.None? {
        assert x !in messages;
        assert multiset(messages)[x] == 0;
      } else if x.training.value {
        assert x.training == Some(true);
      } else {
        assert x.training == Some(false);
      }
    }
    assert a == multiset(messages);
    assert |a| == |KeepTraining(messages, true)| + |KeepTraining(messages, false)|;
  }

  /** `get_intents`: one intent per message, in message order. */
  function GetIntents(messages: seq<Message>): (r: seq<string>)
    ensures |r| == |messages|
    ensures forall k :: 0 <= k < |r| ==> r[k] == messages[k].intent
  {
    if messages == [] then [] else [messages[0].intent] + GetIntents(messages[1..])
  }

  /** The distinct intents of a corpus are the intents of its messages. */
  lemma IntentSet(messages: seq<Message>)
    ensures (set k | 0 <= k < |GetIntents(messages)| :: GetIntents(messages)[k])
         == (set m | m in messages :: m.intent)
  {
    var r := GetIntents(messages);
    forall m | m in messages
      ensures m.intent in set k | 0 <= k < |r| :: r[k]
    {
      var k :| 0 <= k < |messages| && messages[k] == m;
      assert r[k] == m.intent;
    }
  }

  /** The test corpus: messages `"0"` .. `"19"`, intent `A` below 10 and `B`
      from 10, training below 15. */
  function MockMessages(corpus: Corpus): (ms: seq<Message>)
    ensures |ms| == 20
  {
    seq(20, x requires 0 <= x < 20 =>
      CreateMessage(NatToString(x), if 0 <= x < 10 then "A" else "B", [], x < 15, corpus))
  }

  /** The mock corpus has 15 training and 5 test messages. */
  lemma MockSplit(corpus: Corpus)
    ensures FilterByTraining(MockMessages(corpus), true).Ok?
    ensures |KeepTraining(MockMessages(corpus), true)| == 15
    ensures |KeepTraining(MockMessages(corpus), false)| == 5
  {
    var ms := MockMessages(corpus);
    assert forall k :: 0 <= k < 20 ==> ms[k].training == Some(k < 15);
    TrainingBelowCount(ms, 20);
    assert ms[..20] == ms;
    TrainTestPartition(ms);
  }

  /** When the message at index `k` is a training message exactly for `k < 15`,
      the first `n` messages hold `min(n, 15)` training messages. */
  lemma {:induction false} TrainingBelowCount(ms: seq<Message>, n: nat)
    requires n <= |ms|
    requires forall k :: 0 <= k < |ms| ==> ms[k].training == Some(k < 15)
    ensures |KeepTraining(ms[..n], true)| == if n < 15 then n else 15
    decreases n
  {
    if n > 0 {
      TrainingBelowCount(ms, n - 1);
      KeepTrainingSnoc(ms[..n - 1], ms[n - 1], true);
      assert ms[..n] == ms[..n - 1] + [ms[n - 1]];
    }
  }

  lemma {:induction false} KeepTrainingSnoc(ms: seq<Message>, m: Message, train: bool)
    ensures KeepTraining(ms + [m], train)
      == KeepTraining(ms, train) + (if m.training == Some(train) then [m] else [])
    decreases |ms|
  {
    if ms == [] {
      assert ms + [m] == [m];
    } else {
      assert (ms + [m])[1..] == ms[1..] + [m];
      KeepTrainingSnoc(ms[1..], m, train);
    }
  }
}
