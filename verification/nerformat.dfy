/** The token-per-line NER format: one `token TAG` line per token of a
    message, preceded by an `INTENT intent` line for every task but NER;
    the lines of a message joined by a newline and the messages by an empty
    line. */
module NerFormat {
  import opened Types
  import opened Text
  import opened WordPunct
  import opened EntityTagger
  import opened Utils

  /** The texts of a message's tokens, in order: token `k`'s text is the
      Python slice of the text at its span. */
  function TokenTexts(text: string): (r: seq<string>)
    ensures |r| == |Tokenize(text)|
    ensures forall k :: 0 <= k < |r| ==> r[k] == Slice(text, Tokenize(text)[k].start, Tokenize(text)[k].end)
  {
    SpanTexts(text, Tokenize(text))
  }

  /** Each token text is the text under its span: a non-empty string
      without whitespace. */
  lemma TokenTextsSound(text: string)
    ensures var r := TokenTexts(text);
      forall k :: 0 <= k < |r| ==>
        var sp := Tokenize(text)[k];
        && 0 <= sp.start < sp.end <= |text|
        && r[k] == text[sp.start..sp.end]
        && r[k] != []
        && (forall j :: 0 <= j < |r[k]| ==> Classify(r[k][j]) != SpaceChar)
  {
    forall k | 0 <= k < |TokenTexts(text)|
      ensures var sp := Tokenize(text)[k];
        && 0 <= sp.start < sp.end <= |text|
        && TokenTexts(text)[k] == text[sp.start..sp.end]
        && TokenTexts(text)[k] != []
        && (forall j :: 0 <= j < |TokenTexts(text)[k]| ==> Classify(TokenTexts(text)[k][j]) != SpaceChar)
    {
      TokenTextAt(text, k);
    }
  }

  lemma TokenTextAt(text: string, k: nat)
    requires k < |Tokenize(text)|
    ensures var sp := Tokenize(text)[k];
      var t := TokenTexts(text)[k];
      && 0 <= sp.start < sp.end <= |text|
      && t == text[sp.start..sp.end]
      && t != []
      && (forall j :: 0 <= j < |t| ==> Classify(t[j]) != SpaceChar)
  {
    var sp := Tokenize(text)[k];
    TokenHasNoSpace(text, k);
    var t := TokenTexts(text)[k];
    assert t == text[sp.start..sp.end];
    assert forall j :: 0 <= j < |t| ==> t[j] == text[sp.start + j];
  }

  /** No token text holds `c` when `c` is whitespace. */
  lemma TokenTextsWithout(text: string, c: char)
    requires Classify(c) == SpaceChar
    ensures forall k :: 0 <= k < |TokenTexts(text)| ==> c !in TokenTexts(text)[k]
  {
    var r := TokenTexts(text);
    TokenTextsSound(text);
    forall k | 0 <= k < |r| ensures c !in r[k] {
      assert forall j :: 0 <= j < |r[k]| ==> Classify(r[k][j]) != SpaceChar;
    }
  }

  /** Python's `zip` of texts and tags, each pair written as `text tag`. */
  function ZipLines(texts: seq<string>, tags: seq<string>): (lines: seq<string>)
    ensures |lines| == if |texts| <= |tags| then |texts| else |tags|
    ensures forall k :: 0 <= k < |lines| ==> lines[k] == texts[k] + " " + tags[k]
    decreases |texts|
  {
    if texts == [] || tags == [] then []
    else [texts[0] + " " + tags[0]] + ZipLines(texts[1..], tags[1..])
  }

  /** What a reader of the format takes from a line: the token before the
      first space and the tag after it. */
  function ReadLine(line: string): (r: (string, string))
    ensures ' ' !in r.0
  {
    SplitFirst(line, ' ')
  }

  /** Reading a written line gives back its token and tag, because tokens
      never hold a space. */
  lemma ReadZipLine(texts: seq<string>, tags: seq<string>, k: nat)
    requires k < |texts| && k < |tags|
    requires ' ' !in texts[k]
    ensures ReadLine(ZipLines(texts, tags)[k]) == (texts[k], tags[k])
  {
    SplitFirstGlue(texts[k], tags[k], ' ');
  }

  /** The tags of the tokens: all `O` for the intent task, the entity tags
      for every other task. */
  function TaskTags(task: Task, spans: seq<Span>, entities: seq<Entity>): (tags: seq<string>)
    ensures task == Intent ==> |tags| == |spans| && forall k :: 0 <= k < |tags| ==> tags[k] == "O"
    ensures task != Intent ==> tags == AnnotateTokensUsingNer(spans, entities)
    ensures ValidBio(tags)
  {
    if task == Intent then
      var tags := seq(|spans|, _ => "O");
      assert forall k :: 0 <= k < |tags| ==> !IsInside(tags[k]);
      tags
    else AnnotateTokensUsingNer(spans, entities)
  }

  /** The lines of one message, before joining: one line per token that has
      a tag, after an intent line carrying the space-free intent for every
      task but NER; for the intent task every token has a line. */
  function MessageLines(task: Task, m: Message): (lines: seq<string>)
    ensures var n, tags := |Tokenize(m.text)|, TaskTags(task, Tokenize(m.text), m.entities);
      |lines| == (if task == Ner then 0 else 1) + (if n <= |tags| then n else |tags|)
    ensures task != Ner ==> lines[0] == "INTENT" + " " + RemoveSpaces(m.intent)
    ensures task == Intent ==> |lines| == |Tokenize(m.text)| + 1
  {
    var texts := TokenTexts(m.text);
    var tags := TaskTags(task, Tokenize(m.text), m.entities);
    if task != Ner then ZipLines(["INTENT"] + texts, [RemoveSpaces(m.intent)] + tags)
    else ZipLines(texts, tags)
  }

  lemma MessageLinesZip(task: Task, m: Message, texts: seq<string>, tags: seq<string>)
    requires texts == TokenTexts(m.text) && tags == TaskTags(task, Tokenize(m.text), m.entities)
    ensures MessageLines(task, m) == if task != Ner then ZipLines(["INTENT"] + texts, [RemoveSpaces(m.intent)] + tags)
      else ZipLines(texts, tags)
  {
  }

  /** Reading the token lines of a message gives back the message's token
      texts paired with their tags, one line per token as long as there are
      tags for it. */
  lemma ReadMessageLines(task: Task, m: Message, k: nat)
    requires var tags := TaskTags(task, Tokenize(m.text), m.entities);
      k < |Tokenize(m.text)| && k < |tags|
    ensures var off := if task == Ner then 0 else 1;
      && off + k < |MessageLines(task, m)|
      && ReadLine(MessageLines(task, m)[off + k])
        == (TokenTexts(m.text)[k], TaskTags(task, Tokenize(m.text), m.entities)[k])
  {
    var texts := TokenTexts(m.text);
    var tags := TaskTags(task, Tokenize(m.text), m.entities);
    TokenTextNoSpace(m.text, k);
    MessageLinesZip(task, m, texts, tags);
    ReadZipped(task, m.intent, texts, tags, MessageLines(task, m), k);
  }

  /** Line `k` of the zipped pairs, behind the intent line when there is
      one, reads back as pair `k`. */
  lemma ReadZipped(task: Task, intent: string, texts: seq<string>, tags: seq<string>, lines: seq<string>, k: nat)
    requires lines == if task != Ner then ZipLines(["INTENT"] + texts, [RemoveSpaces(intent)] + tags)
      else ZipLines(texts, tags)
    requires k < |texts| && k < |tags|
    requires ' ' !in texts[k]
    ensures var off := if task == Ner then 0 else 1;
      off + k < |lines| && ReadLine(lines[off + k]) == (texts[k], tags[k])
  {
    if task != Ner {
      ReadZipAfter("INTENT", RemoveSpaces(intent), texts, tags, k);
    } else {
      ReadZipLine(texts, tags, k);
    }
  }

  /** Behind a first pair, line `k + 1` reads back as pair `k`. */
  lemma ReadZipAfter(x: string, y: string, texts: seq<string>, tags: seq<string>, k: nat)
    requires k < |texts| && k < |tags|
    requires ' ' !in texts[k]
    ensures k + 1 < |ZipLines([x] + texts, [y] + tags)|
    ensures ReadLine(ZipLines([x] + texts, [y] + tags)[k + 1]) == (texts[k], tags[k])
  {
    var xs, ys := [x] + texts, [y] + tags;
    assert xs[k + 1] == texts[k] && ys[k + 1] == tags[k];
    ReadZipLine(xs, ys, k + 1);
  }

  lemma TokenTextNoSpace(text: string, k: nat)
    requires k < |Tokenize(text)|
    ensures ' ' !in TokenTexts(text)[k]
  {
    var t := TokenTexts(text)[k];
    TokenTextAt(text, k);
    assert forall j :: 0 <= j < |t| ==> t[j] != ' ';
  }

  /** `convert_message_lines`. */
  function ConvertMessageLines(task: Task, m: Message): (s: string)
    ensures MessageLines(task, m) == [] ==> s == ""
  {
    Join(MessageLines(task, m), "\n")
  }

  /** A character other than the space that is in no text and no tag is in
      no line. */
  lemma ZipLinesWithout(texts: seq<string>, tags: seq<string>, c: char)
    requires c != ' '
    requires forall k :: 0 <= k < |texts| ==> c !in texts[k]
    requires forall k :: 0 <= k < |tags| ==> c !in tags[k]
    ensures forall k :: 0 <= k < |ZipLines(texts, tags)| ==> c !in ZipLines(texts, tags)[k]
  {
    var lines := ZipLines(texts, tags);
    forall k | 0 <= k < |lines| ensures c !in lines[k] {
      assert lines[k] == texts[k] + " " + tags[k];
    }
  }

  /** No tag holds a newline when no entity type does. */
  lemma TagsWithoutNewline(task: Task, spans: seq<Span>, entities: seq<Entity>)
    requires forall j :: 0 <= j < |entities| ==> '\n' !in entities[j].entityType
    ensures forall k :: 0 <= k < |TaskTags(task, spans, entities)| ==> '\n' !in TaskTags(task, spans, entities)[k]
  {
    var tags := TaskTags(task, spans, entities);
    if task != Intent {
      TagsComeFromEntities(spans, entities);
      forall k | 0 <= k < |tags| ensures '\n' !in tags[k] {
        assert TagOf(tags[k], entities);
        if tags[k] != "O" {
          var j :| 0 <= j < |entities|
            && (tags[k] == "B-" + entities[j].entityType || tags[k] == "I-" + entities[j].entityType);
          assert '\n' !in entities[j].entityType;
        }
      }
    }
  }

  /** No line of a message holds a newline when its intent and entity types
      hold none. */
  lemma LinesWithoutNewline(task: Task, m: Message)
    requires '\n' !in m.intent
    requires forall j :: 0 <= j < |m.entities| ==> '\n' !in m.entities[j].entityType
    ensures forall k :: 0 <= k < |MessageLines(task, m)| ==> '\n' !in MessageLines(task, m)[k]
  {
    var texts := TokenTexts(m.text);
    var tags := TaskTags(task, Tokenize(m.text), m.entities);
    TokenTextsWithout(m.text, '\n');
    TagsWithoutNewline(task, Tokenize(m.text), m.entities);
    if task != Ner {
      var intent := RemoveSpaces(m.intent);
      assert '\n' !in intent by {
        assert multiset(intent)['\n'] == multiset(m.intent)['\n'];
      }
      ConsWithout("INTENT", texts, '\n');
      ConsWithout(intent, tags, '\n');
      ZipLinesWithout(["INTENT"] + texts, [intent] + tags, '\n');
    } else {
      ZipLinesWithout(texts, tags, '\n');
    }
  }

  lemma ConsWithout(x: string, xs: seq<string>, c: char)
    requires c !in x
    requires forall k :: 0 <= k < |xs| ==> c !in xs[k]
    ensures forall k :: 0 <= k < |[x] + xs| ==> c !in ([x] + xs)[k]
  {
    forall k | 0 < k < |[x] + xs| ensures c !in ([x] + xs)[k] {
      assert ([x] + xs)[k] == xs[k - 1];
    }
  }

  /** Splitting a message's block at its newlines gives back its lines. */
  lemma ConvertMessageLinesSplit(task: Task, m: Message)
    requires '\n' !in m.intent
    requires forall j :: 0 <= j < |m.entities| ==> '\n' !in m.entities[j].entityType
    requires MessageLines(task, m) != []
    ensures Split(ConvertMessageLines(task, m), '\n') == MessageLines(task, m)
  {
    LinesWithoutNewline(task, m);
    SplitJoin(MessageLines(task, m), '\n');
  }

  /** `map` of `convert_message_lines` over the messages: the block of
      each message, in message order. */
  function Blocks(task: Task, messages: seq<Message>): (r: seq<string>)
    ensures |r| == |messages|
    ensures forall k :: 0 <= k < |r| ==> r[k] == ConvertMessageLines(task, messages[k])
  {
    seq(|messages|, k requires 0 <= k < |messages| => ConvertMessageLines(task, messages[k]))
  }

  /** `convert_messages_lines`: the messages' blocks separated by empty lines. */
  function ConvertMessagesLines(task: Task, messages: seq<Message>): (s: string)
    ensures |messages| == 1 ==> s == ConvertMessageLines(task, messages[0])
  {
    Join(Blocks(task, messages), "\n\n")
  }

  /** One more message adds an empty line and its block at the end. */
  lemma ConvertMessagesSnoc(task: Task, messages: seq<Message>, m: Message)
    requires messages != []
    ensures ConvertMessagesLines(task, messages + [m])
      == ConvertMessagesLines(task, messages) + "\n\n" + ConvertMessageLines(task, m)
  {
    var all := messages + [m];
    assert Blocks(task, all) == Blocks(task, messages) + [ConvertMessageLines(task, m)];
    JoinSnoc(Blocks(task, messages), ConvertMessageLines(task, m), "\n\n");
  }

  /** The text `write_filtered_ner` writes: the blocks of the messages with
      the wanted training flag, or the key error a message without one raises. */
  function WriteFilteredNer(task: Task, messages: seq<Message>, training: bool): (r: Result<string>)
    ensures r.Ok? <==> forall k :: 0 <= k < |messages| ==> messages[k].training.Some?
    ensures r.Err? ==> r.error == MissingKey("training")
    ensures r.Ok? ==> r.value == ConvertMessagesLines(task, KeepTraining(messages, training))
  {
    var filtered := FilterByTraining(messages, training);
    if filtered.Err? then Err(filtered.error)
    else Ok(ConvertMessagesLines(task, filtered.value))
  }
}
