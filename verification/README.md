# nlu_datasets: from corpus records to token-per-line NER text

This project models, in Dafny, the core of `nlu_datasets`. That library reads
intent-classification corpora into one canonical message record (a text, an
intent, a list of entities with character offsets, a training flag and a
corpus). It then writes each message in the well-known token-per-line NER
format: one `token TAG` line per word/punctuation token, preceded by an
`INTENT intent` line for every task except NER.

The model has nine modules:

- `Types`: corpora, tasks, spans, entities, messages and the error results of
  the source.
- `Text`: joining, splitting, slicing and space removal on strings.
- `WordPunct`: a concrete word/punctuation span tokenizer, with its
  invariants proved. ASCII letters, digits and `_` are word characters. ASCII
  whitespace is whitespace. Every other character is punctuation, including
  every non-ASCII one.
- `SpanMerger`: `merge_spans`, as a fold over the spans, and the loop as
  written.
- `EntityTagger`: `annotate_entity_tokens` and `annotate_tokens_using_ner`.
- `NerFormat`: `convert_message_lines`, `convert_messages_lines` and the text
  `write_filtered_ner` writes.
- `Corpora`: both copies of the NLU-Evaluation reader. They cover
  `convert_index`, `convert_nlu_evaluation_entity`, `build_message` and the
  per-sentence mapping.
- `Snips`: the SNIPS 2017 segment readers `convert_data_text`,
  `convert_data_spans`, `convert_data_entities` and `convert_data_message`.
- `Utils`: `create_entity`, `create_message`, `get_path` with its guard on the
  mock corpus, the `get_messages` dispatch, `get_filtered_messages` and
  `get_intents`.

Everything is a pure function over immutable data. Loading corpus files and
writing output files are not modelled. The functions that read "a corpus's
messages" or "a file's sentences" take them as a parameter.

Behaviour the model pins down and the documentation does not state:

- **Stale start in the merge.** When an entity end matches a span but no
  entity start matched since the last merge, `merge_spans` emits
  `(pending start, end)`. The pending start is the last entity start seen, or
  the initial 0. The covered spans before it have already been emitted one by
  one, so the output is then neither ordered nor free of overlaps. The model
  follows the code here, not the stated guarantee that unaligned entities
  pass through as ordinary spans. `SpanMerger.MergeSpansStep` states the rule
  and `SpanMerger.MergeUnalignedStart` gives an instance.
- **Tag count versus token count.** An entity's tags come from re-tokenizing
  the entity's own value. The tag list can therefore be longer or shorter
  than the token list. `zip` then drops the surplus, which is why
  `NerFormat.MessageLines` counts lines by the shorter of the two.
- **Negative token indices.** `convert_index` indexes a Python list. A
  negative token index therefore counts from the end instead of failing. Only
  an index outside `-n .. n-1` raises an `IndexError`.
- **Missing training flag.** Filtering by training flag reads
  `data['training']`. A message without one, such as every message built by
  the `src/corpora.py` reader, makes the filter raise a key error.

## Model

| member | source | states |
|---|---|---|
| WordPunct.Tokenize | nlu_datasets/converter.py:104-105 | at most one token per character of the text (shape only; which tokens is `TokenizeSound`) |
| WordPunct.TokenizeSound | nlu_datasets/converter.py:104-105 | the tokens of a text are in order, non-empty, in bounds and disjoint; each is a maximal run of word characters or of punctuation; a character lies in a token exactly when it is not whitespace |
| WordPunct.TokensSpellText | nlu_datasets/converter.py:104-106 | the token texts, concatenated, are the text with its whitespace removed |
| WordPunct.TokenizeConcat | nlu_datasets/converter.py:104-105 | when no run straddles the seam, the tokens of `a + b` are the tokens of `a` followed by those of `b` moved right by the length of `a` |
| WordPunct.SpaceSeam | nlu_datasets/converter.py:104-105 | the tokens of `a + " " + b` are those of `a` followed by those of `b` moved right past `a` and the space; token counts add up |
| WordPunct.HyphenatedWord | nlu_datasets/converter.py:85 | a hyphen between word characters is a token of its own, between the tokens on either side |
| WordPunct.KarlPreisPlatz | nlu_datasets/converter.py:85 | `karl-preis-platz` is five tokens: three words and two hyphens |
| SpanMerger.MergeOne | nlu_datasets/converter.py:72-81 | one pass of the loop body yields exactly the fold's next pending start and skip flag, and appends exactly what the fold emits for that span |
| SpanMerger.MergeFrom | nlu_datasets/converter.py:71-81 | the merged list is never longer than the input list |
| SpanMerger.MergeSpansLoop | nlu_datasets/converter.py:64-82 | the loop as written returns the fold `MergeSpans` |
| SpanMerger.MergeSpans | nlu_datasets/converter.py:64-82 | the merge never adds spans; the ends of its output are ends of input spans, in input order; with no entities it returns the spans unchanged |
| SpanMerger.MergeFromKeepsEndOrder | nlu_datasets/converter.py:77-81 | every output span ends where some input span ends, and output ends keep the input order: they form a subsequence of the input ends |
| SpanMerger.MergeFromAppend | nlu_datasets/converter.py:71-81 | merging `a + b` merges `a`, then merges `b` from the state `a` left |
| SpanMerger.MatchesAreMembership | nlu_datasets/converter.py:66-73 | the membership test on the start and end lists is the same as "some entity starts (ends) there" |
| SpanMerger.StateAfterPrefix | nlu_datasets/converter.py:69-81 | after `i` spans the skip flag is set exactly when an entity run is open, and the pending start is that of the last span that opened one, or 0 if none did |
| SpanMerger.MergeSpansStep | nlu_datasets/converter.py:72-81 | what span `i` adds: itself when it starts and ends an entity or matches nothing outside a run; nothing when it only starts one or lies inside a run; `(last start seen, its end)` when it only ends one |
| SpanMerger.MergeRunInterior | nlu_datasets/converter.py:72-81 | inside an entity's run, after the span that opened it and before the span that closes it, the merge emits nothing |
| SpanMerger.MergeEntityRun | nlu_datasets/converter.py:71-81 | when span `i` starts an entity, span `j` ends one and no span between them starts or ends one, spans `i..j` add exactly one span, from `i`'s start to `j`'s end |
| SpanMerger.MergeAdjacentEntities | nlu_datasets/converter.py:64-82 | spans `(0,1)..(6,7)` with entities `[1,3)` and `[3,6)` merge to `(0,1), (1,3), (3,6), (6,7)` |
| SpanMerger.MergeUnalignedStart | nlu_datasets/converter.py:73-79 | an entity whose start matches no span is closed from the stale pending start: `(0,1), (1,2), (2,3)` with an entity from 7 to 3 give `(0,1), (1,2), (0,3)` |
| EntityTagger.AnnotateEntityTokens | nlu_datasets/converter.py:55-61 | one tag per token of the entity's value: `B-type` first, `I-type` after, forming a valid BIO list |
| EntityTagger.FirstWithStart | nlu_datasets/converter.py:94 | the first entity in list order whose start is the span's start |
| EntityTagger.SpanTags | nlu_datasets/converter.py:92-97 | a merged span that no entity starts gets a single `O`; one that entities start gets the tags of the first of them in list order; either way a valid BIO list that does not open with an `I-` tag |
| EntityTagger.TagSpans | nlu_datasets/converter.py:92-98 | the flattened tags are a valid BIO list that does not open with an `I-` tag (shape only; which span gets which tags is `TagSpansAppend` with `SpanTags`) |
| EntityTagger.TagSpansAppend | nlu_datasets/converter.py:92-98 | the tags of two merged span lists one after the other are the tags of the first followed by those of the second |
| EntityTagger.AnnotateTokensUsingNer | nlu_datasets/converter.py:86-99 | the flattened tags are a valid BIO list for any spans and entities: every `I-` tag follows a `B-` or `I-` tag of the same type |
| EntityTagger.AnnotatePrefix | nlu_datasets/converter.py:86-99 | the tags of the first `i` spans are a prefix of the tags of all spans: later spans never change earlier tags |
| EntityTagger.AnnotateStep | nlu_datasets/converter.py:69-98 | what span `i` adds to the tags: the first matching entity's tags when it starts and ends an entity; nothing when it only starts one or lies inside a run; the tags of the entity opened last when it only ends one (those of the span from 0 when none was opened); a single `O` when it matches nothing outside a run |
| EntityTagger.OutsideSpanTagged | nlu_datasets/converter.py:92-97 | a span that matches no entity boundary outside any run is tagged `O`, right after the tags of the spans before it |
| EntityTagger.EntityBlockTags | nlu_datasets/converter.py:86-98 | an entity that starts at span `i` and ends at span `j`, with no entity boundary in between, puts its `B-type` tag right after the tags of the spans before `i`, followed by its `I-type` tags, one per token of its value |
| EntityTagger.EntityBlockRun | nlu_datasets/converter.py:69-98 | the spans from an entity's start span to its end span, with no entity boundary in between, add exactly that entity's tags to the tags of the spans before them |
| EntityTagger.Outside | nlu_datasets/converter.py:92-97 | the merged spans that start no entity (membership only: neither order nor multiplicity is stated) |
| EntityTagger.TagSpansLength | nlu_datasets/converter.py:92-98 | the number of tags is the number of outside spans plus the sub-token count of each entity a merged span starts |
| EntityTagger.AnnotateWithoutEntities | nlu_datasets/converter.py:86-99 | without entities every token is tagged `O` |
| EntityTagger.TagsComeFromEntities | nlu_datasets/converter.py:86-99 | every tag is `O` or the begin or inside tag of the type of one of the entities |
| EntityTagger.KarlPreisPlatzTags | nlu_datasets/converter.py:85 | the entity `karl-preis-platz` of type `StationDest` is tagged `B-StationDest` then four `I-StationDest` |
| EntityTagger.MessengerExample | nlu_datasets/converter.py:86-99 | in `Alternative to Facebook Messenger.` the entity over characters 15 to 33 makes the tags `O O B-WebService I-WebService O` |
| NerFormat.TokenTexts | nlu_datasets/converter.py:104-106 | one text per token, each the slice of the message text under that token's span |
| NerFormat.TokenTextsSound | nlu_datasets/converter.py:106 | each token text is the text under its span: non-empty and free of whitespace |
| NerFormat.ZipLines | nlu_datasets/converter.py:123 | as many lines as the shorter list, line `k` being text `k`, a space and tag `k` |
| NerFormat.ReadZipLine | nlu_datasets/converter.py:123 | splitting a written line at its first space gives back the token and its tag |
| NerFormat.TaskTags | nlu_datasets/converter.py:109-112 | all `O`, one per token, for the intent task; the entity tags for every other task |
| NerFormat.MessageLines | nlu_datasets/converter.py:102-123 | one line per token that has a tag, after an `INTENT` line carrying the space-free intent for every task but NER; for the intent task every token gets a line |
| NerFormat.ConvertMessageLines | nlu_datasets/converter.py:124-125 | a message without lines is the empty text (shape only; that the block splits back into its lines is `ConvertMessageLinesSplit`) |
| NerFormat.ReadMessageLines | nlu_datasets/converter.py:106-123 | reading token line `k` back gives token text `k` and tag `k` |
| NerFormat.LinesWithoutNewline | nlu_datasets/converter.py:118-123 | no line holds a newline when the intent and the entity types hold none |
| NerFormat.ConvertMessageLinesSplit | nlu_datasets/converter.py:124 | splitting a message's block at its newlines gives back its lines |
| NerFormat.Blocks | nlu_datasets/converter.py:130 | one block per message, block `k` being message `k` converted |
| NerFormat.ConvertMessagesLines | nlu_datasets/converter.py:128-130 | one message gives exactly its own block |
| NerFormat.ConvertMessagesSnoc | nlu_datasets/converter.py:128-130 | one more message adds an empty line and its block at the end |
| NerFormat.WriteFilteredNer | nlu_datasets/converter.py:139-142 | succeeds exactly when every message has a training flag, and then writes the blocks of the messages whose flag is the wanted one; otherwise it is the key error on `training` |
| Corpora.TokenPosition | nlu_datasets/corpora.py:14 | Python list indexing: an index in `-n .. n-1` is found, a negative one counting from the end; any other is an `IndexError` |
| Corpora.ConvertIndex | nlu_datasets/corpora.py:10-14 | succeeds exactly for token indices in `-n .. n-1`; for a non-negative index, the start or end offset of that token |
| Corpora.ConvertIndexIsBoundary | src/corpora.py:10-14 | a converted start offset is where a token begins, a converted end offset where one ends |
| Corpora.ConvertNluEvaluationEntity | nlu_datasets/corpora.py:17-21 | succeeds exactly when both indices convert; the start index's error wins, and when only the stop index fails its error is the one returned; the entity keeps the type and text and takes the converted offsets |
| Corpora.ConvertedEntityNonEmpty | src/corpora.py:17-21 | token indices in range and in order give a non-empty character range of the text |
| Corpora.ConvertEntities | nlu_datasets/corpora.py:35-36 | succeeds exactly when every entity converts, giving the converted entities one for one and in order |
| Corpora.ConvertEntitiesError | nlu_datasets/corpora.py:35-36 | a failure carries the error of the first entity that fails to convert |
| Corpora.BuildTrainingMessage | nlu_datasets/corpora.py:24-27 | a built message carrying the given text, intent and entities, plus the training flag |
| Corpora.ConvertSentence | nlu_datasets/corpora.py:38-39 | a sentence becomes a message with its text and intent and its converted entities; the training flag is kept by the package copy and absent in the script copy |
| Corpora.ConvertSentences | src/corpora.py:32-35 | succeeds exactly when every sentence converts, giving one message per sentence in order |
| Corpora.ConvertSentencesError | src/corpora.py:32-35 | a failure carries the error of the first sentence that fails to convert; every sentence before it converts |
| Corpora.ReadNluEvaluationCorpora | nlu_datasets/corpora.py:30-41 | the mock corpus is rejected; otherwise one message per sentence with its text, intent, converted entities and, in the package copy, its training flag, or the error of the first sentence that fails to convert |
| Corpora.ReadCorporaFilters | nlu_datasets/corpora.py:38-41 | the package copy's messages can always be filtered by training flag |
| Corpora.ReadCorporaUntaggedFilters | src/corpora.py:32-35 | the script copy's messages have no training flag, so filtering a non-empty corpus by it is a key error |
| Corpora.UpgradingIndices | tests/test_corpora.py:13-15 | in `Upgrading from 11.10 to 12.04` token 6 starts at character 24 and token 8 ends at 29 |
| Corpora.TrainEntity | tests/test_corpora.py:24-26 | token 4 of `when is the next train in muncher freiheit?` is the entity `train` at characters 17 to 22 |
| Corpora.GoogleReaderEntity | tests/test_corpora.py:32-34 | tokens 12 to 13 of the Google Reader sentence are the entity `Google Reader` at characters 55 to 68 |
| Snips.DataText | src/snips.py:16-17 | no segments give the empty text (shape only; its length is `TextLength` and its contents `DataTextAt`) |
| Snips.Accumulate | src/snips.py:23 | running totals: element `k` is the start value plus the sum of the first `k + 1` lengths |
| Snips.TextLength | src/snips.py:16-17 | the text is as long as the segments' lengths add up to |
| Snips.DataSpans | src/snips.py:20-25 | one span per segment (shape only; the spans themselves are `DataSpansClosedForm` and `DataSpansTile`) |
| Snips.DataSpansClosedForm | src/snips.py:20-25 | segment `k` spans from the length of the text before it to that plus its own length |
| Snips.DataSpansTile | src/snips.py:20-25 | the spans tile the text: the first starts at 0, each starts where the previous one ends, the last ends at the end of the text |
| Snips.DataTextAt | src/snips.py:16-25 | each segment's text is read back from the message text at its span |
| Snips.Tagged | src/snips.py:30-31 | the positions of tagged segments, in increasing order |
| Snips.TaggedComplete | src/snips.py:30-31 | every tagged segment is listed among those positions |
| Snips.DataEntities | src/snips.py:28-33 | at most one entity per segment (shape only; which entities is `EntitiesFromTagged` and `DataEntitiesAligned`) |
| Snips.EntitiesFromTagged | src/snips.py:28-33 | entity `j` is the `j`-th tagged segment, over its span |
| Snips.DataEntitiesAligned | src/snips.py:28-33 | one entity per tagged segment; each names exactly the characters of its value in the text; consecutive entities do not overlap |
| Snips.SegmentEntity | src/snips.py:32-33 | the entity of a tagged segment has the segment's span, type and text |
| Snips.DataMessage | src/snips.py:36-40 | the message of a query: the concatenated text, the segment entities, the intent, the training flag and the corpus |
| Snips.AddToPlaylistText | tests/test_snips.py:8-15 | the example query's text is `add Foo songs in my playlist música libre` |
| Snips.AddToPlaylistSpans | tests/test_snips.py:24-26 | the example query's segments span `(0,4) .. (29,41)` |
| Snips.AddToPlaylistEntities | tests/test_snips.py:29-32 | the example query has the entities `Foo`, `my` and `música libre` at 4-7, 17-19 and 29-41 |
| Utils.CreateEntity | src/utils.py:36-38 | an entity with the given offsets, type and value |
| Utils.BuildMessage | src/utils.py:41-43 | a message with the given text, intent and entities and no flags |
| Utils.CreateMessage | src/utils.py:41-46 | a built message that also records the training flag and the corpus |
| Utils.GetPath | src/utils.py:24-33 | an error exactly for the mock corpus; otherwise a path of the form `data/<folder>/original/…`, ending at the `original` directory exactly for SNIPS 2017 (which folder is `GetPathFolders`) |
| Utils.GetPathFolders | src/utils.py:27-32 | two corpora with paths share the folder under `data` exactly when they are the same corpus |
| Utils.ReaderFor | src/utils.py:70-81 | no reader for the mock corpus; the SNIPS reader exactly for SNIPS 2017; the NLU-Evaluation reader for the other three |
| Utils.ReadableCorporaHavePaths | src/utils.py:24-33 | a corpus has a reader exactly when it has a path |
| Utils.KeepTraining | src/utils.py:84-85 | only messages with the wanted flag, in order |
| Utils.KeepTrainingCounts | src/utils.py:84-85 | each message with the wanted flag is kept as often as it occurs, and every other message is dropped |
| Utils.KeepTrainingSnoc | src/utils.py:84-85 | filtering a list extended by one message extends the filtered list by that message exactly when its flag is the wanted one, so the filter keeps the input order |
| Utils.FilterByTraining | src/utils.py:84-85 | succeeds exactly when every message has a training flag, with the kept messages; otherwise the key error on `training` |
| Utils.TrainTestPartition | src/utils.py:84-85 | the train and test messages together are the corpus, as a multiset |
| Utils.GetIntents | src/utils.py:88-90 | one intent per message, in message order |
| Utils.IntentSet | src/utils.py:88-90 | the set of listed intents is the set of the messages' intents |
| Utils.MockSplit | tests/test_utils.py:26-29 | the mock corpus of `tests/utils.py` splits into 15 training and 5 test messages |
| Text.SplitJoin | nlu_datasets/converter.py:124 | splitting lines joined by a separator they do not contain gives the lines back |
| Text.RemoveSpaces | nlu_datasets/converter.py:121 | the intent without its spaces: no space is left and every other character keeps its count (the order is `RemoveSpacesSplit`) |
| Text.RemoveSpacesSplit | nlu_datasets/converter.py:121 | removing the spaces is joining the pieces between them in order, `''.join(s.split(' '))`, so the other characters keep their order |

## Left out

- Tokenizer: the repository calls NLTK's `WordPunctTokenizer`, whose code is not part of this model. `WordPunct` implements its pattern of word runs and punctuation runs over ASCII classes. Unicode letters and digits such as `ú` count as punctuation here, not as word characters. Non-ASCII whitespace such as the no-break space U+00A0 or the ideographic space U+3000 also counts as punctuation and so becomes a token, where Python's `\s` would skip it.
- `convert_message_to_annotated_str` and `MarkdownWriter`, with the bracket stripping in `nlu_datasets/converter.py`, are left out. They render messages through an external library's markdown writer.
- File and process I/O is left out: `write`, `write_ner`, the TSV/CSV writers, `makedirs`, JSON loading (`convert_json_dict`), `get_project_root`, and the `__main__` code.
- Corpus traversal is left out: `get_folders`, `read_snips2017` and `convert_file_messages`. They walk directories. The readers they call for each query are modelled.
- `get_messages` is modelled only as its dispatch table (`Utils.ReaderFor`). Its `lru_cache`, the tuple it builds and its `KeyError` for the mock corpus are not. Functions that read a corpus take its messages as a parameter.
- The pandas dataframe helper `convert_messages_dataframe` is left out.
- The stratified train/test splits are left out: `src/converter.py` is not part of this model.
- `nlu_datasets/utils.py` and `nlu_datasets/my_types.py` are not part of this model. Their `src/` counterparts stand in for them, and the `Task` enumeration is modelled as `Intent`, `Ner` and one other task.
- Laziness: Python's `map` and `filter` are lazy, so their errors surface only when the result is consumed. The model reports such an error for the whole result.
- `message.data.get('entities', [])`: every modelled message carries an entity list, possibly empty.
- Utils.GetPath: the mock-corpus guard raises an `AssertionError` in the source. The model returns `UnsupportedCorpus(Mock)`. The project-root prefix is dropped, so the path is relative to the project root.
- Corpora.ConvertIndex: for a negative index in range, the contract states only that the conversion succeeds. `Corpora.TokenPosition` states which token it reads.
- Corpora.ReadNluEvaluationCorpora: the path lookup happens, but the file is not read. The sentences are a parameter. For `Snips2017` the path is a directory, so the source's `open` raises, while the model returns the converted sentences; `get_messages` never sends that corpus to this reader (`Utils.ReaderFor`).
