/** The records every converter works on: corpus and task identifiers,
    character spans, entities and canonical messages. */
module Types {

  /** The corpora the converters know about. `Mock` exists only for tests. */
  datatype Corpus = Mock | AskUbuntu | Chatbot | WebApplications | Snips2017

  /** The output task of the token-per-line writer. The converter only ever
      distinguishes `Intent` and `Ner`; `Other` stands for every other task. */
  datatype Task = Intent | Ner | Other

  /** A half-open character interval `[start, end)`. */
  datatype Span = Span(start: int, end: int)

  /** An entity annotation: character offsets into the owning message's text,
      the entity type, and the literal value that was annotated. */
  datatype Entity = Entity(start: int, end: int, entityType: string, value: string)

  datatype Option<+T> = None | Some(value: T)

  /** A canonical message. `training` and `corpus` are optional keys of the
      message's data: readers that do not set them leave them `None`. */
  datatype Message = Message(
    text: string,
    intent: string,
    entities: seq<Entity>,
    training: Option<bool>,
    corpus: Option<Corpus>)

  /** The failures the modelled code raises. */
  datatype Error =
    | IndexError(index: int, length: nat)   // a token index outside the span list
    | MissingKey(key: string)               // a message without the requested data key
    | UnsupportedCorpus(corpus: Corpus)     // a path requested for the mock corpus

  datatype Result<+T> = Ok(value: T) | Err(error: Error)

  /** Past its head, a list with a head in front is the tail shifted by one.
      A proof step only, stated once so that callers stay within the
      verifier's resource budget; it models nothing of the source. */
  lemma ConsIndex<T>(x: T, xs: seq<T>)
    ensures ([x] + xs)[0] == x
    ensures forall k :: 0 < k < |[x] + xs| ==> ([x] + xs)[k] == xs[k - 1]
  {
  }

  /** Concatenation regroups freely. A proof step only, like `ConsIndex`. */
  lemma AppendAssoc<T>(a: seq<T>, b: seq<T>, c: seq<T>)
    ensures (a + b) + c == a + (b + c)
  {
  }
}
