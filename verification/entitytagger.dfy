/** The entity tagger of the NER converter: after merging, every merged span
    whose start is an entity start is tagged by re-tokenizing that entity's
    own value (`B-type` for the first sub-token, `I-type` for the rest), and
    every other merged span gets `O`. */
module EntityTagger {
  import opened Types
  import opened WordPunct
  import opened SpanMerger

  /** A tag that opens an entity. */
  predicate IsBegin(tag: string) {
    |tag| >= 2 && tag[..2] == "B-"
  }

  /** A tag that continues an entity. */
  predicate IsInside(tag: string) {
    |tag| >= 2 && tag[..2] == "I-"
  }

  /** Every `I-` tag continues a `B-` or `I-` tag of the same type. */
  ghost predicate ValidBio(tags: seq<string>) {
    forall k :: 0 <= k < |tags| && IsInside(tags[k]) ==>
      k > 0 && (IsBegin(tags[k - 1]) || IsInside(tags[k - 1])) && tags[k - 1][2..] == tags[k][2..]
  }

  /** `annotate_entity_tokens`: one tag per token of the entity's value. The
      type is used as it is. */
  function AnnotateEntityTokens(e: Entity): (tags: seq<string>)
    ensures |tags| == |Tokenize(e.value)|
    ensures forall k :: 0 <= k < |tags| ==> tags[k] == (if k == 0 then "B-" else "I-") + e.entityType
    ensures ValidBio(tags)
    ensures tags == [] || !IsInside(tags[0])
  {
    var n := |Tokenize(e.value)|;
    if n == 0 then []
    else
      var tags := ["B-" + e.entityType] + seq(n - 1, _ => "I-" + e.entityType);
      assert forall k :: 0 <= k < |tags| ==> tags[k][2..] == e.entityType;
      assert forall k :: 0 < k < |tags| ==> tags[k] == "I-" + e.entityType;
      assert !IsInside(tags[0]) by { assert tags[0][..2] == "B-"; }
      tags
  }

  /** The index of the first entity in list order that starts at `start`. */
  function FirstWithStart(entities: seq<Entity>, start: int): (k: nat)
    requires start in Starts(entities)
    ensures k < |entities| && entities[k].start == start
    ensures forall j :: 0 <= j < k ==> entities[j].start != start
  {
    if entities[0].start == start then 0
    else 1 + FirstWithStart(entities[1..], start)
  }

  /** Entity `p` is the first in list order that starts at `start`, the one
      `filter(...)[0]` picks. */
  predicate FirstStarting(entities: seq<Entity>, p: int, start: int) {
    && 0 <= p < |entities|
    && entities[p].start == start
    && forall q :: 0 <= q < p ==> entities[q].start != start
  }

  /** `FirstWithStart` finds exactly the first entity with that start. */
  lemma FirstStartingIsFirstWithStart(entities: seq<Entity>, p: int, start: int)
    requires FirstStarting(entities, p, start)
    ensures start in Starts(entities) && FirstWithStart(entities, start) == p
  {
    assert Starts(entities)[p] == start;
    var k := FirstWithStart(entities, start);
    assert !(k < p) && !(p < k);
  }

  /** The tags of one merged span: the tags of the first entity that starts
      where the span starts, or a single `O` when no entity starts there. */
  function SpanTags(x: Span, entities: seq<Entity>): (tags: seq<string>)
    ensures x.start !in Starts(entities) ==> tags == ["O"]
    ensures x.start in Starts(entities) ==> tags == AnnotateEntityTokens(entities[FirstWithStart(entities, x.start)])
    ensures ValidBio(tags) && (tags == [] || !IsInside(tags[0]))
  {
    if x.start in Starts(entities) then AnnotateEntityTokens(entities[FirstWithStart(entities, x.start)])
    else
      assert !IsInside("O");
      ["O"]
  }

  /** Two tag lists join into a valid one when the second does not start
      inside an entity. */
  lemma ValidBioAppend(a: seq<string>, b: seq<string>)
    requires ValidBio(a) && ValidBio(b) && (b == [] || !IsInside(b[0]))
    ensures ValidBio(a + b)
  {
    var t := a + b;
    forall k | 0 <= k < |t| && IsInside(t[k])
      ensures k > 0 && (IsBegin(t[k - 1]) || IsInside(t[k - 1])) && t[k - 1][2..] == t[k][2..]
    {
      if k >= |a| {
        assert t[k] == b[k - |a|];
        assert k - |a| > 0;
        assert t[k - 1] == b[k - |a| - 1];
      } else {
        assert t[k] == a[k] && t[k - 1] == a[k - 1];
      }
    }
  }

  /** The flattened tags of a list of merged spans. */
  function TagSpans(merged: seq<Span>, entities: seq<Entity>): (tags: seq<string>)
    ensures ValidBio(tags) && (tags == [] || !IsInside(tags[0]))
    decreases |merged|
  {
    if merged == [] then []
    else
      var head := SpanTags(merged[0], entities);
      var rest := TagSpans(merged[1..], entities);
      ValidBioAppend(head, rest);
      assert head == [] || (head + rest)[0] == head[0];
      head + rest
  }

  /** `annotate_tokens_using_ner`: the tags are valid BIO tags whatever the
      spans and entities. */
  function AnnotateTokensUsingNer(spans: seq<Span>, entities: seq<Entity>): (tags: seq<string>)
    ensures ValidBio(tags)
  {
    TagSpans(MergeSpans(spans, entities), entities)
  }

  /** The tags of two lists of merged spans, one after the other, are the
      tags of the first followed by the tags of the second. */
  lemma {:induction false} TagSpansAppend(a: seq<Span>, b: seq<Span>, entities: seq<Entity>)
    ensures TagSpans(a + b, entities) == TagSpans(a, entities) + TagSpans(b, entities)
    decreases |a|
  {
    if a == [] {
      assert a + b == b;
    } else {
      assert (a + b)[0] == a[0] && (a + b)[1..] == a[1..] + b;
      TagSpansAppend(a[1..], b, entities);
      TagSpansCons(a + b, entities);
      TagSpansCons(a, entities);
      AppendAssoc(SpanTags(a[0], entities), TagSpans(a[1..], entities), TagSpans(b, entities));
    }
  }

  /** One more merged span adds its own tags at the end. */
  lemma TagSpansSnoc(merged: seq<Span>, y: Span, entities: seq<Entity>)
    ensures TagSpans(merged + [y], entities) == TagSpans(merged, entities) + SpanTags(y, entities)
  {
    TagSpansAppend(merged, [y], entities);
    TagSpansCons([y], entities);
    assert [y][1..] == [];
  }

  /** The tags of the first `i` spans are a prefix of the tags of all of
      them: later spans never change the tags of earlier ones. */
  lemma AnnotatePrefix(spans: seq<Span>, entities: seq<Entity>, i: nat)
    requires i <= |spans|
    ensures var pre, all := AnnotateTokensUsingNer(spans[..i], entities), AnnotateTokensUsingNer(spans, entities);
      |pre| <= |all| && all[..|pre|] == pre
  {
    var starts, ends := Starts(entities), Ends(entities);
    assert spans == spans[..i] + spans[i..];
    MergeFromAppend(spans[..i], spans[i..], starts, ends, Initial);
    TagSpansAppend(MergeSpans(spans[..i], entities),
      MergeFrom(spans[i..], starts, ends, StateAfter(spans[..i], starts, ends, Initial)), entities);
  }

  /** What span `i` adds to the tags, given the spans before it. A span that
      starts and ends an entity adds the tags of the first entity starting
      there. A span that only starts an entity, or that matches nothing
      inside an open run, adds nothing. A span that only ends an entity adds
      the tags of the span merged from the last entity start seen: the tags
      of the first entity starting there, or, with no start seen, those of
      the span from 0. A span that matches nothing outside a run adds a
      single `O`. */
  lemma AnnotateStep(spans: seq<Span>, entities: seq<Entity>, i: nat)
    requires i < |spans|
    ensures var x, before, after := spans[i], AnnotateTokensUsingNer(spans[..i], entities), AnnotateTokensUsingNer(spans[..i + 1], entities);
      && (forall p :: FirstStarting(entities, p, x.start) && EndMatch(x, entities) ==> after == before + AnnotateEntityTokens(entities[p]))
      && (StartMatch(x, entities) && !EndMatch(x, entities) ==> after == before)
      && (!StartMatch(x, entities) && EndMatch(x, entities) && (forall j :: 0 <= j < i ==> !StartMatch(spans[j], entities))
          ==> after == before + SpanTags(Span(0, x.end), entities))
      && (forall j, p ::
            (!StartMatch(x, entities) && EndMatch(x, entities) && LastOpenedBefore(spans, entities, i, j)
             && FirstStarting(entities, p, spans[j].start)) ==> after == before + AnnotateEntityTokens(entities[p]))
      && (!StartMatch(x, entities) && !EndMatch(x, entities) && OpenBefore(spans, entities, i) ==> after == before)
      && (!StartMatch(x, entities) && !EndMatch(x, entities) && !OpenBefore(spans, entities, i) ==> after == before + ["O"])
  {
    var x := spans[i];
    var m0 := MergeSpans(spans[..i], entities);
    MergeSpansStep(spans, entities, i);
    MatchesAreMembership(x, entities);
    if StartMatch(x, entities) && EndMatch(x, entities) {
      TagSpansSnoc(m0, x, entities);
      forall p | FirstStarting(entities, p, x.start) {
        FirstStartingIsFirstWithStart(entities, p, x.start);
      }
    } else if EndMatch(x, entities) {
      if forall j :: 0 <= j < i ==> !StartMatch(spans[j], entities) {
        TagSpansSnoc(m0, Span(0, x.end), entities);
      }
      forall j, p | LastOpenedBefore(spans, entities, i, j) && FirstStarting(entities, p, spans[j].start)
        ensures AnnotateTokensUsingNer(spans[..i + 1], entities)
          == AnnotateTokensUsingNer(spans[..i], entities) + AnnotateEntityTokens(entities[p])
      {
        FirstStartingIsFirstWithStart(entities, p, spans[j].start);
        TagSpansSnoc(m0, Span(spans[j].start, x.end), entities);
      }
    } else if !StartMatch(x, entities) && !OpenBefore(spans, entities, i) {
      TagSpansSnoc(m0, x, entities);
    }
  }

  /** A span that matches no entity boundary and lies outside every open run
      is tagged `O`, right after the tags of the spans before it. */
  lemma OutsideSpanTagged(spans: seq<Span>, entities: seq<Entity>, i: nat)
    requires i < |spans|
    requires !StartMatch(spans[i], entities) && !EndMatch(spans[i], entities)
    requires !OpenBefore(spans, entities, i)
    ensures var before, tags := AnnotateTokensUsingNer(spans[..i], entities), AnnotateTokensUsingNer(spans, entities);
      |before| < |tags| && tags[|before|] == "O"
  {
    AnnotateStep(spans, entities, i);
    AnnotatePrefix(spans, entities, i + 1);
    PrefixAt(AnnotateTokensUsingNer(spans[..i], entities), ["O"], AnnotateTokensUsingNer(spans, entities));
  }

  /** An entity that starts where span `i` starts and ends where span `j`
      ends, with no entity starting after span `i` or ending before span `j`
      in between: the tag list holds, right after the tags of the spans
      before `i`, a begin tag and then inside tags of the entity's type, one
      per token of its value. When the value has `j - i + 1` tokens, the
      block is one tag per span it covers. */
  lemma EntityBlockTags(spans: seq<Span>, entities: seq<Entity>, p: nat, i: nat, j: nat)
    requires i <= j < |spans|
    requires FirstStarting(entities, p, spans[i].start) && entities[p].end == spans[j].end
    requires QuietBetween(spans, entities, i, j)
    ensures var before, tags := AnnotateTokensUsingNer(spans[..i], entities), AnnotateTokensUsingNer(spans, entities);
      var e, n := entities[p], |Tokenize(entities[p].value)|;
      && |before| + n <= |tags|
      && (n > 0 ==> tags[|before|] == "B-" + e.entityType)
      && (forall k :: |before| < k < |before| + n ==> tags[k] == "I-" + e.entityType)
  {
    var before := AnnotateTokensUsingNer(spans[..i], entities);
    var tags := AnnotateTokensUsingNer(spans, entities);
    EntityBlockRun(spans, entities, p, i, j);
    AnnotatePrefix(spans, entities, j + 1);
    BlockAt(before, entities[p], tags);
  }

  /** When `tags` starts with `before` and then the tags of `e`, it holds
      `e`'s begin tag right after `before` and `e`'s inside tags after that. */
  lemma BlockAt(before: seq<string>, e: Entity, tags: seq<string>)
    requires var block := AnnotateEntityTokens(e);
      |before + block| <= |tags| && tags[..|before + block|] == before + block
    ensures var n := |Tokenize(e.value)|;
      && |before| + n <= |tags|
      && (n > 0 ==> tags[|before|] == "B-" + e.entityType)
      && (forall k :: |before| < k < |before| + n ==> tags[k] == "I-" + e.entityType)
  {
    PrefixAt(before, AnnotateEntityTokens(e), tags);
  }

  /** The spans `i..j` of an entity's run add exactly that entity's tags
      to the tags of the spans before them. */
  lemma EntityBlockRun(spans: seq<Span>, entities: seq<Entity>, p: nat, i: nat, j: nat)
    requires i <= j < |spans|
    requires FirstStarting(entities, p, spans[i].start) && entities[p].end == spans[j].end
    requires QuietBetween(spans, entities, i, j)
    ensures AnnotateTokensUsingNer(spans[..j + 1], entities)
      == AnnotateTokensUsingNer(spans[..i], entities) + AnnotateEntityTokens(entities[p])
  {
    assert StartMatch(spans[i], entities) && EndMatch(spans[j], entities) by {
      assert entities[p] in entities;
    }
    MergeEntityRun(spans, entities, i, j);
    TagSpansSnoc(MergeSpans(spans[..i], entities), Span(spans[i].start, spans[j].end), entities);
    FirstStartingIsFirstWithStart(entities, p, spans[i].start);
  }

  /** When `all` starts with `pre + add`, the elements of `add` sit in `all`
      right after `pre`. */
  lemma PrefixAt(pre: seq<string>, add: seq<string>, all: seq<string>)
    requires |pre + add| <= |all| && all[..|pre + add|] == pre + add
    ensures forall k :: |pre| <= k < |pre| + |add| ==> all[k] == add[k - |pre|]
  {
    forall k | |pre| <= k < |pre| + |add| ensures all[k] == add[k - |pre|] {
      assert all[k] == all[..|pre + add|][k];
    }
  }

  /** The merged spans that do not start an entity. */
  function Outside(merged: seq<Span>, entities: seq<Entity>): (r: seq<Span>)
    ensures forall x :: x in r <==> x in merged && x.start !in Starts(entities)
  {
    if merged == [] then []
    else (if merged[0].start in Starts(entities) then [] else [merged[0]]) + Outside(merged[1..], entities)
  }

  /** The total token count of the entities the merged spans start. */
  function EntityTokenCount(merged: seq<Span>, entities: seq<Entity>): nat {
    if merged == [] then 0
    else
      var x := merged[0];
      (if x.start in Starts(entities) then |Tokenize(entities[FirstWithStart(entities, x.start)].value)| else 0)
        + EntityTokenCount(merged[1..], entities)
  }

  /** The tag list has one `O` per merged span outside every entity, plus the
      sub-token count of each entity a merged span starts. */
  lemma {:induction false} TagSpansLength(merged: seq<Span>, entities: seq<Entity>)
    ensures |TagSpans(merged, entities)| == |Outside(merged, entities)| + EntityTokenCount(merged, entities)
    decreases |merged|
  {
    if merged != [] {
      TagSpansLength(merged[1..], entities);
    }
  }

  /** Without entities every token is tagged `O`. */
  lemma AnnotateWithoutEntities(spans: seq<Span>)
    ensures AnnotateTokensUsingNer(spans, []) == seq(|spans|, _ => "O")
  {
    AllOutside(spans);
  }

  lemma {:induction false} AllOutside(spans: seq<Span>)
    ensures TagSpans(spans, []) == seq(|spans|, _ => "O")
    decreases |spans|
  {
    if spans != [] {
      AllOutside(spans[1..]);
    }
  }

  /** `tag` is `O` or the begin or inside tag of one of the entities' types. */
  ghost predicate TagOf(tag: string, entities: seq<Entity>) {
    || tag == "O"
    || exists j :: 0 <= j < |entities| && (tag == "B-" + entities[j].entityType || tag == "I-" + entities[j].entityType)
  }

  lemma {:induction false} TagSpansOrigin(merged: seq<Span>, entities: seq<Entity>)
    ensures forall k :: 0 <= k < |TagSpans(merged, entities)| ==> TagOf(TagSpans(merged, entities)[k], entities)
    decreases |merged|
  {
    if merged != [] {
      TagSpansOrigin(merged[1..], entities);
      var head := SpanTags(merged[0], entities);
      var rest := TagSpans(merged[1..], entities);
      var x := merged[0];
      if x.start in Starts(entities) {
        var j := FirstWithStart(entities, x.start);
        assert forall k :: 0 <= k < |head| ==> TagOf(head[k], entities) by {
          forall k | 0 <= k < |head| ensures TagOf(head[k], entities) {
            assert head[k] == (if k == 0 then "B-" else "I-") + entities[j].entityType;
          }
        }
      }
      assert TagSpans(merged, entities) == head + rest;
    }
  }

  /** Every tag the tagger emits is `O` or names the type of one of the
      message's entities. */
  lemma TagsComeFromEntities(spans: seq<Span>, entities: seq<Entity>)
    ensures var tags := AnnotateTokensUsingNer(spans, entities);
      forall k :: 0 <= k < |tags| ==> TagOf(tags[k], entities)
  {
    TagSpansOrigin(MergeSpans(spans, entities), entities);
  }

  /** The entity value `karl-preis-platz` is tagged with one begin tag and
      four inside tags, one per sub-token. */
  lemma KarlPreisPlatzTags(e: Entity)
    requires e.value == "karl-preis-platz" && e.entityType == "StationDest"
    ensures AnnotateEntityTokens(e)
      == ["B-StationDest", "I-StationDest", "I-StationDest", "I-StationDest", "I-StationDest"]
  {
    KarlPreisPlatz(e.value);
    assert AnnotateEntityTokens(e) == ["B-" + e.entityType, "I-" + e.entityType, "I-" + e.entityType,
      "I-" + e.entityType, "I-" + e.entityType];
    assert "B-" + e.entityType == "B-StationDest" && "I-" + e.entityType == "I-StationDest";
  }

  /** The worked example of the NER converter: in `Alternative to Facebook
      Messenger.` the entity `Facebook Messenger` (offsets 15 to 33, type
      `WebService`) covers the third and fourth tokens, which are tagged as
      one entity while the others are outside. */
  lemma MessengerExample(t: string, e: Entity)
    requires t == "Alternative to Facebook Messenger."
    requires e == Entity(15, 33, "WebService", "Facebook Messenger")
    ensures AnnotateTokensUsingNer(Tokenize(t), [e]) == ["O", "O", "B-WebService", "I-WebService", "O"]
  {
    FacebookMessengerCount(e.value);
    MessengerSentence(t, e);
    WebServiceTags(e.entityType);
  }

  /** The sentence tagged with any two-token entity at offsets 15 to 33. */
  lemma MessengerSentence(t: string, e: Entity)
    requires t == "Alternative to Facebook Messenger."
    requires e.start == 15 && e.end == 33 && |Tokenize(e.value)| == 2
    ensures AnnotateTokensUsingNer(Tokenize(t), [e])
      == ["O", "O", "B-" + e.entityType, "I-" + e.entityType, "O"]
  {
    MessengerTokens(t);
    MessengerMerge(Tokenize(t), e);
    MessengerTags(e);
  }

  lemma WebServiceTags(ty: string)
    requires ty == "WebService"
    ensures ["O", "O", "B-" + ty, "I-" + ty, "O"] == ["O", "O", "B-WebService", "I-WebService", "O"]
  {
    assert "B-" + ty == "B-WebService";
    assert "I-" + ty == "I-WebService";
  }

  /** The two tokens the entity covers merge into one span; the span before
      them and the full stop after them stay as they are. */
  lemma MessengerMerge(spans: seq<Span>, e: Entity)
    requires spans == [Span(0, 11), Span(12, 14), Span(15, 23), Span(24, 33), Span(33, 34)]
    requires e.start == 15 && e.end == 33
    ensures MergeSpans(spans, [e]) == [Span(0, 11), Span(12, 14), Span(15, 33), Span(33, 34)]
  {
    var starts, ends := Starts([e]), Ends([e]);
    assert starts == [15] && ends == [33];
    var s0 := Initial;
    var s1 := Step(s0, spans[0], starts, ends);
    var s2 := Step(s1, spans[1], starts, ends);
    var s3 := Step(s2, spans[2], starts, ends);
    var s4 := Step(s3, spans[3], starts, ends);
    var s5 := Step(s4, spans[4], starts, ends);
    MergeFromAt(spans, 0, starts, ends, s0);
    MergeFromAt(spans, 1, starts, ends, s1);
    MergeFromAt(spans, 2, starts, ends, s2);
    MergeFromAt(spans, 3, starts, ends, s3);
    MergeFromAt(spans, 4, starts, ends, s4);
    assert spans[5..] == [] && spans[0..] == spans;
    assert s3 == MergeState(15, true);
  }

  /** The merged spans are tagged `O`, `O`, a begin and an inside tag of the
      entity's type, and `O`, when the entity's value is two tokens long. */
  lemma MessengerTags(e: Entity)
    requires e.start == 15 && |Tokenize(e.value)| == 2
    ensures TagSpans([Span(0, 11), Span(12, 14), Span(15, 33), Span(33, 34)], [e])
      == ["O", "O", "B-" + e.entityType, "I-" + e.entityType, "O"]
  {
    assert AnnotateEntityTokens(e) == ["B-" + e.entityType, "I-" + e.entityType];
    ThirdSpanTagged([Span(0, 11), Span(12, 14), Span(15, 33), Span(33, 34)], e);
  }

  /** Four merged spans of which only the third starts the one entity: the
      entity's tags stand between two `O` tags and before a third. */
  lemma ThirdSpanTagged(merged: seq<Span>, e: Entity)
    requires |merged| == 4 && merged[2].start == e.start
    requires merged[0].start != e.start && merged[1].start != e.start && merged[3].start != e.start
    ensures TagSpans(merged, [e]) == ["O", "O"] + AnnotateEntityTokens(e) + ["O"]
  {
    var es := [e];
    assert Starts(es) == [e.start];
    var tags := AnnotateEntityTokens(e);
    TagSpansCons(merged[3..], es);
    assert merged[3..][1..] == [];
    TagSpansCons(merged[2..], es);
    assert merged[2..][1..] == merged[3..];
    TagSpansCons(merged[1..], es);
    assert merged[1..][1..] == merged[2..];
    TagSpansCons(merged, es);
    AppendAssoc(["O"], tags, ["O"]);
    AppendAssoc(["O"], ["O"] + tags, ["O"]);
  }

  /** One step of the tag list: the first merged span's tags, then the rest's. */
  lemma TagSpansCons(merged: seq<Span>, entities: seq<Entity>)
    requires merged != []
    ensures TagSpans(merged, entities) == SpanTags(merged[0], entities) + TagSpans(merged[1..], entities)
  {
  }

  /** `Facebook Messenger` is two tokens. */
  lemma FacebookMessengerCount(v: string)
    requires v == "Facebook Messenger"
    ensures |Tokenize(v)| == 2
  {
    var c, d := "Facebook", "Messenger";
    assert v == c + " " + d;
    assert IsWord(c) && IsWord(d);
    WordToken(d);
    SpaceWord(c, d, [Span(0, |d|)]);
  }
}
