/** The SNIPS 2017 reader: a query comes as a list of segments, each a piece
    of text that may be tagged with an entity type. The message text is the
    segments' texts one after the other, and every tagged segment becomes an
    entity over its own characters. Walking the corpus directories and
    loading the files is not modelled. */
module Snips {
  import opened Types
  import opened Utils

  /** One element of a query's `data` list: its text and, when the segment
      is tagged, the entity type. */
  datatype Segment = Segment(text: string, entity: Option<string>)

  /** `convert_data_text`: the segments' texts concatenated. */
  function DataText(data: seq<Segment>): (r: string)
    ensures |data| == 0 ==> r == ""
    decreases |data|
  {
    if data == [] then "" else data[0].text + DataText(data[1..])
  }

  /** The sum of a list of lengths. */
  function Sum(xs: seq<nat>): nat
    decreases |xs|
  {
    if xs == [] then 0 else xs[0] + Sum(xs[1..])
  }

  /** The length of every segment's text, in order. */
  function Lengths(data: seq<Segment>): (r: seq<nat>)
    ensures |r| == |data|
    ensures forall k :: 0 <= k < |r| ==> r[k] == |data[k].text|
  {
    seq(|data|, k requires 0 <= k < |data| => |data[k].text|)
  }

  /** `itertools.accumulate` with addition, started from `acc`: the running
      totals. */
  function Accumulate(xs: seq<nat>, acc: nat): (r: seq<nat>)
    ensures |r| == |xs|
    ensures forall k :: 0 <= k < |r| ==> r[k] == acc + Sum(xs[..k + 1])
    decreases |xs|
  {
    if xs == [] then []
    else
      var rest := Accumulate(xs[1..], acc + xs[0]);
      var r := [acc + xs[0]] + rest;
      assert xs[..1][1..] == [];
      forall k | 0 < k < |r| ensures r[k] == acc + Sum(xs[..k + 1]) {
        assert xs[..k + 1][1..] == xs[1..][..k];
      }
      r
  }

  /** `convert_data_spans`: each segment's start is the running total of the
      lengths before it (`[0]` followed by the running totals without the
      last), and its end is that start plus its length; `zip` stops at the
      shorter list. */
  function DataSpans(data: seq<Segment>): (spans: seq<Span>)
    ensures |spans| == |data|
  {
    var lengths := Lengths(data);
    var totals := Accumulate(lengths, 0);
    var starts := [0] + (if |totals| == 0 then [] else totals[..|totals| - 1]);
    var n := if |starts| <= |lengths| then |starts| else |lengths|;
    seq(n, k requires 0 <= k < n => Span(starts[k], starts[k] + lengths[k]))
  }

  /** The text of the segments is as long as their lengths add up to. */
  lemma {:induction false} TextLength(data: seq<Segment>)
    ensures |DataText(data)| == Sum(Lengths(data))
    decreases |data|
  {
    if data != [] {
      TextLength(data[1..]);
      assert Lengths(data)[1..] == Lengths(data[1..]);
    }
  }

  /** Each segment's span starts where the text of the segments before it
      ends, and is as long as the segment's own text. */
  lemma DataSpansClosedForm(data: seq<Segment>)
    ensures var spans := DataSpans(data);
      forall k :: 0 <= k < |data| ==>
        && spans[k].start == |DataText(data[..k])|
        && spans[k].end == spans[k].start + |data[k].text|
  {
    var spans := DataSpans(data);
    var lengths := Lengths(data);
    forall k | 0 <= k < |data|
      ensures spans[k].start == |DataText(data[..k])|
      ensures spans[k].end == spans[k].start + |data[k].text|
    {
      TextLength(data[..k]);
      assert Lengths(data[..k]) == lengths[..k];
      if k > 0 {
        assert lengths[..k - 1 + 1] == lengths[..k];
      }
    }
  }

  /** The text of the first `k + 1` segments is that of the first `k` and
      then the `k`-th segment's text. */
  lemma {:induction false} DataTextSnoc(data: seq<Segment>, k: nat)
    requires k < |data|
    ensures DataText(data[..k + 1]) == DataText(data[..k]) + data[k].text
    decreases k
  {
    if k == 0 {
      assert data[..1] == [data[0]];
      assert data[..1][1..] == [];
    } else {
      var tail := data[1..];
      DataTextSnoc(tail, k - 1);
      assert data[..k + 1][1..] == tail[..k];
      assert data[..k][1..] == tail[..k - 1];
      assert tail[k - 1] == data[k];
    }
  }

  /** Each segment's text can be read back from the message text at its span. */
  lemma DataTextAt(data: seq<Segment>, k: nat)
    requires k < |data|
    ensures var spans := DataSpans(data);
      && 0 <= spans[k].start <= spans[k].end <= |DataText(data)|
      && DataText(data)[spans[k].start..spans[k].end] == data[k].text
  {
    SpanAt(data, k);
    DataTextSplit(data, k);
    SliceMiddle(DataText(data[..k]), data[k].text, DataText(data[k + 1..]));
  }

  /** The text is that of the segments before the `k`-th, the `k`-th
      segment's text, and that of the segments after it. */
  lemma DataTextSplit(data: seq<Segment>, k: nat)
    requires k < |data|
    ensures DataText(data) == DataText(data[..k]) + data[k].text + DataText(data[k + 1..])
  {
    DataTextSnoc(data, k);
    DataTextAppend(data[..k + 1], data[k + 1..]);
    assert data[..k + 1] + data[k + 1..] == data;
  }

  lemma SliceMiddle(b: string, x: string, a: string)
    ensures |b| + |x| <= |b + x + a| && (b + x + a)[|b|..|b| + |x|] == x
  {
  }

  lemma {:induction false} DataTextAppend(a: seq<Segment>, b: seq<Segment>)
    ensures DataText(a + b) == DataText(a) + DataText(b)
    decreases |a|
  {
    if a == [] {
      assert a + b == b;
    } else {
      assert (a + b)[1..] == a[1..] + b;
      DataTextAppend(a[1..], b);
    }
  }

  /** The spans of the segments tile the message text: the first starts at 0,
      each starts where the one before ends, and the last ends at the end of
      the text. */
  lemma DataSpansTile(data: seq<Segment>)
    ensures var spans := DataSpans(data);
      && (|spans| > 0 ==> spans[0].start == 0)
      && (forall k :: 0 < k < |spans| ==> spans[k].start == spans[k - 1].end)
      && (|spans| > 0 ==> spans[|spans| - 1].end == |DataText(data)|)
  {
    var spans := DataSpans(data);
    forall k | 0 < k < |spans| ensures spans[k].start == spans[k - 1].end {
      SpanFollows(data, k);
    }
    if |spans| > 0 {
      SpanFirst(data);
      SpanLast(data);
    }
  }

  lemma SpanFirst(data: seq<Segment>)
    requires |data| > 0
    ensures DataSpans(data)[0].start == 0
  {
    DataSpansClosedForm(data);
    assert data[..0] == [];
  }

  lemma SpanFollows(data: seq<Segment>, k: nat)
    requires 0 < k < |data|
    ensures DataSpans(data)[k].start == DataSpans(data)[k - 1].end
  {
    DataSpansClosedForm(data);
    DataTextSnoc(data, k - 1);
    assert k - 1 + 1 == k;
  }

  lemma SpanLast(data: seq<Segment>)
    requires |data| > 0
    ensures DataSpans(data)[|data| - 1].end == |DataText(data)|
  {
    var n := |data| - 1;
    DataSpansClosedForm(data);
    DataTextSnoc(data, n);
    assert data[..n + 1] == data;
  }

  /** The entity a tagged segment stands for. */
  function SegmentEntity(span: Span, segment: Segment): (e: Entity)
    requires segment.entity.Some?
    ensures e.start == span.start && e.end == span.end
    ensures e.entityType == segment.entity.value && e.value == segment.text
  {
    CreateEntity(span.start, span.end, segment.entity.value, segment.text)
  }

  /** The entities of the tagged segments from position `i` on, each over
      its span; `spans` and `data` are walked together as `zip` does. */
  function EntitiesFrom(spans: seq<Span>, data: seq<Segment>, i: nat): (r: seq<Entity>)
    requires |spans| == |data| && i <= |data|
    ensures |r| <= |data| - i
    decreases |data| - i
  {
    if i == |data| then []
    else
      var rest := EntitiesFrom(spans, data, i + 1);
      if data[i].entity.Some? then [SegmentEntity(spans[i], data[i])] + rest else rest
  }

  /** `convert_data_entities`. */
  function DataEntities(data: seq<Segment>): (r: seq<Entity>)
    ensures |r| <= |data|
  {
    EntitiesFrom(DataSpans(data), data, 0)
  }

  /** The positions from `i` on of the tagged segments, in increasing order. */
  function TaggedFrom(data: seq<Segment>, i: nat): (ks: seq<nat>)
    requires i <= |data|
    ensures forall j :: 0 <= j < |ks| ==> i <= ks[j] < |data| && data[ks[j]].entity.Some?
    ensures forall j :: 0 < j < |ks| ==> ks[j - 1] < ks[j]
    decreases |data| - i
  {
    if i == |data| then []
    else (if data[i].entity.Some? then [i] else []) + TaggedFrom(data, i + 1)
  }

  /** Every tagged segment from `i` on is listed. */
  lemma {:induction false} TaggedFromComplete(data: seq<Segment>, i: nat, k: nat)
    requires i <= k < |data| && data[k].entity.Some?
    ensures k in TaggedFrom(data, i)
    decreases k - i
  {
    if i < k {
      TaggedFromComplete(data, i + 1, k);
    }
  }

  /** The positions of the tagged segments: exactly those, in increasing order. */
  function Tagged(data: seq<Segment>): (ks: seq<nat>)
    ensures forall j :: 0 <= j < |ks| ==> ks[j] < |data| && data[ks[j]].entity.Some?
    ensures forall j :: 0 < j < |ks| ==> ks[j - 1] < ks[j]
  {
    TaggedFrom(data, 0)
  }

  /** Every tagged segment is among the positions `Tagged` lists. */
  lemma TaggedComplete(data: seq<Segment>, k: nat)
    requires k < |data| && data[k].entity.Some?
    ensures k in Tagged(data)
  {
    TaggedFromComplete(data, 0, k);
  }

  /** The zip yields the entities of the tagged segments, in segment order:
      entity `j` is the `j`-th tagged segment over its span. */
  lemma {:induction false} EntitiesFromTagged(spans: seq<Span>, data: seq<Segment>, i: nat)
    requires |spans| == |data| && i <= |data|
    ensures var r := EntitiesFrom(spans, data, i);
      var ks := TaggedFrom(data, i);
      |r| == |ks| && forall j :: 0 <= j < |r| ==> r[j] == SegmentEntity(spans[ks[j]], data[ks[j]])
    decreases |data| - i
  {
    if i < |data| {
      EntitiesFromTagged(spans, data, i + 1);
    }
  }

  /** Every entity of a SNIPS query names exactly the characters of its
      value in the message text, and the entities follow each other without
      overlapping. */
  lemma DataEntitiesAligned(data: seq<Segment>)
    ensures var text := DataText(data);
      var r := DataEntities(data);
      && |r| == |Tagged(data)|
      && (forall j :: 0 <= j < |r| ==>
            0 <= r[j].start <= r[j].end <= |text| && text[r[j].start..r[j].end] == r[j].value)
      && (forall j :: 0 < j < |r| ==> r[j - 1].end <= r[j].start)
  {
    EntitiesFromTagged(DataSpans(data), data, 0);
    EntitiesWithin(data);
    EntitiesOrdered(data);
  }

  lemma EntitiesWithin(data: seq<Segment>)
    ensures var text := DataText(data);
      var r := DataEntities(data);
      forall j :: 0 <= j < |r| ==>
        0 <= r[j].start <= r[j].end <= |text| && text[r[j].start..r[j].end] == r[j].value
  {
    forall j | 0 <= j < |DataEntities(data)|
      ensures var e := DataEntities(data)[j];
        0 <= e.start <= e.end <= |DataText(data)| && DataText(data)[e.start..e.end] == e.value
    {
      EntityAt(data, j);
    }
  }

  lemma EntitiesOrdered(data: seq<Segment>)
    ensures var r := DataEntities(data);
      forall j :: 0 < j < |r| ==> r[j - 1].end <= r[j].start
  {
    forall j | 0 < j < |DataEntities(data)|
      ensures DataEntities(data)[j - 1].end <= DataEntities(data)[j].start
    {
      EntitiesApart(data, j);
    }
  }

  /** Entity `j` is the text under its own offsets. */
  lemma EntityAt(data: seq<Segment>, j: nat)
    requires j < |DataEntities(data)|
    ensures var e := DataEntities(data)[j];
      0 <= e.start <= e.end <= |DataText(data)| && DataText(data)[e.start..e.end] == e.value
  {
    EntitiesFromTagged(DataSpans(data), data, 0);
    DataTextAt(data, Tagged(data)[j]);
  }

  /** Entity `j` starts no earlier than entity `j - 1` ends. */
  lemma EntitiesApart(data: seq<Segment>, j: nat)
    requires 0 < j < |DataEntities(data)|
    ensures DataEntities(data)[j - 1].end <= DataEntities(data)[j].start
  {
    var ks := Tagged(data);
    EntitiesFromTagged(DataSpans(data), data, 0);
    SpansIncrease(data, ks[j - 1], ks[j]);
  }

  /** Later segments' spans start no earlier than earlier ones end. */
  lemma SpansIncrease(data: seq<Segment>, k: nat, k': nat)
    requires k < k' < |data|
    ensures DataSpans(data)[k].end <= DataSpans(data)[k'].start
  {
    SpanAt(data, k);
    SpanAt(data, k');
    DataTextSnoc(data, k);
    PrefixTextGrows(data, k + 1, k');
  }

  /** A longer prefix of the segments has a text at least as long. */
  lemma PrefixTextGrows(data: seq<Segment>, a: nat, b: nat)
    requires a <= b <= |data|
    ensures |DataText(data[..a])| <= |DataText(data[..b])|
  {
    DataTextAppend(data[..a], data[a..b]);
    assert data[..a] + data[a..b] == data[..b];
  }

  /** `convert_data_message`: the training flag and the corpus are recorded
      as passed. */
  function DataMessage(corpus: Corpus, intent: string, data: seq<Segment>, train: bool): (m: Message)
    ensures m.training == Some(train) && m.corpus == Some(corpus) && m.intent == intent
    ensures m.text == DataText(data) && m.entities == DataEntities(data)
  {
    CreateMessage(DataText(data), intent, DataEntities(data), train, corpus)
  }

  /** The `AddToPlaylist` query of the SNIPS tests: six segments, three of
      them tagged. */
  function AddToPlaylist(): seq<Segment> {
    [ Segment("add ", None), Segment("Foo", Some("entity_name")),
      Segment(" songs in ", None), Segment("my", Some("playlist_owner")),
      Segment(" playlist ", None), Segment("música libre", Some("playlist"))]
  }

  /** The text of the example is its segments' texts in order. */
  lemma AddToPlaylistText(d: seq<Segment>)
    requires d == AddToPlaylist()
    ensures DataText(d) == "add Foo songs in my playlist música libre"
  {
    AddToPlaylistPieces(d);
    AddToPlaylistGlue();
  }

  lemma AddToPlaylistPieces(d: seq<Segment>)
    requires d == AddToPlaylist()
    ensures DataText(d) == "add " + "Foo" + " songs in " + "my" + " playlist " + "música libre"
  {
    SixTexts(d);
  }

  /** Helper: the six segment texts of the test query spell its text. */
  lemma AddToPlaylistGlue()
    ensures "add " + "Foo" + " songs in " + "my" + " playlist " + "música libre"
      == "add Foo songs in my playlist música libre"
  {
  }

  /** The text of six segments is their six texts in order. */
  lemma SixTexts(d: seq<Segment>)
    requires |d| == 6
    ensures DataText(d) == d[0].text + d[1].text + d[2].text + d[3].text + d[4].text + d[5].text
  {
    ThreeTexts(d[..3]);
    ThreeTexts(d[3..]);
    DataTextAppend(d[..3], d[3..]);
    assert d[..3] + d[3..] == d;
  }

  lemma ThreeTexts(d: seq<Segment>)
    requires |d| == 3
    ensures DataText(d) == d[0].text + d[1].text + d[2].text
  {
    assert DataText(d[2..]) == d[2].text by { assert d[2..][1..] == []; }
    assert DataText(d[1..]) == d[1].text + d[2].text by { assert d[1..][1..] == d[2..]; }
  }

  /** The spans of six segments, from their lengths. */
  lemma SixSpans(d: seq<Segment>, n0: nat, n1: nat, n2: nat, n3: nat, n4: nat, n5: nat)
    requires |d| == 6
    requires |d[0].text| == n0 && |d[1].text| == n1 && |d[2].text| == n2
    requires |d[3].text| == n3 && |d[4].text| == n4 && |d[5].text| == n5
    ensures DataSpans(d) == [
        Span(0, n0), Span(n0, n0 + n1), Span(n0 + n1, n0 + n1 + n2),
        Span(n0 + n1 + n2, n0 + n1 + n2 + n3), Span(n0 + n1 + n2 + n3, n0 + n1 + n2 + n3 + n4),
        Span(n0 + n1 + n2 + n3 + n4, n0 + n1 + n2 + n3 + n4 + n5)]
  {
    var spans := DataSpans(d);
    assert spans[0] == Span(0, n0) by { assert d[..0] == []; SpanAt(d, 0); }
    SpanAfter(d, 0);
    SpanAfter(d, 1);
    SpanAfter(d, 2);
    SpanAfter(d, 3);
    SpanAfter(d, 4);
    SixOf(spans, n0, n1, n2, n3, n4, n5);
  }

  /** Helper: six spans laid end to end from 0 with the given lengths. */
  lemma SixOf(spans: seq<Span>, n0: nat, n1: nat, n2: nat, n3: nat, n4: nat, n5: nat)
    requires |spans| == 6
    requires spans[0] == Span(0, n0)
    requires spans[1] == Span(spans[0].end, spans[0].end + n1)
    requires spans[2] == Span(spans[1].end, spans[1].end + n2)
    requires spans[3] == Span(spans[2].end, spans[2].end + n3)
    requires spans[4] == Span(spans[3].end, spans[3].end + n4)
    requires spans[5] == Span(spans[4].end, spans[4].end + n5)
    ensures spans == [
        Span(0, n0), Span(n0, n0 + n1), Span(n0 + n1, n0 + n1 + n2),
        Span(n0 + n1 + n2, n0 + n1 + n2 + n3), Span(n0 + n1 + n2 + n3, n0 + n1 + n2 + n3 + n4),
        Span(n0 + n1 + n2 + n3 + n4, n0 + n1 + n2 + n3 + n4 + n5)]
  {
  }

  /** Span `k` starts after the text of the segments before it and is as
      long as segment `k`. */
  lemma SpanAt(d: seq<Segment>, k: nat)
    requires k < |d|
    ensures DataSpans(d)[k] == Span(|DataText(d[..k])|, |DataText(d[..k])| + |d[k].text|)
  {
    DataSpansClosedForm(d);
  }

  /** Span `k + 1` starts where span `k` ends. */
  lemma SpanAfter(d: seq<Segment>, k: nat)
    requires k + 1 < |d|
    ensures DataSpans(d)[k + 1] == Span(DataSpans(d)[k].end, DataSpans(d)[k].end + |d[k + 1].text|)
  {
    SpanAt(d, k);
    SpanAt(d, k + 1);
    DataTextSnoc(d, k);
  }

  /** The segments of the example span the running totals of their lengths;
      the last spans characters 29 to 41 (`ú` is one character). */
  lemma AddToPlaylistSpans(d: seq<Segment>)
    requires d == AddToPlaylist()
    ensures DataSpans(d) == [Span(0, 4), Span(4, 7), Span(7, 17), Span(17, 19), Span(19, 29), Span(29, 41)]
  {
    AddToPlaylistLengths(d);
    SixSpans(d, 4, 3, 10, 2, 10, 12);
  }

  /** Helper: the lengths of the six segment texts of the test query. */
  lemma AddToPlaylistLengths(d: seq<Segment>)
    requires d == AddToPlaylist()
    ensures |d| == 6
    ensures |d[0].text| == 4 && |d[1].text| == 3 && |d[2].text| == 10
    ensures |d[3].text| == 2 && |d[4].text| == 10 && |d[5].text| == 12
  {
  }

  /** The example's three tagged segments become its three entities, at the
      offsets the SNIPS tests expect. */
  lemma AddToPlaylistEntities(d: seq<Segment>)
    requires d == AddToPlaylist()
    ensures DataEntities(d) == [
      Entity(4, 7, "entity_name", "Foo"),
      Entity(17, 19, "playlist_owner", "my"),
      Entity(29, 41, "playlist", "música libre")]
  {
    var spans := DataSpans(d);
    AddToPlaylistSpans(d);
    AlternateEntities(spans, d);
  }

  /** Six segments of which the second, fourth and sixth are tagged give
      those three entities. */
  lemma AlternateEntities(spans: seq<Span>, d: seq<Segment>)
    requires |spans| == |d| == 6
    requires d[0].entity.None? && d[2].entity.None? && d[4].entity.None?
    requires d[1].entity.Some? && d[3].entity.Some? && d[5].entity.Some?
    ensures EntitiesFrom(spans, d, 0)
      == [SegmentEntity(spans[1], d[1]), SegmentEntity(spans[3], d[3]), SegmentEntity(spans[5], d[5])]
  {
    assert EntitiesFrom(spans, d, 5) == [SegmentEntity(spans[5], d[5])];
    assert EntitiesFrom(spans, d, 3) == [SegmentEntity(spans[3], d[3])] + EntitiesFrom(spans, d, 5);
    assert EntitiesFrom(spans, d, 1) == [SegmentEntity(spans[1], d[1])] + EntitiesFrom(spans, d, 3);
  }
}
