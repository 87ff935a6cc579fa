/** The span merger of the NER converter: a left fold over the tokenizer's
    spans that collapses the spans between an entity-start boundary and an
    entity-end boundary into one span. Boundaries are compared by offset
    only; the text is never looked at. */
module SpanMerger {
  import opened Types

  /** The start offsets of the entities, in entity order. */
  function Starts(entities: seq<Entity>): (r: seq<int>)
    ensures |r| == |entities|
    ensures forall k :: 0 <= k < |r| ==> r[k] == entities[k].start
  {
    seq(|entities|, k requires 0 <= k < |entities| => entities[k].start)
  }

  /** The end offsets of the entities, in entity order. */
  function Ends(entities: seq<Entity>): (r: seq<int>)
    ensures |r| == |entities|
    ensures forall k :: 0 <= k < |r| ==> r[k] == entities[k].end
  {
    seq(|entities|, k requires 0 <= k < |entities| => entities[k].end)
  }

  /** The fold's state: the offset where the pending merge began, and
      whether the fold is inside an open entity run. */
  datatype MergeState = MergeState(start: int, skip: bool)

  const Initial := MergeState(0, false)

  /** The state after one span. */
  function Step(st: MergeState, x: Span, starts: seq<int>, ends: seq<int>): MergeState {
    var startMatch := x.start in starts;
    var endMatch := x.end in ends;
    MergeState(
      if startMatch then x.start else st.start,
      if endMatch then false else if startMatch then true else st.skip)
  }

  /** What one span contributes to the output: the merged span when its end
      closes an entity, itself when it matches nothing outside a run, and
      nothing when it matches nothing inside a run. */
  function Emit(st: MergeState, x: Span, starts: seq<int>, ends: seq<int>): seq<Span> {
    var startMatch := x.start in starts;
    var endMatch := x.end in ends;
    if endMatch then [Span(if startMatch then x.start else st.start, x.end)]
    else if !startMatch && !st.skip then [x]
    else []
  }

  /** The state after a whole sequence of spans. */
  function StateAfter(spans: seq<Span>, starts: seq<int>, ends: seq<int>, st: MergeState): MergeState
    decreases |spans|
  {
    if spans == [] then st else StateAfter(spans[1..], starts, ends, Step(st, spans[0], starts, ends))
  }

  /** The end offsets of a span list. */
  function EndsOf(spans: seq<Span>): (r: seq<int>)
    ensures |r| == |spans|
    ensures forall k :: 0 <= k < |r| ==> r[k] == spans[k].end
  {
    if spans == [] then [] else [spans[0].end] + EndsOf(spans[1..])
  }

  /** `a` is `b` with some elements left out, the rest in their order. */
  predicate SubsequenceOf(a: seq<int>, b: seq<int>)
    decreases |b|
  {
    if a == [] then true
    else if b == [] then false
    else (a[0] == b[0] && SubsequenceOf(a[1..], b[1..])) || SubsequenceOf(a, b[1..])
  }

  /** The fold from state `st`; the output is never longer than the input. */
  function MergeFrom(spans: seq<Span>, starts: seq<int>, ends: seq<int>, st: MergeState): (r: seq<Span>)
    ensures |r| <= |spans|
    decreases |spans|
  {
    if spans == [] then []
    else Emit(st, spans[0], starts, ends) + MergeFrom(spans[1..], starts, ends, Step(st, spans[0], starts, ends))
  }

  /** The output's end offsets are input end offsets, kept in input order. */
  lemma {:induction false} MergeFromKeepsEndOrder(spans: seq<Span>, starts: seq<int>, ends: seq<int>, st: MergeState)
    ensures SubsequenceOf(EndsOf(MergeFrom(spans, starts, ends, st)), EndsOf(spans))
    decreases |spans|
  {
    if spans != [] {
      var head := Emit(st, spans[0], starts, ends);
      var rest := MergeFrom(spans[1..], starts, ends, Step(st, spans[0], starts, ends));
      MergeFromKeepsEndOrder(spans[1..], starts, ends, Step(st, spans[0], starts, ends));
      var b := EndsOf(spans);
      assert b[0] == spans[0].end && b[1..] == EndsOf(spans[1..]);
      assert MergeFrom(spans, starts, ends, st) == head + rest;
      if head == [] {
        assert head + rest == rest;
        assert EndsOf(rest) == [] || SubsequenceOf(EndsOf(rest), b[1..]);
      } else {
        var a := EndsOf(head + rest);
        assert a[0] == b[0] && a[1..] == EndsOf(rest);
      }
    }
  }

  /** `merge_spans`: the fold from pending start 0 outside any run. It never
      adds spans, its output ends are input ends in input order, and with
      no entities it returns the spans unchanged. */
  function MergeSpans(spans: seq<Span>, entities: seq<Entity>): (r: seq<Span>)
    ensures |r| <= |spans|
    ensures SubsequenceOf(EndsOf(r), EndsOf(spans))
    ensures entities == [] ==> r == spans
  {
    MergeFromKeepsEndOrder(spans, Starts(entities), Ends(entities), Initial);
    MergeFromNothingOpen(spans, 0);
    MergeFrom(spans, Starts(entities), Ends(entities), Initial)
  }

  /** The body of the `merge_spans` loop, as written, for one span: the
      new pending start and skip flag are the fold's next state, and what it
      appends is the fold's output for the span. */
  method MergeOne(start: int, skip: bool, span: Span, starts: seq<int>, ends: seq<int>)
    returns (start': int, skip': bool, out: seq<Span>)
    ensures MergeState(start', skip') == Step(MergeState(start, skip), span, starts, ends)
    ensures out == Emit(MergeState(start, skip), span, starts, ends)
  {
    start', skip' := start, skip;
    out := [];
    var startMatch := span.start in starts;
    var endMatch := span.end in ends;
    if startMatch {
      start' := span.start;
      skip' := true;
    }
    if endMatch {
      out := [Span(start', span.end)];
      skip' := false;
    }
    if !(startMatch || endMatch || skip') {
      out := [span];
    }
  }

  /** The fold over the spans from `i` on: the `i`-th span's output, then the
      fold over the rest from the next state. */
  lemma MergeFromAt(spans: seq<Span>, i: nat, starts: seq<int>, ends: seq<int>, st: MergeState)
    requires i < |spans|
    ensures MergeFrom(spans[i..], starts, ends, st)
      == Emit(st, spans[i], starts, ends) + MergeFrom(spans[i + 1..], starts, ends, Step(st, spans[i], starts, ends))
  {
    assert spans[i..][0] == spans[i] && spans[i..][1..] == spans[i + 1..];
  }

  /** The loop of `merge_spans`, as written, computes the fold. */
  method MergeSpansLoop(spans: seq<Span>, entities: seq<Entity>) returns (merged: seq<Span>)
    ensures merged == MergeSpans(spans, entities)
  {
    var starts := Starts(entities);
    var ends := Ends(entities);
    merged := [];
    var start := 0;
    var skip := false;
    var i := 0;
    assert spans[0..] == spans;
    while i < |spans|
      invariant 0 <= i <= |spans|
      invariant merged + MergeFrom(spans[i..], starts, ends, MergeState(start, skip)) == MergeFrom(spans, starts, ends, Initial)
    {
      MergeFromAt(spans, i, starts, ends, MergeState(start, skip));
      var out;
      ghost var mergedBefore := merged;
      start, skip, out := MergeOne(start, skip, spans[i], starts, ends);
      merged := merged + out;
      AppendAssoc(mergedBefore, out, MergeFrom(spans[i + 1..], starts, ends, MergeState(start, skip)));
      i := i + 1;
    }
  }

  /** With nothing to match and no run open, every span passes through. */
  lemma {:induction false} MergeFromNothingOpen(spans: seq<Span>, start: int)
    ensures MergeFrom(spans, [], [], MergeState(start, false)) == spans
    decreases |spans|
  {
    if spans != [] {
      MergeFromNothingOpen(spans[1..], start);
      assert spans == [spans[0]] + spans[1..];
    }
  }

  /** Folding over `a + b` folds over `a`, then over `b` from the state `a` left. */
  lemma {:induction false} MergeFromAppend(a: seq<Span>, b: seq<Span>, starts: seq<int>, ends: seq<int>, st: MergeState)
    ensures MergeFrom(a + b, starts, ends, st)
      == MergeFrom(a, starts, ends, st) + MergeFrom(b, starts, ends, StateAfter(a, starts, ends, st))
    ensures StateAfter(a + b, starts, ends, st) == StateAfter(b, starts, ends, StateAfter(a, starts, ends, st))
    decreases |a|
  {
    if a != [] {
      var st' := Step(st, a[0], starts, ends);
      assert (a + b)[0] == a[0] && (a + b)[1..] == a[1..] + b;
      MergeFromAppend(a[1..], b, starts, ends, st');
    } else {
      assert a + b == b;
    }
  }

  /** Span `x` starts some entity. */
  ghost predicate StartMatch(x: Span, entities: seq<Entity>) {
    exists e :: e in entities && e.start == x.start
  }

  /** Span `x` ends some entity. */
  ghost predicate EndMatch(x: Span, entities: seq<Entity>) {
    exists e :: e in entities && e.end == x.end
  }

  lemma MatchesAreMembership(x: Span, entities: seq<Entity>)
    ensures StartMatch(x, entities) <==> x.start in Starts(entities)
    ensures EndMatch(x, entities) <==> x.end in Ends(entities)
  {
    var starts := Starts(entities);
    if x.start in starts {
      var k :| 0 <= k < |starts| && starts[k] == x.start;
      assert entities[k] in entities;
    }
    if StartMatch(x, entities) {
      var e :| e in entities && e.start == x.start;
      var k :| 0 <= k < |entities| && entities[k] == e;
      assert starts[k] == x.start;
    }
    var ends := Ends(entities);
    if x.end in ends {
      var k :| 0 <= k < |ends| && ends[k] == x.end;
      assert entities[k] in entities;
    }
    if EndMatch(x, entities) {
      var e :| e in entities && e.end == x.end;
      var k :| 0 <= k < |entities| && entities[k] == e;
      assert ends[k] == x.end;
    }
  }

  /** Before span `i` an entity run is open: some earlier span started an
      entity without ending one, and no span since has ended an entity. */
  ghost predicate OpenBefore(spans: seq<Span>, entities: seq<Entity>, i: int)
    requires 0 <= i <= |spans|
  {
    exists j :: 0 <= j < i && StartMatch(spans[j], entities) && !EndMatch(spans[j], entities)
      && forall k :: j < k < i ==> !EndMatch(spans[k], entities)
  }

  /** Span `j` is the last span before `i` that starts an entity. */
  ghost predicate LastOpenedBefore(spans: seq<Span>, entities: seq<Entity>, i: int, j: int)
    requires 0 <= i <= |spans|
  {
    && 0 <= j < i
    && StartMatch(spans[j], entities)
    && forall k :: j < k < i ==> !StartMatch(spans[k], entities)
  }

  /** The fold's state after the first `i` spans, in closed form: the run is
      open exactly when `OpenBefore` holds, and the pending start is the start
      of the last span that started an entity, or 0 when there was none. */
  lemma StateAfterPrefix(spans: seq<Span>, entities: seq<Entity>, i: nat)
    requires i <= |spans|
    ensures var st := StateAfter(spans[..i], Starts(entities), Ends(entities), Initial);
      && (st.skip <==> OpenBefore(spans, entities, i))
      && ((forall j :: 0 <= j < i ==> !StartMatch(spans[j], entities)) ==> st.start == 0)
      && (forall j :: LastOpenedBefore(spans, entities, i, j) ==> st.start == spans[j].start)
  {
    SkipPrefix(spans, entities, i);
    StartPrefix(spans, entities, i);
  }

  /** The state after `i` spans is one step on from the state after `i - 1`. */
  lemma StateAfterSnoc(spans: seq<Span>, starts: seq<int>, ends: seq<int>, i: nat)
    requires 0 < i <= |spans|
    ensures StateAfter(spans[..i], starts, ends, Initial)
      == Step(StateAfter(spans[..i - 1], starts, ends, Initial), spans[i - 1], starts, ends)
  {
    assert spans[..i] == spans[..i - 1] + [spans[i - 1]];
    MergeFromAppend(spans[..i - 1], [spans[i - 1]], starts, ends, Initial);
  }

  lemma {:induction false} SkipPrefix(spans: seq<Span>, entities: seq<Entity>, i: nat)
    requires i <= |spans|
    ensures StateAfter(spans[..i], Starts(entities), Ends(entities), Initial).skip <==> OpenBefore(spans, entities, i)
  {
    if i > 0 {
      SkipPrefix(spans, entities, i - 1);
      StateAfterSnoc(spans, Starts(entities), Ends(entities), i);
      MatchesAreMembership(spans[i - 1], entities);
      OpenBeforeStep(spans, entities, i);
    }
  }

  /** How one more span changes whether a run is open: a span that ends an
      entity closes it, one that only starts an entity opens it, and any
      other span leaves it as it was. */
  lemma OpenBeforeStep(spans: seq<Span>, entities: seq<Entity>, i: nat)
    requires 0 < i <= |spans|
    ensures var x := spans[i - 1];
      && (EndMatch(x, entities) ==> !OpenBefore(spans, entities, i))
      && (!EndMatch(x, entities) && StartMatch(x, entities) ==> OpenBefore(spans, entities, i))
      && (!EndMatch(x, entities) && !StartMatch(x, entities) ==>
            (OpenBefore(spans, entities, i) <==> OpenBefore(spans, entities, i - 1)))
  {
    var x := spans[i - 1];
    if !EndMatch(x, entities) && !StartMatch(x, entities) {
      if OpenBefore(spans, entities, i - 1) {
        var j :| 0 <= j < i - 1 && StartMatch(spans[j], entities) && !EndMatch(spans[j], entities)
          && forall k :: j < k < i - 1 ==> !EndMatch(spans[k], entities);
        assert forall k :: j < k < i ==> !EndMatch(spans[k], entities);
      }
      if OpenBefore(spans, entities, i) {
        var j :| 0 <= j < i && StartMatch(spans[j], entities) && !EndMatch(spans[j], entities)
          && forall k :: j < k < i ==> !EndMatch(spans[k], entities);
        assert j < i - 1;
      }
    } else if !EndMatch(x, entities) {
      assert OpenBefore(spans, entities, i) by {
        assert StartMatch(spans[i - 1], entities) && !EndMatch(spans[i - 1], entities);
      }
    }
  }

  lemma StartPrefix(spans: seq<Span>, entities: seq<Entity>, i: nat)
    requires i <= |spans|
    ensures var st := StateAfter(spans[..i], Starts(entities), Ends(entities), Initial);
      && ((forall j :: 0 <= j < i ==> !StartMatch(spans[j], entities)) ==> st.start == 0)
      && (forall j :: LastOpenedBefore(spans, entities, i, j) ==> st.start == spans[j].start)
  {
    if forall j :: 0 <= j < i ==> !StartMatch(spans[j], entities) {
      NoStartPrefix(spans, entities, i);
    }
    forall j | LastOpenedBefore(spans, entities, i, j)
      ensures StateAfter(spans[..i], Starts(entities), Ends(entities), Initial).start == spans[j].start
    {
      LastStartPrefix(spans, entities, i, j);
    }
  }

  lemma {:induction false} NoStartPrefix(spans: seq<Span>, entities: seq<Entity>, i: nat)
    requires i <= |spans|
    requires forall j :: 0 <= j < i ==> !StartMatch(spans[j], entities)
    ensures StateAfter(spans[..i], Starts(entities), Ends(entities), Initial).start == 0
  {
    if i > 0 {
      NoStartPrefix(spans, entities, i - 1);
      StateAfterSnoc(spans, Starts(entities), Ends(entities), i);
      MatchesAreMembership(spans[i - 1], entities);
    }
  }

  lemma {:induction false} LastStartPrefix(spans: seq<Span>, entities: seq<Entity>, i: nat, j: nat)
    requires i <= |spans|
    requires LastOpenedBefore(spans, entities, i, j)
    ensures StateAfter(spans[..i], Starts(entities), Ends(entities), Initial).start == spans[j].start
  {
    StateAfterSnoc(spans, Starts(entities), Ends(entities), i);
    MatchesAreMembership(spans[i - 1], entities);
    if j < i - 1 {
      assert LastOpenedBefore(spans, entities, i - 1, j);
      LastStartPrefix(spans, entities, i - 1, j);
    }
  }

  /** What span `i` adds to the output, given the spans before it: a span
      that starts and ends an entity is emitted as itself; a span that only
      ends an entity is emitted from the last entity start seen (0 if none);
      a span that only starts an entity is held back; a span that matches
      nothing is emitted as itself outside a run and absorbed inside one. */
  lemma MergeSpansStep(spans: seq<Span>, entities: seq<Entity>, i: nat)
    requires i < |spans|
    ensures var x, before, after := spans[i], MergeSpans(spans[..i], entities), MergeSpans(spans[..i + 1], entities);
      && (StartMatch(x, entities) && EndMatch(x, entities) ==> after == before + [x])
      && (StartMatch(x, entities) && !EndMatch(x, entities) ==> after == before)
      && (!StartMatch(x, entities) && EndMatch(x, entities) && (forall j :: 0 <= j < i ==> !StartMatch(spans[j], entities))
          ==> after == before + [Span(0, x.end)])
      && (forall j :: (!StartMatch(x, entities) && EndMatch(x, entities) && LastOpenedBefore(spans, entities, i, j))
                      ==> after == before + [Span(spans[j].start, x.end)])
      && (!StartMatch(x, entities) && !EndMatch(x, entities) && OpenBefore(spans, entities, i) ==> after == before)
      && (!StartMatch(x, entities) && !EndMatch(x, entities) && !OpenBefore(spans, entities, i) ==> after == before + [x])
  {
    MergeSpansSnoc(spans, entities, i);
    StateAfterPrefix(spans, entities, i);
    MatchesAreMembership(spans[i], entities);
  }

  /** No span after span `i` up to span `j` starts an entity, and no span
      from span `i` up to before span `j` ends one. */
  ghost predicate QuietBetween(spans: seq<Span>, entities: seq<Entity>, i: int, j: int)
    requires 0 <= i <= j < |spans|
  {
    && (forall k :: i < k <= j ==> !StartMatch(spans[k], entities))
    && (forall k :: i <= k < j ==> !EndMatch(spans[k], entities))
  }

  /** A run opened at span `i` and not closed by any span since is open
      before span `m`. */
  lemma OpenSince(spans: seq<Span>, entities: seq<Entity>, i: nat, m: nat)
    requires i < m <= |spans|
    requires StartMatch(spans[i], entities) && !EndMatch(spans[i], entities)
    requires forall k :: i < k < m ==> !EndMatch(spans[k], entities)
    ensures OpenBefore(spans, entities, m)
  {
  }

  /** Inside an entity's run nothing is emitted: after span `m - 1` the
      output is still what it was before span `i`, the run's opening span. */
  lemma {:induction false} MergeRunInterior(spans: seq<Span>, entities: seq<Entity>, i: nat, j: nat, m: nat)
    requires i < m <= j < |spans|
    requires StartMatch(spans[i], entities)
    requires QuietBetween(spans, entities, i, j)
    ensures MergeSpans(spans[..m], entities) == MergeSpans(spans[..i], entities)
    decreases m
  {
    MergeSpansStep(spans, entities, m - 1);
    if m - 1 > i {
      MergeRunInterior(spans, entities, i, j, m - 1);
      OpenSince(spans, entities, i, m - 1);
    }
  }

  /** An entity run merges into one span: when span `i` starts an entity,
      span `j` ends one, and no span in between starts or ends one, the
      spans `i..j` add exactly the span from `i`'s start to `j`'s end. */
  lemma MergeEntityRun(spans: seq<Span>, entities: seq<Entity>, i: nat, j: nat)
    requires i <= j < |spans|
    requires StartMatch(spans[i], entities) && EndMatch(spans[j], entities)
    requires QuietBetween(spans, entities, i, j)
    ensures MergeSpans(spans[..j + 1], entities) == MergeSpans(spans[..i], entities) + [Span(spans[i].start, spans[j].end)]
  {
    if i < j {
      MergeRunInterior(spans, entities, i, j, j);
      assert LastOpenedBefore(spans, entities, j, i);
    }
    MergeSpansStep(spans, entities, j);
  }

  /** Merging one more span appends what that span emits in the state the
      spans before it left. */
  lemma MergeSpansSnoc(spans: seq<Span>, entities: seq<Entity>, i: nat)
    requires i < |spans|
    ensures var starts, ends := Starts(entities), Ends(entities);
      MergeSpans(spans[..i + 1], entities)
        == MergeSpans(spans[..i], entities) + Emit(StateAfter(spans[..i], starts, ends, Initial), spans[i], starts, ends)
  {
    var starts, ends := Starts(entities), Ends(entities);
    var st := StateAfter(spans[..i], starts, ends, Initial);
    assert spans[..i + 1] == spans[..i] + [spans[i]];
    MergeFromAppend(spans[..i], [spans[i]], starts, ends, Initial);
    assert MergeFrom([spans[i]], starts, ends, st) == Emit(st, spans[i], starts, ends) + [];
  }

  /** Two adjacent entities over single-character spans: with spans
      `(0,1) .. (6,7)` and entities `[1,3)` and `[3,6)`, each entity's spans
      collapse into one and the spans around them pass through, giving
      `(0,1), (1,3), (3,6), (6,7)`. */
  lemma MergeAdjacentEntities(spans: seq<Span>, entities: seq<Entity>)
    requires spans == [Span(0, 1), Span(1, 2), Span(2, 3), Span(3, 4), Span(4, 5), Span(5, 6), Span(6, 7)]
    requires |entities| == 2 && entities[0].start == 1 && entities[0].end == 3
    requires entities[1].start == 3 && entities[1].end == 6
    ensures MergeSpans(spans, entities) == [Span(0, 1), Span(1, 3), Span(3, 6), Span(6, 7)]
  {
    var starts, ends := Starts(entities), Ends(entities);
    assert starts == [1, 3] && ends == [3, 6];
    AdjacentSecond(spans, starts, ends);
    AdjacentFirst(spans, starts, ends);
    MergeFromAt(spans, 0, starts, ends, Initial);
    assert spans[0..] == spans;
  }

  lemma AdjacentSecond(spans: seq<Span>, starts: seq<int>, ends: seq<int>)
    requires spans == [Span(0, 1), Span(1, 2), Span(2, 3), Span(3, 4), Span(4, 5), Span(5, 6), Span(6, 7)]
    requires starts == [1, 3] && ends == [3, 6]
    ensures MergeFrom(spans[3..], starts, ends, MergeState(1, false)) == [Span(3, 6), Span(6, 7)]
  {
    assert MergeFrom(spans[6..], starts, ends, MergeState(3, false)) == [Span(6, 7)] by {
      MergeFromAt(spans, 6, starts, ends, MergeState(3, false));
    }
    assert MergeFrom(spans[5..], starts, ends, MergeState(3, true)) == [Span(3, 6), Span(6, 7)] by {
      MergeFromAt(spans, 5, starts, ends, MergeState(3, true));
    }
    assert MergeFrom(spans[4..], starts, ends, MergeState(3, true)) == [Span(3, 6), Span(6, 7)] by {
      MergeFromAt(spans, 4, starts, ends, MergeState(3, true));
    }
    MergeFromAt(spans, 3, starts, ends, MergeState(1, false));
  }

  lemma AdjacentFirst(spans: seq<Span>, starts: seq<int>, ends: seq<int>)
    requires spans == [Span(0, 1), Span(1, 2), Span(2, 3), Span(3, 4), Span(4, 5), Span(5, 6), Span(6, 7)]
    requires starts == [1, 3] && ends == [3, 6]
    requires MergeFrom(spans[3..], starts, ends, MergeState(1, false)) == [Span(3, 6), Span(6, 7)]
    ensures MergeFrom(spans[1..], starts, ends, MergeState(0, false)) == [Span(1, 3), Span(3, 6), Span(6, 7)]
  {
    assert MergeFrom(spans[2..], starts, ends, MergeState(1, true)) == [Span(1, 3), Span(3, 6), Span(6, 7)] by {
      MergeFromAt(spans, 2, starts, ends, MergeState(1, true));
    }
    MergeFromAt(spans, 1, starts, ends, MergeState(0, false));
  }

  /** An entity whose start matches no span: the spans it covers pass
      through, but the span that closes it is merged from the pending start,
      which is still the initial 0. With spans `(0,1), (1,2), (2,3)` and an
      entity from 7 to 3 the output is `(0,1), (1,2), (0,3)`, whose last span
      overlaps the two before it. */
  lemma MergeUnalignedStart(spans: seq<Span>, e: Entity)
    requires spans == [Span(0, 1), Span(1, 2), Span(2, 3)]
    requires e.start == 7 && e.end == 3
    ensures MergeSpans(spans, [e]) == [Span(0, 1), Span(1, 2), Span(0, 3)]
  {
    var starts, ends := Starts([e]), Ends([e]);
    assert starts == [7] && ends == [3];
    MergeFromAt(spans, 2, starts, ends, Initial);
    assert spans[3..] == [];
    MergeFromAt(spans, 1, starts, ends, Initial);
    MergeFromAt(spans, 0, starts, ends, Initial);
    assert spans[0..] == spans;
  }
}
