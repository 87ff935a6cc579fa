/** A word/punctuation span tokenizer: the maximal runs of word characters
    and the maximal runs of characters that are neither word characters nor
    whitespace, in text order, as half-open character spans. The character
    classes are the ASCII ones: letters, digits and `_` are word characters,
    the ASCII whitespace characters are whitespace, and every other character
    (including every non-ASCII character) counts as punctuation. */
module WordPunct {
  import opened Types
  import opened Text

  datatype CharClass = WordChar | SpaceChar | PunctChar

  function Classify(c: char): CharClass {
    if ('a' <= c <= 'z') || ('A' <= c <= 'Z') || ('0' <= c <= '9') || c == '_' then WordChar
    else if c == ' ' || (9 <= c as int <= 13) || (28 <= c as int <= 31) then SpaceChar
    else PunctChar
  }

  /** Spans lie within `[lo, hi)`, are non-empty, and come in text order
      without overlapping. */
  ghost predicate WellFormed(spans: seq<Span>, lo: int, hi: int) {
    && (forall k :: 0 <= k < |spans| ==> lo <= spans[k].start < spans[k].end <= hi)
    && (forall a, b :: 0 <= a < b < |spans| ==> spans[a].end <= spans[b].start)
  }

  /** `sp` is a maximal run of one non-whitespace class of `text`; at `lo`
      (where tokenizing started) the run is not required to be maximal on the left. */
  ghost predicate IsRun(text: string, sp: Span, lo: int)
    requires 0 <= lo <= sp.start < sp.end <= |text|
  {
    var c := Classify(text[sp.start]);
    && c != SpaceChar
    && (forall j :: sp.start <= j < sp.end ==> Classify(text[j]) == c)
    && (sp.end == |text| || Classify(text[sp.end]) != c)
    && (sp.start == lo || Classify(text[sp.start - 1]) != c)
  }

  /** Position `j` lies inside one of the spans. */
  ghost predicate Covered(spans: seq<Span>, j: int) {
    exists k :: 0 <= k < |spans| && spans[k].start <= j < spans[k].end
  }

  /** The end of the maximal run of class `c` that starts at `i`. */
  function RunEnd(text: string, i: nat, c: CharClass): (e: nat)
    requires i <= |text|
    ensures i <= e <= |text|
    ensures forall j :: i <= j < e ==> Classify(text[j]) == c
    ensures e == |text| || Classify(text[e]) != c
    decreases |text| - i
  {
    if i == |text| || Classify(text[i]) != c then i else RunEnd(text, i + 1, c)
  }

  /** Prepending a span to the tokens of a suffix keeps the spans well formed. */
  lemma PrependWellFormed(text: string, x: Span, rest: seq<Span>)
    requires 0 <= x.start < x.end <= |text|
    requires WellFormed(rest, x.end, |text|)
    ensures WellFormed([x] + rest, x.start, |text|)
  {
    var spans := [x] + rest;
    forall a, b | 0 <= a < b < |spans| ensures spans[a].end <= spans[b].start {
      if a > 0 {
        assert spans[a] == rest[a - 1] && spans[b] == rest[b - 1];
      } else {
        assert spans[b] == rest[b - 1];
      }
    }
  }

  /** Prepending a maximal run to the runs of a suffix yields runs. */
  lemma PrependRuns(text: string, x: Span, rest: seq<Span>)
    requires 0 <= x.start < x.end <= |text|
    requires IsRun(text, x, x.start)
    requires WellFormed(rest, x.end, |text|)
    requires forall k :: 0 <= k < |rest| ==> IsRun(text, rest[k], x.end)
    ensures forall k :: 0 <= k < |[x] + rest| ==> IsRun(text, ([x] + rest)[k], x.start)
  {
    var spans := [x] + rest;
    forall k | 0 <= k < |spans| ensures IsRun(text, spans[k], x.start) {
      if k > 0 {
        var sp := rest[k - 1];
        assert spans[k] == sp;
        assert IsRun(text, sp, x.end);
        if sp.start == x.end {
          assert Classify(text[sp.start - 1]) == Classify(text[x.start]);
        }
      }
    }
  }

  /** Skipping a whitespace character keeps the spans runs. */
  lemma SkipRuns(text: string, i: nat, rest: seq<Span>)
    requires i < |text| && Classify(text[i]) == SpaceChar
    requires WellFormed(rest, i + 1, |text|)
    requires forall k :: 0 <= k < |rest| ==> IsRun(text, rest[k], i + 1)
    ensures WellFormed(rest, i, |text|)
    ensures forall k :: 0 <= k < |rest| ==> IsRun(text, rest[k], i)
  {
    forall k | 0 <= k < |rest| ensures IsRun(text, rest[k], i) {
      assert IsRun(text, rest[k], i + 1);
    }
  }

  /** Prepending a span covers exactly its own positions besides those already covered. */
  lemma PrependCovered(x: Span, rest: seq<Span>, j: int)
    requires forall k :: 0 <= k < |rest| ==> x.end <= rest[k].start
    ensures Covered([x] + rest, j) <==> (x.start <= j < x.end || Covered(rest, j))
  {
    var spans := [x] + rest;
    if Covered(spans, j) && !(x.start <= j < x.end) {
      var k :| 0 <= k < |spans| && spans[k].start <= j < spans[k].end;
      assert k > 0 && spans[k] == rest[k - 1];
    }
    if Covered(rest, j) {
      var k :| 0 <= k < |rest| && rest[k].start <= j < rest[k].end;
      assert spans[k + 1] == rest[k];
    }
    if x.start <= j < x.end {
      assert spans[0] == x;
    }
  }

  /** The tokens of `text[i..]`, with offsets into `text`: at most one per
      character. */
  function TokenizeFrom(text: string, i: nat): (spans: seq<Span>)
    requires i <= |text|
    ensures |spans| <= |text| - i
    decreases |text| - i
  {
    if i == |text| then []
    else
      var c := Classify(text[i]);
      if c == SpaceChar then TokenizeFrom(text, i + 1)
      else
        var e := RunEnd(text, i, c);
        [Span(i, e)] + TokenizeFrom(text, e)
  }

  /** The tokens of a suffix are well formed maximal runs that cover exactly
      its non-whitespace characters. */
  lemma {:induction false} TokenizeFromSound(text: string, i: nat)
    requires i <= |text|
    ensures SoundFrom(text, i, TokenizeFrom(text, i))
    decreases |text| - i
  {
    if i < |text| {
      var c := Classify(text[i]);
      if c == SpaceChar {
        TokenizeFromSound(text, i + 1);
        SkipSound(text, i, TokenizeFrom(text, i + 1));
      } else {
        var e := RunEnd(text, i, c);
        TokenizeFromSound(text, e);
        RunSound(text, i, e, TokenizeFrom(text, e));
      }
    }
  }

  /** `spans` are well formed maximal runs of `text[i..]` that cover exactly
      its non-whitespace characters. */
  ghost predicate SoundFrom(text: string, i: nat, spans: seq<Span>)
    requires i <= |text|
  {
    && WellFormed(spans, i, |text|)
    && (forall k :: 0 <= k < |spans| ==> IsRun(text, spans[k], i))
    && (forall j :: i <= j < |text| ==> (Classify(text[j]) != SpaceChar <==> Covered(spans, j)))
  }

  lemma SkipSound(text: string, i: nat, rest: seq<Span>)
    requires i < |text| && Classify(text[i]) == SpaceChar
    requires SoundFrom(text, i + 1, rest)
    ensures SoundFrom(text, i, rest)
  {
    SkipRuns(text, i, rest);
    assert !Covered(rest, i);
  }

  lemma RunSound(text: string, i: nat, e: nat, rest: seq<Span>)
    requires i < |text| && Classify(text[i]) != SpaceChar
    requires e == RunEnd(text, i, Classify(text[i]))
    requires SoundFrom(text, e, rest)
    ensures SoundFrom(text, i, [Span(i, e)] + rest)
  {
    PrependWellFormed(text, Span(i, e), rest);
    PrependRuns(text, Span(i, e), rest);
    forall j | i <= j < |text| ensures Covered([Span(i, e)] + rest, j) <==> (i <= j < e || Covered(rest, j)) {
      PrependCovered(Span(i, e), rest, j);
    }
  }

  /** Every span moved right by `d` characters. */
  function Shift(spans: seq<Span>, d: int): (r: seq<Span>)
    ensures |r| == |spans|
    ensures forall k :: 0 <= k < |r| ==> r[k] == Span(spans[k].start + d, spans[k].end + d)
  {
    seq(|spans|, k requires 0 <= k < |spans| => Span(spans[k].start + d, spans[k].end + d))
  }

  lemma ShiftAppend(x: seq<Span>, y: seq<Span>, d: int)
    ensures Shift(x + y, d) == Shift(x, d) + Shift(y, d)
  {
  }

  /** A run inside `b` ends at the same place inside `a + b`. */
  lemma {:induction false} RunEndSuffix(a: string, b: string, j: nat, c: CharClass)
    requires j <= |b|
    ensures RunEnd(a + b, |a| + j, c) == |a| + RunEnd(b, j, c)
    decreases |b| - j
  {
    assert forall q :: 0 <= q < |b| ==> (a + b)[|a| + q] == b[q];
    if j < |b| && Classify(b[j]) == c {
      RunEndSuffix(a, b, j + 1, c);
    }
  }

  /** Tokenizing `a + b` from inside `b` is tokenizing `b`, moved right by `|a|`. */
  lemma {:induction false} TokenizeFromSuffix(a: string, b: string, j: nat)
    requires j <= |b|
    ensures TokenizeFrom(a + b, |a| + j) == Shift(TokenizeFrom(b, j), |a|)
    decreases |b| - j
  {
    if j < |b| {
      if Classify(b[j]) == SpaceChar {
        TokenizeFromSuffix(a, b, j + 1);
        SuffixSpaceStep(a, b, j);
      } else {
        TokenizeFromSuffix(a, b, RunEnd(b, j, Classify(b[j])));
        SuffixRunStep(a, b, j);
      }
    }
  }

  lemma SuffixSpaceStep(a: string, b: string, j: nat)
    requires j < |b| && Classify(b[j]) == SpaceChar
    requires TokenizeFrom(a + b, |a| + j + 1) == Shift(TokenizeFrom(b, j + 1), |a|)
    ensures TokenizeFrom(a + b, |a| + j) == Shift(TokenizeFrom(b, j), |a|)
  {
    assert (a + b)[|a| + j] == b[j];
  }

  lemma SuffixRunStep(a: string, b: string, j: nat)
    requires j < |b| && Classify(b[j]) != SpaceChar
    requires var e := RunEnd(b, j, Classify(b[j]));
      TokenizeFrom(a + b, |a| + e) == Shift(TokenizeFrom(b, e), |a|)
    ensures TokenizeFrom(a + b, |a| + j) == Shift(TokenizeFrom(b, j), |a|)
  {
    var e := RunEnd(b, j, Classify(b[j]));
    SuffixRunHead(a, b, j);
    FromRun(b, j);
    ShiftCons(Span(j, e), TokenizeFrom(b, e), |a|);
  }

  /** A run inside `b` is also the first token of `a + b` from there. */
  lemma SuffixRunHead(a: string, b: string, j: nat)
    requires j < |b| && Classify(b[j]) != SpaceChar
    ensures var e := RunEnd(b, j, Classify(b[j]));
      TokenizeFrom(a + b, |a| + j) == [Span(|a| + j, |a| + e)] + TokenizeFrom(a + b, |a| + e)
  {
    var c := Classify(b[j]);
    assert (a + b)[|a| + j] == b[j];
    RunEndSuffix(a, b, j, c);
    FromRunOf(a + b, |a| + j, c, |a| + RunEnd(b, j, c));
  }

  /** `FromRun`, with the class and the run end named. */
  lemma FromRunOf(text: string, i: nat, c: CharClass, e: nat)
    requires i < |text| && Classify(text[i]) == c && c != SpaceChar
    requires RunEnd(text, i, c) == e
    ensures TokenizeFrom(text, i) == [Span(i, e)] + TokenizeFrom(text, e)
  {
  }

  lemma ShiftCons(x: Span, rest: seq<Span>, d: int)
    ensures Shift([x] + rest, d) == [Span(x.start + d, x.end + d)] + Shift(rest, d)
  {
  }

  /** Unfolding step: the first token of a suffix that starts with a
      non-whitespace character is the run there. */
  lemma FromRun(text: string, i: nat)
    requires i < |text| && Classify(text[i]) != SpaceChar
    ensures var e := RunEnd(text, i, Classify(text[i]));
      TokenizeFrom(text, i) == [Span(i, e)] + TokenizeFrom(text, e)
  {
  }

  /** No run of one non-whitespace class straddles the seam between `a` and `b`. */
  predicate Seam(a: string, b: string) {
    |a| == 0 || |b| == 0 || Classify(b[0]) == SpaceChar || Classify(a[|a| - 1]) != Classify(b[0])
  }

  /** A run that starts in `a` ends at the same place in `a + b` when no run straddles the seam. */
  lemma {:induction false} RunEndPrefix(a: string, b: string, i: nat, c: CharClass)
    requires i <= |a| && Seam(a, b) && c != SpaceChar
    requires i == |a| || Classify(a[i]) == c || |b| == 0
    ensures i < |a| ==> RunEnd(a + b, i, c) == RunEnd(a, i, c)
    decreases |a| - i
  {
    if i < |a| && Classify(a[i]) == c {
      assert (a + b)[i] == a[i];
      if i + 1 < |a| && Classify(a[i + 1]) != c {
        assert (a + b)[i + 1] == a[i + 1];
      } else if i + 1 == |a| && |b| > 0 {
        assert (a + b)[i + 1] == b[0];
      } else if i + 1 < |a| {
        RunEndPrefix(a, b, i + 1, c);
      }
    }
  }

  /** Tokenization splits at a seam that no run straddles. */
  lemma {:induction false} TokenizeFromConcat(a: string, b: string, i: nat)
    requires i <= |a| && Seam(a, b)
    ensures TokenizeFrom(a + b, i) == TokenizeFrom(a, i) + Shift(TokenizeFrom(b, 0), |a|)
    decreases |a| - i
  {
    if i == |a| {
      TokenizeFromSuffix(a, b, 0);
    } else if Classify(a[i]) == SpaceChar {
      TokenizeFromConcat(a, b, i + 1);
      assert (a + b)[i] == a[i];
    } else {
      TokenizeFromConcat(a, b, RunEnd(a, i, Classify(a[i])));
      ConcatRunStep(a, b, i);
    }
  }

  lemma ConcatRunStep(a: string, b: string, i: nat)
    requires i < |a| && Seam(a, b) && Classify(a[i]) != SpaceChar
    requires var e := RunEnd(a, i, Classify(a[i]));
      TokenizeFrom(a + b, e) == TokenizeFrom(a, e) + Shift(TokenizeFrom(b, 0), |a|)
    ensures TokenizeFrom(a + b, i) == TokenizeFrom(a, i) + Shift(TokenizeFrom(b, 0), |a|)
  {
    var t := a + b;
    var c := Classify(a[i]);
    var e := RunEnd(a, i, c);
    assert Classify(t[i]) == c by { assert t[i] == a[i]; }
    RunEndPrefix(a, b, i, c);
    FromRun(t, i);
    FromRun(a, i);
    AppendAssoc([Span(i, e)], TokenizeFrom(a, e), Shift(TokenizeFrom(b, 0), |a|));
  }

  /** The tokens of `a + b` are those of `a` followed by those of `b`, moved
      right by `|a|`, whenever no run straddles the seam. */
  lemma TokenizeConcat(a: string, b: string)
    requires Seam(a, b)
    ensures Tokenize(a + b) == Tokenize(a) + Shift(Tokenize(b), |a|)
  {
    TokenizeFromConcat(a, b, 0);
  }

  /** Unfolding step: a maximal run `[i, e)` of a non-whitespace class is the first token. */
  lemma TokenizeRunStep(text: string, i: nat, e: nat)
    requires i < e <= |text|
    requires Classify(text[i]) != SpaceChar
    requires forall j :: i <= j < e ==> Classify(text[j]) == Classify(text[i])
    requires e == |text| || Classify(text[e]) != Classify(text[i])
    ensures TokenizeFrom(text, i) == [Span(i, e)] + TokenizeFrom(text, e)
  {
    RunEndIs(text, i, e, Classify(text[i]));
  }

  /** Unfolding step: whitespace produces no token. */
  lemma TokenizeSpaceStep(text: string, i: nat)
    requires i < |text| && Classify(text[i]) == SpaceChar
    ensures TokenizeFrom(text, i) == TokenizeFrom(text, i + 1)
  {
  }

  /** A run end is determined by the run: any `e` with the run properties is `RunEnd`. */
  lemma {:induction false} RunEndIs(text: string, i: nat, e: nat, c: CharClass)
    requires i <= e <= |text|
    requires forall j :: i <= j < e ==> Classify(text[j]) == c
    requires e == |text| || Classify(text[e]) != c
    ensures RunEnd(text, i, c) == e
    decreases e - i
  {
    if i < e {
      RunEndIs(text, i + 1, e, c);
    }
  }

  /** The tokenizer's span list for a whole text: at most one token per
      character. */
  function Tokenize(text: string): (spans: seq<Span>)
    ensures |spans| <= |text|
  {
    TokenizeFrom(text, 0)
  }

  /** The tokens of a text are ordered, non-empty, in bounds and
      non-overlapping; each is a maximal run of word characters or of
      punctuation; and a character lies inside a token exactly when it is
      not whitespace. */
  lemma TokenizeSound(text: string)
    ensures var spans := Tokenize(text);
      && WellFormed(spans, 0, |text|)
      && (forall k :: 0 <= k < |spans| ==> IsRun(text, spans[k], 0))
      && (forall j :: 0 <= j < |text| ==> (Classify(text[j]) != SpaceChar <==> Covered(spans, j)))
  {
    TokenizeFromSound(text, 0);
  }

  /** Token `k` of a text is a non-empty run of characters that are not
      whitespace. */
  lemma TokenHasNoSpace(text: string, k: nat)
    requires k < |Tokenize(text)|
    ensures var sp := Tokenize(text)[k];
      && 0 <= sp.start < sp.end <= |text|
      && forall j :: sp.start <= j < sp.end ==> Classify(text[j]) != SpaceChar
  {
    var sp := Tokenize(text)[k];
    TokenizeSound(text);
    assert IsRun(text, sp, 0);
  }

  /** The tokens of a text are non-empty, in bounds, in order and do not
      overlap. */
  lemma TokensWellFormed(text: string)
    ensures WellFormed(Tokenize(text), 0, |text|)
  {
    TokenizeFromSound(text, 0);
  }

  /** A version number such as `11.10`: two digits, a dot and two digits are
      three tokens, the dot being punctuation. */
  lemma VersionTokens(v: string)
    requires |v| == 5 && v[2] == '.'
    requires Classify(v[0]) == WordChar && Classify(v[1]) == WordChar
    requires Classify(v[3]) == WordChar && Classify(v[4]) == WordChar
    ensures Tokenize(v) == [Span(0, 2), Span(2, 3), Span(3, 5)]
  {
    assert TokenizeFrom(v, 5) == [];
    TokenizeRunStep(v, 3, 5);
    TokenizeRunStep(v, 2, 3);
    TokenizeRunStep(v, 0, 2);
  }

  /** The characters of `s` that are not whitespace, in order. */
  function NonSpace(s: string): (r: string)
    ensures forall j :: 0 <= j < |r| ==> Classify(r[j]) != SpaceChar
    decreases |s|
  {
    if s == [] then ""
    else (if Classify(s[0]) == SpaceChar then "" else [s[0]]) + NonSpace(s[1..])
  }

  lemma {:induction false} NonSpaceAppend(a: string, b: string)
    ensures NonSpace(a + b) == NonSpace(a) + NonSpace(b)
    decreases |a|
  {
    if a == [] {
      assert a + b == b;
    } else {
      assert (a + b)[0] == a[0] && (a + b)[1..] == a[1..] + b;
      NonSpaceAppend(a[1..], b);
    }
  }

  lemma {:induction false} NonSpaceKeeps(s: string)
    requires forall j :: 0 <= j < |s| ==> Classify(s[j]) != SpaceChar
    ensures NonSpace(s) == s
    decreases |s|
  {
    if s != [] {
      NonSpaceKeeps(s[1..]);
      assert s == [s[0]] + s[1..];
    }
  }

  /** The text of each span, as Python slices it. */
  function SpanTexts(text: string, spans: seq<Span>): (r: seq<string>)
    ensures |r| == |spans|
    ensures forall k :: 0 <= k < |r| ==> r[k] == Slice(text, spans[k].start, spans[k].end)
    decreases |spans|
  {
    if spans == [] then []
    else [Slice(text, spans[0].start, spans[0].end)] + SpanTexts(text, spans[1..])
  }

  /** Read one after the other, the tokens of `text[i..]` spell out its
      non-whitespace characters. */
  lemma {:induction false} TokenizeFromSpells(text: string, i: nat)
    requires i <= |text|
    ensures Concat(SpanTexts(text, TokenizeFrom(text, i))) == NonSpace(text[i..])
    decreases |text| - i
  {
    if i == |text| {
      assert text[i..] == [];
    } else if Classify(text[i]) == SpaceChar {
      TokenizeFromSpells(text, i + 1);
      assert text[i..] == [text[i]] + text[i + 1..];
    } else {
      TokenizeFromSpells(text, RunEnd(text, i, Classify(text[i])));
      SpellsRunStep(text, i);
    }
  }

  lemma SpellsRunStep(text: string, i: nat)
    requires i < |text| && Classify(text[i]) != SpaceChar
    requires var e := RunEnd(text, i, Classify(text[i]));
      Concat(SpanTexts(text, TokenizeFrom(text, e))) == NonSpace(text[e..])
    ensures Concat(SpanTexts(text, TokenizeFrom(text, i))) == NonSpace(text[i..])
  {
    var e := RunEnd(text, i, Classify(text[i]));
    var rest := SpanTexts(text, TokenizeFrom(text, e));
    FirstTokenText(text, i);
    ConcatCons(text[i..e], rest);
    NonSpaceRun(text, i, e);
  }

  /** The first token text of a suffix that starts with a run is the run. */
  lemma FirstTokenText(text: string, i: nat)
    requires i < |text| && Classify(text[i]) != SpaceChar
    ensures var e := RunEnd(text, i, Classify(text[i]));
      SpanTexts(text, TokenizeFrom(text, i)) == [text[i..e]] + SpanTexts(text, TokenizeFrom(text, e))
  {
    var e := RunEnd(text, i, Classify(text[i]));
    assert TokenizeFrom(text, i) == [Span(i, e)] + TokenizeFrom(text, e);
    SpanTextsCons(text, Span(i, e), TokenizeFrom(text, e));
    assert Slice(text, i, e) == text[i..e];
  }

  lemma SpanTextsCons(text: string, x: Span, rest: seq<Span>)
    ensures SpanTexts(text, [x] + rest) == [Slice(text, x.start, x.end)] + SpanTexts(text, rest)
  {
    assert ([x] + rest)[1..] == rest;
  }

  lemma ConcatCons(x: string, xs: seq<string>)
    ensures Concat([x] + xs) == x + Concat(xs)
  {
    assert ([x] + xs)[1..] == xs;
  }

  /** Without whitespace in `[i, e)`, those characters come through whole. */
  lemma NonSpaceRun(text: string, i: nat, e: nat)
    requires i <= e <= |text|
    requires forall j :: i <= j < e ==> Classify(text[j]) != SpaceChar
    ensures NonSpace(text[i..]) == text[i..e] + NonSpace(text[e..])
  {
    assert text[i..] == text[i..e] + text[e..];
    NonSpaceAppend(text[i..e], text[e..]);
    NonSpaceKeeps(text[i..e]);
  }

  /** The token texts of a text, concatenated, are the text without its
      whitespace: tokenizing loses nothing but whitespace. */
  lemma TokensSpellText(text: string)
    ensures Concat(SpanTexts(text, Tokenize(text))) == NonSpace(text)
  {
    TokenizeFromSpells(text, 0);
    assert text[0..] == text;
  }

  /** A single space keeps the tokens of the two sides apart: the tokens of
      `a + " " + b` are those of `a` followed by those of `b`, moved right
      past `a` and the space. */
  lemma SpaceSeam(a: string, b: string)
    ensures Tokenize(a + " " + b) == Tokenize(a) + Shift(Tokenize(b), |a| + 1)
    ensures |Tokenize(a + " " + b)| == |Tokenize(a)| + |Tokenize(b)|
  {
    LeadingSpace(b);
    TokenizeConcat(a, " " + b);
    assert a + " " + b == a + (" " + b);
    ShiftShift(Tokenize(b), 1, |a|);
  }

  /** A leading space only moves the tokens right by one. */
  lemma LeadingSpace(b: string)
    ensures Tokenize(" " + b) == Shift(Tokenize(b), 1)
  {
    TokenizeConcat(" ", b);
    assert Tokenize(" ") == [];
  }

  lemma ShiftShift(spans: seq<Span>, d: int, d': int)
    ensures Shift(Shift(spans, d), d') == Shift(spans, d + d')
  {
  }

  /** A word: a non-empty run of word characters. */
  predicate IsWord(w: string) {
    w != [] && forall j :: 0 <= j < |w| ==> Classify(w[j]) == WordChar
  }

  /** A non-empty string of word characters is one token. */
  lemma WordToken(w: string)
    requires IsWord(w)
    ensures Tokenize(w) == [Span(0, |w|)]
  {
    TokenizeRunStep(w, 0, |w|);
    assert TokenizeFrom(w, |w|) == [];
  }

  /** Words joined by single spaces give one token per word. */
  lemma {:induction false} SpacedWordsCount(words: seq<string>)
    requires forall k :: 0 <= k < |words| ==> IsWord(words[k])
    ensures |Tokenize(Join(words, " "))| == |words|
    decreases |words|
  {
    if |words| == 1 {
      WordToken(words[0]);
    } else if |words| > 1 {
      WordToken(words[0]);
      SpacedWordsCount(words[1..]);
      SpaceSeam(words[0], Join(words[1..], " "));
    }
  }

  /** Token `k` of `b` is token `|Tokenize(a)| + k` of `a + " " + b`, moved
      right past `a` and the space. */
  lemma SpaceSeamAt(a: string, b: string, k: nat)
    requires k < |Tokenize(b)|
    ensures |Tokenize(a)| + k < |Tokenize(a + " " + b)|
    ensures Tokenize(a + " " + b)[|Tokenize(a)| + k]
      == Span(Tokenize(b)[k].start + |a| + 1, Tokenize(b)[k].end + |a| + 1)
  {
    SpaceSeam(a, b);
    assert Tokenize(a + " " + b)[|Tokenize(a)| + k] == Shift(Tokenize(b), |a| + 1)[k];
  }

  /** Token counts add up across a single space. */
  lemma SpaceSeamCount(a: string, b: string, m: nat, n: nat)
    requires |Tokenize(a)| == m && |Tokenize(b)| == n
    ensures |Tokenize(a + " " + b)| == m + n
  {
    SpaceSeam(a, b);
  }

  /** A word, a hyphen and a word: the hyphen is a token of its own. */
  lemma HyphenatedWord(a: string, b: string)
    requires a != [] && Classify(a[|a| - 1]) == WordChar
    requires IsWord(b)
    ensures Tokenize(a + "-" + b) == Tokenize(a) + [Span(|a|, |a| + 1), Span(|a| + 1, |a| + 1 + |b|)]
  {
    var h := "-" + b;
    WordToken(b);
    assert Tokenize("-") == [Span(0, 1)] by { TokenizeRunStep("-", 0, 1); }
    TokenizeConcat("-", b);
    assert Tokenize(h) == [Span(0, 1), Span(1, 1 + |b|)];
    assert Seam(a, h) by { assert h[0] == '-'; }
    TokenizeConcat(a, h);
    assert a + "-" + b == a + h;
    assert Shift(Tokenize(h), |a|) == [Span(|a|, |a| + 1), Span(|a| + 1, |a| + 1 + |b|)];
  }

  /** `karl-preis-platz`, a station name of the Chatbot corpus, is five
      tokens: three words and the two hyphens between them. */
  lemma KarlPreisPlatz(t: string)
    requires t == "karl-preis-platz"
    ensures Tokenize(t) == [Span(0, 4), Span(4, 5), Span(5, 10), Span(10, 11), Span(11, 16)]
  {
    var a, w := "karl-preis", "platz";
    assert t == a + "-" + w;
    KarlPreis(a);
    PlatzIsWord(w);
    HyphenatedWord(a, w);
  }

  lemma KarlPreis(a: string)
    requires a == "karl-preis"
    ensures |a| == 10 && Classify(a[9]) == WordChar
    ensures Tokenize(a) == [Span(0, 4), Span(4, 5), Span(5, 10)]
  {
    assert a == "karl" + "-" + "preis";
    WordToken("karl");
    HyphenatedWord("karl", "preis");
  }

  /** Helper: `platz` is a five-letter word. */
  lemma PlatzIsWord(w: string)
    requires w == "platz"
    ensures |w| == 5 && IsWord(w)
  {
  }

  /** A word, a space and a text: the word is the first token and the text's
      tokens follow, moved right past the word and the space. */
  lemma SpaceWord(w: string, b: string, bs: seq<Span>)
    requires IsWord(w)
    requires Tokenize(b) == bs
    ensures Tokenize(w + " " + b) == [Span(0, |w|)] + Shift(bs, |w| + 1)
  {
    WordToken(w);
    SpaceSeam(w, b);
  }

  /** A word and a full stop: the stop is a token of its own. */
  lemma WordStop(w: string)
    requires IsWord(w)
    ensures Tokenize(w + ".") == [Span(0, |w|), Span(|w|, |w| + 1)]
  {
    WordToken(w);
    assert Tokenize(".") == [Span(0, 1)] by { TokenizeRunStep(".", 0, 1); }
    assert Seam(w, ".");
    TokenizeConcat(w, ".");
  }

  /** Four words separated by single spaces and closed by a full stop: one
      token per word and one for the stop. */
  lemma FourWordSentence(a: string, b: string, c: string, d: string)
    requires IsWord(a) && IsWord(b) && IsWord(c) && IsWord(d)
    ensures var i, j, k := |a| + 1, |a| + 1 + |b| + 1, |a| + 1 + |b| + 1 + |c| + 1;
      Tokenize(a + " " + (b + " " + (c + " " + (d + "."))))
        == [Span(0, |a|), Span(i, i + |b|), Span(j, j + |c|), Span(k, k + |d|), Span(k + |d|, k + |d| + 1)]
  {
    WordStop(d);
    SpaceWord(c, d + ".", [Span(0, |d|), Span(|d|, |d| + 1)]);
    var cs := Tokenize(c + " " + (d + "."));
    SpaceWord(b, c + " " + (d + "."), cs);
    SpaceWord(a, b + " " + (c + " " + (d + ".")), Tokenize(b + " " + (c + " " + (d + "."))));
  }

  /** `Alternative to Facebook Messenger.`: four words and the full stop,
      which is punctuation glued to the last word. */
  lemma MessengerTokens(t: string)
    requires t == "Alternative to Facebook Messenger."
    ensures Tokenize(t) == [Span(0, 11), Span(12, 14), Span(15, 23), Span(24, 33), Span(33, 34)]
  {
    var a, b, c, d := "Alternative", "to", "Facebook", "Messenger";
    MessengerWords(t, a, b, c, d);
    FourWordSentence(a, b, c, d);
  }

  /** Helper: the example sentence as four words, spaces and a full stop. */
  lemma MessengerWords(t: string, a: string, b: string, c: string, d: string)
    requires t == "Alternative to Facebook Messenger."
    requires a == "Alternative" && b == "to" && c == "Facebook" && d == "Messenger"
    ensures t == a + " " + (b + " " + (c + " " + (d + ".")))
    ensures IsWord(a) && IsWord(b) && IsWord(c) && IsWord(d)
    ensures |a| == 11 && |b| == 2 && |c| == 8 && |d| == 9
  {
    LongWords(a, c, d);
  }

  /** Helper: the longer words of the example sentence are words. */
  lemma LongWords(a: string, c: string, d: string)
    requires a == "Alternative" && c == "Facebook" && d == "Messenger"
    ensures IsWord(a) && IsWord(c) && IsWord(d)
  {
  }
}
