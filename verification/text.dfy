/** String helpers the formatters rely on: joining with a separator, Python's
    `str.split` on one character, removing spaces, and decimal rendering. */
module Text {

  /** `sep.join(parts)`. */
  function Join(parts: seq<string>, sep: string): (r: string)
    ensures |parts| == 0 ==> r == ""
    ensures |parts| == 1 ==> r == parts[0]
    decreases |parts|
  {
    if |parts| == 0 then ""
    else if |parts| == 1 then parts[0]
    else parts[0] + sep + Join(parts[1..], sep)
  }

  /** Joining one more part appends the separator and the part. */
  lemma {:induction false} JoinSnoc(parts: seq<string>, x: string, sep: string)
    requires |parts| > 0
    ensures Join(parts + [x], sep) == Join(parts, sep) + sep + x
    decreases |parts|
  {
    if |parts| == 1 {
      assert parts + [x] == [parts[0], x];
      assert [parts[0], x][1..] == [x];
    } else {
      assert (parts + [x])[1..] == parts[1..] + [x];
      JoinSnoc(parts[1..], x, sep);
    }
  }

  /** `''.join(parts)`. */
  function Concat(parts: seq<string>): (r: string)
    ensures parts == [] ==> r == ""
    decreases |parts|
  {
    if parts == [] then "" else parts[0] + Concat(parts[1..])
  }

  /** Where Python's slice bound `i` lands in a sequence of length `n`:
      negative bounds count from the end, and bounds outside are clamped. */
  function SliceBound(i: int, n: nat): (r: nat)
    ensures r <= n
    ensures 0 <= i <= n ==> r == i
  {
    if i < 0 then (if i + n < 0 then 0 else i + n)
    else if i > n then n
    else i
  }

  /** Python's `s[a:b]`; empty when the bounds cross. */
  function Slice(s: string, a: int, b: int): (r: string)
    ensures 0 <= a <= b <= |s| ==> r == s[a..b]
    ensures |r| <= |s|
  {
    var i := SliceBound(a, |s|);
    var j := SliceBound(b, |s|);
    if i <= j then s[i..j] else ""
  }

  /** The part of `line` before the first `c` and the part after it; a line
      without `c` is all first part. */
  function SplitFirst(line: string, c: char): (r: (string, string))
    ensures c !in r.0
    ensures c in line ==> line == r.0 + [c] + r.1
    ensures c !in line ==> r == (line, "")
    decreases |line|
  {
    if line == [] then ("", "")
    else if line[0] == c then ("", line[1..])
    else
      var (a, b) := SplitFirst(line[1..], c);
      assert line == [line[0]] + line[1..];
      ([line[0]] + a, b)
  }

  /** Splitting at the first `c` undoes gluing a first part without `c` to
      the rest with `c`. */
  lemma {:induction false} SplitFirstGlue(a: string, b: string, c: char)
    requires c !in a
    ensures SplitFirst(a + [c] + b, c) == (a, b)
    decreases |a|
  {
    var line := a + [c] + b;
    if a == [] {
      assert line == [c] + b;
    } else {
      assert line[0] == a[0] && line[1..] == a[1..] + [c] + b;
      SplitFirstGlue(a[1..], b, c);
      assert a == [a[0]] + a[1..];
    }
  }

  /** `s.split(c)`: the pieces between occurrences of `c`; never empty. */
  function Split(s: string, c: char): (pieces: seq<string>)
    ensures |pieces| >= 1
    ensures forall k :: 0 <= k < |pieces| ==> c !in pieces[k]
  {
    if s == [] then [""]
    else
      var rest := Split(s[1..], c);
      if s[0] == c then [""] + rest
      else [[s[0]] + rest[0]] + rest[1..]
  }

  /** A string without `c` is one piece. */
  lemma {:induction false} SplitWithout(s: string, c: char)
    requires c !in s
    ensures Split(s, c) == [s]
    decreases |s|
  {
    if s != [] {
      SplitWithout(s[1..], c);
      assert [s[0]] + s[1..] == s;
    }
  }

  /** Splitting at an occurrence of `c` splits the pieces there. */
  lemma {:induction false} SplitConcat(p: string, q: string, c: char)
    ensures Split(p + [c] + q, c) == Split(p, c) + Split(q, c)
    decreases |p|
  {
    var s := p + [c] + q;
    if p == [] {
      assert s == [c] + q && s[1..] == q;
    } else {
      assert s[0] == p[0] && s[1..] == p[1..] + [c] + q;
      SplitConcat(p[1..], q, c);
    }
  }

  /** Joining pieces without `c` by `c` and splitting again gives the pieces back. */
  lemma {:induction false} SplitJoin(parts: seq<string>, c: char)
    requires |parts| > 0
    requires forall k :: 0 <= k < |parts| ==> c !in parts[k]
    ensures Split(Join(parts, [c]), c) == parts
    decreases |parts|
  {
    if |parts| == 1 {
      SplitWithout(parts[0], c);
    } else {
      SplitJoin(parts[1..], c);
      SplitWithout(parts[0], c);
      SplitConcat(parts[0], Join(parts[1..], [c]), c);
      assert parts == [parts[0]] + parts[1..];
    }
  }

  /** `s.replace(' ', '')`. */
  function RemoveSpaces(s: string): (r: string)
    ensures ' ' !in r
    ensures |r| == |s| - multiset(s)[' ']
    ensures forall ch :: ch != ' ' ==> multiset(r)[ch] == multiset(s)[ch]
  {
    if s == [] then ""
    else
      assert s == [s[0]] + s[1..];
      (if s[0] == ' ' then "" else [s[0]]) + RemoveSpaces(s[1..])
  }

  /** Removing the spaces is `''.join(s.split(' '))`: the pieces between
      the spaces, in their order. */
  lemma {:induction false} RemoveSpacesSplit(s: string)
    ensures RemoveSpaces(s) == Concat(Split(s, ' '))
    decreases |s|
  {
    if s != [] {
      RemoveSpacesSplit(s[1..]);
      ConcatSplitStep(s, ' ');
    }
  }

  /** Joining the pieces of `s.split(c)` drops the first character when it
      is `c` and keeps it otherwise. */
  lemma ConcatSplitStep(s: string, c: char)
    requires s != []
    ensures Concat(Split(s, c)) == (if s[0] == c then "" else [s[0]]) + Concat(Split(s[1..], c))
  {
    var rest := Split(s[1..], c);
    var pieces := Split(s, c);
    assert Concat(rest) == rest[0] + Concat(rest[1..]);
    if s[0] == c {
      assert pieces == [""] + rest && pieces[1..] == rest;
    } else {
      assert pieces[0] == [s[0]] + rest[0] && pieces[1..] == rest[1..];
    }
  }

  /** Removing spaces keeps a string without spaces as it is. */
  lemma {:induction false} RemoveSpacesWithout(s: string)
    requires ' ' !in s
    ensures RemoveSpaces(s) == s
    decreases |s|
  {
    if s != [] {
      RemoveSpacesWithout(s[1..]);
      assert s == [s[0]] + s[1..];
    }
  }

  /** `str(n)` for a natural number. */
  function NatToString(n: nat): (r: string)
    ensures |r| >= 1
    ensures forall k :: 0 <= k < |r| ==> '0' <= r[k] <= '9'
  {
    var d := ['0', '1', '2', '3', '4', '5', '6', '7', '8', '9'][n % 10];
    if n < 10 then [d] else NatToString(n / 10) + [d]
  }
}
