/** Option and Result, and the generic sequence operations that both the
    server route and the page use: `filter`, `findIndex`, `join` and
    `split` on one character, with the facts about them that the rest of
    the model relies on. */
module Basics {

  datatype Option<+T> = None | Some(value: T)

  /** A value, or the message of the error that was thrown instead. */
  datatype Result<+T, +E> = Success(value: T) | Failure(error: E)

  /** `columns[k]`, or `[]` when the array has no element `k`: the default
      of a destructuring `const [a = [], b = [], ...] = columns`. */
  function Column(columns: seq<seq<string>>, k: nat): (col: seq<string>)
    ensures k < |columns| ==> col == columns[k]
    ensures k >= |columns| ==> col == []
  {
    if k < |columns| then columns[k] else []
  }

  /** `xs.filter(p)`. */
  function Filter<T>(xs: seq<T>, p: T -> bool): (r: seq<T>)
    ensures |r| <= |xs|
    ensures forall k :: 0 <= k < |r| ==> p(r[k])
  {
    if xs == [] then []
    else (if p(xs[0]) then [xs[0]] else []) + Filter(xs[1..], p)
  }

  /** The filter keeps exactly the elements that pass it. */
  lemma {:induction false} FilterMembers<T>(xs: seq<T>, p: T -> bool, x: T)
    ensures x in Filter(xs, p) <==> x in xs && p(x)
  {
    if xs != [] {
      FilterMembers(xs[1..], p, x);
      assert xs == [xs[0]] + xs[1..];
    }
  }

  /** Each element of a filtered sequence is an element of the input. */
  lemma {:induction false} FilterOrigin<T>(xs: seq<T>, p: T -> bool, i: nat) returns (j: nat)
    requires i < |Filter(xs, p)|
    ensures j < |xs| && xs[j] == Filter(xs, p)[i]
  {
    var rest := Filter(xs[1..], p);
    assert Filter(xs, p) == (if p(xs[0]) then [xs[0]] else []) + rest;
    if p(xs[0]) && i == 0 {
      j := 0;
    } else {
      var i' := if p(xs[0]) then i - 1 else i;
      assert Filter(xs, p)[i] == rest[i'];
      var j' := FilterOrigin(xs[1..], p, i');
      j := j' + 1;
    }
  }

  /** Each element of the input that passes the filter is in its output. */
  lemma {:induction false} FilterKept<T>(xs: seq<T>, p: T -> bool, j: nat) returns (i: nat)
    requires j < |xs| && p(xs[j])
    ensures i < |Filter(xs, p)| && Filter(xs, p)[i] == xs[j]
  {
    var rest := Filter(xs[1..], p);
    var head := if p(xs[0]) then [xs[0]] else [];
    assert Filter(xs, p) == head + rest;
    if j == 0 {
      i := 0;
    } else {
      assert xs[1..][j - 1] == xs[j];
      var i' := FilterKept(xs[1..], p, j - 1);
      i := |head| + i';
    }
  }

  /** A filter keeps something exactly when something passes it. */
  lemma {:induction false} FilterNonEmpty<T>(xs: seq<T>, p: T -> bool)
    ensures Filter(xs, p) != [] <==> exists k :: 0 <= k < |xs| && p(xs[k])
  {
    if xs != [] {
      FilterNonEmpty(xs[1..], p);
      if exists k :: 0 <= k < |xs[1..]| && p(xs[1..][k]) {
        var k :| 0 <= k < |xs[1..]| && p(xs[1..][k]);
        assert p(xs[k + 1]);
      }
      if exists k :: 0 <= k < |xs| && p(xs[k]) {
        var k :| 0 <= k < |xs| && p(xs[k]);
        if k > 0 {
          assert p(xs[1..][k - 1]);
        }
      }
    }
  }

  /** What holds of every element still holds after filtering. */
  lemma {:induction false} FilterKeepsProperty<T>(xs: seq<T>, p: T -> bool, q: T -> bool)
    requires forall k :: 0 <= k < |xs| ==> q(xs[k])
    ensures forall k :: 0 <= k < |Filter(xs, p)| ==> q(Filter(xs, p)[k])
  {
    if xs != [] {
      assert forall k :: 0 <= k < |xs[1..]| ==> q(xs[1..][k]);
      FilterKeepsProperty(xs[1..], p, q);
    }
  }

  /** Filtering a concatenation filters each part and keeps their order. */
  lemma {:induction false} FilterAppend<T>(a: seq<T>, b: seq<T>, p: T -> bool)
    ensures Filter(a + b, p) == Filter(a, p) + Filter(b, p)
  {
    if a == [] {
      assert a + b == b;
    } else {
      assert (a + b)[0] == a[0];
      assert (a + b)[1..] == a[1..] + b;
      FilterAppend(a[1..], b, p);
    }
  }

  /** A filter that rejects nothing returns its input. */
  lemma {:induction false} FilterKeepsAll<T>(xs: seq<T>, p: T -> bool)
    requires forall k :: 0 <= k < |xs| ==> p(xs[k])
    ensures Filter(xs, p) == xs
  {
    if xs != [] {
      FilterKeepsAll(xs[1..], p);
    }
  }

  /** `xs.findIndex(p)`: the first index whose element satisfies `p`, or -1. */
  function FindIndex<T>(xs: seq<T>, p: T -> bool): (r: int)
    ensures -1 <= r < |xs|
    ensures r == -1 <==> forall k :: 0 <= k < |xs| ==> !p(xs[k])
    ensures r >= 0 ==> p(xs[r]) && forall k :: 0 <= k < r ==> !p(xs[k])
  {
    if xs == [] then -1
    else if p(xs[0]) then 0
    else
      var rest := FindIndex(xs[1..], p);
      if rest == -1 then -1 else rest + 1
  }

  /** `parts.join(sep)`. */
  function Join(parts: seq<string>, sep: string): string
  {
    if |parts| == 0 then ""
    else if |parts| == 1 then parts[0]
    else parts[0] + sep + Join(parts[1..], sep)
  }

  /** The first position of `c` in `s`. */
  function IndexOf(s: string, c: char): (i: nat)
    requires c in s
    ensures i < |s| && s[i] == c && c !in s[..i]
  {
    if s[0] == c then 0
    else
      assert c in s[1..];
      var i := 1 + IndexOf(s[1..], c);
      assert s[..i] == [s[0]] + s[1..][..i - 1];
      i
  }

  /** `s.split(c)` for a one-character separator: the pieces between the
      occurrences of `c`; there is always at least one piece. */
  function Split(s: string, c: char): (r: seq<string>)
    ensures |r| >= 1
    ensures forall k :: 0 <= k < |r| ==> c !in r[k]
    decreases |s|
  {
    if c !in s then [s]
    else
      var i := IndexOf(s, c);
      [s[..i]] + Split(s[i + 1..], c)
  }

  /** Joining the pieces of a split with the separator gives back the text. */
  lemma {:induction false} JoinSplit(s: string, c: char)
    ensures Join(Split(s, c), [c]) == s
    decreases |s|
  {
    if c in s {
      var i := IndexOf(s, c);
      var rest := Split(s[i + 1..], c);
      assert Split(s, c) == [s[..i]] + rest;
      assert ([s[..i]] + rest)[1..] == rest;
      JoinSplit(s[i + 1..], c);
      assert s == s[..i] + [c] + s[i + 1..];
    }
  }

  /** Splitting pieces joined by a separator none of them holds gives back
      the pieces. */
  lemma {:induction false} SplitJoin(parts: seq<string>, c: char)
    requires |parts| >= 1
    requires forall k :: 0 <= k < |parts| ==> c !in parts[k]
    ensures Split(Join(parts, [c]), c) == parts
  {
    if |parts| > 1 {
      var rest := Join(parts[1..], [c]);
      assert Join(parts, [c]) == parts[0] + [c] + rest;
      SplitAfterPiece(parts[0], c, rest);
      SplitJoin(parts[1..], c);
      assert parts == [parts[0]] + parts[1..];
    }
  }

  /** A piece free of the separator, then the separator, splits off exactly
      that piece. */
  lemma SplitAfterPiece(a: string, c: char, b: string)
    requires c !in a
    ensures Split(a + [c] + b, c) == [a] + Split(b, c)
  {
    var s := a + [c] + b;
    assert s[..|a|] == a;
    assert s[|a|] == c;
    assert s[|a| + 1..] == b;
  }
}
