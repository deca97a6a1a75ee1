/** The few JavaScript built-ins the widget script relies on, modelled on
    Dafny strings and sequences:
    - `String.prototype.indexOf` and `includes` (leftmost occurrence),
    - `String.prototype.split` with a non-empty string separator (a
      leftmost, non-overlapping scan, as ECMAScript defines it),
    - `String.prototype.substring` (arguments clamped, then ordered),
    - `Array.prototype.slice` with a single, possibly negative, start.
    A JavaScript string is a `string` here, a sequence of Unicode scalar
    values, so indices and lengths count characters where JavaScript counts
    UTF-16 code units; the two agree below U+10000. The bucketing hash, whose
    result depends on the code units, produces them explicitly. */
module Js {

  /** `null` / `undefined` versus a present value. */
  datatype Option<+T> = None | Some(value: T)

  function Min(a: int, b: int): int { if a <= b then a else b }

  function Max(a: int, b: int): int { if a <= b then b else a }

  /** `w` occurs in `s` starting at index `i`. */
  predicate Occurs(s: string, w: string, i: int)
  {
    0 <= i && i + |w| <= |s| && s[i..i + |w|] == w
  }

  /** `w` occurs nowhere in `s`. */
  ghost predicate Free(s: string, w: string)
  {
    forall i :: !Occurs(s, w, i)
  }

  /** `w` occurs somewhere in `s`. */
  ghost predicate Contains(s: string, w: string)
  {
    exists i :: Occurs(s, w, i)
  }

  /** `i` is the leftmost occurrence of `w` in `s`. */
  ghost predicate Leftmost(s: string, w: string, i: int)
  {
    Occurs(s, w, i) && forall j :: 0 <= j < i ==> !Occurs(s, w, j)
  }

  /** A one-character needle occurs exactly where that character stands. */
  lemma OccursChar(s: string, c: char, i: int)
    ensures Occurs(s, [c], i) <==> 0 <= i < |s| && s[i] == c
  {
  }

  /** Occurrences in `s` past its first character are occurrences in `s[1..]`. */
  lemma OccursInTail(s: string, w: string)
    requires |s| > 0
    ensures forall j :: 1 <= j ==> (Occurs(s, w, j) <==> Occurs(s[1..], w, j - 1))
  {
  }

  /** Occurrences inside a prefix of `s` are occurrences in `s`. */
  lemma OccursInPrefix(s: string, w: string, n: int, i: int)
    requires 0 <= n <= |s|
    requires Occurs(s[..n], w, i)
    ensures Occurs(s, w, i)
  {
  }

  /** Occurrences inside the suffix `s[n..]` are occurrences in `s`, shifted
      by `n`. */
  lemma OccursInSuffix(s: string, w: string, n: int, i: int)
    requires 0 <= n <= |s|
    ensures Occurs(s[n..], w, i) <==> i >= 0 && Occurs(s, w, n + i)
  {
  }

  /** `s.indexOf(w)`: the leftmost occurrence, if any. */
  function IndexOf(s: string, w: string): (r: Option<nat>)
    ensures r.Some? ==> Occurs(s, w, r.value)
    ensures r.Some? ==> forall j :: 0 <= j < r.value ==> !Occurs(s, w, j)
    ensures r.None? ==> forall j :: !Occurs(s, w, j)
    decreases |s|
  {
    if |s| < |w| then None
    else if s[..|w|] == w then Some(0)
    else
      OccursInTail(s, w);
      match IndexOf(s[1..], w)
      case None => None
      case Some(k) => Some(k + 1)
  }

  /** `s.includes(w)` */
  function Includes(s: string, w: string): (b: bool)
    ensures b <==> Contains(s, w)
  {
    IndexOf(s, w).Some?
  }

  /** `s.split(sep)` for a non-empty string separator: a single part, `s`
      itself, when the separator is absent; otherwise the text before the
      leftmost separator, then the parts of what follows it. */
  function Split(s: string, sep: string): (parts: seq<string>)
    requires |sep| > 0
    ensures |parts| >= 1
    ensures parts[0] <= s
    decreases |s|
  {
    match IndexOf(s, sep)
    case None => [s]
    case Some(j) => [s[..j]] + Split(s[j + |sep|..], sep)
  }

  /** `parts.join(sep)`, the inverse of `Split`. */
  function Join(parts: seq<string>, sep: string): string
    requires |parts| >= 1
  {
    if |parts| == 1 then parts[0] else parts[0] + sep + Join(parts[1..], sep)
  }

  lemma JoinCons(first: string, tail: seq<string>, sep: string)
    requires |tail| >= 1
    ensures Join([first] + tail, sep) == first + sep + Join(tail, sep)
  {
    assert ([first] + tail)[1..] == tail;
  }

  /** After the leftmost separator, splitting continues on the rest: the
      parts are the text before it followed by the parts of what follows. */
  lemma SplitRest(s: string, sep: string, i: int)
    requires |sep| > 0
    requires Leftmost(s, sep, i)
    ensures Split(s, sep) == [s[..i]] + Split(s[i + |sep|..], sep)
  {
  }

  /** Splitting loses nothing: joining the parts back gives `s`. */
  lemma {:induction false} SplitJoin(s: string, sep: string)
    requires |sep| > 0
    ensures Join(Split(s, sep), sep) == s
    decreases |s|
  {
    match IndexOf(s, sep)
    case None =>
    case Some(j) =>
      var rest := s[j + |sep|..];
      var tail := Split(rest, sep);
      SplitJoin(rest, sep);
      assert Split(s, sep) == [s[..j]] + tail;
      JoinCons(s[..j], tail, sep);
      assert s == s[..j] + sep + rest;
  }

  /** No part of a split contains the separator. */
  lemma {:induction false} SplitPartsFree(s: string, sep: string)
    requires |sep| > 0
    ensures forall k :: 0 <= k < |Split(s, sep)| ==> Free(Split(s, sep)[k], sep)
    decreases |s|
  {
    match IndexOf(s, sep)
    case None =>
    case Some(j) =>
      var rest := s[j + |sep|..];
      var tail := Split(rest, sep);
      SplitPartsFree(rest, sep);
      forall i | Occurs(s[..j], sep, i)
        ensures false
      {
        OccursInPrefix(s, sep, j, i);
      }
      var parts := Split(s, sep);
      assert parts == [s[..j]] + tail;
      forall k | 0 <= k < |parts|
        ensures Free(parts[k], sep)
      {
        if k > 0 {
          assert parts[k] == tail[k - 1];
        }
      }
  }

  /** The first part of a split is the text before the leftmost separator
      (all of `s` when there is none). */
  lemma SplitFirst(s: string, sep: string)
    requires |sep| > 0
    ensures Free(s, sep) ==> Split(s, sep) == [s]
    ensures forall i :: Leftmost(s, sep, i) ==> Split(s, sep)[0] == s[..i]
  {
  }

  /** A split has exactly two parts iff, after the leftmost separator, no
      further separator starts; the second part is then everything after it. */
  lemma SplitTwo(s: string, sep: string, i: int)
    requires |sep| > 0
    requires Leftmost(s, sep, i)
    ensures |Split(s, sep)| == 2 <==> Free(s[i + |sep|..], sep)
    ensures |Split(s, sep)| == 2 ==> Split(s, sep)[1] == s[i + |sep|..]
  {
  }

  /** `f` is the text of `s` up to (not including) its first `c`. */
  ghost predicate FirstField(f: string, s: string, c: char)
  {
    && f <= s
    && c !in f
    && (|f| == |s| || s[|f|] == c)
  }

  /** `s.split(c)[0]` is the text up to the first `c`. */
  lemma SplitCharFirst(s: string, c: char)
    ensures FirstField(Split(s, [c])[0], s, c)
  {
    var f := Split(s, [c])[0];
    match IndexOf(s, [c])
    case None =>
      forall k | 0 <= k < |s|
        ensures s[k] != c
      {
        OccursChar(s, c, k);
      }
    case Some(j) =>
      OccursChar(s, c, j);
      forall k | 0 <= k < j
        ensures s[k] != c
      {
        OccursChar(s, c, k);
      }
  }

  /** Splitting on a character gives more than one part exactly when the
      character occurs. */
  lemma SplitCharCount(s: string, c: char)
    ensures |Split(s, [c])| == 1 <==> c !in s
  {
    SplitFirst(s, [c]);
    match IndexOf(s, [c])
    case None =>
      forall k | 0 <= k < |s|
        ensures s[k] != c
      {
        OccursChar(s, c, k);
      }
    case Some(j) =>
      OccursChar(s, c, j);
  }

  /** `s.substring(start, end)`: both indices clamped to `[0, |s|]`, then
      swapped if out of order. */
  function Substring(s: string, start: int, end: int): (r: string)
    ensures 0 <= start <= end ==> r == s[..Min(end, |s|)][Min(start, |s|)..]
    ensures |r| <= |s|
  {
    var a := Max(0, Min(start, |s|));
    var b := Max(0, Min(end, |s|));
    if a <= b then s[a..b] else s[b..a]
  }

  /** `xs.slice(start)`: a negative `start` counts back from the end; the
      result is always a suffix of `xs`. */
  function SliceFrom<T>(xs: seq<T>, start: int): (r: seq<T>)
    ensures start < 0 ==> |r| == Min(-start, |xs|)
    ensures 0 <= start ==> |r| == Max(|xs| - start, 0)
    ensures r == xs[|xs| - |r|..]
  {
    var k := if start < 0 then Max(|xs| + start, 0) else Min(start, |xs|);
    xs[k..]
  }
}
