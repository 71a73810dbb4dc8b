/**
 * Sequence operations shared by the components: `Array.prototype.filter`,
 * `Array.prototype.slice` (with its clamping of negative and out-of-range
 * bounds), and the subsequence relation used to state that a filter keeps
 * order.
 */
module Seqs {

  /** `s.filter(p)`: the elements satisfying `p`, in their original order. */
  function Filter<T>(s: seq<T>, p: T -> bool): (r: seq<T>)
    ensures |r| <= |s|
  {
    if s == [] then []
    else (if p(s[0]) then [s[0]] else []) + Filter(s[1..], p)
  }

  /** `x` is obtained from `y` by deleting elements (order kept). */
  predicate IsSubseq<T(==)>(x: seq<T>, y: seq<T>)
    decreases |y|
  {
    if x == [] then true
    else if y == [] then false
    else if x[0] == y[0] then IsSubseq(x[1..], y[1..])
    else IsSubseq(x, y[1..])
  }

  lemma {:induction false} FilterIsSubseq<T>(s: seq<T>, p: T -> bool)
    ensures IsSubseq(Filter(s, p), s)
  {
    if s != [] {
      var rest := Filter(s[1..], p);
      FilterIsSubseq(s[1..], p);
      if p(s[0]) {
        assert Filter(s, p) == [s[0]] + rest;
        assert ([s[0]] + rest)[1..] == rest;
      } else {
        assert Filter(s, p) == rest;
        SubseqDropHead(rest, s);
      }
    }
  }

  /** A subsequence of the tail is a subsequence of the whole. */
  lemma {:induction false} SubseqDropHead<T>(x: seq<T>, y: seq<T>)
    requires y != [] && IsSubseq(x, y[1..])
    ensures IsSubseq(x, y)
    decreases |y|, 0
  {
    if x != [] && x[0] == y[0] {
      SubseqTail(x, y[1..]);
    }
  }

  /** Deleting the head of a subsequence keeps it a subsequence. */
  lemma {:induction false} SubseqTail<T>(x: seq<T>, y: seq<T>)
    requires x != [] && IsSubseq(x, y)
    ensures IsSubseq(x[1..], y)
    decreases |y|, 1
  {
    if y != [] {
      if x[0] == y[0] {
        assert IsSubseq(x[1..], y[1..]);
        SubseqDropHead(x[1..], y);
      } else {
        SubseqTail(x, y[1..]);
        SubseqDropHead(x[1..], y);
      }
    }
  }

  /** Every occurrence of an element satisfying `p` is kept, every other one is dropped. */
  lemma {:induction false} FilterCount<T>(s: seq<T>, p: T -> bool, e: T)
    ensures multiset(Filter(s, p))[e] == if p(e) then multiset(s)[e] else 0
  {
    if s != [] {
      FilterCount(s[1..], p, e);
      assert s == [s[0]] + s[1..];
    }
  }

  lemma {:induction false} FilterMembership<T>(s: seq<T>, p: T -> bool, e: T)
    ensures e in Filter(s, p) <==> e in s && p(e)
  {
    FilterCount(s, p, e);
  }

  /** A predicate true of every element keeps the whole sequence. */
  lemma {:induction false} FilterAll<T>(s: seq<T>, p: T -> bool)
    requires forall i :: 0 <= i < |s| ==> p(s[i])
    ensures Filter(s, p) == s
  {
    if s != [] {
      FilterAll(s[1..], p);
    }
  }

  lemma {:induction false} FilterAppend<T>(a: seq<T>, b: seq<T>, p: T -> bool)
    ensures Filter(a + b, p) == Filter(a, p) + Filter(b, p)
    decreases |a|
  {
    if a == [] {
      assert a + b == b;
    } else {
      var head := if p(a[0]) then [a[0]] else [];
      assert (a + b)[0] == a[0];
      assert (a + b)[1..] == a[1..] + b;
      assert Filter(a + b, p) == head + Filter(a[1..] + b, p);
      FilterAppend(a[1..], b, p);
      assert Filter(a, p) == head + Filter(a[1..], p);
    }
  }

  /** The index `Array.prototype.slice` uses for a relative bound. */
  function ClampIndex(k: int, len: nat): (r: nat)
    ensures r <= len
    ensures 0 <= k <= len ==> r == k
    ensures k < 0 ==> r == if len + k < 0 then 0 else len + k
    ensures k > len ==> r == len
  {
    if k < 0 then (if len + k < 0 then 0 else len + k)
    else if k > len then len
    else k
  }

  /** `s.slice(start, end)`: negative bounds count from the end, bounds are clamped, an empty range gives []. */
  function JsSlice<T>(s: seq<T>, start: int, end: int): (r: seq<T>)
    ensures 0 <= start <= end <= |s| ==> r == s[start..end]
    ensures |r| <= |s|
  {
    var from := ClampIndex(start, |s|);
    var to := ClampIndex(end, |s|);
    if from < to then s[from..to] else []
  }
}
