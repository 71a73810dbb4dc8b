/**
 * Pagination of the typed table: the page count, the page slice
 * `filtered.slice((page - 1) * n, page * n)` and the footer's
 * "Showing from–to of total".
 */
module Paging {
  import Seqs
  import Arith

  /** A number of rows per page. */
  type PageSize = n: nat | n > 0 witness 1

  /** `Math.ceil(len / n)`. */
  function TotalPages(len: nat, n: nat): (r: nat)
    requires n > 0
  {
    (len + n - 1) / n
  }

  /** The page count is the least number of pages of `n` rows that hold `len` rows. */
  lemma TotalPagesBounds(len: nat, n: nat)
    requires n > 0
    ensures TotalPages(len, n) * n >= len
    ensures len > 0 ==> (TotalPages(len, n) - 1) * n < len
    ensures len == 0 <==> TotalPages(len, n) == 0
  {
    var t := TotalPages(len, n);
    assert (len + n - 1) == t * n + (len + n - 1) % n;
    assert t * n - n < len by {
      assert t * n - n == len - 1 - (len + n - 1) % n;
    }
  }

  /** The rows of page `page` (numbered from 1) with `n` rows per page. Page numbers
      outside 1..totalPages are not rejected: JavaScript's slice clamps them. */
  function PageRows<T>(s: seq<T>, page: int, n: nat): (r: seq<T>)
  {
    Seqs.JsSlice(s, (page - 1) * n, page * n)
  }

  /** A clamped index moves at most as far as the index it clamps, as long as
      both indices lie on the same side of 0. */
  lemma ClampIndexShrinks(a: int, b: int, len: nat)
    requires a <= b && (0 <= a || b < 0)
    ensures Seqs.ClampIndex(a, len) <= Seqs.ClampIndex(b, len)
    ensures Seqs.ClampIndex(b, len) - Seqs.ClampIndex(a, len) <= b - a
  {
  }

  /** No page, whatever its number, holds more than `n` rows. */
  lemma PageAtMostN<T>(s: seq<T>, page: int, n: nat)
    ensures |PageRows(s, page, n)| <= n
  {
    var start, end := (page - 1) * n, page * n;
    assert end == start + n;
    if page >= 1 {
      Arith.MulMono(0, page - 1, n);
      ClampIndexShrinks(start, end, |s|);
    } else if end < 0 {
      Arith.MulMono(page, 0, n);
      ClampIndexShrinks(start, end, |s|);
    } else {
      Arith.MulMono(page, 0, n);
      assert end == 0;
    }
  }

  /** Page `p` of a list of `len` rows, for `1 <= p <= totalPages`: its rows
      start at `(p - 1) * n` and it is full unless it is the last page. */
  lemma PageInRange<T>(s: seq<T>, page: int, n: nat)
    requires n > 0 && 1 <= page <= TotalPages(|s|, n)
    ensures (page - 1) * n < |s|
    ensures PageRows(s, page, n) == s[(page - 1) * n..if page * n <= |s| then page * n else |s|]
    ensures |PageRows(s, page, n)| == if page * n <= |s| then n else |s| - (page - 1) * n
    ensures page < TotalPages(|s|, n) ==> |PageRows(s, page, n)| == n
  {
    var t := TotalPages(|s|, n);
    var start, end := (page - 1) * n, page * n;
    assert end == start + n;
    TotalPagesBounds(|s|, n);
    assert 0 <= start < |s| by {
      Arith.MulMono(0, page - 1, n);
      Arith.MulMono(page - 1, t - 1, n);
    }
    if page < t {
      assert end <= |s| by { Arith.MulMono(page, t - 1, n); }
    }
  }

  /** Pages `p`, `p + 1`, ..., `last`, one after another. */
  function PagesFrom<T>(s: seq<T>, n: nat, p: int, last: int): seq<T>
    decreases last - p
  {
    if p > last then [] else PageRows(s, p, n) + PagesFrom(s, n, p + 1, last)
  }

  /** Concatenating pages 1..totalPages gives back the whole list, without gaps or repeats. */
  lemma PagesConcatenate<T>(s: seq<T>, n: nat)
    requires n > 0
    ensures PagesFrom(s, n, 1, TotalPages(|s|, n)) == s
  {
    TotalPagesBounds(|s|, n);
    PagesFromSuffix(s, n, 1);
  }

  lemma {:induction false} PagesFromSuffix<T>(s: seq<T>, n: nat, p: int)
    requires n > 0 && p >= 1 && (p - 1) * n <= |s|
    ensures PagesFrom(s, n, p, TotalPages(|s|, n)) == s[(p - 1) * n..]
    decreases |s| - (p - 1) * n
  {
    var t := TotalPages(|s|, n);
    TotalPagesBounds(|s|, n);
    if p > t {
      assert (p - 1) * n >= t * n by { Arith.MulMono(t, p - 1, n); }
    } else {
      PageInRange(s, p, n);
      if p * n <= |s| {
        PagesFromSuffix(s, n, p + 1);
        assert s[(p - 1) * n..] == s[(p - 1) * n..p * n] + s[p * n..];
      } else {
        assert p == t by {
          if p < t { Arith.MulMono(p, t - 1, n); }
        }
        assert PagesFrom(s, n, p + 1, t) == [];
      }
    }
  }

  /** The footer's first row number, `(page - 1) * n + 1`. */
  function From(page: int, n: nat): int {
    (page - 1) * n + 1
  }

  /** The footer's last row number, `Math.min(page * n, total)`. */
  function To(page: int, n: nat, total: nat): int {
    if page * n < total then page * n else total
  }

  /** On a page in range the footer counts exactly the rows shown. */
  lemma FooterCountsPage<T>(s: seq<T>, page: int, n: nat)
    requires n > 0 && 1 <= page <= TotalPages(|s|, n)
    ensures To(page, n, |s|) - From(page, n) + 1 == |PageRows(s, page, n)|
    ensures 1 <= From(page, n) <= To(page, n, |s|) <= |s|
  {
    PageInRange(s, page, n);
  }
}
