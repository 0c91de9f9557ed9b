/** Page arithmetic of the list endpoints: `skip = (page - 1) * limit`, the
    `.skip(skip).limit(limit)` window a cursor returns, and
    `totalPages = Math.ceil(totalCount / limit)` computed on integers. */
module Paging {

  /** The number of records before page `page` when pages hold `limit`
      records: page 1, and only page 1, skips nothing. */
  function Skip(page: int, limit: int): (skip: nat)
    requires page >= 1 && limit >= 1
    ensures skip == 0 <==> page == 1
  {
    MulMonotone(1, page, limit);
    (page - 1) * limit
  }

  function Min(a: int, b: int): int { if a <= b then a else b }

  /** What a cursor yields after `.skip(skip).limit(limit)`: the records of
      `s` from index `skip` on, at most `limit` of them, and nothing when
      `skip` is at or past the end. */
  function Window<T>(s: seq<T>, skip: nat, limit: nat): (w: seq<T>)
    ensures |w| == if skip >= |s| then 0 else Min(limit, |s| - skip)
    ensures forall i :: 0 <= i < |w| ==> w[i] == s[skip + i]
  {
    if skip >= |s| then [] else s[skip..Min(skip + limit, |s|)]
  }

  /** Every record of a window is a record of the whole sequence. */
  lemma WindowKeeps<T>(s: seq<T>, p: T -> bool, skip: nat, limit: nat)
    requires forall i :: 0 <= i < |s| ==> p(s[i])
    ensures forall i :: 0 <= i < |Window(s, skip, limit)| ==> p(Window(s, skip, limit)[i])
  {
  }

  /** `Math.ceil(n / d)`: the fewest pages of `d` records that hold `n`
      records; 0 exactly when there is nothing to hold. */
  function CeilDiv(n: nat, d: nat): (pages: nat)
    requires d >= 1
    ensures pages * d >= n
    ensures pages > 0 ==> (pages - 1) * d < n
    ensures pages == 0 <==> n == 0
  {
    var q := (n + d - 1) / d;
    assert q * d <= n + d - 1 < (q + 1) * d;
    q
  }

  lemma MulMonotone(a: int, b: int, d: nat)
    requires a <= b
    ensures a * d <= b * d
  {
    assert b * d - a * d == (b - a) * d;
  }

  /** Euclidean division is determined by its quotient-remainder equation. */
  lemma DivModUnique(n: int, d: int, q: int, r: int)
    requires d >= 1 && 0 <= r < d && n == q * d + r
    ensures n / d == q && n % d == r
  {
    var q', r' := n / d, n % d;
    assert q' * d + r' == q * d + r;
    assert (q' - q) * d == r - r';
    if q' > q {
      MulMonotone(1, q' - q, d);
    } else if q' < q {
      MulMonotone(1, q - q', d);
    }
  }

  /** A page holds records exactly when it is one of the first `totalPages`
      pages; any later page is empty. */
  lemma {:induction false} PageInRangeIffNotPastEnd(n: nat, page: int, limit: int)
    requires page >= 1 && limit >= 1
    ensures Skip(page, limit) < n <==> page <= CeilDiv(n, limit)
  {
    var pages := CeilDiv(n, limit);
    if page <= pages {
      MulMonotone(page - 1, pages - 1, limit);
    } else {
      MulMonotone(pages, page - 1, limit);
    }
  }

  /** Record `i` of the ordered result lies on page `i / limit + 1` and on
      no other page. */
  lemma RecordOnExactlyOnePage(i: nat, limit: int, page: int)
    requires limit >= 1 && page >= 1
    ensures Skip(page, limit) <= i < Skip(page, limit) + limit <==> page == i / limit + 1
  {
    var skip := Skip(page, limit);
    if skip <= i < skip + limit {
      assert i == (page - 1) * limit + (i - skip);
      DivModUnique(i, limit, page - 1, i - skip);
    }
    if page == i / limit + 1 {
      assert skip == (i / limit) * limit;
    }
  }

  /** That page is one of the first `totalPages`, and the record is its
      `(i % limit)`-th item. */
  lemma RecordHomePage<T>(s: seq<T>, i: nat, limit: int)
    requires i < |s| && limit >= 1
    ensures i / limit + 1 <= CeilDiv(|s|, limit)
    ensures Window(s, Skip(i / limit + 1, limit), limit)[i % limit] == s[i]
  {
    var home := i / limit + 1;
    assert Skip(home, limit) == i - i % limit;
    PageInRangeIffNotPastEnd(|s|, home, limit);
  }

  /** The records on pages 1 to `k`, read one page after the other. */
  function FirstPages<T>(s: seq<T>, k: nat, limit: int): seq<T>
    requires limit >= 1
  {
    if k == 0 then [] else FirstPages(s, k - 1, limit) + Window(s, Skip(k, limit), limit)
  }

  /** Page `page + 1` starts `limit` records after page `page`. */
  lemma SkipNext(page: int, limit: int)
    requires page >= 1 && limit >= 1
    ensures Skip(page + 1, limit) == Skip(page, limit) + limit
  {
    assert page * limit == (page - 1) * limit + limit;
  }

  /** Consecutive pages tile the ordering: reading pages 1 to `k` gives every
      record before page `k + 1`, in order, with no gap and no repeat. */
  lemma {:induction false} PagesTile<T>(s: seq<T>, k: nat, limit: int)
    requires limit >= 1
    ensures FirstPages(s, k, limit) == s[..Min(Skip(k + 1, limit), |s|)]
  {
    if k > 0 {
      PagesTile(s, k - 1, limit);
      var skip := Skip(k, limit);
      SkipNext(k, limit);
      var prev, w := FirstPages(s, k - 1, limit), Window(s, skip, limit);
      assert FirstPages(s, k, limit) == prev + w;
      if skip < |s| {
        var hi := Min(skip + limit, |s|);
        assert prev == s[..skip] && w == s[skip..hi];
        assert s[..skip] + s[skip..hi] == s[..hi];
      } else {
        assert prev == s[..|s|] && w == [];
      }
    }
  }

  /** Reading every page from 1 to `totalPages` yields the whole ordering,
      each record once and in order. */
  lemma AllPagesTile<T>(s: seq<T>, limit: int)
    requires limit >= 1
    ensures FirstPages(s, CeilDiv(|s|, limit), limit) == s
  {
    var pages := CeilDiv(|s|, limit);
    PagesTile(s, pages, limit);
    assert Skip(pages + 1, limit) == pages * limit;
  }
}
