/** Ordering of query results by one integer field, as a `sort({ field: 1 })`
    (ascending) or `sort({ field: -1 })` (descending) cursor option asks of
    the document store. The store breaks ties by its natural order; the model's
    store uses a stable insertion sort, and every property stated about an
    ordered result relies only on its being sorted and a permutation. */
module Ordering {

  datatype Direction = Ascending | Descending

  /** `a` may come before `b` when ordering by `key` in direction `dir`. */
  predicate Precedes<T>(key: T -> int, dir: Direction, a: T, b: T) {
    match dir
    case Ascending => key(a) <= key(b)
    case Descending => key(b) <= key(a)
  }

  predicate SortedBy<T>(key: T -> int, dir: Direction, s: seq<T>) {
    forall i, j :: 0 <= i < j < |s| ==> Precedes(key, dir, s[i], s[j])
  }

  /** `a` may come before every element of `s`. */
  predicate PrecedesAll<T>(key: T -> int, dir: Direction, a: T, s: seq<T>) {
    forall k :: 0 <= k < |s| ==> Precedes(key, dir, a, s[k])
  }

  /** Places `x` in front of the first element it may precede. */
  function Insert<T>(key: T -> int, dir: Direction, x: T, s: seq<T>): (r: seq<T>)
    ensures multiset(r) == multiset(s) + multiset{x}
  {
    if s == [] || Precedes(key, dir, x, s[0]) then
      [x] + s
    else
      assert s == [s[0]] + s[1..];
      [s[0]] + Insert(key, dir, x, s[1..])
  }

  /** An element that may precede `x` and all of `s` may precede all of
      `Insert(x, s)`. */
  lemma {:induction false} InsertKeepsBound<T>(key: T -> int, dir: Direction, a: T, x: T, s: seq<T>)
    requires PrecedesAll(key, dir, a, s) && Precedes(key, dir, a, x)
    ensures PrecedesAll(key, dir, a, Insert(key, dir, x, s))
  {
    if s != [] && !Precedes(key, dir, x, s[0]) {
      InsertKeepsBound(key, dir, a, x, s[1..]);
    }
  }

  /** Inserting into a sorted sequence keeps it sorted. */
  lemma {:induction false} InsertSorted<T>(key: T -> int, dir: Direction, x: T, s: seq<T>)
    requires SortedBy(key, dir, s)
    ensures SortedBy(key, dir, Insert(key, dir, x, s))
  {
    if s != [] && !Precedes(key, dir, x, s[0]) {
      InsertSorted(key, dir, x, s[1..]);
      InsertKeepsBound(key, dir, s[0], x, s[1..]);
    }
  }

  /** The store's ordering of a result set: a sorted permutation of it. */
  function Sort<T>(key: T -> int, dir: Direction, s: seq<T>): (r: seq<T>)
    ensures SortedBy(key, dir, r)
    ensures multiset(r) == multiset(s)
  {
    if s == [] then
      []
    else
      assert s == [s[0]] + s[1..];
      InsertSorted(key, dir, s[0], Sort(key, dir, s[1..]));
      Insert(key, dir, s[0], Sort(key, dir, s[1..]))
  }

  /** The sequence of sort keys of `s`. */
  function Keys<T>(key: T -> int, s: seq<T>): (ks: seq<int>)
    ensures |ks| == |s| && forall i :: 0 <= i < |s| ==> ks[i] == key(s[i])
  {
    seq(|s|, i requires 0 <= i < |s| => key(s[i]))
  }

  function Reverse<T>(s: seq<T>): (r: seq<T>)
    ensures |r| == |s| && forall i :: 0 <= i < |s| ==> r[i] == s[|s| - 1 - i]
  {
    if s == [] then [] else Reverse(s[1..]) + [s[0]]
  }

  lemma {:induction false} ReverseMultiset<T>(s: seq<T>)
    ensures multiset(Reverse(s)) == multiset(s)
  {
    if s != [] {
      assert s == [s[0]] + s[1..];
      ReverseMultiset(s[1..]);
    }
  }

  lemma KeysConcat<T>(key: T -> int, a: seq<T>, b: seq<T>)
    ensures Keys(key, a + b) == Keys(key, a) + Keys(key, b)
  {
  }

  /** Taking out the element at `j` takes it out of the multiset. */
  lemma MultisetRemove<T>(b: seq<T>, j: int)
    requires 0 <= j < |b|
    ensures multiset(b[..j] + b[j + 1..]) == multiset(b) - multiset{b[j]}
  {
    assert b == b[..j] + [b[j]] + b[j + 1..];
  }

  /** Taking out the element at `j` takes its key out of the keys. */
  lemma KeysRemove<T>(key: T -> int, b: seq<T>, j: int)
    requires 0 <= j < |b|
    ensures multiset(Keys(key, b)) == multiset(Keys(key, b[..j] + b[j + 1..])) + multiset{key(b[j])}
  {
    var c, d := b[..j], b[j + 1..];
    assert b == c + [b[j]] + d;
    KeysConcat(key, c + [b[j]], d);
    KeysConcat(key, c, [b[j]]);
    KeysConcat(key, c, d);
  }

  /** The position of the first occurrence of `x` in `s`. */
  function IndexOf<T(==)>(s: seq<T>, x: T): (j: nat)
    requires x in s
    ensures j < |s| && s[j] == x
  {
    if s[0] == x then 0 else IndexOf(s[1..], x) + 1
  }

  /** The keys of a non-empty sequence are its head's key and its tail's keys. */
  lemma KeysHead<T>(key: T -> int, a: seq<T>)
    requires a != []
    ensures multiset(Keys(key, a)) == multiset(Keys(key, a[1..])) + multiset{key(a[0])}
  {
    assert Keys(key, a) == [key(a[0])] + Keys(key, a[1..]);
  }

  /** Permuting a sequence permutes its keys. */
  lemma {:induction false} PermutedKeys<T>(key: T -> int, a: seq<T>, b: seq<T>)
    requires multiset(a) == multiset(b)
    ensures multiset(Keys(key, a)) == multiset(Keys(key, b))
    decreases |a|
  {
    if a != [] {
      assert a[0] in multiset(b);
      var j := IndexOf(b, a[0]);
      var rest := b[..j] + b[j + 1..];
      assert multiset(a[1..]) == multiset(rest) by {
        MultisetRemove(b, j);
        MultisetTail(a);
      }
      PermutedKeys(key, a[1..], rest);
      var kr := multiset(Keys(key, rest));
      assert multiset(Keys(key, b)) == kr + multiset{key(a[0])} by {
        KeysRemove(key, b, j);
      }
      assert multiset(Keys(key, a)) == kr + multiset{key(a[0])} by {
        KeysHead(key, a);
      }
    }
  }

  predicate NonDecreasing(s: seq<int>) {
    forall i, j :: 0 <= i < j < |s| ==> s[i] <= s[j]
  }

  /** The head of a non-decreasing sequence is at most each of its values. */
  lemma HeadIsLeast(a: seq<int>, v: int)
    requires NonDecreasing(a) && v in a
    ensures a[0] <= v
  {
    var j :| 0 <= j < |a| && a[j] == v;
  }

  lemma TailNonDecreasing(a: seq<int>)
    requires a != [] && NonDecreasing(a)
    ensures NonDecreasing(a[1..])
  {
    forall i, j | 0 <= i < j < |a[1..]| ensures a[1..][i] <= a[1..][j] {
      assert a[1..][i] == a[i + 1] && a[1..][j] == a[j + 1];
    }
  }

  lemma MultisetTail<T>(a: seq<T>)
    requires a != []
    ensures multiset(a[1..]) == multiset(a) - multiset{a[0]}
  {
    assert a == [a[0]] + a[1..];
  }

  /** Sequences with equal heads and equal tails are equal. */
  lemma HeadTailEqual<T>(a: seq<T>, b: seq<T>)
    requires a != [] && b != [] && a[0] == b[0] && a[1..] == b[1..]
    ensures a == b
  {
    assert a == [a[0]] + a[1..] && b == [b[0]] + b[1..];
  }

  /** A multiset of integers has exactly one ascending arrangement. */
  lemma {:induction false} NonDecreasingUnique(a: seq<int>, b: seq<int>)
    requires NonDecreasing(a) && NonDecreasing(b) && multiset(a) == multiset(b)
    ensures a == b
    decreases |a|
  {
    if a != [] {
      assert |b| == |multiset(b)| == |multiset(a)| == |a|;
      assert a[0] == b[0] by {
        assert b[0] in multiset(a);
        assert a[0] in multiset(b);
        HeadIsLeast(a, b[0]);
        HeadIsLeast(b, a[0]);
      }
      MultisetTail(a);
      MultisetTail(b);
      TailNonDecreasing(a);
      TailNonDecreasing(b);
      NonDecreasingUnique(a[1..], b[1..]);
      HeadTailEqual(a, b);
    }
  }

  /** Ordering one result set ascending and descending by the same key gives
      key sequences that are each other's reverse, whatever the tie-breaking:
      "oldest" is "newest" backwards, "price-low" is "price-high" backwards. */
  lemma OppositeDirectionsReverse<T>(key: T -> int, up: seq<T>, down: seq<T>)
    requires SortedBy(key, Ascending, up) && SortedBy(key, Descending, down)
    requires multiset(up) == multiset(down)
    ensures Keys(key, up) == Reverse(Keys(key, down))
  {
    var r := Reverse(down);
    ReverseMultiset(down);
    PermutedKeys(key, up, r);
    assert Keys(key, r) == Reverse(Keys(key, down));
    assert NonDecreasing(Keys(key, up)) by {
      forall i, j | 0 <= i < j < |up| ensures Keys(key, up)[i] <= Keys(key, up)[j] {
        assert Precedes(key, Ascending, up[i], up[j]);
      }
    }
    assert NonDecreasing(Keys(key, r)) by {
      forall i, j | 0 <= i < j < |r| ensures Keys(key, r)[i] <= Keys(key, r)[j] {
        assert Precedes(key, Descending, down[|down| - 1 - j], down[|down| - 1 - i]);
      }
    }
    NonDecreasingUnique(Keys(key, up), Keys(key, r));
  }

  /** Two arrangements of one result set sorted the same way have the same
      key sequence, however they order records with equal keys. */
  lemma SortedKeysUnique<T>(key: T -> int, dir: Direction, a: seq<T>, b: seq<T>)
    requires SortedBy(key, dir, a) && SortedBy(key, dir, b) && multiset(a) == multiset(b)
    ensures Keys(key, a) == Keys(key, b)
  {
    if dir == Ascending {
      var down := Sort(key, Descending, a);
      OppositeDirectionsReverse(key, a, down);
      OppositeDirectionsReverse(key, b, down);
    } else {
      var up := Sort(key, Ascending, a);
      OppositeDirectionsReverse(key, up, a);
      OppositeDirectionsReverse(key, up, b);
      ReverseInjective(Keys(key, a), Keys(key, b));
    }
  }

  /** Sequences with equal reverses are equal. */
  lemma ReverseInjective(x: seq<int>, y: seq<int>)
    requires Reverse(x) == Reverse(y)
    ensures x == y
  {
    forall i | 0 <= i < |x| ensures x[i] == y[i] {
      assert Reverse(x)[|x| - 1 - i] == Reverse(y)[|y| - 1 - i];
    }
  }

  /** The store's two orderings of one result set are reverses of each other
      key by key, and hold the same records. */
  lemma SortDirectionsReverse<T>(key: T -> int, s: seq<T>)
    ensures Keys(key, Sort(key, Ascending, s)) == Reverse(Keys(key, Sort(key, Descending, s)))
    ensures multiset(Sort(key, Ascending, s)) == multiset(Sort(key, Descending, s))
  {
    OppositeDirectionsReverse(key, Sort(key, Ascending, s), Sort(key, Descending, s));
  }
}
