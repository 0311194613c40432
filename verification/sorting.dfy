/**
 * A stable sort by an integer key. MongoDB's `.sort({createdAt: -1})` and the
 * client's `Array.prototype.sort` by `createdAt` are both instances of it: the
 * first with the key negated, the second as is.
 */
module Sorting {

  /** Keys never decrease from left to right. */
  predicate SortedBy<T>(s: seq<T>, key: T -> int) {
    forall i, j :: 0 <= i < j < |s| ==> key(s[i]) <= key(s[j])
  }

  /** Insert `x` before the first element whose key is not smaller. */
  function Insert<T>(x: T, s: seq<T>, key: T -> int): (r: seq<T>)
    requires SortedBy(s, key)
    ensures SortedBy(r, key)
    ensures multiset(r) == multiset(s) + multiset{x}
    ensures |r| == |s| + 1
  {
    if s == [] || key(x) <= key(s[0]) then
      SortedCons(x, s, key);
      [x] + s
    else
      SortedTail(s, key);
      var t := Insert(x, s[1..], key);
      assert s == [s[0]] + s[1..];
      BoundedPermutation(s[1..], x, t, key(s[0]), key);
      SortedCons(s[0], t, key);
      [s[0]] + t
  }

  /** A sorted sequence stays sorted behind an element whose key is at most its first key. */
  lemma SortedCons<T>(y: T, t: seq<T>, key: T -> int)
    requires SortedBy(t, key) && (t == [] || key(y) <= key(t[0]))
    ensures SortedBy([y] + t, key)
  {
    forall i, j | 0 <= i < j < |[y] + t| ensures key(([y] + t)[i]) <= key(([y] + t)[j]) {
      if i == 0 {
        assert ([y] + t)[j] == t[j - 1];
      } else {
        assert ([y] + t)[i] == t[i - 1] && ([y] + t)[j] == t[j - 1];
      }
    }
  }

  /** A lower bound on the keys of `s` and of `x` bounds every key of a permutation of `s + [x]`. */
  lemma BoundedPermutation<T>(s: seq<T>, x: T, t: seq<T>, b: int, key: T -> int)
    requires forall k :: 0 <= k < |s| ==> b <= key(s[k])
    requires b <= key(x) && multiset(t) == multiset(s) + multiset{x}
    ensures forall k :: 0 <= k < |t| ==> b <= key(t[k])
    ensures t != [] ==> b <= key(t[0])
  {
    forall k | 0 <= k < |t| ensures b <= key(t[k]) {
      assert t[k] in multiset(t);
      if t[k] != x {
        assert t[k] in multiset(s);
        var m :| 0 <= m < |s| && s[m] == t[k];
      }
    }
  }

  /** Stable insertion sort: the result is an ordered permutation of the input. */
  function SortBy<T>(s: seq<T>, key: T -> int): (r: seq<T>)
    ensures SortedBy(r, key)
    ensures multiset(r) == multiset(s)
    ensures |r| == |s|
  {
    if s == [] then []
    else
      assert s == [s[0]] + s[1..];
      Insert(s[0], SortBy(s[1..], key), key)
  }

  /**
   * An element whose key is smaller than every other key goes first, and the
   * rest stays in its sorted order: appending the newest message to the store
   * puts it at the head of the newest-first listing.
   */
  lemma {:induction false} SortByAppendSmallest<T>(s: seq<T>, x: T, key: T -> int)
    requires forall k :: 0 <= k < |s| ==> key(x) < key(s[k])
    ensures SortBy(s + [x], key) == [x] + SortBy(s, key)
  {
    if s == [] {
      assert s + [x] == [x];
    } else {
      assert (s + [x])[0] == s[0];
      assert (s + [x])[1..] == s[1..] + [x];
      SortByAppendSmallest(s[1..], x, key);
      var t := SortBy(s[1..], key);
      assert Insert(s[0], [x] + t, key) == [x] + Insert(s[0], t, key) by {
        assert ([x] + t)[0] == x;
        assert ([x] + t)[1..] == t;
      }
    }
  }

  lemma SortedTail<T>(s: seq<T>, key: T -> int)
    requires s != [] && SortedBy(s, key)
    ensures SortedBy(s[1..], key)
  {
    forall i, j | 0 <= i < j < |s[1..]| ensures key(s[1..][i]) <= key(s[1..][j]) {
      assert s[1..][i] == s[i + 1] && s[1..][j] == s[j + 1];
    }
  }

  /** Sorting an already sorted sequence leaves it as it is. */
  lemma {:induction false} SortBySorted<T>(s: seq<T>, key: T -> int)
    requires SortedBy(s, key)
    ensures SortBy(s, key) == s
  {
    if s != [] {
      SortedTail(s, key);
      SortBySorted(s[1..], key);
      assert |s| > 1 ==> key(s[0]) <= key(s[1..][0]);
      assert Insert(s[0], s[1..], key) == [s[0]] + s[1..];
      assert s == [s[0]] + s[1..];
    }
  }
}
