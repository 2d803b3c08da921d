/**
 * JavaScript's `Array.prototype.sort` with a comparator `(a, b) => key(b) - key(a)`: a stable sort,
 * largest key first. Modelled as an insertion sort.
 */
module Sorting {

  /** Largest key first. */
  predicate Descending<T>(s: seq<T>, key: T -> int)
  {
    forall i, j :: 0 <= i < j < |s| ==> key(s[i]) >= key(s[j])
  }

  /** An element no smaller than every key of a descending sequence can stand before it. */
  lemma PrependDescending<T>(x: T, s: seq<T>, key: T -> int)
    requires Descending(s, key)
    requires forall y :: y in multiset(s) ==> key(y) <= key(x)
    ensures Descending([x] + s, key)
  {
    var r := [x] + s;
    forall i, j | 0 <= i < j < |r| ensures key(r[i]) >= key(r[j]) {
      assert r[j] == s[j - 1];
      if i == 0 {
        assert s[j - 1] in multiset(s);
      } else {
        assert r[i] == s[i - 1];
      }
    }
  }

  /** Places `x` before the first element whose key is not larger, so that ties keep their order. */
  function Insert<T>(x: T, s: seq<T>, key: T -> int): (r: seq<T>)
    requires Descending(s, key)
    ensures Descending(r, key)
    ensures multiset(r) == multiset(s) + multiset{x}
    ensures |r| == |s| + 1
    decreases |s|
  {
    if |s| == 0 then [x]
    else
      assert s == [s[0]] + s[1..];
      if key(x) >= key(s[0]) then
        assert forall y :: y in multiset(s) ==> key(y) <= key(x) by {
          forall y | y in multiset(s) ensures key(y) <= key(x) {
            var m :| 0 <= m < |s| && s[m] == y;
            assert m == 0 || key(s[0]) >= key(s[m]);
          }
        }
        PrependDescending(x, s, key);
        [x] + s
      else
        assert Descending(s[1..], key);
        var rest := Insert(x, s[1..], key);
        assert forall y :: y in multiset(rest) ==> key(y) <= key(s[0]) by {
          forall y | y in multiset(rest) ensures key(y) <= key(s[0]) {
            if y in multiset(s[1..]) {
              var m :| 0 <= m < |s[1..]| && s[1..][m] == y;
              assert s[m + 1] == y;
            }
          }
        }
        PrependDescending(s[0], rest, key);
        [s[0]] + rest
  }

  /** The sorted permutation of `s`. */
  function SortDescending<T>(s: seq<T>, key: T -> int): (r: seq<T>)
    ensures Descending(r, key)
    ensures multiset(r) == multiset(s)
    decreases |s|
  {
    if |s| == 0 then []
    else
      assert s == [s[0]] + s[1..];
      Insert(s[0], SortDescending(s[1..], key), key)
  }

  /** A sequence already in order is left as it is. */
  lemma {:induction false} SortKeepsSorted<T>(s: seq<T>, key: T -> int)
    requires Descending(s, key)
    ensures SortDescending(s, key) == s
    decreases |s|
  {
    if |s| > 0 {
      var tail := s[1..];
      assert Descending(tail, key);
      SortKeepsSorted(tail, key);
      assert SortDescending(s, key) == Insert(s[0], tail, key);
      if |tail| > 0 {
        assert key(s[0]) >= key(tail[0]);
      }
      assert Insert(s[0], tail, key) == [s[0]] + tail;
      assert s == [s[0]] + tail;
    }
  }
}
