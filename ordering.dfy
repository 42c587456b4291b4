/**
 * Ordering by an integer key, standing in for Realm's `sorted(byKeyPath:)`
 * and Swift's `sorted(by:)`, and the choice of an element of a set. Neither promises an order among equal keys, so
 * the model is stated up to that: sorted by the key and a permutation.
 */
module Ordering {

  /** A non-empty set of ids has an element; `:|` over a loop's remaining ids relies on it. */
  lemma NonEmptyHasElement(s: set<int>)
    requires s != {}
    ensures exists x :: x in s
  {
    if forall x :: x !in s {
      assert false;
    }
  }

  predicate SortedBy<T>(s: seq<T>, key: T -> int)
  {
    forall i, j :: 0 <= i < j < |s| ==> key(s[i]) <= key(s[j])
  }

  /** Inserts `x` before the first element with a larger or equal key. */
  function Insert<T>(x: T, s: seq<T>, key: T -> int): (r: seq<T>)
    requires SortedBy(s, key)
    ensures SortedBy(r, key)
    ensures multiset(r) == multiset(s) + multiset{x}
    ensures |r| == |s| + 1
  {
    if s == [] then [x]
    else if key(x) <= key(s[0]) then
      assert forall k :: 0 <= k < |s| ==> key(s[0]) <= key(s[k]);
      PrependSorted(x, s, key);
      [x] + s
    else
      var rest := Insert(x, s[1..], key);
      assert s == [s[0]] + s[1..];
      assert forall m :: 0 <= m < |s[1..]| ==> key(s[0]) <= key(s[1..][m]) by {
        forall m | 0 <= m < |s[1..]| ensures key(s[0]) <= key(s[1..][m]) {
          assert s[1..][m] == s[m + 1];
        }
      }
      LowerBoundCarries(s[1..], x, rest, key, key(s[0]));
      PrependSorted(s[0], rest, key);
      [s[0]] + rest
  }

  /** Putting an element no larger than any other in front keeps a sequence sorted. */
  lemma PrependSorted<T>(a: T, s: seq<T>, key: T -> int)
    requires SortedBy(s, key)
    requires forall k :: 0 <= k < |s| ==> key(a) <= key(s[k])
    ensures SortedBy([a] + s, key)
  {
    var r := [a] + s;
    forall i, j | 0 <= i < j < |r| ensures key(r[i]) <= key(r[j]) {
      assert r[j] == s[j - 1];
      if i > 0 {
        assert r[i] == s[i - 1];
      }
    }
  }

  /** A lower bound on the keys of `t` and of `x` bounds every element of a permutation of `t` and `x`. */
  lemma LowerBoundCarries<T>(t: seq<T>, x: T, r: seq<T>, key: T -> int, b: int)
    requires multiset(r) == multiset(t) + multiset{x}
    requires b <= key(x)
    requires forall m :: 0 <= m < |t| ==> b <= key(t[m])
    ensures forall k :: 0 <= k < |r| ==> b <= key(r[k])
  {
    forall k | 0 <= k < |r| ensures b <= key(r[k]) {
      assert r[k] in multiset(r);
      if r[k] != x {
        assert r[k] in multiset(t);
        var m :| 0 <= m < |t| && t[m] == r[k];
      }
    }
  }

  /** Insertion sort by ascending key. */
  function SortBy<T>(s: seq<T>, key: T -> int): (r: seq<T>)
    ensures SortedBy(r, key)
    ensures multiset(r) == multiset(s)
    ensures |r| == |s|
  {
    if s == [] then []
    else
      assert s == [s[0]] + s[1..];
      Insert(s[0], SortBy(s[1..], key), key)
  }

  /** The last `n` elements of `s`, or all of them when there are fewer (Swift's `suffix(n)`). */
  function Suffix<T>(s: seq<T>, n: nat): (r: seq<T>)
    ensures |r| == if |s| < n then |s| else n
    ensures r == s[|s| - |r|..]
  {
    if |s| < n then s else s[|s| - n..]
  }

  /**
   * The suffix of a sorted sequence keeps its largest keys: every element
   * of the part that is cut off has a key no larger than any element kept.
   */
  lemma SuffixOfSortedKeepsLargest<T>(s: seq<T>, n: nat, key: T -> int)
    requires SortedBy(s, key)
    ensures SortedBy(Suffix(s, n), key)
    ensures s == s[..|s| - |Suffix(s, n)|] + Suffix(s, n)
    ensures forall y, x :: y in s[..|s| - |Suffix(s, n)|] && x in Suffix(s, n) ==> key(y) <= key(x)
  {
    var r := Suffix(s, n);
    var cut := |s| - |r|;
    forall y, x | y in s[..cut] && x in r
      ensures key(y) <= key(x)
    {
      var i :| 0 <= i < cut && s[..cut][i] == y;
      var j :| 0 <= j < |r| && r[j] == x;
      assert s[i] == y && s[cut + j] == x;
    }
  }
}
