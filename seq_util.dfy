/** Sequence helpers shared by the store queries and the views: the
    `WHERE` filter of a query and the `reverse()` of an ordered result. */
module SeqUtil {

  /** The elements of `s` satisfying `p`, in their order in `s`. */
  function Filter<T(!new)>(s: seq<T>, p: T -> bool): (r: seq<T>)
    ensures |r| <= |s|
    ensures forall x :: x in r <==> x in s && p(x)
    decreases |s|
  {
    if s == [] then []
    else Filter(s[..|s| - 1], p) + (if p(s[|s| - 1]) then [s[|s| - 1]] else [])
  }

  /** Filtering an extended sequence filters the old part and then the new element. */
  lemma FilterSnoc<T(!new)>(s: seq<T>, x: T, p: T -> bool)
    ensures Filter(s + [x], p) == Filter(s, p) + (if p(x) then [x] else [])
  {
    assert (s + [x])[..|s|] == s;
  }

  /** Filtering keeps every element whose keys are distinct in `s` distinct in the result. */
  lemma {:induction false} FilterKeepsKeysDistinct<T(!new), K>(s: seq<T>, p: T -> bool, key: T -> K)
    requires forall i, j :: 0 <= i < j < |s| ==> key(s[i]) != key(s[j])
    ensures forall i, j :: 0 <= i < j < |Filter(s, p)| ==> key(Filter(s, p)[i]) != key(Filter(s, p)[j])
    decreases |s|
  {
    if s != [] {
      var init := s[..|s| - 1];
      var last := s[|s| - 1];
      FilterKeepsKeysDistinct(init, p, key);
      var r := Filter(s, p);
      var ri := Filter(init, p);
      assert r == ri + (if p(last) then [last] else []);
      forall y | y in ri ensures key(y) != key(last) {
        assert y in init;
        var i :| 0 <= i < |init| && init[i] == y;
        assert s[i] == y;
      }
      forall i, j | 0 <= i < j < |r| ensures key(r[i]) != key(r[j]) {
        if j < |ri| {
        } else {
          assert r[i] in ri;
        }
      }
    }
  }

  /** A filter that no element passes is empty. */
  lemma {:induction false} FilterNone<T(!new)>(s: seq<T>, p: T -> bool)
    requires forall x :: x in s ==> !p(x)
    ensures Filter(s, p) == []
    decreases |s|
  {
    if s != [] {
      var init := s[..|s| - 1];
      assert forall x :: x in init ==> x in s;
      FilterNone(init, p);
    }
  }

  /** When `p` selects one key value, the keys of `s` are distinct and some element
      passes, the filter keeps exactly one element. */
  lemma {:induction false} FilterOneKey<T(!new), K>(s: seq<T>, p: T -> bool, key: T -> K, k: K)
    requires forall i, j :: 0 <= i < j < |s| ==> key(s[i]) != key(s[j])
    requires forall x :: p(x) <==> key(x) == k
    requires exists x :: x in s && p(x)
    ensures |Filter(s, p)| == 1
    decreases |s|
  {
    var init := s[..|s| - 1];
    var last := s[|s| - 1];
    assert s == init + [last];
    if p(last) {
      forall x | x in init ensures !p(x) {
        var i :| 0 <= i < |init| && init[i] == x;
        assert s[i] == x;
      }
      FilterNone(init, p);
    } else {
      var x :| x in s && p(x);
      assert x in init;
      FilterOneKey(init, p, key, k);
    }
  }

  /** `s` is in strictly increasing order of `key`. */
  predicate IncreasingBy<T>(s: seq<T>, key: T -> int) {
    forall i, j :: 0 <= i < j < |s| ==> key(s[i]) < key(s[j])
  }

  /** The keys of `s` are its positions counted from 1, as a serial column assigns them. */
  predicate NumberedFromOne<T>(s: seq<T>, key: T -> int) {
    forall i :: 0 <= i < |s| ==> key(s[i]) == i + 1
  }

  /** Serial keys increase. */
  lemma NumberedIncreasing<T>(s: seq<T>, key: T -> int)
    requires NumberedFromOne(s, key)
    ensures IncreasingBy(s, key)
  {
  }

  /** Filtering keeps the order of the rows it keeps. */
  lemma {:induction false} FilterKeepsOrder<T(!new)>(s: seq<T>, p: T -> bool, key: T -> int)
    ensures IncreasingBy(s, key) ==> IncreasingBy(Filter(s, p), key)
    decreases |s|
  {
    if s != [] && IncreasingBy(s, key) {
      var init, last := s[..|s| - 1], s[|s| - 1];
      assert s == init + [last];
      assert IncreasingBy(init, key);
      FilterKeepsOrder(init, p, key);
      FilterSnoc(init, last, p);
      forall x | x in Filter(init, p) ensures key(x) < key(last) {
        var k :| 0 <= k < |init| && init[k] == x;
      }
    }
  }

  /** `s` in reverse order. */
  function Reversed<T>(s: seq<T>): (r: seq<T>)
    ensures |r| == |s|
  {
    if s == [] then [] else Reversed(s[1..]) + [s[0]]
  }

  /** The k-th element of the reversal is the k-th from the end. */
  lemma {:induction false} ReversedAt<T>(s: seq<T>, k: nat)
    requires k < |s|
    ensures Reversed(s)[k] == s[|s| - 1 - k]
    decreases |s|
  {
    if k < |s| - 1 {
      ReversedAt(s[1..], k);
    }
  }

  /** `xs.slice(0, n)` for n >= 0 */
  function Take<T>(s: seq<T>, n: nat): (r: seq<T>)
    ensures |r| == if n < |s| then n else |s|
    ensures r <= s
  {
    if n < |s| then s[..n] else s
  }

  /** `xs.slice(-n)` for n > 0 */
  function TakeLast<T>(s: seq<T>, n: nat): (r: seq<T>)
    ensures |r| == if n < |s| then n else |s|
    ensures forall i :: 0 <= i < |r| ==> r[i] == s[|s| - |r| + i]
  {
    if n < |s| then s[|s| - n..] else s
  }
}
