/** Sequence utilities used where `mapCreator.js` calls `Array.prototype.filter`
    and `Array.prototype.sort`.  The sort is a stable insertion sort keyed by
    an integer, so it is an ordered permutation of its input. */
module Sorting {

  /** Ascending order of the keys. */
  ghost predicate SortedBy<T>(s: seq<T>, key: T -> int) {
    forall i, j :: 0 <= i < j < |s| ==> key(s[i]) <= key(s[j])
  }

  /** Place `x` after every element whose key is at most its own. */
  function Insert<T>(x: T, s: seq<T>, key: T -> int): (r: seq<T>)
    requires SortedBy(s, key)
    ensures |r| == |s| + 1
    ensures multiset(r) == multiset(s) + multiset{x}
    ensures SortedBy(r, key)
    decreases |s|
  {
    if s == [] then [x]
    else if key(x) < key(s[0]) then [x] + s
    else
      var rest := Insert(x, s[1..], key);
      assert s == [s[0]] + s[1..];
      assert forall k :: 0 <= k < |rest| ==> key(s[0]) <= key(rest[k]) by {
        forall k | 0 <= k < |rest|
          ensures key(s[0]) <= key(rest[k])
        {
          assert rest[k] in multiset(rest);
          if rest[k] != x {
            assert rest[k] in multiset(s[1..]);
            var m :| 0 <= m < |s[1..]| && s[1..][m] == rest[k];
            assert s[m + 1] == rest[k];
          }
        }
      }
      [s[0]] + rest
  }

  /** `array.sort((a, b) => key(a) - key(b))` on a copy of `s`. */
  function SortBy<T>(s: seq<T>, key: T -> int): (r: seq<T>)
    ensures |r| == |s|
    ensures multiset(r) == multiset(s)
    ensures SortedBy(r, key)
    decreases |s|
  {
    if s == [] then []
    else
      assert s == s[..|s| - 1] + [s[|s| - 1]];
      Insert(s[|s| - 1], SortBy(s[..|s| - 1], key), key)
  }

  /** The indices of the elements of `s` that satisfy `p`, ascending: an
      index map for the ordered subsequence of those elements. */
  function Positions<T>(s: seq<T>, p: T -> bool): (idx: seq<nat>)
    ensures forall k :: 0 <= k < |idx| ==> idx[k] < |s| && p(s[idx[k]])
    ensures |idx| <= |s|
    ensures forall k, m :: 0 <= k < m < |idx| ==> idx[k] < idx[m]
    ensures forall n :: 0 <= n < |s| && p(s[n]) ==> n in idx
    decreases |s|
  {
    if s == [] then []
    else
      var init := Positions(s[..|s| - 1], p);
      assert forall k :: 0 <= k < |init| ==> s[..|s| - 1][init[k]] == s[init[k]];
      if p(s[|s| - 1]) then init + [|s| - 1] else init
  }

  /** When every element passes, the positions are all the indices. */
  lemma {:induction false} PositionsOfAll<T>(s: seq<T>, p: T -> bool)
    requires forall k :: 0 <= k < |s| ==> p(s[k])
    ensures |Positions(s, p)| == |s|
    ensures forall k :: 0 <= k < |s| ==> Positions(s, p)[k] == k
    decreases |s|
  {
    if s != [] {
      var front := s[..|s| - 1];
      assert forall k :: 0 <= k < |front| ==> front[k] == s[k];
      PositionsOfAll(front, p);
    }
  }

  /** `array.filter(keep)`: the elements satisfying `keep`, in order and
      with their multiplicity, i.e. `s` read at `Positions(s, keep)`. */
  function Filter<T>(s: seq<T>, keep: T -> bool): (r: seq<T>)
    ensures |r| == |Positions(s, keep)|
    ensures forall k :: 0 <= k < |r| ==> r[k] == s[Positions(s, keep)[k]]
    ensures forall k :: 0 <= k < |r| ==> r[k] in s && keep(r[k])
    ensures forall k :: 0 <= k < |s| && keep(s[k]) ==> s[k] in r
    decreases |s|
  {
    if s == [] then []
    else
      var init := Filter(s[..|s| - 1], keep);
      var r := if keep(s[|s| - 1]) then init + [s[|s| - 1]] else init;
      assert forall k :: 0 <= k < |s| && keep(s[k]) ==> s[k] in r by {
        forall k | 0 <= k < |s| && keep(s[k])
          ensures s[k] in r
        {
          if k < |s| - 1 {
            assert s[..|s| - 1][k] == s[k];
          }
        }
      }
      r
  }

  /** `array.slice(0, n)`. */
  function Take<T>(s: seq<T>, n: nat): (r: seq<T>)
    ensures |r| == if n < |s| then n else |s|
    ensures forall k :: 0 <= k < |r| ==> r[k] == s[k]
  {
    if n < |s| then s[..n] else s
  }

  /** The first n of the sorted elements are the n smallest: an element of
      the input that is left out has a key no smaller than any kept one. */
  lemma TakeKeepsSmallest<T>(s: seq<T>, key: T -> int, n: nat, x: T)
    requires x in s
    ensures var kept := Take(SortBy(s, key), n);
            x in kept || forall m :: 0 <= m < |kept| ==> key(kept[m]) <= key(x)
  {
    var sorted := SortBy(s, key);
    assert x in multiset(sorted);
    var p :| 0 <= p < |sorted| && sorted[p] == x;
  }
}
