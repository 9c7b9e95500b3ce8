/**
  Integer lists standing in for Python sets of integers and for `sorted`,
  `min` and `max` over them.  A Python set is kept as a duplicate-free list
  in insertion order; only its elements matter to the code that reads it.
 */
module IntSeqs {

  predicate NoDuplicates(s: seq<int>) {
    forall i, j | 0 <= i < j < |s| :: s[i] != s[j]
  }

  predicate StrictlyIncreasing(s: seq<int>) {
    forall i, j | 0 <= i < j < |s| :: s[i] < s[j]
  }

  /** `values.add(v)` on a set kept as a duplicate-free list. */
  function AddIfAbsent(s: seq<int>, v: int): seq<int> {
    if v in s then s else s + [v]
  }

  /** The set of the values of xs, built by adding them one by one. */
  function SetOf(xs: seq<int>): seq<int> {
    if xs == [] then [] else AddIfAbsent(SetOf(xs[..|xs| - 1]), xs[|xs| - 1])
  }

  /** Adding the values one by one gives each value of xs exactly once, and nothing else. */
  lemma {:induction false} SetOfIsSet(xs: seq<int>)
    ensures NoDuplicates(SetOf(xs))
    ensures forall u :: u in SetOf(xs) <==> u in xs
  {
    if xs != [] {
      var n := |xs| - 1;
      SetOfIsSet(xs[..n]);
      InInitOrLast(xs, xs[n]);
      assert xs == xs[..n] + [xs[n]];
    }
  }

  function Insert(s: seq<int>, v: int): (r: seq<int>)
    requires StrictlyIncreasing(s) && v !in s
    ensures StrictlyIncreasing(r)
    ensures forall u :: u in r <==> u in s || u == v
  {
    if s == [] then [v]
    else if v < s[0] then [v] + s
    else
      var tail := Insert(s[1..], v);
      assert forall k | 0 <= k < |tail| :: s[0] < tail[k] by {
        forall k | 0 <= k < |tail| ensures s[0] < tail[k] {
          assert tail[k] in tail;
          if tail[k] != v {
            var m :| 0 <= m < |s[1..]| && s[1..][m] == tail[k];
            assert s[m + 1] == tail[k];
          }
        }
      }
      assert s == [s[0]] + s[1..];
      [s[0]] + tail
  }

  /** `sorted(values)` of a set of integers: its elements in increasing order. */
  function Sorted(s: seq<int>): (r: seq<int>)
    requires NoDuplicates(s)
    ensures StrictlyIncreasing(r)
    ensures forall u :: u in r <==> u in s
  {
    if s == [] then []
    else
      var init := s[..|s| - 1];
      assert forall u :: u in s <==> u in init || u == s[|s| - 1] by {
        assert s == init + [s[|s| - 1]];
      }
      Insert(Sorted(init), s[|s| - 1])
  }

  /** `max(values)` of a non-empty list. */
  function MaxOf(s: seq<int>): (m: int)
    requires |s| > 0
    ensures m in s
    ensures forall i | 0 <= i < |s| :: s[i] <= m
  {
    if |s| == 1 then s[0]
    else
      var init := s[..|s| - 1];
      var rest := MaxOf(init);
      assert forall i | 0 <= i < |s| - 1 :: s[i] == init[i];
      if s[|s| - 1] > rest then s[|s| - 1] else rest
  }

  /** `min(values)` of a non-empty list. */
  function MinOf(s: seq<int>): (m: int)
    requires |s| > 0
    ensures m in s
    ensures forall i | 0 <= i < |s| :: m <= s[i]
  {
    if |s| == 1 then s[0]
    else
      var init := s[..|s| - 1];
      var rest := MinOf(init);
      assert forall i | 0 <= i < |s| - 1 :: s[i] == init[i];
      if s[|s| - 1] < rest then s[|s| - 1] else rest
  }

  /** A value is in a non-empty list when it is in the list's front or is its last element. */
  lemma InInitOrLast(s: seq<int>, v: int)
    requires |s| > 0
    ensures v in s <==> v in s[..|s| - 1] || v == s[|s| - 1]
  {
    assert s == s[..|s| - 1] + [s[|s| - 1]];
  }
}
