/** What "sorted" means for the working array, shared by the three sorts. */
module Ordering {

  /** Non-decreasing: no element is greater than one to its right. */
  predicate Sorted(s: seq<int>)
  {
    forall p, q :: 0 <= p < q < |s| ==> s[p] <= s[q]
  }

  /** A value no smaller than the last of a sorted sequence can be appended to it. */
  lemma SortedSnoc(s: seq<int>, x: int)
    requires Sorted(s)
    requires |s| > 0 ==> s[|s| - 1] <= x
    ensures Sorted(s + [x])
  {
    forall p | 0 <= p < |s| ensures s[p] <= x {
      assert s[p] <= s[|s| - 1];
    }
  }

  /** Rearranging the values of one range and keeping the rest keeps the multiset of the whole. */
  lemma SplicePermutes(o: seq<int>, s: seq<int>, lo: int, hi: int)
    requires |o| == |s| && 0 <= lo <= hi <= |s|
    requires o[..lo] == s[..lo] && o[hi..] == s[hi..]
    requires multiset(o[lo..hi]) == multiset(s[lo..hi])
    ensures multiset(o) == multiset(s)
  {
    assert o == o[..lo] + o[lo..hi] + o[hi..];
    assert s == s[..lo] + s[lo..hi] + s[hi..];
  }

  /** If the rest is kept and the whole keeps its multiset of values, so does the range. */
  lemma SpliceKeeps(o: seq<int>, s: seq<int>, lo: int, hi: int)
    requires |o| == |s| && 0 <= lo <= hi <= |s|
    requires o[..lo] == s[..lo] && o[hi..] == s[hi..]
    requires multiset(o) == multiset(s)
    ensures multiset(o[lo..hi]) == multiset(s[lo..hi])
  {
    assert o == o[..lo] + o[lo..hi] + o[hi..];
    assert s == s[..lo] + s[lo..hi] + s[hi..];
    var before, after := multiset(s[..lo]), multiset(s[hi..]);
    assert multiset(o) == before + multiset(o[lo..hi]) + after;
    assert multiset(s) == before + multiset(s[lo..hi]) + after;
    assert multiset(o[lo..hi]) == multiset(o) - after - before;
    assert multiset(s[lo..hi]) == multiset(s) - after - before;
  }

  /** The first element of a sorted sequence is at most each of its values. */
  lemma SortedHeadLeast(s: seq<int>, x: int)
    requires Sorted(s) && x in multiset(s)
    ensures |s| > 0 && s[0] <= x
  {
    assert x in s;
  }

  /**
   * A sequence has only one sorted arrangement: two sorted sequences holding
   * the same multiset of values are equal. So every correct sort of the same
   * input ends in the same array.
   */
  lemma {:induction false} SortedUnique(s: seq<int>, t: seq<int>)
    requires Sorted(s) && Sorted(t)
    requires multiset(s) == multiset(t)
    ensures s == t
    decreases |s|
  {
    if s == [] {
      assert |multiset(t)| == 0;
    } else {
      assert s[0] in multiset(s);
      SortedHeadLeast(t, s[0]);
      assert t[0] in multiset(t);
      SortedHeadLeast(s, t[0]);
      assert s == [s[0]] + s[1..];
      assert t == [t[0]] + t[1..];
      assert multiset(s) == multiset{s[0]} + multiset(s[1..]);
      assert multiset(t) == multiset{t[0]} + multiset(t[1..]);
      assert s[0] == t[0];
      assert multiset(s[1..]) == multiset(s) - multiset{s[0]};
      assert multiset(t[1..]) == multiset(t) - multiset{t[0]};
      SortedUnique(s[1..], t[1..]);
    }
  }
}
