/**
 * Order, permutation and stability facts shared by the two feed sorters.
 * A sorter ranks elements by a key: a partial function to `real` whose
 * precondition says which elements can be scored at all.
 */
module Ranking {

  /** Every element of `s[lo..hi)` lies in the domain of `key`. */
  ghost predicate Scorable<T>(s: seq<T>, key: T --> real, lo: int, hi: int)
    requires 0 <= lo <= hi <= |s|
  {
    forall k :: lo <= k < hi ==> key.requires(s[k])
  }

  /** `s[lo..hi)` is ordered by non-increasing key. */
  ghost predicate Descending<T>(s: seq<T>, key: T --> real, lo: int, hi: int)
    requires 0 <= lo <= hi <= |s| && Scorable(s, key, lo, hi)
  {
    forall i, j :: lo <= i < j < hi ==> key(s[i]) >= key(s[j])
  }

  /** Every key before position `m` is at least every key from `m` on. */
  ghost predicate PrefixDominates<T>(s: seq<T>, key: T --> real, m: int)
    requires 0 <= m <= |s| && Scorable(s, key, 0, |s|)
  {
    forall x, y :: 0 <= x < m <= y < |s| ==> key(s[x]) >= key(s[y])
  }

  /**
   * `origin` maps every position of `s` back to a position of `before`
   * holding the same element, and elements with equal keys keep the
   * relative order they had in `before`.
   */
  ghost predicate StableFrom<T>(before: seq<T>, s: seq<T>, origin: seq<int>, key: T --> real)
    requires |s| == |before| && Scorable(s, key, 0, |s|)
  {
    && |origin| == |s|
    && (forall k :: 0 <= k < |s| ==> 0 <= origin[k] < |before| && s[k] == before[origin[k]])
    && (forall i, j :: 0 <= i < j < |s| && key(s[i]) == key(s[j]) ==> origin[i] < origin[j])
  }

  /**
   * If two sequences hold the same multiset and agree outside `[lo, hi)`,
   * they hold the same multiset inside it.
   */
  lemma SliceMultiset<T>(s: seq<T>, t: seq<T>, lo: int, hi: int)
    requires 0 <= lo <= hi <= |s| == |t|
    requires multiset(s) == multiset(t)
    requires forall k :: 0 <= k < |s| && !(lo <= k < hi) ==> s[k] == t[k]
    ensures multiset(s[lo..hi]) == multiset(t[lo..hi])
  {
    ThreeWaySplit(s, lo, hi);
    ThreeWaySplit(t, lo, hi);
    assert s[..lo] == t[..lo];
    assert s[hi..] == t[hi..];
    calc {
      multiset(s[lo..hi]);
      multiset(s) - multiset(s[..lo]) - multiset(s[hi..]);
      multiset(t) - multiset(t[..lo]) - multiset(t[hi..]);
      multiset(t[lo..hi]);
    }
  }

  /** The multiset of a sequence is the sum of the multisets of three consecutive pieces. */
  lemma ThreeWaySplit<T>(s: seq<T>, lo: int, hi: int)
    requires 0 <= lo <= hi <= |s|
    ensures multiset(s) == multiset(s[..lo]) + multiset(s[lo..hi]) + multiset(s[hi..])
  {
    assert s == s[..lo] + s[lo..hi] + s[hi..];
  }

  /**
   * If `t[lo..hi)` is a permutation of `s[lo..hi)`, the element at any
   * position `k` of that range of `t` was somewhere in that range of `s`.
   */
  lemma SourceIndex<T>(s: seq<T>, t: seq<T>, lo: int, hi: int, k: int) returns (m: int)
    requires 0 <= lo <= hi <= |s| && hi <= |t|
    requires multiset(s[lo..hi]) == multiset(t[lo..hi])
    requires lo <= k < hi
    ensures lo <= m < hi && t[k] == s[m]
  {
    assert t[k] == t[lo..hi][k - lo];
    assert t[k] in multiset(t[lo..hi]);
    assert t[k] in s[lo..hi];
    var d :| 0 <= d < hi - lo && s[lo..hi][d] == t[k];
    m := lo + d;
  }

  /**
   * Exchanging two neighbours whose keys differ keeps the stability record
   * intact, once the record is exchanged in the same way.
   */
  lemma AdjacentSwapStable<T>(before: seq<T>, s: seq<T>, origin: seq<int>, key: T --> real, i: int)
    requires |s| == |before| && Scorable(s, key, 0, |s|)
    requires 0 <= i && i + 1 < |s|
    requires StableFrom(before, s, origin, key)
    requires key(s[i]) != key(s[i + 1])
    ensures Scorable(s[i := s[i + 1]][i + 1 := s[i]], key, 0, |s|)
    ensures StableFrom(before, s[i := s[i + 1]][i + 1 := s[i]], origin[i := origin[i + 1]][i + 1 := origin[i]], key)
  {
    var s' := s[i := s[i + 1]][i + 1 := s[i]];
    var o' := origin[i := origin[i + 1]][i + 1 := origin[i]];
    assert Scorable(s', key, 0, |s|);
    forall x, y | 0 <= x < y < |s'| && key(s'[x]) == key(s'[y])
      ensures o'[x] < o'[y]
    {
      // Positions other than i and i + 1 keep their element; i and i + 1
      // trade theirs, and those two never tie.
      var x0 := if x == i then i + 1 else if x == i + 1 then i else x;
      var y0 := if y == i then i + 1 else if y == i + 1 then i else y;
      assert s'[x] == s[x0] && o'[x] == origin[x0];
      assert s'[y] == s[y0] && o'[y] == origin[y0];
      assert x0 < y0;
    }
  }
}
