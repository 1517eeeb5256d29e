/**
 * The invariants of the bubble sort used by the linked-list feed: what holds
 * between passes and part-way through a pass, and the steps that keep them.
 */
module BubbleOrder {
  import opened Ranking

  /**
   * What holds between passes, with the passes so far having stopped before
   * `end`: `s` is a stable rearrangement of `before`, the nodes from `end` on
   * are in order, and none of them has a larger key than a node before `end`.
   */
  ghost predicate SortState<T>(before: seq<T>, s: seq<T>, origin: seq<int>, key: T --> real, end: int)
  {
    && 0 <= end <= |s| == |before|
    && Scorable(s, key, 0, |s|)
    && multiset(s) == multiset(before)
    && StableFrom(before, s, origin, key)
    && Descending(s, key, end, |s|) && PrefixDominates(s, key, end)
  }

  /**
   * What holds part-way through a pass that began on `start` and has reached
   * position `i` of the nodes before `end`: what holds between passes, the
   * nodes from `end` on are those of `start`, `s[i]` holds the smallest key
   * among the first `i + 1` nodes, and as long as nothing was exchanged
   * nothing moved and those nodes are in order (which is always the case
   * when `start` was in order).
   */
  ghost predicate PassState<T>(before: seq<T>, start: seq<T>, s: seq<T>, origin: seq<int>, key: T --> real,
                               end: int, i: int, swapped: bool)
  {
    && SortState(before, s, origin, key, end)
    && 0 <= i < end
    && (forall x :: 0 <= x < i ==> key(s[x]) >= key(s[i]))
    && |start| == |s| && Scorable(start, key, 0, |start|)
    && multiset(start) == multiset(before) && s[end..] == start[end..]
    && (swapped ==> 1 <= i)
    && (!swapped ==> s == start && Descending(s, key, 0, i + 1))
    && (Descending(start, key, 0, |start|) ==> !swapped)
  }

  /** A pass starts at the head without having exchanged anything. */
  lemma BubblePassStart<T>(before: seq<T>, start: seq<T>, origin: seq<int>, key: T --> real, end: int)
    requires 1 <= end && SortState(before, start, origin, key, end)
    ensures PassState(before, start, start, origin, key, end, 0, false)
  {
  }

  /**
   * Exchanging the neighbours at `i` and `i + 1` when the first has the
   * smaller key keeps the pass going: the smallest key moves on to `i + 1`.
   * Such a pair cannot occur when the pass began on an ordered sequence.
   */
  lemma BubbleSwapStep<T>(before: seq<T>, start: seq<T>, s: seq<T>, origin: seq<int>, key: T --> real,
                          end: int, i: int, swapped: bool)
    requires PassState(before, start, s, origin, key, end, i, swapped) && i + 1 < end
    requires key(s[i]) < key(s[i + 1])
    ensures PassState(before, start, s[i := s[i + 1]][i + 1 := s[i]],
                      origin[i := origin[i + 1]][i + 1 := origin[i]], key, end, i + 1, true)
  {
    var t := s[i := s[i + 1]][i + 1 := s[i]];
    SwapSortState(before, s, origin, key, end, i);
    assert t[end..] == s[end..];
    forall x | 0 <= x < i + 1 ensures key(t[x]) >= key(t[i + 1]) {
      if x < i {
        assert t[x] == s[x];
      }
    }
    if !swapped {
      // The pass has not moved anything yet, so `start` has this very pair out of order.
      assert start[i] == s[i] && start[i + 1] == s[i + 1];
    }
  }

  /**
   * Exchanging two neighbours before `end` whose keys differ keeps what holds
   * between passes.
   */
  lemma SwapSortState<T>(before: seq<T>, s: seq<T>, origin: seq<int>, key: T --> real, end: int, i: int)
    requires SortState(before, s, origin, key, end) && 0 <= i && i + 1 < end
    requires key(s[i]) != key(s[i + 1])
    ensures SortState(before, s[i := s[i + 1]][i + 1 := s[i]], origin[i := origin[i + 1]][i + 1 := origin[i]], key, end)
  {
    var t := s[i := s[i + 1]][i + 1 := s[i]];
    AdjacentSwapStable(before, s, origin, key, i);
    assert multiset(t) == multiset(s);
    assert Descending(t, key, end, |t|) by {
      assert forall k :: end <= k < |t| ==> t[k] == s[k];
    }
    forall x, y | 0 <= x < end <= y < |t| ensures key(t[x]) >= key(t[y]) {
      var x0 := if x == i then i + 1 else if x == i + 1 then i else x;
      assert t[x] == s[x0] && t[y] == s[y];
    }
  }

  /**
   * Leaving the neighbours at `i` and `i + 1` in place when the first key is
   * not smaller keeps the pass going, and extends the ordered prefix by one.
   */
  lemma BubbleKeepStep<T>(before: seq<T>, start: seq<T>, s: seq<T>, origin: seq<int>, key: T --> real,
                          end: int, i: int, swapped: bool)
    requires PassState(before, start, s, origin, key, end, i, swapped) && i + 1 < end
    requires key(s[i]) >= key(s[i + 1])
    ensures PassState(before, start, s, origin, key, end, i + 1, swapped)
  {
  }

  /**
   * At the end of a pass the smallest key of the nodes before `end` sits at
   * `end - 1`, so the ordered tail grows by one node; the nodes from `end`
   * on are untouched and those before it only rearranged; a pass without an
   * exchange leaves the whole sequence ordered.
   */
  lemma BubblePassEnd<T>(before: seq<T>, start: seq<T>, s: seq<T>, origin: seq<int>, key: T --> real,
                         end: int, swapped: bool)
    requires 1 <= end && PassState(before, start, s, origin, key, end, end - 1, swapped)
    ensures SortState(before, s, origin, key, end - 1)
    ensures s[end..] == start[end..] && multiset(s[..end]) == multiset(start[..end])
    ensures swapped ==> 2 <= end
    ensures !swapped ==> s == start && Descending(s, key, 0, |s|)
    ensures Descending(start, key, 0, |start|) ==> !swapped
  {
    SliceMultiset(s, start, 0, end);
    assert s[..end] == s[0..end] && start[..end] == start[0..end];
  }
}
