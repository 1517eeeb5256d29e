/**
 * The quicksort feed ranker of contest.c: a relevance score for a
 * (user, post) pair, and an in-place Lomuto quicksort of an array of posts
 * by descending score.
 *
 * The C program keeps its users and posts in global fixed-size arrays; here
 * they are parameters. Scores are exact reals, not IEEE doubles.
 */
module QuickFeed {
  import opened Wrappers
  import opened Ranking

  const MAX_USERS: int := 20
  const NUM_SUBJECTS: int := 6
  /** Size of a user's interaction table, one slot per possible author id. */
  const INTERACT_SIZE: int := MAX_USERS
  /** The reference time `main` ranks against. */
  const CURRENT_TIME: int := 2025

  const W_PREF: real := 2.0
  const W_RECENCY: real := 3.0
  const W_ENGAGE: real := 1.5
  const W_INTERACT: real := 2.5

  /** A user record: preference flags per subject, interaction counts per author id. */
  datatype User = User(userId: int, preferences: seq<int>, interactions: seq<int>)

  datatype Post = Post(
    postId: int,
    authorId: int,
    subject: int,
    likes: int,
    comments: int,
    shares: int,
    timestamp: int)

  /** The two tables of a user have the sizes the C struct gives them. */
  predicate WellFormed(u: User)
  {
    |u.preferences| == NUM_SUBJECTS && |u.interactions| == INTERACT_SIZE
  }

  /**
   * What `computeScore` relies on without checking: both table reads are in
   * range and the recency denominator is not zero.
   */
  predicate CanScore(u: User, p: Post, t: int)
  {
    && WellFormed(u)
    && 0 <= p.subject < NUM_SUBJECTS
    && 0 <= p.authorId < INTERACT_SIZE
    && t - p.timestamp + 1 != 0
  }

  /**
   * The relevance of post `p` to user `u` at time `t`. A post that is not
   * future-dated and has no negative count scores above zero.
   */
  function Score(u: User, p: Post, t: int): (r: real)
    requires CanScore(u, p, t)
    ensures (p.timestamp <= t && p.likes >= 0 && p.comments >= 0 && p.shares >= 0
             && u.interactions[p.authorId] >= 0) ==> r > 0.0
  {
    var pref := if u.preferences[p.subject] == 1 then W_PREF else 0.0;
    var recency := 1.0 / (t - p.timestamp + 1) as real;
    var engagement := p.likes + p.comments + p.shares;
    pref + W_RECENCY * recency + W_ENGAGE * engagement as real
      + W_INTERACT * u.interactions[p.authorId] as real
  }

  /** A flag of exactly 1 is worth W_PREF over any other flag value. */
  lemma PreferenceBonus(u: User, p: Post, t: int, other: int)
    requires CanScore(u, p, t) && other != 1
    ensures var liked := u.(preferences := u.preferences[p.subject := 1]);
            var unliked := u.(preferences := u.preferences[p.subject := other]);
            CanScore(liked, p, t) && CanScore(unliked, p, t) &&
            Score(liked, p, t) == Score(unliked, p, t) + W_PREF
  {
  }

  /**
   * More likes, comments or shares never lower the score: each extra unit of
   * engagement adds exactly W_ENGAGE.
   */
  lemma EngagementMonotone(u: User, p: Post, q: Post, t: int)
    requires CanScore(u, p, t)
    requires q == p.(likes := q.likes, comments := q.comments, shares := q.shares)
    requires q.likes >= p.likes && q.comments >= p.comments && q.shares >= p.shares
    ensures CanScore(u, q, t)
    ensures Score(u, q, t) == Score(u, p, t)
      + W_ENGAGE * ((q.likes - p.likes) + (q.comments - p.comments) + (q.shares - p.shares)) as real
    ensures Score(u, q, t) >= Score(u, p, t)
  {
  }

  /** Of two posts that differ only in a past timestamp, the newer scores higher. */
  lemma NewerScoresHigher(u: User, p: Post, q: Post, t: int)
    requires CanScore(u, p, t)
    requires q == p.(timestamp := q.timestamp)
    requires p.timestamp < q.timestamp <= t
    ensures CanScore(u, q, t) && Score(u, q, t) > Score(u, p, t)
  {
    var dp := (t - p.timestamp + 1) as real;
    var dq := (t - q.timestamp + 1) as real;
    assert 1.0 <= dq < dp;
    assert 1.0 / dp < 1.0 / dq by {
      assert dq * (1.0 / dq) == 1.0;
      assert dp * (1.0 / dp) == 1.0;
      assert dq * (1.0 / dp) < dp * (1.0 / dp);
    }
  }

  /**
   * The recency term is not clamped: a post dated two or more units after
   * the reference time gets a negative recency term and scores below the
   * same post dated exactly at the reference time, by more than W_RECENCY.
   */
  lemma FutureDatedPostPenalised(u: User, p: Post, t: int)
    requires CanScore(u, p, t) && p.timestamp >= t + 2
    ensures var now := p.(timestamp := t);
            CanScore(u, now, t) && Score(u, p, t) < Score(u, now, t) - W_RECENCY
  {
    var d := (t - p.timestamp + 1) as real;
    assert d <= -1.0;
    assert 1.0 / d < 0.0 by {
      assert d * (1.0 / d) == 1.0;
    }
  }

  /** Exchange the entries at `i` and `j`, which may coincide. */
  method Swap<T>(a: array<T>, i: int, j: int)
    requires 0 <= i < a.Length && 0 <= j < a.Length
    modifies a
    ensures a[i] == old(a[j]) && a[j] == old(a[i])
    ensures forall k :: 0 <= k < a.Length && k != i && k != j ==> a[k] == old(a[k])
    ensures multiset(a[..]) == multiset(old(a[..]))
  {
    var temp := a[i];
    a[i] := a[j];
    a[j] := temp;
  }

  /**
   * Lomuto partition of `a[lo..hi]` around the key of `a[hi]`: entries that
   * score strictly above the pivot move to the front, the pivot lands right
   * after them, and its position is returned.
   */
  method Partition<T>(a: array<T>, lo: int, hi: int, key: T --> real) returns (p: int)
    requires 0 <= lo <= hi < a.Length
    requires Scorable(a[..], key, lo, hi + 1)
    modifies a
    ensures lo <= p <= hi
    ensures Scorable(a[..], key, lo, hi + 1)
    ensures a[p] == old(a[hi])
    ensures forall k :: lo <= k < p ==> key(a[k]) > key(a[p])
    ensures forall k :: p < k <= hi ==> key(a[k]) <= key(a[p])
    ensures multiset(a[..]) == multiset(old(a[..]))
    ensures forall k :: 0 <= k < a.Length && !(lo <= k <= hi) ==> a[k] == old(a[k])
  {
    var pivotScore := key(a[hi]);
    var i := lo - 1;
    for j := lo to hi
      invariant lo - 1 <= i < j
      invariant Scorable(a[..], key, lo, hi + 1)
      invariant a[hi] == old(a[hi])
      invariant forall k :: lo <= k <= i ==> key(a[k]) > pivotScore
      invariant forall k :: i < k < j ==> key(a[k]) <= pivotScore
      invariant multiset(a[..]) == multiset(old(a[..]))
      invariant forall k :: 0 <= k < a.Length && !(lo <= k <= hi) ==> a[k] == old(a[k])
    {
      var scoreJ := key(a[j]);
      if scoreJ > pivotScore {
        i := i + 1;
        Swap(a, i, j);
      }
    }
    Swap(a, i + 1, hi);
    p := i + 1;
  }

  /**
   * Sort `a[lo..hi]` (both ends included) by non-increasing key. Entries
   * outside the range are left alone, and a range with `lo >= hi` leaves the
   * whole array untouched.
   */
  method QuickSort<T>(a: array<T>, lo: int, hi: int, key: T --> real)
    requires lo < hi ==> 0 <= lo && hi < a.Length && Scorable(a[..], key, lo, hi + 1)
    modifies a
    ensures lo < hi ==> Scorable(a[..], key, lo, hi + 1) && Descending(a[..], key, lo, hi + 1)
    ensures multiset(a[..]) == multiset(old(a[..]))
    ensures forall k :: 0 <= k < a.Length && !(lo <= k <= hi) ==> a[k] == old(a[k])
    ensures lo >= hi ==> a[..] == old(a[..])
    decreases hi - lo
  {
    if lo < hi {
      var pi := Partition(a, lo, hi, key);
      ghost var parted := a[..];
      QuickSort(a, lo, pi - 1, key);
      ghost var leftDone := a[..];
      QuickSort(a, pi + 1, hi, key);
      ghost var done := a[..];

      QuickSortStep(parted, leftDone, done, key, lo, pi, hi + 1);
    }
  }

  /**
   * The correctness step of QuickSort: `parted` is the array after the
   * partition put its pivot at `p`; sorting `[lo, p)` gives `leftDone`, then
   * sorting `(p, end)` gives `done`. Both recursive sorts only permute their
   * own side, so each side stays on its side of the pivot, and `[lo, end)`
   * of `done` is descending.
   */
  lemma QuickSortStep<T>(parted: seq<T>, leftDone: seq<T>, done: seq<T>, key: T --> real,
                         lo: int, p: int, end: int)
    requires 0 <= lo <= p < end <= |parted| == |leftDone| == |done|
    requires Scorable(parted, key, lo, end)
    requires forall k :: lo <= k < p ==> key(parted[k]) > key(parted[p])
    requires forall k :: p < k < end ==> key(parted[k]) <= key(parted[p])
    requires multiset(leftDone) == multiset(parted)
    requires forall k :: 0 <= k < |parted| && !(lo <= k < p) ==> leftDone[k] == parted[k]
    requires lo < p - 1 ==> Scorable(leftDone, key, lo, p) && Descending(leftDone, key, lo, p)
    requires multiset(done) == multiset(leftDone)
    requires forall k :: 0 <= k < |parted| && !(p < k < end) ==> done[k] == leftDone[k]
    requires p + 1 < end - 1 ==> Scorable(done, key, p + 1, end) && Descending(done, key, p + 1, end)
    ensures Scorable(done, key, lo, end) && Descending(done, key, lo, end)
  {
    SliceMultiset(parted, leftDone, lo, p);
    SliceMultiset(leftDone, done, p + 1, end);
    forall k | lo <= k < p
      ensures done[k] == leftDone[k]
      ensures key.requires(done[k]) && key(done[k]) > key(done[p])
    {
      var m := SourceIndex(parted, leftDone, lo, p, k);
    }
    forall k | p < k < end
      ensures key.requires(done[k]) && key(done[k]) <= key(done[p])
    {
      var m := SourceIndex(leftDone, done, p + 1, end, k);
    }
    assert Scorable(done, key, lo, end);
    DescendingJoin(done, key, lo, p, end);
  }

  /**
   * Two descending runs either side of a pivot, the left one above it and
   * the right one at or below it, make one descending run.
   */
  lemma DescendingJoin<T>(s: seq<T>, key: T --> real, lo: int, p: int, hi: int)
    requires 0 <= lo <= p < hi <= |s| && Scorable(s, key, lo, hi)
    requires Descending(s, key, lo, p) && Descending(s, key, p + 1, hi)
    requires forall k :: lo <= k < p ==> key(s[k]) > key(s[p])
    requires forall k :: p < k < hi ==> key(s[k]) <= key(s[p])
    ensures Descending(s, key, lo, hi)
  {
  }

  /**
   * The feed of `main`: an array of the posts, ranked by descending score
   * for user `u` at time `t`. The input posts themselves are not reordered.
   */
  method RankFeed(posts: seq<Post>, u: User, t: int) returns (feed: array<Post>)
    requires forall k :: 0 <= k < |posts| ==> CanScore(u, posts[k], t)
    ensures fresh(feed)
    ensures multiset(feed[..]) == multiset(posts)
    ensures forall k :: 0 <= k < feed.Length ==> CanScore(u, feed[k], t)
    ensures forall i, j :: 0 <= i < j < feed.Length ==> Score(u, feed[i], t) >= Score(u, feed[j], t)
  {
    feed := new Post[|posts|](k requires 0 <= k < |posts| => posts[k]);
    assert feed[..] == posts;
    var key := (p: Post) requires CanScore(u, p, t) => Score(u, p, t);
    QuickSort(feed, 0, feed.Length - 1, key);
    forall k | 0 <= k < feed.Length
      ensures CanScore(u, feed[k], t)
    {
      assert feed[k] in multiset(feed[..]);
    }
  }

  /**
   * The user lookup of `main`: scan all MAX_USERS slots and report the first
   * whose id matches, or nothing.
   */
  method FindUser(users: seq<User>, targetUserId: int) returns (r: Option<nat>)
    requires |users| == MAX_USERS
    ensures r.Some? ==> r.value < |users| && users[r.value].userId == targetUserId
    ensures r.Some? ==> forall k :: 0 <= k < r.value ==> users[k].userId != targetUserId
    ensures r.None? ==> forall k :: 0 <= k < |users| ==> users[k].userId != targetUserId
  {
    r := None;
    for i := 0 to MAX_USERS
      invariant forall k :: 0 <= k < i ==> users[k].userId != targetUserId
    {
      if users[i].userId == targetUserId {
        r := Some(i);
        return;
      }
    }
  }

  /**
   * Partition is not stable: on two entries with equal keys it moves the
   * pivot (the second) in front of the first, so quicksort can reorder
   * posts with equal scores.
   */
  method PartitionSwapsTie<T>(x: T, y: T, key: T --> real) returns (first: T, second: T)
    requires key.requires(x) && key.requires(y) && key(x) == key(y)
    ensures first == y && second == x
  {
    var a := new T[2](k requires 0 <= k < 2 => if k == 0 then x else y);
    assert a[..] == [x, y];
    var p := Partition(a, 0, 1, key);
    assert a[..] == [a[0], a[1]];
    assert x in multiset(a[..]) && y in multiset(a[..]);
    assert p == 0;
    assert multiset([y, a[1]]) == multiset([x, y]);
    first, second := a[0], a[1];
  }
}
