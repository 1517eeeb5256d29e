/**
 * The linked-list feed ranker of code.c: keyword-based subject detection,
 * the user and post lists, the relevance score at a fixed current time,
 * and a bubble sort that exchanges post payloads between neighbouring list
 * nodes.
 *
 * C strings are modelled as character arrays terminated by the first NUL.
 * A list is a sequence, head first; the nodes of the list being sorted are
 * the cells of an array, whose links never change. Scores are exact reals.
 */
module ListFeed {
  import opened Wrappers
  import opened Ranking
  import opened BubbleOrder
  import QuickFeed

  const NUM_SUBJECTS: int := 6
  const MAX_TEXT_LEN: int := 256
  /** Size of a user's interaction table, one slot per possible author id. */
  const INTERACT_SIZE: int := 100
  const CURRENT_TIME: int := 2025

  const W_PREF: real := 2.0
  const W_RECENCY: real := 3.0
  const W_ENGAGE: real := 1.5
  const W_INTERACT: real := 2.5

  /** Three lower-case keywords per subject, in subject order. */
  const KEYWORDS: seq<seq<string>> := [
    ["math", "algebra", "calculus"],
    ["science", "physics", "chemistry"],
    ["sports", "football", "cricket"],
    ["tech", "ai", "robot"],
    ["movies", "film", "cinema"],
    ["news", "politics", "world"]
  ]

  datatype User = User(userId: int, preferences: seq<int>, interactions: seq<int>)

  datatype Post = Post(
    postId: int,
    authorId: int,
    text: string,
    subject: int,
    likes: int,
    comments: int,
    shares: int,
    timestamp: int)

  // ----- C strings -----

  /** Length of the C string held in `s`: the index of its first NUL, or |s| if none. */
  function CStrLen(s: seq<char>): (n: nat)
    ensures n <= |s|
    ensures forall k :: 0 <= k < n ==> s[k] != '\0'
    ensures n < |s| ==> s[n] == '\0'
  {
    if |s| == 0 || s[0] == '\0' then 0 else 1 + CStrLen(s[1..])
  }

  /** `tolower` of the C locale: only the ASCII capitals change. */
  function LowerChar(c: char): (r: char)
    ensures 'A' <= c <= 'Z' ==> 'a' <= r <= 'z' && r as int - 'a' as int == c as int - 'A' as int
    ensures !('A' <= c <= 'Z') ==> r == c
  {
    if 'A' <= c <= 'Z' then (c as int - 'A' as int + 'a' as int) as char else c
  }

  /** The character-by-character lower-casing of `s`. */
  function Lowered(s: seq<char>): (r: seq<char>)
  {
    seq(|s|, k requires 0 <= k < |s| => LowerChar(s[k]))
  }

  /**
   * Lower-casing keeps the length, turns every ASCII capital into its small
   * letter, leaves every other character alone, and keeps a NUL-free string
   * NUL-free.
   */
  lemma LoweredSpec(s: seq<char>)
    ensures |Lowered(s)| == |s|
    ensures forall k :: 0 <= k < |s| && 'A' <= s[k] <= 'Z' ==>
              Lowered(s)[k] as int == s[k] as int + ('a' as int - 'A' as int)
    ensures forall k :: 0 <= k < |s| && !('A' <= s[k] <= 'Z') ==> Lowered(s)[k] == s[k]
    ensures (forall k :: 0 <= k < |s| ==> s[k] != '\0') ==> CStrLen(Lowered(s)) == |s|
  {
    var r := Lowered(s);
    if forall k :: 0 <= k < |s| ==> s[k] != '\0' {
      assert forall k :: 0 <= k < |r| ==> r[k] != '\0';
    }
  }

  /** Lower-casing twice is lower-casing once. */
  lemma LoweredIdempotent(s: seq<char>)
    ensures Lowered(Lowered(s)) == Lowered(s)
  {
  }

  /**
   * Lower-case, in place, the C string held in `str`: every character before
   * the first NUL goes through `tolower`, and the NUL and what follows it are
   * left alone.
   */
  method ToLower(str: array<char>)
    requires CStrLen(str[..]) < str.Length
    modifies str
    ensures str[..CStrLen(old(str[..]))] == Lowered(old(str[..CStrLen(str[..])]))
    ensures str[CStrLen(old(str[..]))..] == old(str[CStrLen(str[..])..])
    ensures CStrLen(str[..]) == CStrLen(old(str[..]))
  {
    ghost var before := str[..];
    ghost var n := CStrLen(before);
    var i := 0;
    while str[i] != '\0'
      invariant 0 <= i <= n
      invariant forall k :: 0 <= k < i ==> str[k] == LowerChar(before[k])
      invariant forall k :: i <= k < str.Length ==> str[k] == before[k]
      decreases n - i
    {
      str[i] := LowerChar(str[i]);
      i := i + 1;
    }
    assert str[..n] == Lowered(before[..n]);
    assert str[n..] == before[n..];
  }

  /** `needle` occurs in `haystack` starting at index `k`. */
  predicate OccursAt(needle: string, haystack: string, k: int)
  {
    0 <= k && k + |needle| <= |haystack| && haystack[k..k + |needle|] == needle
  }

  /** `needle` occurs as a contiguous piece of `haystack`. */
  predicate Occurs(needle: string, haystack: string)
  {
    exists k | 0 <= k <= |haystack| - |needle| :: OccursAt(needle, haystack, k)
  }

  /**
   * `strstr` returns non-NULL: `needle` occurs in the C string held in
   * `buffer`. The empty needle is always found, and no needle longer than
   * the string is.
   */
  predicate StrStr(buffer: seq<char>, needle: string): (found: bool)
    ensures needle == [] ==> found
    ensures found ==> |needle| <= CStrLen(buffer)
  {
    var s := buffer[..CStrLen(buffer)];
    assert needle == [] ==> OccursAt(needle, s, 0);
    Occurs(needle, s)
  }

  /** Some keyword of `subject` occurs in `s`. */
  predicate SubjectHit(s: string, subject: int)
    requires 0 <= subject < NUM_SUBJECTS
  {
    exists j | 0 <= j < |KEYWORDS[subject]| :: Occurs(KEYWORDS[subject][j], s)
  }

  /**
   * C's `strcpy`: the string held in `src`, with its terminating NUL, is
   * copied to the front of `dst`; the rest of `dst` keeps its contents.
   */
  method StrCpy(dst: array<char>, src: array<char>)
    requires dst != src
    requires CStrLen(src[..]) < src.Length && CStrLen(src[..]) < dst.Length
    modifies dst
    ensures dst[..] == src[..CStrLen(src[..]) + 1] + old(dst[CStrLen(src[..]) + 1..])
    ensures CStrLen(dst[..]) == CStrLen(src[..])
  {
    ghost var n := CStrLen(src[..]);
    var k := 0;
    while src[k] != '\0'
      invariant 0 <= k <= n
      invariant forall m :: 0 <= m < k ==> dst[m] == src[m]
      invariant forall m :: k <= m < dst.Length ==> dst[m] == old(dst[m])
      decreases n - k
    {
      dst[k] := src[k];
      k := k + 1;
    }
    dst[k] := '\0';
    assert dst[..] == src[..n + 1] + old(dst[n + 1..]);
  }

  /**
   * The subject of a post text: the first subject one of whose keywords
   * occurs in the lower-cased text, and the last subject (News) when none
   * does. The text is copied into a local buffer first, so the caller's
   * array is not written.
   */
  method DetectSubjectFromText(text: array<char>) returns (r: int)
    requires CStrLen(text[..]) < text.Length
    requires CStrLen(text[..]) < MAX_TEXT_LEN
    ensures 0 <= r < NUM_SUBJECTS
    ensures forall i :: 0 <= i < r ==> !SubjectHit(Lowered(text[..CStrLen(text[..])]), i)
    ensures r < NUM_SUBJECTS - 1 ==> SubjectHit(Lowered(text[..CStrLen(text[..])]), r)
  {
    ghost var n := CStrLen(text[..]);
    ghost var lowered := Lowered(text[..n]);
    var tempText := new char[MAX_TEXT_LEN](_ => '\0');
    StrCpy(tempText, text);
    assert tempText[..n] == text[..n];
    ToLower(tempText);
    assert tempText[..CStrLen(tempText[..])] == lowered;

    for i := 0 to NUM_SUBJECTS
      invariant forall i' :: 0 <= i' < i ==> !SubjectHit(lowered, i')
    {
      for j := 0 to 3
        invariant forall j' :: 0 <= j' < j ==> !Occurs(KEYWORDS[i][j'], lowered)
      {
        if StrStr(tempText[..], KEYWORDS[i][j]) {
          return i;
        }
      }
    }
    return NUM_SUBJECTS - 1;
  }

  // ----- Scoring -----

  /**
   * What `computeScore` relies on without checking: both table reads are in
   * range and the recency denominator is not zero.
   */
  predicate CanScore(u: User, p: Post)
  {
    && |u.preferences| == NUM_SUBJECTS
    && |u.interactions| == INTERACT_SIZE
    && 0 <= p.subject < NUM_SUBJECTS
    && 0 <= p.authorId < INTERACT_SIZE
    && CURRENT_TIME - p.timestamp + 1 != 0
  }

  /**
   * The relevance of post `p` to user `u` at CURRENT_TIME. A post that is
   * not future-dated and has no negative count scores above zero.
   */
  function Score(u: User, p: Post): (r: real)
    requires CanScore(u, p)
    ensures (p.timestamp <= CURRENT_TIME && p.likes >= 0 && p.comments >= 0 && p.shares >= 0
             && u.interactions[p.authorId] >= 0) ==> r > 0.0
  {
    var pref := if u.preferences[p.subject] != 0 then W_PREF else 0.0;
    var recency := 1.0 / (CURRENT_TIME - p.timestamp + 1) as real;
    var engagement := p.likes + p.comments + p.shares;
    pref + W_RECENCY * recency + W_ENGAGE * engagement as real
      + W_INTERACT * u.interactions[p.authorId] as real
  }

  /** Any non-zero flag is worth W_PREF over a zero flag. */
  lemma PreferenceBonus(u: User, p: Post, flag: int)
    requires CanScore(u, p) && flag != 0
    ensures var liked := u.(preferences := u.preferences[p.subject := flag]);
            var unliked := u.(preferences := u.preferences[p.subject := 0]);
            CanScore(liked, p) && CanScore(unliked, p) &&
            Score(liked, p) == Score(unliked, p) + W_PREF
  {
  }

  /**
   * This score is contest.c's score at the same time, with the same terms
   * and weights, except that a preference flag other than 0 or 1 earns the
   * bonus here and not there.
   */
  lemma AgreesWithQuickFeed(u: User, p: Post)
    requires CanScore(u, p) && p.authorId < QuickFeed.INTERACT_SIZE
    ensures var cu := QuickFeed.User(u.userId, u.preferences, u.interactions[..QuickFeed.INTERACT_SIZE]);
            var cp := QuickFeed.Post(p.postId, p.authorId, p.subject, p.likes, p.comments, p.shares, p.timestamp);
            var flag := u.preferences[p.subject];
            QuickFeed.CanScore(cu, cp, QuickFeed.CURRENT_TIME) &&
            Score(u, p) == QuickFeed.Score(cu, cp, QuickFeed.CURRENT_TIME) + (if flag != 0 && flag != 1 then W_PREF else 0.0)
  {
  }

  /**
   * A worked example: a Tech post by an author the user interacted with
   * three times outranks an otherwise identical News post by a stranger,
   * 30.5 to 21.0.
   */
  lemma ScenarioScores()
    ensures var u := User(1, [0, 0, 0, 1, 0, 0], seq(INTERACT_SIZE, k => if k == 7 then 3 else 0));
            var p1 := Post(1, 7, "new robot", 3, 10, 2, 1, 2024);
            var p2 := Post(2, 9, "world news", 5, 10, 2, 1, 2024);
            CanScore(u, p1) && CanScore(u, p2) && Score(u, p1) == 30.5 && Score(u, p2) == 21.0
  {
    var u := User(1, [0, 0, 0, 1, 0, 0], seq(INTERACT_SIZE, k => if k == 7 then 3 else 0));
    assert u.interactions[7] == 3 && u.interactions[9] == 0;
  }

  // ----- Sorting -----

  /**
   * Bubble sort by non-increasing key, exchanging neighbours only when the
   * first has the strictly smaller key, until a pass makes no exchange. Each
   * pass stops one node earlier (`end` plays the part of `lptr`, with
   * `a.Length` standing for NULL). The returned ghost `origin` records, for
   * each position, where its element started.
   */
  method BubbleSort<T>(a: array<T>, key: T --> real) returns (ghost origin: seq<int>)
    requires Scorable(a[..], key, 0, a.Length)
    modifies a
    ensures Scorable(a[..], key, 0, a.Length)
    ensures Descending(a[..], key, 0, a.Length)
    ensures multiset(a[..]) == multiset(old(a[..]))
    ensures StableFrom(old(a[..]), a[..], origin, key)
    ensures Descending(old(a[..]), key, 0, a.Length) ==> a[..] == old(a[..])
  {
    ghost var before := a[..];
    origin := seq(a.Length, k => k);
    if a.Length == 0 {
      return;
    }
    var swapped := true;
    var end := a.Length;
    while swapped
      invariant SortState(before, a[..], origin, key, end)
      invariant swapped ==> 1 <= end
      invariant !swapped ==> Descending(a[..], key, 0, a.Length)
      invariant Descending(before, key, 0, a.Length) ==> a[..] == before
      decreases end
    {
      swapped, origin := BubblePass(a, key, end, before, origin);
      end := end - 1;
    }
  }

  /**
   * One pass of the bubble sort over the nodes before `end`: the smallest
   * key among them sinks to position `end - 1`. The pass reports whether it
   * exchanged anything; when it did not, nothing moved and the nodes before
   * `end` were already in order.
   */
  method BubblePass<T>(a: array<T>, key: T --> real, end: int, ghost before: seq<T>, ghost origin0: seq<int>)
    returns (swapped: bool, ghost origin: seq<int>)
    requires 1 <= end && SortState(before, a[..], origin0, key, end)
    modifies a
    ensures SortState(before, a[..], origin, key, end - 1)
    ensures a[end..] == old(a[end..]) && multiset(a[..end]) == multiset(old(a[..end]))
    ensures swapped ==> 2 <= end
    ensures !swapped ==> a[..] == old(a[..]) && Descending(a[..], key, 0, a.Length)
    ensures Descending(old(a[..]), key, 0, a.Length) ==> !swapped
  {
    ghost var start := a[..];
    ghost var cur := start;
    origin := origin0;
    swapped := false;
    var i := 0;
    BubblePassStart(before, start, origin, key, end);
    while i + 1 != end
      invariant a[..] == cur
      invariant PassState(before, start, cur, origin, key, end, i, swapped)
      decreases end - i
    {
      swapped, cur, origin := BubbleStep(a, key, end, i, before, start, cur, origin, swapped);
      i := i + 1;
    }
    BubblePassEnd(before, start, cur, origin, key, end, swapped);
  }

  /**
   * The body of a pass at position `i`: neighbours `i` and `i + 1` exchange
   * their payloads exactly when the first has the strictly smaller key,
   * which carries the smallest key seen so far on to `i + 1`.
   */
  method BubbleStep<T>(a: array<T>, key: T --> real, end: int, i: int,
                       ghost before: seq<T>, ghost start: seq<T>, ghost s: seq<T>, ghost origin0: seq<int>, swapped0: bool)
    returns (swapped: bool, ghost t: seq<T>, ghost origin: seq<int>)
    requires a[..] == s && PassState(before, start, s, origin0, key, end, i, swapped0) && i + 1 < end
    modifies a
    ensures a[..] == t && PassState(before, start, t, origin, key, end, i + 1, swapped)
    ensures key(s[i]) < key(s[i + 1]) ==>
              t == s[i := s[i + 1]][i + 1 := s[i]] && origin == origin0[i := origin0[i + 1]][i + 1 := origin0[i]] && swapped
    ensures key(s[i]) >= key(s[i + 1]) ==> t == s && origin == origin0 && swapped == swapped0
  {
    if key(a[i]) < key(a[i + 1]) {
      BubbleSwapStep(before, start, s, origin0, key, end, i, swapped0);
      a[i], a[i + 1] := a[i + 1], a[i];
      t := s[i := s[i + 1]][i + 1 := s[i]];
      assert a[..] == t;
      origin := origin0[i := origin0[i + 1]][i + 1 := origin0[i]];
      swapped := true;
    } else {
      BubbleKeepStep(before, start, s, origin0, key, end, i, swapped0);
      t := s;
      origin := origin0;
      swapped := swapped0;
    }
  }

  /**
   * `sortFeed`: rank the posts held by the list nodes by descending score
   * for user `u`. Posts with equal scores keep their order.
   */
  method SortFeed(nodes: array<Post>, u: User) returns (ghost origin: seq<int>)
    requires forall k :: 0 <= k < nodes.Length ==> CanScore(u, nodes[k])
    modifies nodes
    ensures multiset(nodes[..]) == multiset(old(nodes[..]))
    ensures forall k :: 0 <= k < nodes.Length ==> CanScore(u, nodes[k])
    ensures forall i, j :: 0 <= i < j < nodes.Length ==> Score(u, nodes[i]) >= Score(u, nodes[j])
    ensures |origin| == nodes.Length
    ensures forall k :: 0 <= k < nodes.Length ==>
              0 <= origin[k] < nodes.Length && nodes[k] == old(nodes[origin[k]])
    ensures forall i, j :: 0 <= i < j < nodes.Length && Score(u, nodes[i]) == Score(u, nodes[j]) ==>
              origin[i] < origin[j]
  {
    var key := (p: Post) requires CanScore(u, p) => Score(u, p);
    origin := BubbleSort(nodes, key);
  }

  // ----- The user and post lists -----

  /** The first user in `users` (head first) whose id is `id`, if any. */
  function Lookup(users: seq<User>, id: int): (r: Option<User>)
    ensures r.Some? ==> r.value in users && r.value.userId == id
  {
    if users == [] then None
    else if users[0].userId == id then Some(users[0])
    else Lookup(users[1..], id)
  }

  /** Lookup finds exactly the first user with a matching id, and nothing when none matches. */
  lemma {:induction false} LookupIsFirstMatch(users: seq<User>, id: int)
    ensures Lookup(users, id).None? <==> forall k :: 0 <= k < |users| ==> users[k].userId != id
    ensures Lookup(users, id).Some? ==>
              exists k :: 0 <= k < |users| && users[k] == Lookup(users, id).value && users[k].userId == id &&
                          forall j :: 0 <= j < k ==> users[j].userId != id
  {
    if users != [] && users[0].userId != id {
      LookupIsFirstMatch(users[1..], id);
      if Lookup(users, id).Some? {
        var k :| 0 <= k < |users| - 1 && users[1..][k] == Lookup(users, id).value && users[1..][k].userId == id &&
                 forall j :: 0 <= j < k ==> users[1..][j].userId != id;
        assert users[k + 1] == Lookup(users, id).value;
      }
    }
  }

  /** A user put in front shadows every older entry with the same id and hides no other. */
  lemma LookupAfterPrepend(users: seq<User>, u: User, id: int)
    ensures Lookup([u] + users, u.userId) == Some(u)
    ensures id != u.userId ==> Lookup([u] + users, id) == Lookup(users, id)
  {
    assert ([u] + users)[1..] == users;
  }

  /** The heads of the global user and post lists, each list as a sequence from its head. */
  class Store {
    var users: seq<User>
    var posts: seq<Post>

    constructor ()
      ensures users == [] && posts == []
    {
      users := [];
      posts := [];
    }

    /** Prepend a user: it becomes the new head. */
    method AddUser(user: User)
      modifies this
      ensures users == [user] + old(users)
      ensures posts == old(posts)
    {
      users := [user] + users;
    }

    /** Prepend a post: it becomes the new head. */
    method AddPost(post: Post)
      modifies this
      ensures posts == [post] + old(posts)
      ensures users == old(users)
    {
      posts := [post] + posts;
    }

    /** Walk the user list from its head and return the first user with this id. */
    method FindUserById(id: int) returns (r: Option<User>)
      ensures r == Lookup(users, id)
    {
      var temp := users;
      while temp != []
        invariant Lookup(temp, id) == Lookup(users, id)
        decreases |temp|
      {
        if temp[0].userId == id {
          return Some(temp[0]);
        }
        temp := temp[1..];
      }
      return None;
    }
  }
}
