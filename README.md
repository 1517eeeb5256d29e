# Feed ranking: a Dafny model

Two C programs rank the posts of a small social network for one user.
Both give each (user, post) pair a relevance score and show the posts by
descending score.

- `contest.c` keeps users and posts in global arrays. It scores with
  `computeScore(user, post, currentTime)` and ranks an array of `Post*` with
  a Lomuto quicksort (`swap`, `partition`, `quickSort`). `main` looks the
  user up by id first.
- `code.c` keeps users and posts in singly linked lists built by `addUser`
  and `addPost` (each prepends). It detects a post's subject from its text
  by keyword (`toLower`, `detectSubjectFromText`), scores at a fixed
  `CURRENT_TIME`, and ranks with `sortFeed`. `sortFeed` is a bubble sort that
  exchanges post payloads between neighbouring list nodes until a pass makes
  no exchange. `findUserById` walks the user list.

The score is the sum of four weighted terms:

- a preference bonus (2.0);
- recency, 3.0 / (t - timestamp + 1);
- engagement, 1.5 * (likes + comments + shares);
- interactions with the author, 2.5 * interactions[authorId].

In the model the score is an exact `real`. What the C code relies on
without checking becomes a precondition (`CanScore`): both table reads are
in range and the recency denominator is not zero. The two programs differ in
three places:

- `contest.c` gives the bonus only for a preference flag equal to 1;
  `code.c` gives it for any non-zero flag.
- The interaction table has 20 slots in `contest.c` and 100 in `code.c`, so
  an author id from 20 to 99 can be scored only by `code.c`.
- `contest.c` takes the current time as a parameter; `code.c` fixes it at
  `CURRENT_TIME` (2025).

Files:

- `wrappers.dfy`: `Option`, which stands for a pointer that may be NULL.
- `ranking.dfy`: order, permutation and stability facts shared by both sorts.
  Each sort is generic over a partial key `T --> real`. Its precondition
  says which elements can be scored.
- `quickfeed.dfy`: `contest.c`. The score, an in-place quicksort on an
  `array`, and the user lookup of `main`.
- `listfeed.dfy`: `code.c`. C strings are character arrays ended by the
  first NUL. The nodes of the list being sorted are the cells of an array,
  because `sortFeed` moves payloads and never relinks. The two global lists
  are the `seq` fields of a `Store` object, head first.
- `bubbleorder.dfy`: the invariants of the bubble sort, between passes and
  within a pass, and the lemmas that keep them.

Both sorts are instantiated with the score through a lambda whose
precondition is `CanScore`.

## Model

| member | source | states |
|---|---|---|
| QuickFeed.Score | contest.c:46-66 | The four-term score. A post that is not future-dated and has no negative count scores above zero. |
| QuickFeed.PreferenceBonus | contest.c:50-52 | With everything else fixed, a preference flag of exactly 1 scores exactly W_PREF more than any other flag value. |
| QuickFeed.EngagementMonotone | contest.c:58-60 | Raising likes, comments or shares adds exactly W_ENGAGE per unit, so the score never drops. |
| QuickFeed.NewerScoresHigher | contest.c:54-56 | Of two otherwise equal posts with past timestamps, the newer one scores strictly higher. |
| QuickFeed.FutureDatedPostPenalised | contest.c:54-56 | Recency is not clamped. A post dated two or more units after the reference time scores more than W_RECENCY below the same post dated at the reference time. |
| QuickFeed.Swap | contest.c:69-73 | The two entries trade places, every other entry is unchanged, and the multiset is preserved. |
| QuickFeed.Partition | contest.c:76-89 | Returns p in [low, high]. The original arr[high] ends up at p. Entries in [low, p) score strictly above it; entries in (p, high] score at or below it. The range is only permuted and entries outside it are untouched. |
| QuickFeed.QuickSort | contest.c:92-98 | arr[low..high] ends non-increasing by key. The array is only permuted, entries outside the range are untouched, and with low >= high the array is unchanged. |
| QuickFeed.QuickSortStep | contest.c:93-97 | After the partition and the two recursive sorts, each side keeps its elements. Together with the pivot they form one non-increasing run. |
| QuickFeed.DescendingJoin | contest.c:94-96 | A run above the pivot, the pivot, and a run at or below it form one non-increasing run. |
| QuickFeed.RankFeed | contest.c:202-207 | The ranked feed holds exactly the given posts, and their scores are non-increasing. |
| QuickFeed.FindUser | contest.c:189-199 | Returns the first slot whose id matches, or nothing when no slot among the MAX_USERS matches. |
| QuickFeed.PartitionSwapsTie | contest.c:80-88 | On two entries with equal scores, partition moves the pivot in front of the other entry. So the quicksort does not keep ties in order. |
| Ranking.SliceMultiset | contest.c:94-96 | Two permutations of each other that agree outside [lo, hi) are permutations of each other inside it. |
| Ranking.SourceIndex | contest.c:94-96 | Every element of a permuted range came from that range. |
| Ranking.AdjacentSwapStable | code.c:116-120 | Exchanging two neighbours with different keys keeps the equal-key order of the original list. |
| ListFeed.CStrLen | code.c:55 | The length of a C string is the position of its first NUL. No NUL comes before it. |
| ListFeed.LowerChar | code.c:56 | `tolower` maps each ASCII capital to its small letter and leaves every other character alone. |
| ListFeed.LoweredSpec | code.c:54-57 | Lowercasing keeps the length, maps each capital to its small letter, leaves other characters alone, and keeps a NUL-free string NUL-free. |
| ListFeed.LoweredIdempotent | code.c:54-57 | Lowercasing twice equals lowercasing once. |
| ListFeed.ToLower | code.c:54-57 | The characters before the first NUL are lowercased in place. The NUL and everything after it are unchanged, so the string keeps its length. |
| ListFeed.StrCpy | code.c:62 | `strcpy`: the source string and its NUL are copied to the front of the buffer. The rest of the buffer is kept, so the copy has the same length. |
| ListFeed.StrStr | code.c:66 | `strstr` finds the keyword in the string before the first NUL. The empty keyword is always found, and a keyword longer than the string never is. |
| ListFeed.DetectSubjectFromText | code.c:60-72 | Returns a subject in 0..5. No keyword of an earlier subject occurs in the lowercased text. Any result below 5 has one of its keywords occurring there. Otherwise the result is the last subject, News. The caller's text is not written (no modifies clause). |
| ListFeed.Score | code.c:91-101 | The four-term score at CURRENT_TIME. A post that is not future-dated and has no negative count scores above zero. |
| ListFeed.PreferenceBonus | code.c:93-94 | Any non-zero preference flag scores exactly W_PREF more than a zero flag. |
| ListFeed.AgreesWithQuickFeed | code.c:91-101 | This score equals contest.c's score at time 2025, plus W_PREF exactly when the flag is neither 0 nor 1. |
| ListFeed.ScenarioScores | code.c:91-101 | Worked example: a Tech post by an author the user interacted with three times scores 30.5. A News post by a stranger with the same counts scores 21.0. |
| ListFeed.BubbleSort | code.c:104-126 | The nodes end non-increasing by key. The payloads are a permutation of the original ones. Equal keys keep their original order. A list already in order (the empty list included) is left unchanged. |
| ListFeed.BubblePass | code.c:112-124 | One pass sinks the smallest key before lptr to the node just before lptr, keeping the between-passes invariant. The nodes from lptr on are untouched, and those before it are only rearranged among themselves. A pass with no exchange moved nothing and found the list in order. |
| ListFeed.BubbleStep | code.c:115-122 | Neighbours exchange their payloads exactly when the first key is strictly smaller; otherwise nothing changes. The swapped flag is set exactly on an exchange. The smallest key seen so far moves on with ptr1. |
| BubbleOrder.BubblePassStart | code.c:112-113 | A pass starts at the head with no exchange made. |
| BubbleOrder.BubbleSwapStep | code.c:116-120 | An exchange of an out-of-order pair keeps the pass invariant. Such a pair cannot occur in a list that was already in order. |
| BubbleOrder.SwapSortState | code.c:116-120 | Exchanging two neighbours before lptr with different keys keeps the between-passes invariant: a stable permutation with an ordered, dominated tail. |
| BubbleOrder.BubbleKeepStep | code.c:115-122 | Leaving an in-order pair keeps the pass invariant and extends the ordered prefix. |
| BubbleOrder.BubblePassEnd | code.c:124 | At the end of a pass the ordered tail grows by one node (lptr moves back by one). The nodes from the old lptr on are untouched, and those before it are only rearranged. |
| ListFeed.SortFeed | code.c:104-126 | The posts end non-increasing by score and are a permutation of the original posts. Posts with equal scores keep their relative order. |
| ListFeed.Lookup | code.c:189-197 | The walk from the head: any user it returns is in the list and has the id. |
| ListFeed.LookupIsFirstMatch | code.c:189-197 | Lookup returns nothing exactly when no user has the id. Otherwise it returns the first user, from the head, that has the id. |
| ListFeed.LookupAfterPrepend | code.c:75-80 | After a user is prepended, looking up its id returns it, shadowing older entries. Other ids find what they found before. |
| ListFeed.Store.constructor | code.c:50-51 | Both lists start empty. |
| ListFeed.Store.AddUser | code.c:75-80 | The new user becomes the head and the old list follows. The post list is unchanged. |
| ListFeed.Store.AddPost | code.c:83-88 | The new post becomes the head and the old list follows. The user list is unchanged. |
| ListFeed.Store.FindUserById | code.c:189-197 | The walk from the head returns the first user with the id, or nothing (NULL). |

## Left out

- Reading users and posts from CSV files (`readUsersData`, `readPostsData`, `readUsers`, `readPosts`) is file I/O on external data.
- The prompts, `scanf` and `printf` in `main` and `displayFeed` are interactive I/O. Printing the ranked feed adds nothing beyond the sort.
- `malloc` and the list nodes themselves are not modelled. A list is a sequence from its head. The nodes being sorted are array cells whose links never change.
- Scores are exact reals, not IEEE-754 doubles. Rounding, and ties that exist only after rounding, are not modelled.
- Integers are unbounded. The C `int` overflow of `likes + comments + shares`, or of a large timestamp difference, is not modelled.
- The global arrays and list heads are parameters, or fields of `Store`.
- The recency term is not clamped, interaction counts are read from a fixed-size table with no default, and ties are not broken by post id. The C code does none of these, and the model follows it (see FutureDatedPostPenalised and PartitionSwapsTie).
- Reading a table out of range, or a zero recency denominator, is undefined behaviour in C. Here each is a precondition.
- DetectSubjectFromText requires the text to be shorter than MAX_TEXT_LEN, because a longer one would overflow the local buffer. StrCpy requires distinct buffers, as C's `strcpy` does.
- ToLower: characters are Dafny characters, not C `char`. `tolower` on a negative `char` value is not modelled.
- QuickFeed.RankFeed ranks any number of posts, where `main` ranks its fixed MAX_POSTS (10). It ranks copies of the posts in a new array. The C code ranks pointers into the global array, so the aliasing between the two is not modelled.
- BubbleSort and SortFeed state stability through a ghost `origin` record, which maps each final position to its starting position.
- The `subjects` name table is used only for printing.
