# Page cache with access counting, and student ranking — a Dafny model

This project models two pieces of logic from a small Redis/MongoDB exercise
repository and proves their properties.

1. **The page cache** (`0x02-redis_basic/web.py`). `cache_page(expiration)`
   wraps a page-fetching function. Each call of the wrapped function for a
   `url` does the following:
   - it increments the counter `count:<url>`;
   - it reads `cached:<url>`, and returns that value when it is truthy
     (present and non-empty);
   - otherwise it calls the wrapped fetch, stores the result with SETEX for
     `expiration` seconds, and returns it.

   The store is an immutable `map` from keys to entries (module `KeyValue`).
   An entry is either a counter or a text with an absolute expiry instant.
   Time is an explicit `nat` clock. `KeyValue` models INCR, GET and SETEX.
   Only INCR and SETEX fail, with the errors in `StoreError`.
   `PageCache.Wrapper` is one call. The wrapped fetch is a function parameter,
   and every call records the URLs it passed to the fetch (`Call.fetched`), so
   the lemmas can say exactly when the fetch is consulted. `PageCache.Replay`
   runs a sequence of calls at given instants. Each call in the run gets its
   own fetch function, so a run can mix fetches that raise with fetches that
   return pages.

2. **Student ranking** (`0x01-NoSQL/101-students.py`, `top_students` after
   the collection query). Each document gets `averageScore`. This is the exact
   mean of its topic scores as a `real`, or 0 when the document has no topics.
   The documents are then returned stably sorted by that score, highest first
   (module `Students`). The sort is an insertion sort. Stability is stated as
   follows: for every score `k`, the documents ranked `k` appear in the output
   in the same order as in the input (`WithRank`). A uniqueness lemma shows
   that this, together with sortedness, determines the output completely.

Modules: `Wrappers` (Option and Result), `KeyValue`, `PageCache`, `Students`.

## Model

| member | source | states |
|---|---|---|
| `KeyValue.Incr` | 0x02-redis_basic/web.py:40 | INCR succeeds exactly when the key is absent, expired, or holds a counter below 2^63−1. On success the counter is one more than before (an absent counter becomes 1) and no other key changes. Otherwise the error is IncrementOverflow for a counter at the limit and NotAnInteger for live text. |
| `KeyValue.Get` | 0x02-redis_basic/web.py:44 | GET returns a value exactly when the key is live. For stored text it returns that text. For a counter it returns a non-empty rendering. |
| `KeyValue.SetEx` | 0x02-redis_basic/web.py:52 | SETEX fails exactly when the TTL is not positive. Otherwise the key holds the text with expiry `now + ttl` and no other key changes. |
| `PageCache.Wrapper` | 0x02-redis_basic/web.py:28-53 | A call changes no key except `count:<url>` and `cached:<url>`. It passes only `url` to the fetch, at most once. `cached:<url>` changes only on a miss that returns content. Content returned after a fetch is the fetched page, unchanged. |
| `PageCache.KeysNeverCollide` | 0x02-redis_basic/web.py:39-43 | A count key never equals a content key, for the same URL or different URLs. Each key family is injective in the URL. |
| `PageCache.CallCountsOnce` | 0x02-redis_basic/web.py:39-40 | When INCR can succeed, every call (hit, miss or failed fetch) leaves the counter exactly one higher. |
| `PageCache.FirstCallCountsOne` | 0x02-redis_basic/web.py:40 | An absent counter is 1 after one call. |
| `PageCache.IncrementFailureAborts` | 0x02-redis_basic/web.py:40 | If INCR raises, the call fails with that error. The store is unchanged and nothing is fetched. |
| `PageCache.HitIffNoFetch` | 0x02-redis_basic/web.py:43-46 | Once counted, the fetch is skipped if and only if `cached:<url>` is truthy. A skipped fetch returns the cached value and leaves that entry in place. |
| `PageCache.EmptyCachedIsMiss` | 0x02-redis_basic/web.py:45 | An empty cached string is falsy, so the call fetches. |
| `PageCache.ExpiredEntryIsMiss` | 0x02-redis_basic/web.py:44-45 | A cached page whose expiry has passed is a miss, so the call fetches. |
| `PageCache.MissStoresPage` | 0x02-redis_basic/web.py:49-53 | On a miss the fetch runs once with `url`. Its page is returned unchanged and stored at `cached:<url>` with expiry `now + expiration`. |
| `PageCache.FetchFailureKeepsCache` | 0x02-redis_basic/web.py:49-52 | A raised fetch propagates as FetchFailed. `cached:<url>` is left exactly as it was, and the counter has still moved by one. |
| `PageCache.NonPositiveExpirationFails` | 0x02-redis_basic/web.py:52 | With a non-positive expiration, SETEX raises after the fetch. The call fails and `cached:<url>` is untouched. |
| `PageCache.ReadAfterMiss` | 0x02-redis_basic/web.py:52 | After a miss that returned a page, GET on `cached:<url>` yields that page at every instant from `now` until `now + expiration`, and nothing from then on. The call is taken to happen at one instant (see Left out). The store keeps no write instant, so the first half also covers instants before `now`. |
| `PageCache.TwoCallsFetchOnce` | 0x02-redis_basic/web.py:16-53 | A miss with a non-empty page, then a second call before it expires, fetches once in all. Both calls return the same page. |
| `PageCache.TwoCallsAfterExpiryFetchTwice` | 0x02-redis_basic/web.py:16-53 | If the second call comes once the first call's page has expired, the fetch runs in both calls. The expiry is counted from the first call's instant (see Left out). |
| `PageCache.Replay` | 0x02-redis_basic/web.py:28-53 | A run of n calls, each with its own fetch, has n results and at most n fetches, all of them with `url`. It leaves every key other than the two URL keys unchanged. |
| `PageCache.ReplayCountsEveryCall` | 0x02-redis_basic/web.py:38-40 | After n calls the counter has grown by exactly n. This holds for any mix of hits, pages and raised fetches. |
| `PageCache.HitsWhileLive` | 0x02-redis_basic/web.py:42-46 | While a non-empty cached page stays live, every call returns it and none fetches, whatever its fetch would do. The entry stays as it is. |
| `PageCache.ReplayWithinWindowFetchesOnce` | 0x02-redis_basic/web.py:42-53 | A run that starts with a miss whose fetch yields a non-empty page, and stays inside that call's expiration window, fetches exactly once. Every call returns that page. |
| `PageCache.FailingFetchNeverCaches` | 0x02-redis_basic/web.py:38-52 | If every call's fetch raises and nothing is cached, every call fetches and fails. Every call is counted, and no content key is ever written. |
| `PageCache.FlakyFetchRecovers` | 0x02-redis_basic/web.py:38-53 | On a fresh store, a run whose first fetch raises and whose second returns a page fetches twice. The first call fails, the second returns the page (for a positive expiration), and the counter is 2. |
| `PageCache.RetryAfterFailure` | 0x02-redis_basic/web.py:44-52 | After a call whose fetch raised on a miss, a later call for the same URL fetches again, whatever its fetch does, once its INCR succeeds. A failure is never cached. |
| `PageCache.ThreeQuickCallsFetchOnce` | 0x02-redis_basic/web.py:16-53 | With the default expiration of 10, three calls within a second return the same page three times. They fetch once and leave the counter at 3. |
| `Students.Scores` | 0x01-NoSQL/101-students.py:20 | The scores are the topics' scores in list order. A missing `topics` field reads as an empty list. |
| `Students.Average` | 0x01-NoSQL/101-students.py:21-24 | For a non-empty list, the average times the count equals the sum. An empty list averages 0. |
| `Students.SumBetween` | 0x01-NoSQL/101-students.py:22 | If every score lies in [lo, hi], the sum of n scores lies in [lo·n, hi·n]. |
| `Students.AverageBetween` | 0x01-NoSQL/101-students.py:21-22 | The mean of scores that all lie in [lo, hi] also lies in [lo, hi]. |
| `Students.WithAverage` | 0x01-NoSQL/101-students.py:20-28 | The document keeps its id, other fields and topics. Its `averageScore` is set (or overwritten) to the mean of its own scores, or 0 without scores. |
| `Students.NoTopicsAverageZero` | 0x01-NoSQL/101-students.py:20-24 | A document with a missing or empty `topics` list gets `averageScore` 0. |
| `Students.SortDesc` | 0x01-NoSQL/101-students.py:31 | The output is a permutation of the input, sorted non-increasing by `averageScore`. Every group of equally scored documents keeps its input order. |
| `Students.SortedStableUnique` | 0x01-NoSQL/101-students.py:31 | Two arrangements that are both sorted and both keep every tie group in the same order are equal. |
| `Students.TopStudents` | 0x01-NoSQL/101-students.py:17-33 | The result has the input's length and is a permutation of the annotated documents. Each document equals an input document except for `averageScore`, which agrees with its own topics. The result is sorted highest first, with ties in input order. |
| `Students.TopStudentsIsTheStableSort` | 0x01-NoSQL/101-students.py:31 | Any sorted arrangement of the annotated documents that keeps ties in input order equals the ranking. |

## Left out

- The Redis client and its connection (`web.py:8-14`) are not modelled. Connection failures are not modelled either: in the model, store commands fail only with the INCR and SETEX command errors it keeps.
- `get_page` and `requests.get` (`web.py:59-71`) are network I/O. The wrapped fetch is the `fetch` parameter of `PageCache.Wrapper`. Its outcome is a page or a raised exception.
- Decorator currying is not modelled. `cache_page` → `decorator` → `wrapper` becomes one function whose `expiration` and `fetch` are parameters. `DefaultExpiration` is the decorator's default of 10.
- UTF-8 `decode`/encode (`web.py:46`) is not modelled. Content is a `string` throughout, and GET returns the stored text as is.
- Redis expiry is not modelled as a background timer. An entry's expiry is an absolute instant compared against the caller's clock. Redis's upper bound on SETEX times is not modelled.
- KeyValue.Incr treats every live text entry as non-numeric. Real Redis would increment a text that spells a decimal integer. The wrapper never writes text to a count key (`PageCache.KeysNeverCollide`), so this only matters when another writer shares the store.
- Concurrency is not modelled: there is no parallel caller and no cache-miss stampede. The model is a single sequential caller.
- The `__main__` blocks and their printing are not modelled (`web.py:73-77`, `101-students.py:35-41`).
- `101-students.py`: `MongoClient` and `mongo_collection.find()` are external queries (lines 6, 14). The documents are the input sequence.
- Students.Average: uses exact `real` division instead of Python's floating-point `sum / len`, so rounding is not modelled.
- Students.Scores: every topic is assumed to have an integer `score`. A topic without one would raise `KeyError` in the source, and that case is not modelled. Float scores are not modelled either. A `topics` field that is present but null, or is not a list of documents, makes the source raise `TypeError`, because `student.get('topics', [])` (`101-students.py:20`) uses the default only for a missing key. Such documents are not representable, since `topics == None` stands for a missing field.
- `Students.Rank` reads a missing `averageScore` as 0. This case never occurs, because `TopStudents` sets the field on every document before sorting.
- The source sets `averageScore` in place on the fetched dictionaries. The model returns new records instead.
- `0x01-NoSQL/102-log_stats.py` only issues database queries and prints. It has no logic outside those foreign calls.
- The comment at `web.py:42` speaks of the result being cached, but the test at `web.py:45` is Python truthiness. A present but empty cached string is therefore a miss, and the model follows the test (`PageCache.EmptyCachedIsMiss`).
- `wrapper` does not validate `url`. The model places no requirement on it, and the empty string is an ordinary URL.
- Time is not modelled as monotonic: `PageCache.Replay` accepts any sequence of instants, including ones that go backwards. An entry written with expiry `now + ttl` is live at every instant strictly before that expiry and absent from it on; this is the boundary convention `KeyValue.Live` fixes for Redis's expiry in whole seconds.
- PageCache.Wrapper: INCR, GET, the fetch and SETEX all happen at the single instant `now`, so a fetched page expires at `now + expiration`. In the source, `setex` (`web.py:52`) runs only after `func(url)` (`web.py:49`) returns, so the TTL counts from when the fetch ends, and a slow fetch keeps the page live for longer. Take expiration 10, a call at 0 and a fetch that takes 5 seconds: the page is live until 15, so a call at 10 is a hit. `PageCache.TwoCallsAfterExpiryFetchTwice` and the second half of `PageCache.ReadAfterMiss` hold only for a fetch that takes no time.
- Entries are Redis strings only. A key holding a list, hash or set makes INCR (`web.py:40`) or GET (`web.py:44`) raise WRONGTYPE, and that case is not modelled. `KeyValue.Get` therefore never fails. The wrapper itself never writes such a value.
