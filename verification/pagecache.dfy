/**
  The `cache_page` decorator of web.py: every call counts the URL under
  `count:<url>`, serves a truthy `cached:<url>` entry without fetching, and
  otherwise calls the wrapped fetch and stores its page for `expiration`
  seconds. The store is a `KeyValue.Store` value, the clock is an explicit
  instant, and the wrapped fetch is a function parameter whose every use is
  recorded in the call's `fetched` log.
 */
module PageCache {
  import opened Wrappers
  import opened KeyValue

  /** The expiration `cache_page` uses when none is given. */
  const DefaultExpiration: int := 10

  const CountPrefix: string := "count:"
  const ContentPrefix: string := "cached:"

  /** Key of the access counter for `url`. */
  function CountKey(url: string): string
  {
    CountPrefix + url
  }

  /** Key of the cached page for `url`. */
  function ContentKey(url: string): string
  {
    ContentPrefix + url
  }

  /** What one invocation of the wrapped fetch produced: a page, or a raised exception. */
  datatype FetchOutcome = Page(text: string) | Raised

  /** Why a wrapped call did not return content: a store command failed, or the fetch raised. */
  datatype CallError = StoreFailed(cause: StoreError) | FetchFailed

  /**
    The observable effect of one wrapped call: the store afterwards, what the
    caller gets back, and the URLs handed to the wrapped fetch, in order.
   */
  datatype Call = Call(store: Store, result: Result<string, CallError>, fetched: seq<string>)

  /** Python truthiness of a GET reply: present and non-empty. */
  predicate Truthy(v: Option<string>)
  {
    v.Some? && |v.value| > 0
  }

  /** One call of the decorated function for `url` at instant `now`. */
  function Wrapper(expiration: int, store: Store, now: nat, url: string, fetch: string -> FetchOutcome): (c: Call)
    ensures c.fetched == [] || c.fetched == [url]
    ensures forall k :: k != CountKey(url) && k != ContentKey(url) ==> SameAt(store, c.store, k)
    ensures !SameAt(store, c.store, ContentKey(url)) ==> c.fetched == [url] && c.result.Success?
    ensures c.result.Success? && c.fetched == [url] ==> fetch(url).Page? && c.result.value == fetch(url).text
  {
    match Incr(store, now, CountKey(url))
    case Failure(e) => Call(store, Failure(StoreFailed(e)), [])
    case Success(counted) =>
      var cached := Get(counted, now, ContentKey(url));
      if Truthy(cached) then Call(counted, Success(cached.value), [])
      else
        match fetch(url)
        case Raised => Call(counted, Failure(FetchFailed), [url])
        case Page(text) =>
          match SetEx(counted, now, ContentKey(url), expiration, text)
          case Failure(e) => Call(counted, Failure(StoreFailed(e)), [url])
          case Success(stored) => Call(stored, Success(text), [url])
  }

  /** The two key families never meet, and each determines its URL. */
  lemma KeysNeverCollide(u: string, v: string)
    ensures CountKey(u) != ContentKey(v)
    ensures CountKey(u) == CountKey(v) <==> u == v
    ensures ContentKey(u) == ContentKey(v) <==> u == v
  {
    assert CountKey(u)[1] == 'o' && ContentKey(v)[1] == 'a';
    if CountKey(u) == CountKey(v) {
      assert u == CountKey(u)[|CountPrefix|..] == CountKey(v)[|CountPrefix|..] == v;
    }
    if ContentKey(u) == ContentKey(v) {
      assert u == ContentKey(u)[|ContentPrefix|..] == ContentKey(v)[|ContentPrefix|..] == v;
    }
  }

  /** Every call whose INCR succeeds moves the counter by exactly one, whatever the fetch does. */
  lemma CallCountsOnce(expiration: int, store: Store, now: nat, url: string, fetch: string -> FetchOutcome, n: int)
    requires CounterValue(store, now, CountKey(url)) == Success(n) && n < MaxCounter
    ensures var c := Wrapper(expiration, store, now, url, fetch);
      CountKey(url) in c.store && c.store[CountKey(url)] == Counter(n + 1)
  {
  }

  /** A URL never counted before has counter 1 after one call. */
  lemma FirstCallCountsOne(expiration: int, store: Store, now: nat, url: string, fetch: string -> FetchOutcome)
    requires CountKey(url) !in store
    ensures var c := Wrapper(expiration, store, now, url, fetch);
      CountKey(url) in c.store && c.store[CountKey(url)] == Counter(1)
  {
  }

  /** A failing INCR aborts the call before anything else: no change, no lookup, no fetch. */
  lemma IncrementFailureAborts(expiration: int, store: Store, now: nat, url: string, fetch: string -> FetchOutcome)
    requires Incr(store, now, CountKey(url)).Failure?
    ensures Wrapper(expiration, store, now, url, fetch)
      == Call(store, Failure(StoreFailed(Incr(store, now, CountKey(url)).error)), [])
  {
  }

  /**
    Once counted, the wrapped fetch is skipped exactly when the cached entry is
    truthy, and a skipped fetch returns that entry and leaves it in place.
   */
  lemma HitIffNoFetch(expiration: int, store: Store, now: nat, url: string, fetch: string -> FetchOutcome)
    requires Incr(store, now, CountKey(url)).Success?
    ensures var c := Wrapper(expiration, store, now, url, fetch);
      c.fetched == [] <==> Truthy(Get(store, now, ContentKey(url)))
    ensures var c := Wrapper(expiration, store, now, url, fetch);
      Truthy(Get(store, now, ContentKey(url))) ==>
        c.result == Success(Get(store, now, ContentKey(url)).value) && SameAt(store, c.store, ContentKey(url))
  {
  }

  /** An empty cached page is falsy: the call fetches again. */
  lemma EmptyCachedIsMiss(expiration: int, store: Store, now: nat, url: string, fetch: string -> FetchOutcome, expiry: nat)
    requires Incr(store, now, CountKey(url)).Success?
    requires ContentKey(url) in store && store[ContentKey(url)] == Text("", expiry)
    ensures Wrapper(expiration, store, now, url, fetch).fetched == [url]
  {
  }

  /** A cached page whose expiry has passed is a miss: the call fetches again. */
  lemma ExpiredEntryIsMiss(expiration: int, store: Store, now: nat, url: string, fetch: string -> FetchOutcome, page: string, expiry: nat)
    requires Incr(store, now, CountKey(url)).Success?
    requires ContentKey(url) in store && store[ContentKey(url)] == Text(page, expiry) && expiry <= now
    ensures Wrapper(expiration, store, now, url, fetch).fetched == [url]
  {
  }

  /**
    On a miss the wrapped fetch runs once with `url`; its page is returned
    unchanged and cached until `now + expiration`.
   */
  lemma MissStoresPage(expiration: int, store: Store, now: nat, url: string, fetch: string -> FetchOutcome)
    requires Incr(store, now, CountKey(url)).Success?
    requires !Truthy(Get(store, now, ContentKey(url)))
    requires fetch(url).Page? && expiration > 0
    ensures var c := Wrapper(expiration, store, now, url, fetch);
      && c.fetched == [url]
      && c.result == Success(fetch(url).text)
      && ContentKey(url) in c.store
      && c.store[ContentKey(url)] == Text(fetch(url).text, now + expiration)
  {
  }

  /**
    A raised fetch propagates, leaves the cached entry exactly as it was, and
    still counts the call.
   */
  lemma FetchFailureKeepsCache(expiration: int, store: Store, now: nat, url: string, fetch: string -> FetchOutcome)
    requires Incr(store, now, CountKey(url)).Success?
    requires !Truthy(Get(store, now, ContentKey(url)))
    requires fetch(url) == Raised
    ensures var c := Wrapper(expiration, store, now, url, fetch);
      && c.fetched == [url]
      && c.result == Failure(FetchFailed)
      && SameAt(store, c.store, ContentKey(url))
      && CountKey(url) in c.store
      && c.store[CountKey(url)] == Counter(CounterValue(store, now, CountKey(url)).value + 1)
  {
  }

  /**
    SETEX refuses a non-positive expiration after the page was fetched: the
    call fails, the page is lost, and the cached entry is left as it was.
   */
  lemma NonPositiveExpirationFails(expiration: int, store: Store, now: nat, url: string, fetch: string -> FetchOutcome)
    requires Incr(store, now, CountKey(url)).Success?
    requires !Truthy(Get(store, now, ContentKey(url)))
    requires fetch(url).Page? && expiration <= 0
    ensures var c := Wrapper(expiration, store, now, url, fetch);
      && c.fetched == [url]
      && c.result == Failure(StoreFailed(InvalidExpireTime))
      && SameAt(store, c.store, ContentKey(url))
  {
  }

  /** After a miss that returned a page, GET on the content key yields that page until it expires. */
  lemma ReadAfterMiss(expiration: int, store: Store, now: nat, url: string, fetch: string -> FetchOutcome)
    requires Incr(store, now, CountKey(url)).Success?
    requires !Truthy(Get(store, now, ContentKey(url)))
    requires fetch(url).Page? && expiration > 0
    ensures var c := Wrapper(expiration, store, now, url, fetch);
      forall t: nat :: t < now + expiration ==> Get(c.store, t, ContentKey(url)) == Some(fetch(url).text)
    ensures var c := Wrapper(expiration, store, now, url, fetch);
      forall t: nat :: t >= now + expiration ==> Get(c.store, t, ContentKey(url)) == None
  {
  }

  /**
    Two calls for one URL, the first a miss whose fetch yields a non-empty page
    and the second before that page expires: the fetch runs once in all and
    both calls return the same page.
   */
  lemma TwoCallsFetchOnce(expiration: int, store: Store, t1: nat, t2: nat, url: string, fetch: string -> FetchOutcome, n: int)
    requires CounterValue(store, t1, CountKey(url)) == Success(n) && n + 1 < MaxCounter
    requires !Truthy(Get(store, t1, ContentKey(url)))
    requires fetch(url).Page? && |fetch(url).text| > 0 && expiration > 0
    requires t2 < t1 + expiration
    ensures var first := Wrapper(expiration, store, t1, url, fetch);
      var second := Wrapper(expiration, first.store, t2, url, fetch);
      && first.fetched + second.fetched == [url]
      && first.result == second.result == Success(fetch(url).text)
  {
  }

  /** Two calls whose second comes once the first's page has expired fetch twice. */
  lemma TwoCallsAfterExpiryFetchTwice(expiration: int, store: Store, t1: nat, t2: nat, url: string, fetch: string -> FetchOutcome, n: int)
    requires CounterValue(store, t1, CountKey(url)) == Success(n) && n + 1 < MaxCounter
    requires !Truthy(Get(store, t1, ContentKey(url)))
    requires fetch(url).Page? && expiration > 0
    requires t2 >= t1 + expiration
    ensures var first := Wrapper(expiration, store, t1, url, fetch);
      var second := Wrapper(expiration, first.store, t2, url, fetch);
      first.fetched + second.fetched == [url, url]
  {
  }

  /**
    A call whose fetch raised leaves no cached failure behind: the next call
    for the same URL, whatever its fetch and however soon after, fetches again
    once its INCR succeeds.
   */
  lemma RetryAfterFailure(expiration: int, store: Store, t1: nat, t2: nat, url: string, f1: string -> FetchOutcome, f2: string -> FetchOutcome)
    requires Incr(store, t1, CountKey(url)).Success?
    requires !Truthy(Get(store, t1, ContentKey(url)))
    requires f1(url) == Raised
    requires t2 >= t1
    ensures var first := Wrapper(expiration, store, t1, url, f1);
      Incr(first.store, t2, CountKey(url)).Success? ==>
        Wrapper(expiration, first.store, t2, url, f2).fetched == [url]
  {
  }

  /** The combined effect of a run of calls for one URL. */
  datatype Trace = Trace(store: Store, results: seq<Result<string, CallError>>, fetched: seq<string>)

  /**
    Calls for `url` one after another, the i-th at instant `times[i]` with
    `fetches[i]` as the wrapped fetch, each on the store the previous one left.
    Each call has its own fetch, so a run may mix raised fetches and pages.
   */
  function Replay(expiration: int, store: Store, times: seq<nat>, url: string, fetches: seq<string -> FetchOutcome>): (t: Trace)
    requires |fetches| == |times|
    ensures |t.results| == |times|
    ensures |t.fetched| <= |times|
    ensures forall i :: 0 <= i < |t.fetched| ==> t.fetched[i] == url
    ensures forall k :: k != CountKey(url) && k != ContentKey(url) ==> SameAt(store, t.store, k)
    decreases |times|
  {
    if |times| == 0 then Trace(store, [], [])
    else
      var c := Wrapper(expiration, store, times[0], url, fetches[0]);
      var rest := Replay(expiration, c.store, times[1..], url, fetches[1..]);
      FrameCompose(store, c.store, rest.store, CountKey(url), ContentKey(url));
      Trace(rest.store, [c.result] + rest.results, c.fetched + rest.fetched)
  }

  /** The counter `store` holds for `url` is `n`: absent counts as 0. */
  predicate CountIs(store: Store, url: string, n: int)
  {
    if CountKey(url) in store then store[CountKey(url)] == Counter(n) else n == 0
  }

  /**
    After a run of calls the counter has grown by exactly the number of calls,
    whatever each call's fetch does.
   */
  lemma {:induction false} ReplayCountsEveryCall(expiration: int, store: Store, times: seq<nat>, url: string, fetches: seq<string -> FetchOutcome>, n: int)
    requires |fetches| == |times|
    requires CountIs(store, url, n) && n + |times| <= MaxCounter
    ensures CountIs(Replay(expiration, store, times, url, fetches).store, url, n + |times|)
    decreases |times|
  {
    if |times| > 0 {
      var c := Wrapper(expiration, store, times[0], url, fetches[0]);
      CallCountsOnce(expiration, store, times[0], url, fetches[0], n);
      ReplayCountsEveryCall(expiration, c.store, times[1..], url, fetches[1..], n + 1);
    }
  }

  /**
    While a non-empty page stays live, every call is a hit: no fetch is
    consulted, whatever it would do, and the same page comes back each time.
   */
  lemma {:induction false} HitsWhileLive(expiration: int, store: Store, times: seq<nat>, url: string, fetches: seq<string -> FetchOutcome>, n: int, page: string, expiry: nat)
    requires |fetches| == |times|
    requires CountIs(store, url, n) && n + |times| <= MaxCounter
    requires ContentKey(url) in store && store[ContentKey(url)] == Text(page, expiry) && |page| > 0
    requires forall i :: 0 <= i < |times| ==> times[i] < expiry
    ensures var t := Replay(expiration, store, times, url, fetches);
      && t.fetched == []
      && (forall i :: 0 <= i < |t.results| ==> t.results[i] == Success(page))
      && SameAt(store, t.store, ContentKey(url))
    decreases |times|
  {
    if |times| > 0 {
      var c := Wrapper(expiration, store, times[0], url, fetches[0]);
      CallCountsOnce(expiration, store, times[0], url, fetches[0], n);
      HitIffNoFetch(expiration, store, times[0], url, fetches[0]);
      HitsWhileLive(expiration, c.store, times[1..], url, fetches[1..], n + 1, page, expiry);
      var rest := Replay(expiration, c.store, times[1..], url, fetches[1..]);
      assert Replay(expiration, store, times, url, fetches).results == [c.result] + rest.results;
    }
  }

  /**
    A run that starts with a miss whose fetch yields a non-empty page, and
    stays within that call's expiration window, fetches exactly once and
    returns that page every time, whatever the later calls' fetches would do.
   */
  lemma ReplayWithinWindowFetchesOnce(expiration: int, store: Store, times: seq<nat>, url: string, fetches: seq<string -> FetchOutcome>, n: int)
    requires |fetches| == |times|
    requires CountIs(store, url, n) && n + |times| <= MaxCounter
    requires |times| > 0 && !Truthy(Get(store, times[0], ContentKey(url)))
    requires fetches[0](url).Page? && |fetches[0](url).text| > 0 && expiration > 0
    requires forall i :: 0 <= i < |times| ==> times[i] < times[0] + expiration
    ensures var t := Replay(expiration, store, times, url, fetches);
      && t.fetched == [url]
      && (forall i :: 0 <= i < |t.results| ==> t.results[i] == Success(fetches[0](url).text))
  {
    var c := Wrapper(expiration, store, times[0], url, fetches[0]);
    CallCountsOnce(expiration, store, times[0], url, fetches[0], n);
    MissStoresPage(expiration, store, times[0], url, fetches[0]);
    HitsWhileLive(expiration, c.store, times[1..], url, fetches[1..], n + 1, fetches[0](url).text, times[0] + expiration);
    var rest := Replay(expiration, c.store, times[1..], url, fetches[1..]);
    assert Replay(expiration, store, times, url, fetches).results == [c.result] + rest.results;
  }

  /**
    When every call's fetch raises and nothing is cached, every call fails,
    every call fetches, every call is counted, and no page is ever stored.
   */
  lemma {:induction false} FailingFetchNeverCaches(expiration: int, store: Store, times: seq<nat>, url: string, fetches: seq<string -> FetchOutcome>, n: int)
    requires |fetches| == |times|
    requires CountIs(store, url, n) && n + |times| <= MaxCounter
    requires ContentKey(url) !in store
    requires forall i :: 0 <= i < |fetches| ==> fetches[i](url) == Raised
    ensures var t := Replay(expiration, store, times, url, fetches);
      && |t.fetched| == |times|
      && (forall i :: 0 <= i < |t.results| ==> t.results[i] == Failure(FetchFailed))
      && ContentKey(url) !in t.store
      && CountIs(t.store, url, n + |times|)
    decreases |times|
  {
    if |times| > 0 {
      var c := Wrapper(expiration, store, times[0], url, fetches[0]);
      CallCountsOnce(expiration, store, times[0], url, fetches[0], n);
      FetchFailureKeepsCache(expiration, store, times[0], url, fetches[0]);
      FailingFetchNeverCaches(expiration, c.store, times[1..], url, fetches[1..], n + 1);
      var rest := Replay(expiration, c.store, times[1..], url, fetches[1..]);
      assert Replay(expiration, store, times, url, fetches).results == [c.result] + rest.results;
    }
  }

  /**
    A flaky fetch: a run of two calls on a fresh store whose first fetch raises
    and whose second yields a page fails once, then fetches again and returns
    that page, counting both calls.
   */
  lemma FlakyFetchRecovers(expiration: int, store: Store, t1: nat, t2: nat, url: string, f1: string -> FetchOutcome, f2: string -> FetchOutcome)
    requires CountKey(url) !in store && ContentKey(url) !in store
    requires f1(url) == Raised && f2(url).Page?
    ensures var t := Replay(expiration, store, [t1, t2], url, [f1, f2]);
      && t.fetched == [url, url]
      && t.results[0] == Failure(FetchFailed)
      && (expiration > 0 ==> t.results[1] == Success(f2(url).text))
      && CountIs(t.store, url, 2)
  {
    var times: seq<nat> := [t1, t2];
    var fetches := [f1, f2];
    ReplayCountsEveryCall(expiration, store, times, url, fetches, 0);
    FetchFailureKeepsCache(expiration, store, t1, url, f1);
    CallCountsOnce(expiration, store, t1, url, f1, 0);
    assert times[1..] == [t2] && fetches[1..] == [f2];
  }

  /**
    With the default expiration and a fetch that yields "A", three calls
    within one second of each other on a fresh store return "A" three times,
    fetch once, and leave the counter at 3.
   */
  lemma ThreeQuickCallsFetchOnce(store: Store, url: string)
    requires CountKey(url) !in store && ContentKey(url) !in store
    ensures var fetch := (u: string) => Page("A");
      var t := Replay(DefaultExpiration, store, [0, 0, 1], url, [fetch, fetch, fetch]);
      && t.fetched == [url]
      && t.results == [Success("A"), Success("A"), Success("A")]
      && CountIs(t.store, url, 3)
  {
    var fetch := (u: string) => Page("A");
    var fetches := [fetch, fetch, fetch];
    var times: seq<nat> := [0, 0, 1];
    ReplayWithinWindowFetchesOnce(DefaultExpiration, store, times, url, fetches, 0);
    ReplayCountsEveryCall(DefaultExpiration, store, times, url, fetches, 0);
  }
}
