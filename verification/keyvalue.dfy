/**
  The part of a Redis-like key-value store that the page cache relies on:
  INCR, GET and SETEX over a map, with time made explicit as a `nat` clock
  (whole seconds). An entry with a deadline counts as absent once the clock
  reaches that deadline; nothing is ever removed from the map itself.
 */
module KeyValue {
  import opened Wrappers

  /** Counters are signed 64-bit integers in the store; INCR past this fails. */
  const MaxCounter: int := 0x7FFF_FFFF_FFFF_FFFF

  /** A stored value: a counter written by INCR, or text written by SETEX with its expiry instant. */
  datatype Entry = Counter(count: int) | Text(content: string, expiry: nat)

  type Store = map<string, Entry>

  /** The errors the store raises for the three commands. */
  datatype StoreError = NotAnInteger | IncrementOverflow | InvalidExpireTime

  /** The key holds an entry that has not expired at `now`. Counters never expire. */
  predicate Live(store: Store, now: nat, key: string)
  {
    key in store && (store[key].Text? ==> now < store[key].expiry)
  }

  /** Two stores agree on `key`: both lack it, or both map it to the same entry. */
  predicate SameAt(a: Store, b: Store, key: string)
  {
    (key in a <==> key in b) && (key in a ==> a[key] == b[key])
  }

  /** Two changes that each leave every key but `x` and `y` alone, one after the other, leave those keys alone too. */
  lemma FrameCompose(a: Store, b: Store, c: Store, x: string, y: string)
    requires forall k :: k != x && k != y ==> SameAt(a, b, k)
    requires forall k :: k != x && k != y ==> SameAt(b, c, k)
    ensures forall k :: k != x && k != y ==> SameAt(a, c, k)
  {
    forall k | k != x && k != y
      ensures SameAt(a, c, k)
    {
      assert SameAt(a, b, k) && SameAt(b, c, k);
    }
  }

  /** The integer INCR starts from: 0 for an absent or expired key, an error for live text. */
  function CounterValue(store: Store, now: nat, key: string): (r: Result<int, StoreError>)
    ensures r.Failure? <==> Live(store, now, key) && store[key].Text?
    ensures r.Failure? ==> r.error == NotAnInteger
    ensures r.Success? && Live(store, now, key) ==> store[key] == Counter(r.value)
    ensures !Live(store, now, key) ==> r == Success(0)
  {
    if !Live(store, now, key) then Success(0)
    else match store[key]
      case Counter(n) => Success(n)
      case Text(_, _) => Failure(NotAnInteger)
  }

  /** INCR: add one to the counter at `key`, creating it at 0 first when absent. */
  function Incr(store: Store, now: nat, key: string): (r: Result<Store, StoreError>)
    ensures r.Success? <==> CounterValue(store, now, key).Success? && CounterValue(store, now, key).value < MaxCounter
    ensures r.Success? ==> key in r.value && r.value[key] == Counter(CounterValue(store, now, key).value + 1)
    ensures r.Success? ==> forall k :: k != key ==> SameAt(store, r.value, k)
    ensures r.Failure? ==> r.error == NotAnInteger || r.error == IncrementOverflow
    ensures r.Failure? ==> (r.error == IncrementOverflow <==> CounterValue(store, now, key).Success?)
  {
    match CounterValue(store, now, key)
    case Failure(e) => Failure(e)
    case Success(n) =>
      if n >= MaxCounter then Failure(IncrementOverflow)
      else Success(store[key := Counter(n + 1)])
  }

  /** The character for a single decimal digit. */
  function DigitChar(d: nat): (c: char)
    requires d < 10
    ensures '0' <= c <= '9'
    ensures c as int - '0' as int == d
  {
    "0123456789"[d]
  }

  /** The natural number a string of decimal digits denotes, most significant digit first. */
  function DigitsValue(s: string): nat
    requires forall i :: 0 <= i < |s| ==> '0' <= s[i] <= '9'
  {
    if |s| == 0 then 0 else DigitsValue(s[..|s| - 1]) * 10 + (s[|s| - 1] as int - '0' as int)
  }

  /** Decimal rendering of a natural number, most significant digit first. */
  function NatDecimal(n: nat): (r: string)
    ensures |r| > 0
    ensures forall i :: 0 <= i < |r| ==> '0' <= r[i] <= '9'
    decreases n
  {
    if n < 10 then [DigitChar(n)] else NatDecimal(n / 10) + [DigitChar(n % 10)]
  }

  /** Reading the rendering back as decimal digits gives the number that was rendered. */
  lemma {:induction false} NatDecimalDenotes(n: nat)
    ensures DigitsValue(NatDecimal(n)) == n
    decreases n
  {
    var r := NatDecimal(n);
    if n >= 10 {
      NatDecimalDenotes(n / 10);
      assert r[..|r| - 1] == NatDecimal(n / 10);
    }
  }

  /** The bytes GET returns for a counter: its value in decimal, with a leading '-' when negative. */
  function Decimal(n: int): (r: string)
    ensures |r| > 0
    ensures (r[0] == '-') <==> n < 0
  {
    if n < 0 then "-" + NatDecimal(-n) else NatDecimal(n)
  }

  /** GET: the stored bytes, or None when the key is absent or expired. */
  function Get(store: Store, now: nat, key: string): (r: Option<string>)
    ensures r.Some? <==> Live(store, now, key)
    ensures Live(store, now, key) && store[key].Text? ==> r == Some(store[key].content)
    ensures Live(store, now, key) && store[key].Counter? ==> |r.value| > 0
  {
    if !Live(store, now, key) then None
    else match store[key]
      case Counter(n) => Some(Decimal(n))
      case Text(s, _) => Some(s)
  }

  /** SETEX: store `value` at `key`, replacing what was there, expiring `ttl` seconds after `now`. */
  function SetEx(store: Store, now: nat, key: string, ttl: int, value: string): (r: Result<Store, StoreError>)
    ensures r.Failure? <==> ttl <= 0
    ensures r.Failure? ==> r.error == InvalidExpireTime
    ensures r.Success? ==> key in r.value && r.value[key] == Text(value, now + ttl)
    ensures r.Success? ==> forall k :: k != key ==> SameAt(store, r.value, k)
  {
    if ttl <= 0 then Failure(InvalidExpireTime)
    else Success(store[key := Text(value, now + ttl)])
  }
}
