/** `RedisCacheManager`: the earlier count-threshold cache. Every search bumps
    a per-key access counter; a result is stored, and served, only once the
    counter has reached `Threshold`. Reads never fail: any problem reads as
    "not cached". An integer is always held as a `Number` value, so a text
    value under a count key is one Redis and `Long.parseLong` both reject. */
module ThresholdCache {
  import opened Wrappers
  import opened RedisStore
  import opened Codec
  import opened SearchBookResponse

  /** `BookCacheManager.THRESHOLD`. */
  const Threshold: int := 5

  const CountTtlMillis: int := 3_600_000
  const DataTtlMillis: int := 1_800_000

  const CountPrefix: string := "search:count:"
  const DataPrefix: string := "search:data:"

  datatype Failure = StoreFailure(command: Command) | NotANumber

  /** The store after a void operation, with the exception it threw, if any. */
  datatype Outcome = Outcome(failure: Option<Failure>, store: Redis)

  function CountKey(key: string): string {
    CountPrefix + key
  }

  function DataKey(key: string): string {
    DataPrefix + key
  }

  /** A counter key and a data key never coincide, whatever the two user keys. */
  lemma CountAndDataKeysNeverCollide(a: string, b: string)
    ensures CountKey(a) != DataKey(b)
  {
    assert CountKey(a)[7] == 'c' && DataKey(b)[7] == 'd';
  }

  lemma CountKeyInjective(a: string, b: string)
    requires CountKey(a) == CountKey(b)
    ensures a == b
  {
    assert a == CountKey(a)[|CountPrefix|..];
  }

  lemma DataKeyInjective(a: string, b: string)
    requires DataKey(a) == DataKey(b)
    ensures a == b
  {
    assert a == DataKey(a)[|DataPrefix|..];
  }

  /** The access count a store holds for `key`, reading a missing counter as 0. */
  function StoredCount(s: Redis, key: string): int
    requires CountKey(key) !in s.kv || s.kv[CountKey(key)].Number?
  {
    if CountKey(key) in s.kv then s.kv[CountKey(key)].number else 0
  }

  /** `getCount`. */
  function GetCount(s: Redis, key: string): (r: Result<int, Failure>)
    ensures r.Ok? <==> !Fails(s, GetCommand) && (CountKey(key) !in s.kv || s.kv[CountKey(key)].Number?)
    ensures r.Ok? ==> r.value == StoredCount(s, key)
    ensures r.Ok? && CountKey(key) !in s.kv ==> r.value == 0
  {
    match Lookup(s, CountKey(key))
    case Err(c) => Err(StoreFailure(c))
    case Ok(None) => Ok(0)
    case Ok(Some(Number(n))) => Ok(n)
    case Ok(Some(Text(_))) => Err(NotANumber)
  }

  /** `isThresholdReached`. */
  function IsThresholdReached(s: Redis, key: string): (r: Result<bool, Failure>)
    ensures r.Ok? <==> GetCount(s, key).Ok?
    ensures r.Ok? ==> (r.value <==> StoredCount(s, key) >= Threshold)
  {
    var count :- GetCount(s, key);
    Ok(count >= Threshold)
  }

  /** A store holding at least `Threshold` accesses for `key`, readable without error. */
  predicate ThresholdReached(s: Redis, key: string) {
    IsThresholdReached(s, key) == Ok(true)
  }

  /** `isCacheable` (a `null` book list cannot occur here). */
  predicate IsCacheable(response: SearchBookResponse) {
    |response.books| > 0
  }

  /** `getFromCache`: the cached response once the threshold is reached; otherwise,
      and on any error, nothing. */
  function GetFromCache(s: Redis, key: string, codec: Codec<SearchBookResponse>): (r: Option<SearchBookResponse>)
    ensures !ThresholdReached(s, key) ==> r.None?
    ensures r.Some? <==>
              && ThresholdReached(s, key)
              && !Fails(s, GetCommand)
              && DataKey(key) in s.kv && s.kv[DataKey(key)].Text?
              && codec.deserialize(s.kv[DataKey(key)].text).Decoded?
              && codec.deserialize(s.kv[DataKey(key)].text).value.Some?
    ensures r.Some? ==> codec.deserialize(s.kv[DataKey(key)].text) == Decoded(r)
  {
    match IsThresholdReached(s, key)
    case Err(_) => None
    case Ok(reached) =>
      if !reached then None
      else match Lookup(s, DataKey(key))
        case Err(_) => None
        case Ok(None) => None                // readValue(null, ...) throws
        case Ok(Some(Number(_))) => None     // not a String
        case Ok(Some(Text(data))) =>
          match codec.deserialize(data)
          case Malformed => None
          case Decoded(None) => None         // Optional.of(null) throws
          case Decoded(Some(response)) => Some(response)
  }

  /** `incrementCount`: INCR, then a one-hour expiry; errors propagate. */
  function IncrementCount(s: Redis, key: string): (o: Outcome)
    ensures o.failure.None? <==> !Fails(s, IncrCommand) && !Fails(s, ExpireCommand)
                                 && (CountKey(key) !in s.kv || s.kv[CountKey(key)].Number?)
    ensures o.failure.None? ==>
              && CountKey(key) in o.store.kv && o.store.kv[CountKey(key)].Number?
              && StoredCount(o.store, key) == StoredCount(s, key) + 1
              && o.store.ttl == s.ttl[CountKey(key) := CountTtlMillis]
    // nothing but the counter ever changes; in particular no data key does
    ensures forall k :: k != CountKey(key) ==> (k in o.store.kv <==> k in s.kv) && (k in s.kv ==> o.store.kv[k] == s.kv[k])
    ensures forall b :: DataKey(b) in s.kv ==> DataKey(b) in o.store.kv && o.store.kv[DataKey(b)] == s.kv[DataKey(b)]
  {
    forall b ensures DataKey(b) != CountKey(key) {
      CountAndDataKeysNeverCollide(key, b);
    }
    match Incr(s, CountKey(key))
    case Err(c) => Outcome(Some(StoreFailure(c)), s)
    case Ok(s1) =>
      match Expire(s1, CountKey(key), CountTtlMillis)
      case Err(c) => Outcome(Some(StoreFailure(c)), s1)
      case Ok(s2) => Outcome(None, s2)
  }

  /** `addToCache`: stores the serialized response for 30 minutes, but only for a
      non-empty result whose key has reached the threshold. A failed count read
      propagates; a response that cannot be serialized, or a failed write, is
      swallowed. */
  function AddToCache(s: Redis, key: string, value: SearchBookResponse, codec: Codec<SearchBookResponse>): (o: Outcome)
    ensures !IsCacheable(value) ==> o == Outcome(None, s)
    ensures IsCacheable(value) && IsThresholdReached(s, key) == Ok(false) ==> o == Outcome(None, s)
    ensures o.failure.Some? <==> IsCacheable(value) && IsThresholdReached(s, key).Err?
    ensures o.store != s ==> IsCacheable(value) && ThresholdReached(s, key)
    ensures IsCacheable(value) && ThresholdReached(s, key) && codec.serialize(Some(value)).Encoded? && !Fails(s, SetCommand) ==>
              o == Outcome(None, Store(s, DataKey(key), Text(codec.serialize(Some(value)).text), DataTtlMillis))
    ensures IsCacheable(value) && ThresholdReached(s, key) && (codec.serialize(Some(value)).Unencodable? || Fails(s, SetCommand)) ==>
              o == Outcome(None, s)
  {
    if !IsCacheable(value) then Outcome(None, s)
    else match IsThresholdReached(s, key)
      case Err(e) => Outcome(Some(e), s)
      case Ok(reached) =>
        if !reached then Outcome(None, s)
        else match codec.serialize(Some(value))
          case Unencodable => Outcome(None, s)
          case Encoded(data) =>
            match SetValue(s, DataKey(key), Text(data), DataTtlMillis)
            case Err(_) => Outcome(None, s)
            case Ok(s1) => Outcome(None, s1)
  }

  /** `clear`: not implemented in the source; it leaves the store as it is. */
  function Clear(s: Redis): (s': Redis)
    ensures s' == s
  {
    s
  }

  /** Once a result has been stored, a read serves it back (given a codec that
      round-trips it) without touching the counter. */
  lemma AddThenGet(s: Redis, key: string, value: SearchBookResponse, codec: Codec<SearchBookResponse>)
    requires IsCacheable(value) && ThresholdReached(s, key)
    requires !Fails(s, SetCommand)
    requires RoundTrips(codec, Some(value))
    ensures GetFromCache(AddToCache(s, key, value, codec).store, key, codec) == Some(value)
  {
    CountAndDataKeysNeverCollide(key, key);
  }

  /** Counting goes up by one per access; the threshold is reached on the fifth
      access of a fresh key. */
  lemma FifthAccessReachesThreshold(s: Redis, key: string)
    requires CountKey(key) !in s.kv
    requires !Fails(s, IncrCommand) && !Fails(s, ExpireCommand) && !Fails(s, GetCommand)
    ensures var s4 := IncrementCount(IncrementCount(IncrementCount(IncrementCount(s, key).store, key).store, key).store, key).store;
            && IsThresholdReached(s4, key) == Ok(false)
            && IsThresholdReached(IncrementCount(s4, key).store, key) == Ok(true)
  {
  }
}
