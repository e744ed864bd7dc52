/** The shared Redis instance as an explicit value.

    One keyspace maps keys to values; a second map holds the remaining time to
    live, in milliseconds, of the keys that have one. `failing` names the
    commands the store currently rejects (network error, timeout, ...): an
    operation whose command is in it returns an error and changes nothing.
    Time never passes inside the model, so no key expires on its own. */
module RedisStore {
  import opened Wrappers

  /** A stored value: a string, or the integer kept by INCR / the delta entry. */
  datatype Value = Text(text: string) | Number(number: int)

  /** The three server-side scripts the PER cache loads. */
  datatype Script = CacheGetScript | CacheSetScript | UnlockScript

  datatype Command =
    | GetCommand
    | SetCommand
    | SetIfAbsentCommand
    | IncrCommand
    | ExpireCommand
    | EvalCommand(script: Script)

  datatype Redis = Redis(kv: map<string, Value>, ttl: map<string, int>, failing: set<Command>)

  /** An empty store that accepts every command. */
  const Empty: Redis := Redis(map[], map[], {})

  /** Only keys that exist carry a time to live. */
  predicate Coherent(r: Redis) {
    r.ttl.Keys <= r.kv.Keys
  }

  /** A reply of a script, as the client library hands it over. */
  datatype Reply = Nil | Bulk(text: string) | Integer(n: int) | Multi(items: seq<Reply>)

  function Fails(r: Redis, c: Command): bool {
    c in r.failing
  }

  /** GET. */
  function Lookup(r: Redis, key: string): (res: Result<Option<Value>, Command>)
    ensures Fails(r, GetCommand) <==> res.Err?
    ensures res.Ok? ==> (res.value.Some? <==> key in r.kv)
    ensures res.Ok? && key in r.kv ==> res.value.value == r.kv[key]
  {
    if Fails(r, GetCommand) then Err(GetCommand)
    else if key in r.kv then Ok(Some(r.kv[key]))
    else Ok(None)
  }

  /** Overwrites `key` and gives it a fresh time to live (SET key value PX ttl). */
  function Store(r: Redis, key: string, v: Value, ttlMillis: int): (r': Redis)
    ensures r'.kv == r.kv[key := v] && r'.ttl == r.ttl[key := ttlMillis]
    ensures r'.failing == r.failing
  {
    r.(kv := r.kv[key := v], ttl := r.ttl[key := ttlMillis])
  }

  /** Removes `key` and its time to live (DEL key). */
  function Remove(r: Redis, key: string): (r': Redis)
    ensures key !in r'.kv && key !in r'.ttl
    ensures forall k :: k != key ==> (k in r'.kv <==> k in r.kv)
    ensures forall k :: k != key && k in r.kv ==> r'.kv[k] == r.kv[k]
    ensures r'.failing == r.failing
  {
    r.(kv := r.kv - {key}, ttl := r.ttl - {key})
  }

  /** SET with an expiry. */
  function SetValue(r: Redis, key: string, v: Value, ttlMillis: int): (res: Result<Redis, Command>)
    ensures Fails(r, SetCommand) <==> res.Err?
    ensures res.Ok? ==> res.value == Store(r, key, v, ttlMillis)
  {
    if Fails(r, SetCommand) then Err(SetCommand) else Ok(Store(r, key, v, ttlMillis))
  }

  /** SET key value NX PX ttl: writes only when the key is absent and says whether it did. */
  function SetIfAbsent(r: Redis, key: string, v: Value, ttlMillis: int): (res: Result<(bool, Redis), Command>)
    ensures Fails(r, SetIfAbsentCommand) <==> res.Err?
    ensures res.Ok? ==> (res.value.0 <==> key !in r.kv)
    ensures res.Ok? && res.value.0 ==> res.value.1 == Store(r, key, v, ttlMillis)
    ensures res.Ok? && !res.value.0 ==> res.value.1 == r
  {
    if Fails(r, SetIfAbsentCommand) then Err(SetIfAbsentCommand)
    else if key in r.kv then Ok((false, r))
    else Ok((true, Store(r, key, v, ttlMillis)))
  }

  /** INCR: a missing key counts from 0; a key holding text is rejected by Redis.
      The key keeps whatever time to live it had. */
  function Incr(r: Redis, key: string): (res: Result<Redis, Command>)
    ensures res.Ok? <==> !Fails(r, IncrCommand) && (key !in r.kv || r.kv[key].Number?)
    ensures res.Ok? ==> key in res.value.kv && res.value.kv[key].Number?
    ensures res.Ok? ==> res.value.kv[key].number == (if key in r.kv then r.kv[key].number else 0) + 1
    ensures res.Ok? ==> res.value.kv == r.kv[key := res.value.kv[key]] && res.value.ttl == r.ttl
  {
    if Fails(r, IncrCommand) then Err(IncrCommand)
    else if key !in r.kv then Ok(r.(kv := r.kv[key := Number(1)]))
    else match r.kv[key]
      case Number(n) => Ok(r.(kv := r.kv[key := Number(n + 1)]))
      case Text(_) => Err(IncrCommand)
  }

  /** PEXPIRE: sets the time to live of an existing key; a missing key is left alone. */
  function Expire(r: Redis, key: string, ttlMillis: int): (res: Result<Redis, Command>)
    ensures Fails(r, ExpireCommand) <==> res.Err?
    ensures res.Ok? ==> res.value.kv == r.kv
    ensures res.Ok? && key in r.kv ==> res.value.ttl == r.ttl[key := ttlMillis]
    ensures res.Ok? && key !in r.kv ==> res.value == r
  {
    if Fails(r, ExpireCommand) then Err(ExpireCommand)
    else if key in r.kv then Ok(r.(ttl := r.ttl[key := ttlMillis]))
    else Ok(r)
  }

  // ---------------------------------------------------------------------------
  // The PER scripts. Their Lua bodies are not part of this model: each is the
  // atomic operation the cache manager expects of it.
  // ---------------------------------------------------------------------------

  /** A stored value as a script returns it. */
  function ValueReply(r: Redis, key: string): (rep: Reply)
    ensures rep.Nil? <==> key !in r.kv
  {
    if key !in r.kv then Nil
    else match r.kv[key]
      case Text(t) => Bulk(t)
      case Number(n) => Integer(n)
  }

  /** The cache-get script: `[[value of key, value of deltaKey], remaining ttl of key]`. */
  function EvalCacheGet(r: Redis, key: string, deltaKey: string): (res: Result<Option<seq<Reply>>, Command>)
    ensures Fails(r, EvalCommand(CacheGetScript)) <==> res.Err?
    ensures res.Ok? ==> res.value.Some? && |res.value.value| == 2
  {
    if Fails(r, EvalCommand(CacheGetScript)) then Err(EvalCommand(CacheGetScript))
    else
      var ttlReply := if key in r.ttl then Integer(r.ttl[key]) else Nil;
      Ok(Some([Multi([ValueReply(r, key), ValueReply(r, deltaKey)]), ttlReply]))
  }

  /** The cache-set script: stores the value under `key` and the delta under
      `deltaKey`, both with the same time to live, given in seconds. */
  function EvalCacheSet(r: Redis, key: string, deltaKey: string, text: string, delta: int, ttlSeconds: int)
    : (res: Result<Redis, Command>)
    ensures Fails(r, EvalCommand(CacheSetScript)) <==> res.Err?
    ensures res.Ok? ==> res.value == Store(Store(r, key, Text(text), ttlSeconds * 1000), deltaKey, Number(delta), ttlSeconds * 1000)
  {
    if Fails(r, EvalCommand(CacheSetScript)) then Err(EvalCommand(CacheSetScript))
    else Ok(Store(Store(r, key, Text(text), ttlSeconds * 1000), deltaKey, Number(delta), ttlSeconds * 1000))
  }

  /** The unlock script: deletes `lockKey` only while it holds `token`; replies with
      the number of keys deleted. */
  function EvalUnlock(r: Redis, lockKey: string, token: string): (res: Result<(int, Redis), Command>)
    ensures Fails(r, EvalCommand(UnlockScript)) <==> res.Err?
    ensures res.Ok? ==> res.value.0 == 0 || res.value.0 == 1
    ensures res.Ok? ==> (res.value.0 == 1 <==> lockKey in r.kv && r.kv[lockKey] == Text(token))
    ensures res.Ok? && res.value.0 == 1 ==> res.value.1 == Remove(r, lockKey)
    ensures res.Ok? && res.value.0 == 0 ==> res.value.1 == r
  {
    if Fails(r, EvalCommand(UnlockScript)) then Err(EvalCommand(UnlockScript))
    else if lockKey in r.kv && r.kv[lockKey] == Text(token) then Ok((1, Remove(r, lockKey)))
    else Ok((0, r))
  }

  // ---------------------------------------------------------------------------
  // How the commands observe one another
  // ---------------------------------------------------------------------------

  /** GET after SET reads the value just written; every other key reads as before. */
  lemma LookupAfterSetValue(r: Redis, key: string, v: Value, ttlMillis: int, other: string)
    requires SetValue(r, key, v, ttlMillis).Ok?
    requires other != key
    ensures !Fails(r, GetCommand) ==> Lookup(SetValue(r, key, v, ttlMillis).value, key) == Ok(Some(v))
    ensures Lookup(SetValue(r, key, v, ttlMillis).value, other) == Lookup(r, other)
  {
  }

  /** SET NX claims a key once: after a claim that wrote, a second claim with any
      value is refused and changes nothing, and GET reads the first claim's value. */
  lemma SetIfAbsentClaimsOnce(r: Redis, key: string, v: Value, w: Value, t1: int, t2: int)
    requires SetIfAbsent(r, key, v, t1).Ok? && SetIfAbsent(r, key, v, t1).value.0
    ensures var r1 := SetIfAbsent(r, key, v, t1).value.1;
            && SetIfAbsent(r1, key, w, t2) == Ok((false, r1))
            && (!Fails(r, GetCommand) ==> Lookup(r1, key) == Ok(Some(v)))
  {
  }

  /** INCR counts: GET reads one more than it read before, a missing key reading
      as 0, and no other key changes. */
  lemma IncrCountsUp(r: Redis, key: string, n: int)
    requires !Fails(r, IncrCommand) && !Fails(r, GetCommand)
    requires (Lookup(r, key) == Ok(None) && n == 0) || Lookup(r, key) == Ok(Some(Number(n)))
    ensures Incr(r, key).Ok?
    ensures Lookup(Incr(r, key).value, key) == Ok(Some(Number(n + 1)))
    ensures forall k :: k != key ==> Lookup(Incr(r, key).value, k) == Lookup(r, k)
  {
  }

  /** PEXPIRE changes no value GET can see, and setting the same expiry twice is
      setting it once. */
  lemma ExpireKeepsValues(r: Redis, key: string, ttlMillis: int, k: string)
    requires Expire(r, key, ttlMillis).Ok?
    ensures Lookup(Expire(r, key, ttlMillis).value, k) == Lookup(r, k)
    ensures Expire(Expire(r, key, ttlMillis).value, key, ttlMillis) == Expire(r, key, ttlMillis)
  {
    if key in r.kv {
      assert r.ttl[key := ttlMillis][key := ttlMillis] == r.ttl[key := ttlMillis];
    }
  }

  /** The unlock script releases only the claim made with its own token: another
      token deletes nothing; the owner's deletes the key, after which GET finds
      nothing and a second unlock deletes nothing. */
  lemma UnlockReleasesOnlyItsOwnClaim(r: Redis, lockKey: string, token: string, other: string, ttlMillis: int)
    requires lockKey !in r.kv && other != token
    requires !Fails(r, SetIfAbsentCommand) && !Fails(r, EvalCommand(UnlockScript))
    ensures var r1 := SetIfAbsent(r, lockKey, Text(token), ttlMillis).value.1;
            && EvalUnlock(r1, lockKey, other) == Ok((0, r1))
            && EvalUnlock(r1, lockKey, token).Ok?
            && EvalUnlock(r1, lockKey, token).value.0 == 1
            && var r2 := EvalUnlock(r1, lockKey, token).value.1;
               && (!Fails(r, GetCommand) ==> Lookup(r2, lockKey) == Ok(None))
               && EvalUnlock(r2, lockKey, token) == Ok((0, r2))
  {
  }
}
