/** The probabilistic-early-recomputation (PER) cache manager.

    A read runs the cache-get script. On a miss one caller, the one that wins a
    token lock on `key + ":lock"`, recomputes the value and writes it with its
    measured cost ("delta"); every other caller, and a leader whose recompute
    gave nothing, re-reads the cache a bounded number of times. On a hit the
    stored value is always served: the early-refresh decision is computed and
    then ignored.

    The whole read is a pure function of the store it starts from and of the
    outside inputs: the lock token, the recomputer's outcome, the negated log of
    the uniform draw, and the writes other processes make while this caller
    sleeps between re-reads. */
module PerCache {
  import opened Wrappers
  import opened RedisStore
  import opened Codec

  // ---------------------------------------------------------------------------
  // Constants and configuration
  // ---------------------------------------------------------------------------

  const LockSuffix: string := ":lock"

  /** Time to live of the lock marker; hard-coded by the caller of `acquireLock`. */
  const LockTtlMillis: int := 5000

  /** Re-reads made after a miss that produced no value; hard-coded in the retry loop. */
  const RetryAttempts: nat := 2

  /** The configuration the manager reads: `beta`, the data TTL in seconds and the
      suffix of the delta key. */
  datatype PerConfig = PerConfig(beta: real, defaultTtl: int, deltaKeySuffix: string)

  const DefaultConfig: PerConfig := PerConfig(1.0, 3600, ":delta")

  /** A configuration whose delta key can collide neither with the data key nor
      with the lock key. */
  predicate WellFormedConfig(cfg: PerConfig) {
    cfg.deltaKeySuffix != [] && cfg.deltaKeySuffix != LockSuffix
  }

  function LockKey(key: string): (k: string)
    ensures |k| == |key| + |LockSuffix|
    ensures k[..|key|] == key
    ensures k != key
  {
    key + LockSuffix
  }

  function DeltaKey(cfg: PerConfig, key: string): (k: string)
    ensures k == key <==> cfg.deltaKeySuffix == []
    ensures k == LockKey(key) <==> cfg.deltaKeySuffix == LockSuffix
  {
    assert (key + cfg.deltaKeySuffix)[|key|..] == cfg.deltaKeySuffix;
    assert LockKey(key)[|key|..] == LockSuffix;
    key + cfg.deltaKeySuffix
  }

  // ---------------------------------------------------------------------------
  // Records, failures, observable events
  // ---------------------------------------------------------------------------

  /** What one run of the cache-get script says about a key. */
  datatype CacheResult = CacheResult(data: Option<string>, delta: Option<int>, remainingTtl: Option<int>, cacheHit: bool)

  const Miss: CacheResult := CacheResult(None, None, None, false)

  /** The reasons a step fails inside the manager. */
  datatype Failure =
    | StoreFailure(command: Command)   // the store rejected a command
    | MalformedReply                   // a script reply element of an unexpected type
    | UndecodablePayload               // the stored text is not a valid encoding
    | UnencodableValue                 // the recomputed value cannot be written as JSON
    | RetriesExhausted                 // still a miss after the last re-read

  /** `get` rethrows every failure wrapped in one `CacheException`. */
  datatype CacheException = CacheException(cause: Failure)

  /** The catch-all of `get`, as a function to map errors with. */
  function Rethrow(e: Failure): CacheException {
    CacheException(e)
  }

  /** The failures a read of the cache can end in: the store rejecting the
      cache-get script, a reply element of the wrong type, or stored text that
      does not decode. */
  predicate ReadFailure(e: Failure) {
    e == StoreFailure(EvalCommand(CacheGetScript)) || e == MalformedReply || e == UndecodablePayload
  }

  /** What a read does to the world, in order. */
  datatype Event =
    | CacheRead(key: string)
    | LockAttempt(lockKey: string, acquired: bool)
    | Recomputed
    | CacheWritten(key: string)
    | LockRelease(lockKey: string, released: bool)

  /** A step's result, the store after it, and what it did. */
  datatype Run<T, E> = Run(result: Result<T, E>, store: Redis, trace: seq<Event>)

  /** What the recomputer does when called: return a (possibly null) value after
      `costMillis` of wall-clock time, or throw. */
  datatype Recomputation<V> = Returned(value: Option<V>, costMillis: int) | Threw

  // ---------------------------------------------------------------------------
  // Reading a record
  // ---------------------------------------------------------------------------

  /** `(String)` cast of a reply element. */
  function TextOrNull(rep: Reply): (r: Result<Option<string>, Failure>)
    ensures r.Ok? <==> rep.Nil? || rep.Bulk?
    ensures r.Ok? ==> (r.value.Some? <==> rep.Bulk?)
  {
    match rep
    case Nil => Ok(None)
    case Bulk(t) => Ok(Some(t))
    case _ => Err(MalformedReply)
  }

  /** `(Integer)` / `(Long)` cast of a reply element. */
  function IntOrNull(rep: Reply): (r: Result<Option<int>, Failure>)
    ensures r.Ok? <==> rep.Nil? || rep.Integer?
    ensures r.Ok? ==> (r.value.Some? <==> rep.Integer?)
  {
    match rep
    case Nil => Ok(None)
    case Integer(n) => Ok(Some(n))
    case _ => Err(MalformedReply)
  }

  /** A reply too short to hold a record: null, fewer than two elements, or a
      first element that is null or a list of fewer than two elements. */
  predicate ShortReply(reply: Option<seq<Reply>>) {
    || reply.None?
    || |reply.value| < 2
    || reply.value[0].Nil?
    || (reply.value[0].Multi? && |reply.value[0].items| < 2)
  }

  /** Interprets the cache-get script's reply `[[value, delta], remainingTtl]`. */
  function CacheResultOf(reply: Option<seq<Reply>>): (r: Result<CacheResult, Failure>)
    ensures ShortReply(reply) ==> r == Ok(Miss)
    ensures r.Ok? ==> (r.value.cacheHit <==> r.value.data.Some?)
    ensures !ShortReply(reply) && r.Ok? ==>
              && reply.value[0].Multi?
              && (r.value.data.Some? <==> reply.value[0].items[0].Bulk?)
              && (r.value.delta.Some? <==> reply.value[0].items[1].Integer?)
              && (r.value.remainingTtl.Some? <==> reply.value[1].Integer?)
    ensures !ShortReply(reply) && !reply.value[0].Multi? ==> r == Err(MalformedReply)
  {
    if reply.None? || |reply.value| < 2 then Ok(Miss)
    else match reply.value[0]
      case Nil => Ok(Miss)
      case Multi(items) =>
        if |items| < 2 then Ok(Miss)
        else
          var data :- TextOrNull(items[0]);
          var delta :- IntOrNull(items[1]);
          var ttl :- IntOrNull(reply.value[1]);
          Ok(CacheResult(data, delta, ttl, data.Some?))
      case _ => Err(MalformedReply)
  }

  /** The reply the cache-get script gives for a record (the partner of `CacheResultOf`). */
  function ReplyOf(cr: CacheResult): Option<seq<Reply>> {
    var data := if cr.data.Some? then Bulk(cr.data.value) else Nil;
    var delta := if cr.delta.Some? then Integer(cr.delta.value) else Nil;
    var ttl := if cr.remainingTtl.Some? then Integer(cr.remainingTtl.value) else Nil;
    Some([Multi([data, delta]), ttl])
  }

  /** Every record whose hit flag agrees with its data survives the trip through a reply. */
  lemma CacheResultOfReplyOf(cr: CacheResult)
    requires cr.cacheHit <==> cr.data.Some?
    ensures CacheResultOf(ReplyOf(cr)) == Ok(cr)
  {
  }

  /** `getCacheData`: one run of the cache-get script, interpreted. */
  function GetCacheData(cfg: PerConfig, s: Redis, key: string): (r: Result<CacheResult, Failure>)
    ensures r.Err? <==> Fails(s, EvalCommand(CacheGetScript)) || (key in s.kv && s.kv[key].Number?)
                        || (DeltaKey(cfg, key) in s.kv && DeltaKey(cfg, key) != key && s.kv[DeltaKey(cfg, key)].Text?)
                        || (DeltaKey(cfg, key) == key && key in s.kv)
    ensures r.Err? ==> ReadFailure(r.error)
    ensures r.Ok? ==> (r.value.cacheHit <==> key in s.kv)
    ensures r.Ok? && r.value.cacheHit ==> r.value.data == Some(s.kv[key].text)
  {
    match EvalCacheGet(s, key, DeltaKey(cfg, key))
    case Err(c) => Err(StoreFailure(c))
    case Ok(reply) => CacheResultOf(reply)
  }

  /** The stored text a read of `key` would serve, if the read is a hit. */
  function HitData(cfg: PerConfig, s: Redis, key: string): Option<string> {
    match GetCacheData(cfg, s, key)
    case Ok(cr) => if cr.cacheHit && cr.data.Some? then cr.data else None
    case Err(_) => None
  }

  /** A read that succeeds but finds nothing to serve. */
  predicate IsMiss(cfg: PerConfig, s: Redis, key: string) {
    GetCacheData(cfg, s, key).Ok? && HitData(cfg, s, key).None?
  }

  // ---------------------------------------------------------------------------
  // The early-refresh decision
  // ---------------------------------------------------------------------------

  /** A record with every field the decision needs. */
  predicate Complete(cr: CacheResult) {
    cr.cacheHit && cr.data.Some? && cr.delta.Some? && cr.remainingTtl.Some?
  }

  /** `shouldRecompute`: `logDraw` is `-ln(u)` for the uniform draw `u`, so the
      threshold is `delta * beta * logDraw`. */
  function ShouldRecompute(cfg: PerConfig, cr: CacheResult, logDraw: real): (r: bool)
    ensures !Complete(cr) ==> r
    ensures Complete(cr) && cr.remainingTtl.value <= 0 && cr.delta.value >= 0 && cfg.beta >= 0.0 && logDraw >= 0.0 ==> r
  {
    if !cr.cacheHit || cr.data.None? || cr.delta.None? || cr.remainingTtl.None? then true
    else
      var threshold := cr.delta.value as real * cfg.beta * logDraw;
      cr.remainingTtl.value as real <= threshold
  }

  /** For a fixed draw, less remaining time never turns a refresh decision off. */
  lemma ShouldRecomputeMonotoneInTtl(cfg: PerConfig, cr: CacheResult, ttl: int, logDraw: real)
    requires Complete(cr) && ttl <= cr.remainingTtl.value
    requires ShouldRecompute(cfg, cr, logDraw)
    ensures ShouldRecompute(cfg, cr.(remainingTtl := Some(ttl)), logDraw)
  {
  }

  /** For a fixed draw and non-negative `beta`, a costlier computation never turns
      a refresh decision off. */
  lemma ShouldRecomputeMonotoneInCost(cfg: PerConfig, cr: CacheResult, delta: int, logDraw: real)
    requires Complete(cr) && cr.delta.value <= delta
    requires cfg.beta >= 0.0 && logDraw >= 0.0
    requires ShouldRecompute(cfg, cr, logDraw)
    ensures ShouldRecompute(cfg, cr.(delta := Some(delta)), logDraw)
  {
    var k := cfg.beta * logDraw;
    assert k >= 0.0 by {
      ProductOfNonNegatives(cfg.beta, logDraw);
    }
    assert cr.delta.value as real * cfg.beta * logDraw == cr.delta.value as real * k;
    assert delta as real * cfg.beta * logDraw == delta as real * k;
    assert cr.delta.value as real * k <= delta as real * k by {
      ProductMonotone(cr.delta.value as real, delta as real, k);
    }
  }

  lemma ProductOfNonNegatives(a: real, b: real)
    requires a >= 0.0 && b >= 0.0
    ensures a * b >= 0.0
  {
  }

  lemma ProductMonotone(a: real, b: real, k: real)
    requires a <= b && k >= 0.0
    ensures a * k <= b * k
  {
    assert b * k - a * k == (b - a) * k;
    ProductOfNonNegatives(b - a, k);
  }

  // ---------------------------------------------------------------------------
  // The single-flight lock
  // ---------------------------------------------------------------------------

  /** `acquireLock`: the token when the lock marker was absent (and is now set),
      no token when another caller holds it. */
  function AcquireLock(s: Redis, key: string, token: string, ttlMillis: int): (r: Result<(Option<string>, Redis), Failure>)
    ensures r.Err? <==> Fails(s, SetIfAbsentCommand)
    ensures r.Ok? ==> (r.value.0 == Some(token) <==> LockKey(key) !in s.kv)
    ensures r.Ok? ==> (r.value.0.None? <==> LockKey(key) in s.kv)
    ensures r.Ok? && r.value.0.Some? ==> r.value.1 == Store(s, LockKey(key), Text(token), ttlMillis)
    ensures r.Ok? && r.value.0.None? ==> r.value.1 == s
  {
    match SetIfAbsent(s, LockKey(key), Text(token), ttlMillis)
    case Err(c) => Err(StoreFailure(c))
    case Ok((ok, s')) => Ok((if ok then Some(token) else None, s'))
  }

  /** `releaseLock`: compare-and-delete of the marker. Never fails: a store error
      reads as "not released". */
  function ReleaseLock(s: Redis, key: string, token: string): (r: (bool, Redis))
    ensures r.0 <==> !Fails(s, EvalCommand(UnlockScript)) && LockKey(key) in s.kv && s.kv[LockKey(key)] == Text(token)
    ensures r.0 ==> r.1 == Remove(s, LockKey(key))
    ensures !r.0 ==> r.1 == s
  {
    match EvalUnlock(s, LockKey(key), token)
    case Err(_) => (false, s)
    case Ok((deleted, s')) => (deleted > 0, s')
  }

  /** A caller never releases a lock another token holds: the marker stays. */
  lemma ReleaseKeepsOthersLock(s: Redis, key: string, token: string, owner: string)
    requires LockKey(key) in s.kv && s.kv[LockKey(key)] == Text(owner) && owner != token
    ensures ReleaseLock(s, key, token) == (false, s)
    ensures LockKey(key) in ReleaseLock(s, key, token).1.kv
  {
  }

  /** Acquire then release with the same token gives the lock back: a coherent
      store without the marker is the store it started from. */
  lemma AcquireThenRelease(s: Redis, key: string, token: string)
    requires Coherent(s) && LockKey(key) !in s.kv
    requires !Fails(s, SetIfAbsentCommand) && !Fails(s, EvalCommand(UnlockScript))
    ensures var acquired := AcquireLock(s, key, token, LockTtlMillis);
            && acquired == Ok((Some(token), acquired.value.1))
            && ReleaseLock(acquired.value.1, key, token) == (true, s)
  {
    var s1 := Store(s, LockKey(key), Text(token), LockTtlMillis);
    assert AcquireLock(s, key, token, LockTtlMillis) == Ok((Some(token), s1));
    assert s1.kv - {LockKey(key)} == s.kv;
    assert s1.ttl - {LockKey(key)} == s.ttl;
    assert Remove(s1, LockKey(key)) == s;
  }

  // ---------------------------------------------------------------------------
  // Writing and decoding
  // ---------------------------------------------------------------------------

  /** `put`: the serialized value under `key` and its cost under the delta key,
      both for `defaultTtl` seconds. A value that cannot be serialized is an
      error and nothing is written. */
  function Put<V>(cfg: PerConfig, s: Redis, key: string, codec: Codec<V>, value: Option<V>, costMillis: int)
    : (r: Result<Redis, Failure>)
    ensures r.Err? <==> codec.serialize(value).Unencodable? || Fails(s, EvalCommand(CacheSetScript))
    ensures r.Err? && codec.serialize(value).Unencodable? ==> r.error == UnencodableValue
    ensures r.Ok? ==> r.value.failing == s.failing
    ensures r.Ok? && WellFormedConfig(cfg) ==>
              && key in r.value.kv && DeltaKey(cfg, key) in r.value.kv
              && key in r.value.ttl && DeltaKey(cfg, key) in r.value.ttl
              && r.value.kv[key] == Text(codec.serialize(value).text)
              && r.value.kv[DeltaKey(cfg, key)] == Number(costMillis)
              && r.value.ttl[key] == cfg.defaultTtl * 1000
              && r.value.ttl[DeltaKey(cfg, key)] == cfg.defaultTtl * 1000
    ensures r.Ok? ==> forall k :: k != key && k != DeltaKey(cfg, key) ==>
              (k in r.value.kv <==> k in s.kv) && (k in s.kv ==> r.value.kv[k] == s.kv[k])
  {
    match codec.serialize(value)
    case Unencodable => Err(UnencodableValue)
    case Encoded(text) =>
      match EvalCacheSet(s, key, DeltaKey(cfg, key), text, costMillis, cfg.defaultTtl)
      case Err(c) => Err(StoreFailure(c))
      case Ok(s') => Ok(s')
  }

  /** `deserializeData`. */
  function Deserialize<V>(codec: Codec<V>, text: string): (r: Result<Option<V>, Failure>)
    ensures r.Err? <==> codec.deserialize(text).Malformed?
    ensures r.Err? ==> r.error == UndecodablePayload
    ensures r.Ok? ==> codec.deserialize(text) == Decoded(r.value)
  {
    match codec.deserialize(text)
    case Decoded(v) => Ok(v)
    case Malformed => Err(UndecodablePayload)
  }

  // ---------------------------------------------------------------------------
  // Leader and followers
  // ---------------------------------------------------------------------------

  /** The trace of a caller that won the lock: acquire, recompute, maybe write, release. */
  predicate LeaderTrace(t: seq<Event>, key: string) {
    && (|t| == 3 || (|t| == 4 && t[2] == CacheWritten(key)))
    && t[0] == LockAttempt(LockKey(key), true)
    && t[1] == Recomputed
    && t[|t| - 1].LockRelease? && t[|t| - 1].lockKey == LockKey(key)
  }

  /** The caller wins the lock, and the recomputer returns a non-null value that
      is serialized and written: the only way the single-flight step yields a
      value. */
  predicate LeaderServes<V>(s: Redis, key: string, codec: Codec<V>, recompute: Recomputation<V>) {
    && !Fails(s, SetIfAbsentCommand) && LockKey(key) !in s.kv
    && recompute.Returned? && recompute.value.Some?
    && codec.serialize(recompute.value).Encoded?
    && !Fails(s, EvalCommand(CacheSetScript))
  }

  /** `tryRecomputeSingleFlight`: a null result (`Ok(None)`) sends the caller to
      the re-read loop; only a store error on the lock attempt is an error. */
  function TryRecomputeSingleFlight<V>(cfg: PerConfig, s: Redis, key: string, codec: Codec<V>, token: string,
                                       recompute: Recomputation<V>): (run: Run<Option<V>, Failure>)
    // the lock attempt itself failed: nothing happened
    ensures run.result.Err? <==> Fails(s, SetIfAbsentCommand)
    ensures run.result.Err? ==> run.result.error == StoreFailure(SetIfAbsentCommand) && run.store == s && run.trace == []
    // follower: the recomputer is never called
    ensures !Fails(s, SetIfAbsentCommand) && LockKey(key) in s.kv ==>
              run == Run(Ok(None), s, [LockAttempt(LockKey(key), false)])
    // leader: called once, right after the lock was taken, and the lock is released
    ensures !Fails(s, SetIfAbsentCommand) && LockKey(key) !in s.kv ==> LeaderTrace(run.trace, key)
    // a value comes back only when it was recomputed and written
    ensures run.result.Ok? && run.result.value.Some? <==> LeaderServes(s, key, codec, recompute)
    ensures LeaderServes(s, key, codec, recompute) ==> run.result == Ok(recompute.value) && CacheWritten(key) in run.trace
    ensures CacheWritten(key) in run.trace ==>
              recompute.Returned? && codec.serialize(recompute.value).Encoded? && !Fails(s, EvalCommand(CacheSetScript))
    ensures run.store.failing == s.failing
  {
    match AcquireLock(s, key, token, LockTtlMillis)
    case Err(e) => Run(Err(e), s, [])
    case Ok((lock, s1)) =>
      if lock.None? then Run(Ok(None), s1, [LockAttempt(LockKey(key), false)])
      else
        var (value, s2, steps) :=
          match recompute
          case Threw => (None, s1, [Recomputed])
          case Returned(v, cost) =>
            match Put(cfg, s1, key, codec, v, cost)
            case Err(_) => (None, s1, [Recomputed])
            case Ok(s') => (v, s', [Recomputed, CacheWritten(key)]);
        var (released, s3) := ReleaseLock(s2, key, token);
        Run(Ok(value), s3, [LockAttempt(LockKey(key), true)] + steps + [LockRelease(LockKey(key), released)])
  }

  /** `retryGetFromCacheOrFail`, from re-read number `attempt` on. Before each
      re-read the caller sleeps; `others(i, s)` is the store after what other
      processes did during the i-th sleep. */
  function RetryGetFromCacheOrFail<V>(cfg: PerConfig, s: Redis, key: string, codec: Codec<V>,
                                      others: (nat, Redis) -> Redis, attempt: nat): (run: Run<Option<V>, Failure>)
    ensures attempt >= RetryAttempts ==> run == Run(Err(RetriesExhausted), s, [])
    ensures attempt < RetryAttempts ==> 1 <= |run.trace| <= RetryAttempts - attempt
    ensures forall i :: 0 <= i < |run.trace| ==> run.trace[i] == CacheRead(key)
    // a success serves what the last read saw
    ensures run.result.Ok? ==>
              HitData(cfg, run.store, key).Some? && run.result == Deserialize(codec, HitData(cfg, run.store, key).value)
    // exhaustion means every read was made and the last one missed
    ensures run.result == Err(RetriesExhausted) && attempt < RetryAttempts ==>
              |run.trace| == RetryAttempts - attempt && IsMiss(cfg, run.store, key)
    // any other failure is the failure of a re-read
    ensures run.result.Err? ==> run.result.error == RetriesExhausted || ReadFailure(run.result.error)
    decreases RetryAttempts - attempt
  {
    if attempt >= RetryAttempts then Run(Err(RetriesExhausted), s, [])
    else
      var seen := others(attempt, s);
      match GetCacheData(cfg, seen, key)
      case Err(e) => Run(Err(e), seen, [CacheRead(key)])
      case Ok(after) =>
        if after.cacheHit && after.data.Some? then
          Run(Deserialize(codec, after.data.value), seen, [CacheRead(key)])
        else
          var rest := RetryGetFromCacheOrFail(cfg, seen, key, codec, others, attempt + 1);
          Run(rest.result, rest.store, [CacheRead(key)] + rest.trace)
  }

  // ---------------------------------------------------------------------------
  // get
  // ---------------------------------------------------------------------------

  /** Number of cache reads in a trace. */
  function Reads(t: seq<Event>): nat {
    if t == [] then 0 else Reads(t[..|t| - 1]) + (if t[|t| - 1].CacheRead? then 1 else 0)
  }

  /** The recomputer runs only right after this caller acquired the lock. */
  predicate RecomputeFollowsLock(t: seq<Event>, key: string) {
    forall i :: 0 <= i < |t| && t[i] == Recomputed ==> 0 < i && t[i - 1] == LockAttempt(LockKey(key), true)
  }

  /** The recomputer runs at most once. */
  predicate RecomputedAtMostOnce(t: seq<Event>) {
    forall i, j :: 0 <= i < j < |t| ==> !(t[i] == Recomputed && t[j] == Recomputed)
  }

  /** What `get` does after a miss: the single-flight attempt, then, when it
      yields no value, the re-read loop. The traces here follow the first read. */
  function RecomputeOrWait<V>(cfg: PerConfig, s: Redis, key: string, codec: Codec<V>, token: string,
                              recompute: Recomputation<V>, others: (nat, Redis) -> Redis): (run: Run<Option<V>, Failure>)
    ensures RecomputeFollowsLock([CacheRead(key)] + run.trace, key)
    ensures RecomputedAtMostOnce([CacheRead(key)] + run.trace)
    ensures LockAttempt(LockKey(key), false) in [CacheRead(key)] + run.trace ==> Recomputed !in [CacheRead(key)] + run.trace
    ensures 1 <= Reads([CacheRead(key)] + run.trace) <= 1 + RetryAttempts
    // the result: the leader's own value, or what the last re-read found
    ensures LeaderServes(s, key, codec, recompute) ==> run.result == Ok(recompute.value) && CacheRead(key) !in run.trace
    ensures run.result.Ok? ==>
              || (LeaderServes(s, key, codec, recompute) && run.result == Ok(recompute.value))
              || (HitData(cfg, run.store, key).Some? && Deserialize(codec, HitData(cfg, run.store, key).value) == run.result)
    // without the leader's value (a follower, a null or unwritable value, a
    // throwing recomputer) the caller goes on to re-read
    ensures !Fails(s, SetIfAbsentCommand) && !LeaderServes(s, key, codec, recompute) ==> CacheRead(key) in run.trace
    ensures run.result.Err? ==>
              || run.result.error == RetriesExhausted
              || ReadFailure(run.result.error)
              || (run.result.error == StoreFailure(SetIfAbsentCommand) && Fails(s, SetIfAbsentCommand) && run.trace == [])
  {
    var lead := TryRecomputeSingleFlight(cfg, s, key, codec, token, recompute);
    if lead.result.Err? || lead.result.value.Some? then
      LeadThenRetry(key, lead.trace, []);
      assert lead.trace + [] == lead.trace;
      lead
    else
      var retry := RetryGetFromCacheOrFail(cfg, lead.store, key, codec, others, 0);
      LeadThenRetry(key, lead.trace, retry.trace);
      Run(retry.result, retry.store, lead.trace + retry.trace)
  }

  /** `get`. */
  function Get<V>(cfg: PerConfig, s: Redis, key: string, codec: Codec<V>, logDraw: real, token: string,
                  recompute: Recomputation<V>, others: (nat, Redis) -> Redis): (run: Run<Option<V>, CacheException>)
    // a hit is served from the cache, whatever the refresh decision: no lock, no recompute, no write
    ensures HitData(cfg, s, key).Some? ==>
              && run.store == s
              && run.trace == [CacheRead(key)]
              && run.result == Deserialize(codec, HitData(cfg, s, key).value).MapError(Rethrow)
    // a miss: the leader's own value, or what the last re-read found
    ensures IsMiss(cfg, s, key) && LeaderServes(s, key, codec, recompute) ==> run.result == Ok(recompute.value)
    ensures run.result.Ok? && HitData(cfg, s, key).None? ==>
              || (LeaderServes(s, key, codec, recompute) && run.result == Ok(recompute.value))
              || (HitData(cfg, run.store, key).Some? && Deserialize(codec, HitData(cfg, run.store, key).value) == Ok(run.result.value))
    ensures IsMiss(cfg, s, key) && !Fails(s, SetIfAbsentCommand) && !LeaderServes(s, key, codec, recompute) ==>
              exists i :: 1 <= i < |run.trace| && run.trace[i] == CacheRead(key)
    // every failure is a failed read, exhausted re-reads, or a rejected lock attempt
    ensures run.result.Err? ==>
              || run.result.error.cause == RetriesExhausted
              || ReadFailure(run.result.error.cause)
              || (run.result.error.cause == StoreFailure(SetIfAbsentCommand) && Fails(s, SetIfAbsentCommand))
    // single flight
    ensures RecomputeFollowsLock(run.trace, key)
    ensures RecomputedAtMostOnce(run.trace)
    ensures LockAttempt(LockKey(key), false) in run.trace ==> Recomputed !in run.trace
    // bounded waiting: the first read plus at most two re-reads
    ensures 1 <= Reads(run.trace) <= 1 + RetryAttempts
  {
    match GetCacheData(cfg, s, key)
    case Err(e) =>
      ReadsOfReads([CacheRead(key)], key);
      Run(Err(CacheException(e)), s, [CacheRead(key)])
    case Ok(cached) =>
      if !cached.cacheHit || cached.data.None? then
        var miss := RecomputeOrWait(cfg, s, key, codec, token, recompute, others);
        StillThereAfterRead(key, miss.trace, CacheRead(key));
        Run(miss.result.MapError(Rethrow), miss.store, [CacheRead(key)] + miss.trace)
      else
        ReadsOfReads([CacheRead(key)], key);
        var needEarlyRefresh := ShouldRecompute(cfg, cached, logDraw);
        if !needEarlyRefresh then
          Run(Deserialize(codec, cached.data.value).MapError(Rethrow), s, [CacheRead(key)])
        else
          // the early refresh is not carried out: the cached value is served either way
          Run(Deserialize(codec, cached.data.value).MapError(Rethrow), s, [CacheRead(key)])
  }

  /** An event of a trace is still there, one place later, behind the first read. */
  lemma StillThereAfterRead(key: string, t: seq<Event>, e: Event)
    ensures e in t ==> exists i :: 1 <= i < 1 + |t| && ([CacheRead(key)] + t)[i] == e
  {
    if e in t {
      var i :| 0 <= i < |t| && t[i] == e;
      assert ([CacheRead(key)] + t)[i + 1] == e;
    }
  }

  lemma ReadsAppend(a: seq<Event>, b: seq<Event>)
    ensures Reads(a + b) == Reads(a) + Reads(b)
    decreases |b|
  {
    if b != [] {
      assert (a + b)[..|a + b| - 1] == a + b[..|b| - 1];
      ReadsAppend(a, b[..|b| - 1]);
    } else {
      assert a + b == a;
    }
  }

  lemma ReadsOfReads(t: seq<Event>, key: string)
    requires forall i :: 0 <= i < |t| ==> t[i] == CacheRead(key)
    ensures Reads(t) == |t|
  {
    if t != [] {
      ReadsOfReads(t[..|t| - 1], key);
    }
  }

  lemma ReadsOfNoReads(t: seq<Event>)
    requires forall i :: 0 <= i < |t| ==> !t[i].CacheRead?
    ensures Reads(t) == 0
  {
    if t != [] {
      ReadsOfNoReads(t[..|t| - 1]);
    }
  }

  /** The trace facts `Get` needs about one read, a lock step and the re-reads. */
  lemma LeadThenRetry(key: string, lead: seq<Event>, retry: seq<Event>)
    requires lead == [] || lead == [LockAttempt(LockKey(key), false)] || LeaderTrace(lead, key)
    requires |retry| <= RetryAttempts
    requires forall i :: 0 <= i < |retry| ==> retry[i] == CacheRead(key)
    ensures var t := [CacheRead(key)] + (lead + retry);
            && RecomputeFollowsLock(t, key)
            && RecomputedAtMostOnce(t)
            && (LockAttempt(LockKey(key), false) in t ==> Recomputed !in t)
            && 1 <= Reads(t) <= 1 + RetryAttempts
  {
    var t := [CacheRead(key)] + (lead + retry);
    LeadThenRetryReads(key, lead, retry);
    assert forall i :: 1 <= i <= |lead| ==> t[i] == lead[i - 1];
    assert forall i :: |lead| < i < |t| ==> t[i] == retry[i - 1 - |lead|];
    if LeaderTrace(lead, key) {
      assert forall i :: 0 <= i < |t| && t[i] == Recomputed ==> i == 2;
      assert LockAttempt(LockKey(key), false) !in t;
    } else {
      assert forall i :: 0 <= i < |t| ==> t[i] != Recomputed;
    }
  }

  /** One read, no reads in the lock step, and at most two re-reads. */
  lemma LeadThenRetryReads(key: string, lead: seq<Event>, retry: seq<Event>)
    requires forall i :: 0 <= i < |lead| ==> !lead[i].CacheRead?
    requires |retry| <= RetryAttempts
    requires forall i :: 0 <= i < |retry| ==> retry[i] == CacheRead(key)
    ensures 1 <= Reads([CacheRead(key)] + (lead + retry)) <= 1 + RetryAttempts
  {
    assert [CacheRead(key)] + (lead + retry) == [CacheRead(key)] + lead + retry;
    ReadsAppend([CacheRead(key)] + lead, retry);
    ReadsAppend([CacheRead(key)], lead);
    ReadsOfReads(retry, key);
    ReadsOfReads([CacheRead(key)], key);
    ReadsOfNoReads(lead);
  }

  // ---------------------------------------------------------------------------
  // Properties of whole reads
  // ---------------------------------------------------------------------------

  /** No other process touches the store: the sequential world. */
  function Alone(i: nat, r: Redis): Redis {
    r
  }

  /** A successful `put` is what the next read finds: the serialized value, its
      cost and the configured time to live. */
  lemma PutThenRead<V>(cfg: PerConfig, s: Redis, key: string, codec: Codec<V>, value: Option<V>, costMillis: int)
    requires WellFormedConfig(cfg)
    requires Put(cfg, s, key, codec, value, costMillis).Ok?
    requires !Fails(s, EvalCommand(CacheGetScript))
    ensures var s' := Put(cfg, s, key, codec, value, costMillis).value;
            GetCacheData(cfg, s', key)
              == Ok(CacheResult(Some(codec.serialize(value).text), Some(costMillis), Some(cfg.defaultTtl * 1000), true))
  {
    var s' := Put(cfg, s, key, codec, value, costMillis).value;
    var reply := EvalCacheGet(s', key, DeltaKey(cfg, key));
    assert reply == Ok(Some([Multi([Bulk(codec.serialize(value).text), Integer(costMillis)]), Integer(cfg.defaultTtl * 1000)]));
  }

  /** A read of a cold key by the caller that wins the lock: the recomputed value
      is returned, written with its cost and the configured TTL, and the lock is
      released again. */
  lemma ColdKeyLeader<V>(cfg: PerConfig, s: Redis, key: string, codec: Codec<V>, logDraw: real, token: string,
                         v: V, costMillis: int, others: (nat, Redis) -> Redis)
    requires WellFormedConfig(cfg)
    requires IsMiss(cfg, s, key)
    requires LockKey(key) !in s.kv
    requires !Fails(s, SetIfAbsentCommand) && !Fails(s, EvalCommand(CacheSetScript))
    requires codec.serialize(Some(v)).Encoded?
    ensures var run := Get(cfg, s, key, codec, logDraw, token, Returned(Some(v), costMillis), others);
            && run.result == Ok(Some(v))
            && run.trace == [CacheRead(key), LockAttempt(LockKey(key), true), Recomputed, CacheWritten(key),
                             LockRelease(LockKey(key), !Fails(s, EvalCommand(UnlockScript)))]
            && key in run.store.kv && run.store.kv[key] == Text(codec.serialize(Some(v)).text)
            && DeltaKey(cfg, key) in run.store.kv && run.store.kv[DeltaKey(cfg, key)] == Number(costMillis)
            && key in run.store.ttl && run.store.ttl[key] == cfg.defaultTtl * 1000
            && (!Fails(s, EvalCommand(UnlockScript)) <==> LockKey(key) !in run.store.kv)
            && run.store.failing == s.failing
  {
    var s1 := Store(s, LockKey(key), Text(token), LockTtlMillis);
    assert AcquireLock(s, key, token, LockTtlMillis) == Ok((Some(token), s1));
    var s2 := Put(cfg, s1, key, codec, Some(v), costMillis).value;
    assert LockKey(key) in s2.kv && s2.kv[LockKey(key)] == Text(token);
  }

  /** A leader whose recompute throws still releases the lock; alone in the world,
      its re-reads then find nothing and `get` fails after two of them. */
  lemma FailedLeaderReleasesAndExhausts<V>(cfg: PerConfig, s: Redis, key: string, codec: Codec<V>, logDraw: real,
                                           token: string)
    requires IsMiss(cfg, s, key)
    requires Coherent(s) && LockKey(key) !in s.kv
    requires !Fails(s, SetIfAbsentCommand) && !Fails(s, EvalCommand(UnlockScript))
    ensures var run := Get(cfg, s, key, codec, logDraw, token, Threw, Alone);
            && run.result == Err(CacheException(RetriesExhausted))
            && run.trace == [CacheRead(key), LockAttempt(LockKey(key), true), Recomputed,
                             LockRelease(LockKey(key), true), CacheRead(key), CacheRead(key)]
            && run.store == s
  {
    var s1 := Store(s, LockKey(key), Text(token), LockTtlMillis);
    assert AcquireLock(s, key, token, LockTtlMillis) == Ok((Some(token), s1));
    assert s1.kv - {LockKey(key)} == s.kv;
    assert s1.ttl - {LockKey(key)} == s.ttl;
    assert Remove(s1, LockKey(key)) == s;
    var lead := TryRecomputeSingleFlight(cfg, s, key, codec, token, Threw);
    assert lead == Run(Ok(None), s, [LockAttempt(LockKey(key), true), Recomputed, LockRelease(LockKey(key), true)]);
    var retry := RetryGetFromCacheOrFail(cfg, s, key, codec, Alone, 0);
    var retry1 := RetryGetFromCacheOrFail(cfg, s, key, codec, Alone, 1);
    assert retry1 == Run(Err(RetriesExhausted), s, [CacheRead(key)]);
    assert retry == Run(Err(RetriesExhausted), s, [CacheRead(key), CacheRead(key)]);
  }

  /** A caller that finds the lock taken never recomputes; it serves the value
      another process writes during its first back-off. */
  lemma FollowerServesConcurrentWrite<V>(cfg: PerConfig, s: Redis, key: string, codec: Codec<V>, logDraw: real,
                                         token: string, recompute: Recomputation<V>, others: (nat, Redis) -> Redis)
    requires IsMiss(cfg, s, key)
    requires LockKey(key) in s.kv && !Fails(s, SetIfAbsentCommand)
    requires HitData(cfg, others(0, s), key).Some?
    ensures var run := Get(cfg, s, key, codec, logDraw, token, recompute, others);
            && run.result == Deserialize(codec, HitData(cfg, others(0, s), key).value).MapError(Rethrow)
            && run.trace == [CacheRead(key), LockAttempt(LockKey(key), false), CacheRead(key)]
            && run.store == others(0, s)
  {
  }

  /** Alone in the world, a follower of a cold key gives up after two re-reads
      without calling the recomputer or changing the store. */
  lemma SequentialFollowerExhausts<V>(cfg: PerConfig, s: Redis, key: string, codec: Codec<V>, logDraw: real,
                                      token: string, recompute: Recomputation<V>)
    requires IsMiss(cfg, s, key)
    requires LockKey(key) in s.kv && !Fails(s, SetIfAbsentCommand)
    ensures var run := Get(cfg, s, key, codec, logDraw, token, recompute, Alone);
            && run.result == Err(CacheException(RetriesExhausted))
            && run.trace == [CacheRead(key), LockAttempt(LockKey(key), false), CacheRead(key), CacheRead(key)]
            && run.store == s
  {
    var retry1 := RetryGetFromCacheOrFail(cfg, s, key, codec, Alone, 1);
    assert retry1 == Run(Err(RetriesExhausted), s, [CacheRead(key)]);
  }

  /** The early-refresh draw never changes what `get` does. */
  lemma GetIgnoresRefreshDraw<V>(cfg: PerConfig, s: Redis, key: string, codec: Codec<V>, draw1: real, draw2: real,
                                 token: string, recompute: Recomputation<V>, others: (nat, Redis) -> Redis)
    ensures Get(cfg, s, key, codec, draw1, token, recompute, others)
         == Get(cfg, s, key, codec, draw2, token, recompute, others)
  {
  }

  /** Single flight, sequentially: once a leader has filled a cold key, every
      later read serves that value from the cache without recomputing. */
  lemma SecondReadServesFirst<V>(cfg: PerConfig, s: Redis, key: string, codec: Codec<V>, token: string,
                                 v: V, costMillis: int, others: (nat, Redis) -> Redis,
                                 logDraw: real, token2: string, recompute2: Recomputation<V>, others2: (nat, Redis) -> Redis)
    requires WellFormedConfig(cfg)
    requires IsMiss(cfg, s, key)
    requires LockKey(key) !in s.kv
    requires !Fails(s, SetIfAbsentCommand) && !Fails(s, EvalCommand(CacheSetScript)) && !Fails(s, EvalCommand(CacheGetScript))
    requires RoundTrips(codec, Some(v))
    ensures var first := Get(cfg, s, key, codec, logDraw, token, Returned(Some(v), costMillis), others);
            var second := Get(cfg, first.store, key, codec, logDraw, token2, recompute2, others2);
            && second.result == Ok(Some(v))
            && second.trace == [CacheRead(key)]
            && second.store == first.store
  {
    ColdKeyLeader(cfg, s, key, codec, logDraw, token, v, costMillis, others);
    var first := Get(cfg, s, key, codec, logDraw, token, Returned(Some(v), costMillis), others);
    var st := first.store;
    assert DeltaKey(cfg, key) != key;
    assert HitData(cfg, st, key) == Some(codec.serialize(Some(v)).text);
  }
}
