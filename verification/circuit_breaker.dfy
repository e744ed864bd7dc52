/** `SimpleCircuitBreaker`: a failure counter and a state, changed only by the
    outcome of the main operation. Once the count exceeds `maxFailures` the
    breaker is OPEN and every call goes straight to the fallback; nothing ever
    moves it back, and HALF_OPEN is never entered. */
module CircuitBreaker {
  import opened Wrappers
  import opened JavaText

  datatype CircuitBreakerState = Closed | Open | HalfOpen

  /** The counter is a Java `int` (an `AtomicInteger`). */
  datatype Breaker = Breaker(failureCount: int, state: CircuitBreakerState, maxFailures: int)

  /** What the main operation does when called: return a value or throw. */
  datatype Attempt<T> = Succeeds(value: T) | Throws

  datatype Call = MainCall | FallbackCall

  /** A call's result, the breaker after it, and which operations it invoked. */
  datatype Execution<T, E> = Execution(result: Result<T, E>, breaker: Breaker, calls: seq<Call>)

  const DefaultMaxFailures: int := 3

  /** `new SimpleCircuitBreaker(maxFailures)`. */
  function WithMaxFailures(maxFailures: int): (b: Breaker)
    ensures b.state == Closed && b.failureCount == 0 && b.maxFailures == maxFailures
  {
    Breaker(0, Closed, maxFailures)
  }

  /** `new SimpleCircuitBreaker()`. */
  function Default(): (b: Breaker)
    ensures b.state == Closed && b.failureCount == 0 && b.maxFailures == 3
  {
    WithMaxFailures(DefaultMaxFailures)
  }

  /** The one breaker `SearchBookFacade` shares between all its searches. */
  const SearchFacadeBreaker: Breaker := WithMaxFailures(3)

  /** `onSuccess`. */
  function OnSuccess(b: Breaker): (b': Breaker)
    ensures b' == WithMaxFailures(b.maxFailures)
  {
    b.(failureCount := 0, state := Closed)
  }

  /** `onFailure`: `incrementAndGet` wraps at the top of the `int` range. */
  function OnFailure(b: Breaker): (b': Breaker)
    ensures b'.failureCount == Wrap32(b.failureCount + 1) && b'.maxFailures == b.maxFailures
    ensures b'.state == Open <==> b.state == Open || b'.failureCount > b.maxFailures
    ensures b'.state != Open ==> b'.state == b.state
  {
    var failures := Wrap32(b.failureCount + 1);
    if failures > b.maxFailures then b.(failureCount := failures, state := Open)
    else b.(failureCount := failures)
  }

  /** `execute(main, fallback)`. The fallback's own result, error included, is
      passed on unchanged. */
  function Execute<T, E>(b: Breaker, main: Attempt<T>, fallback: Result<T, E>): (x: Execution<T, E>)
    // OPEN: only the fallback runs, and the breaker stays as it is
    ensures b.state == Open ==> x == Execution(fallback, b, [FallbackCall])
    // success: the main result, count reset, CLOSED
    ensures b.state != Open && main.Succeeds? ==>
              && x.result == Ok(main.value)
              && x.breaker == WithMaxFailures(b.maxFailures)
              && x.calls == [MainCall]
    // failure: one more failure counted, the fallback's result instead of the error
    ensures b.state != Open && main.Throws? ==>
              && x.result == fallback
              && x.breaker.failureCount == Wrap32(b.failureCount + 1)
              && x.breaker.maxFailures == b.maxFailures
              && (x.breaker.state == Open <==> x.breaker.failureCount > b.maxFailures)
              && (x.breaker.state != Open ==> x.breaker.state == b.state)
              && x.calls == [MainCall, FallbackCall]
  {
    if b.state == Open then Execution(fallback, b, [FallbackCall])
    else match main
      case Succeeds(v) => Execution(Ok(v), OnSuccess(b), [MainCall])
      case Throws => Execution(fallback, OnFailure(b), [MainCall, FallbackCall])
  }

  function GetState(b: Breaker): CircuitBreakerState {
    b.state
  }

  function GetFailureCount(b: Breaker): int {
    b.failureCount
  }

  function IsOpen(b: Breaker): bool {
    b.state == Open
  }

  function IsClosed(b: Breaker): bool {
    b.state == Closed
  }

  // ---------------------------------------------------------------------------
  // Reachable breakers
  // ---------------------------------------------------------------------------

  /** What holds of every breaker built by a constructor and driven by `execute`. */
  predicate Reachable(b: Breaker) {
    && IsInt32(b.failureCount) && IsInt32(b.maxFailures)
    && b.state != HalfOpen
    && (b.state == Open ==> b.failureCount > b.maxFailures)
  }

  /** The breaker after a run of calls whose main operations succeed (`true`) or
      throw (`false`), oldest first. */
  function RunBreaker(b: Breaker, outcomes: seq<bool>): Breaker
    decreases |outcomes|
  {
    if outcomes == [] then b
    else
      var main: Attempt<()> := if outcomes[|outcomes| - 1] then Succeeds(()) else Throws;
      Execute<(), ()>(RunBreaker(b, outcomes[..|outcomes| - 1]), main, Ok(())).breaker
  }

  /** The breaker after `k` consecutive failing calls. */
  function AfterFailures(b: Breaker, k: nat): Breaker {
    RunBreaker(b, seq(k, _ => false))
  }

  /** Every run from a constructed breaker stays reachable: HALF_OPEN is never
      entered, and OPEN once entered is never left. */
  lemma {:induction false} RunStaysReachable(maxFailures: int, outcomes: seq<bool>)
    requires IsInt32(maxFailures)
    ensures Reachable(RunBreaker(WithMaxFailures(maxFailures), outcomes))
    ensures forall i :: 0 <= i <= |outcomes| && RunBreaker(WithMaxFailures(maxFailures), outcomes[..i]).state == Open ==>
              RunBreaker(WithMaxFailures(maxFailures), outcomes) == RunBreaker(WithMaxFailures(maxFailures), outcomes[..i])
    decreases |outcomes|
  {
    var b0 := WithMaxFailures(maxFailures);
    if outcomes != [] {
      var prefix := outcomes[..|outcomes| - 1];
      RunStaysReachable(maxFailures, prefix);
      forall i | 0 <= i <= |outcomes| && RunBreaker(b0, outcomes[..i]).state == Open
        ensures RunBreaker(b0, outcomes) == RunBreaker(b0, outcomes[..i])
      {
        if i < |outcomes| {
          assert outcomes[..i] == prefix[..i];
          assert prefix[..|prefix|] == prefix;
        } else {
          assert outcomes[..i] == outcomes;
        }
      }
    } else {
      assert forall i :: 0 <= i <= 0 ==> outcomes[..i] == [];
    }
  }

  /** `isOpen` and `isClosed` are the two readings of `getState`, and for a
      reachable breaker exactly one of them holds. */
  lemma StateQueriesAgree(b: Breaker)
    requires Reachable(b)
    ensures IsOpen(b) <==> GetState(b) == Open
    ensures IsClosed(b) <==> GetState(b) == Closed
    ensures IsOpen(b) != IsClosed(b)
  {
  }

  /** From a fresh (or reset) breaker, `k` consecutive failures count `k`, capped
      at `maxFailures + 1`, and the breaker is OPEN exactly when `k > maxFailures`. */
  lemma {:induction false} ConsecutiveFailures(maxFailures: int, k: nat)
    requires 0 <= maxFailures < IntMax
    ensures var b := AfterFailures(WithMaxFailures(maxFailures), k);
            && b.failureCount == (if k <= maxFailures + 1 then k else maxFailures + 1)
            && (b.state == Open <==> k > maxFailures)
            && b.maxFailures == maxFailures
  {
    if k > 0 {
      ConsecutiveFailures(maxFailures, k - 1);
      assert seq(k, _ => false)[..k - 1] == seq(k - 1, _ => false);
    }
  }

  /** The facade's breaker lets three consecutive failures through and opens on the fourth. */
  lemma SearchFacadeOpensOnFourthFailure()
    ensures AfterFailures(SearchFacadeBreaker, 3).state == Closed
    ensures AfterFailures(SearchFacadeBreaker, 4).state == Open
  {
    ConsecutiveFailures(3, 3);
    ConsecutiveFailures(3, 4);
    RunStaysReachable(3, seq(3, _ => false));
  }
}
