/**
 * The trace linker's bounded retry: query the tracer, and on an unusable
 * answer try again, up to `retries` more times.
 */
module TraceRetry {
  import opened Wrappers
  import opened JsValues
  import opened Storage

  /** The retry count the initialisation passes. */
  const TraceRetries: int := 3

  /** An answer the linker accepts: truthy and not the sentinel. */
  predicate Usable(v: JValue) {
    Truthy(v) && !StrictEq(v, JStr(NoTraceId))
  }

  /** How many queries `retries` permits: the first one plus one per retry. */
  function QueryBudget(retries: int): (n: nat)
    ensures n >= 1
  {
    if retries > 0 then retries + 1 else 1
  }

  /** Reference definition: the first usable answer among queries
      `from .. budget - 1`, where `outcome(i)` is what query `i` returns. */
  function FirstUsable(outcome: nat -> JValue, from: nat, budget: nat): (r: Option<JValue>)
    ensures r.None? <==> forall i :: from <= i < budget ==> !Usable(outcome(i))
    ensures r.Some? ==> Usable(r.value)
    decreases budget - from
  {
    if from >= budget then None
    else if Usable(outcome(from)) then Some(outcome(from))
    else FirstUsable(outcome, from + 1, budget)
  }

  /** The retry loop. `queries` is how many times the tracer was asked; the
      result is what `onResult` receives, with `None` for `null`. */
  method TryGetTraceIdWithRetry(retries: int, outcome: nat -> JValue) returns (traceId: Option<JValue>, queries: nat)
    ensures 1 <= queries <= QueryBudget(retries)
    ensures forall i :: 0 <= i < queries - 1 ==> !Usable(outcome(i))
    ensures traceId.Some? ==> Usable(outcome(queries - 1)) && traceId.value == outcome(queries - 1)
    ensures traceId.None? ==> queries == QueryBudget(retries) && !Usable(outcome(queries - 1))
    ensures traceId == FirstUsable(outcome, 0, QueryBudget(retries))
  {
    var attempts: nat := 0;
    var current := outcome(0);
    queries := 1;
    while !Usable(current) && attempts < retries
      invariant queries == attempts + 1 && queries <= QueryBudget(retries)
      invariant current == outcome(attempts)
      invariant forall i :: 0 <= i < attempts ==> !Usable(outcome(i))
      invariant FirstUsable(outcome, 0, QueryBudget(retries)) == FirstUsable(outcome, attempts, QueryBudget(retries))
      decreases retries - attempts
    {
      attempts := attempts + 1;
      current := outcome(attempts);
      queries := queries + 1;
    }
    if Usable(current) {
      traceId := Some(current);
    } else {
      traceId := None;
    }
  }

  /** What the callback stores: the resolved id, or the sentinel for `null`. */
  function StoredTraceId(result: Option<JValue>): (v: JValue)
    ensures Truthy(v)
    ensures result.Some? && Truthy(result.value) ==> v == result.value
    ensures result.None? ==> v == JStr(NoTraceId)
  {
    if result.Some? && Truthy(result.value) then result.value else JStr(NoTraceId)
  }
}
