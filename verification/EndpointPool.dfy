/** A weighted, health-aware pool of endpoints with per-request failover. */
module Endpoints {
  import opened Domain
  import opened FloorMath
  import SmoothOrder

  /** Milliseconds. */
  type Instant = nat

  const COOLDOWN_BASE: nat := 2_000
  const COOLDOWN_CAP: nat := 60_000
  const MAX_BACKOFF_SHIFT: nat := 5

  datatype EndpointSpec = EndpointSpec(url: string, name: string, weight: U32)

  datatype Endpoint = Endpoint(url: string, name: string)

  datatype Attempt = Attempt(name: string, error: ClientError)

  datatype ClientError =
    | InvalidConfig(reason: string)
    | WebSocketError(message: string)
    | HttpTransport(message: string)
    | HttpStatus(status: nat, body: string)
    | JsonRpcError(code: string, message: string)
    | MalformedResponse(context: string, detail: string)
    | FailoverExhausted(trace: seq<Attempt>, poolSize: nat, shortCircuited: bool)
    | EventReceiverDropped

  /** Whether another endpoint might serve what this one refused. */
  predicate IsRetryable(error: ClientError) {
    match error
    case HttpTransport(_) => true
    case HttpStatus(status, _) => status in {400, 401, 403, 408, 425, 429} || status >= 500
    case JsonRpcError(_, _) => true
    case MalformedResponse(_, _) => true
    case InvalidConfig(_) => false
    case WebSocketError(_) => false
    case FailoverExhausted(_, _, _) => false
    case EventReceiverDropped => false
  }

  datatype Health = Health(consecutiveFailures: U32, cooldownUntil: Option<Instant>)

  const HEALTHY := Health(0, None)

  function Shifted(base: nat, shift: nat): (r: nat)
    ensures base <= r
  {
    if shift == 0 then base else 2 * Shifted(base, shift - 1)
  }

  function BackoffDuration(consecutiveFailures: U32): nat {
    var doublings := if consecutiveFailures == 0 then 0 else consecutiveFailures - 1;
    var shift := if doublings < MAX_BACKOFF_SHIFT then doublings else MAX_BACKOFF_SHIFT;
    var backoff := Shifted(COOLDOWN_BASE, shift);
    if backoff < COOLDOWN_CAP then backoff else COOLDOWN_CAP
  }

  /** The cooldown starts at the base and doubles with every further failure until it meets the cap,
      which it then keeps: the shift limit never shows. */
  lemma BackoffDoublesUpToTheCap(failures: U32)
    requires 0 < failures && failures + 1 < 0x1_0000_0000
    ensures BackoffDuration(1) == 2_000
    ensures BackoffDuration(failures + 1)
            == if 2 * BackoffDuration(failures) < 60_000 then 2 * BackoffDuration(failures) else 60_000
  {
    assert Shifted(COOLDOWN_BASE, 4) == 2 * Shifted(COOLDOWN_BASE, 3);
    assert Shifted(COOLDOWN_BASE, 2) == 2 * Shifted(COOLDOWN_BASE, 1);
  }

  // ---- Picking ----

  function At(order: seq<nat>, start: nat, offset: nat): nat
    requires order != []
  {
    order[(start + offset) % |order|]
  }

  function Cooldown(health: seq<Health>, idx: nat): Option<Instant> {
    if idx < |health| then health[idx].cooldownUntil else None
  }

  predicate Ready(health: seq<Health>, idx: nat, now: Instant) {
    Cooldown(health, idx).None? || Cooldown(health, idx).value <= now
  }

  /** The first untried endpoint in rotation order that is not cooling down. */
  predicate IsFirstReady(order: seq<nat>, health: seq<Health>, start: nat, tried: seq<nat>, now: Instant, offset: nat)
    requires order != []
  {
    && offset < |order|
    && At(order, start, offset) !in tried && Ready(health, At(order, start, offset), now)
    && forall k | 0 <= k < offset :: At(order, start, k) in tried || !Ready(health, At(order, start, k), now)
  }

  /** Among untried endpoints, all cooling down, the soonest to expire; ties to the first in rotation. */
  predicate IsSoonest(order: seq<nat>, health: seq<Health>, start: nat, tried: seq<nat>, now: Instant,
                      limit: nat, offset: nat)
    requires order != [] && limit <= |order|
  {
    && offset < limit
    && At(order, start, offset) !in tried && !Ready(health, At(order, start, offset), now)
    && (forall k | 0 <= k < limit :: At(order, start, k) in tried || (
          && !Ready(health, At(order, start, k), now)
          && var (until, best) := (Cooldown(health, At(order, start, k)).value,
                                   Cooldown(health, At(order, start, offset)).value);
             best <= until && (k < offset ==> best < until)))
  }

  ghost predicate IsPick(order: seq<nat>, health: seq<Health>, start: nat, tried: seq<nat>, now: Instant, idx: nat)
    requires order != []
  {
    || (exists offset :: IsFirstReady(order, health, start, tried, now, offset) && idx == At(order, start, offset))
    || (exists offset :: IsSoonest(order, health, start, tried, now, |order|, offset) && idx == At(order, start, offset))
    || ((forall k | 0 <= k < |order| :: At(order, start, k) in tried) && idx == At(order, start, 0))
  }

  /** A rotation from anywhere passes every position of the cycle. */
  lemma RotationReaches(order: seq<nat>, start: nat, j: nat) returns (offset: nat)
    requires j < |order|
    ensures offset < |order| && At(order, start, offset) == order[j]
  {
    var len := |order|;
    var q, s := start / len, start % len;
    assert start == q * len + s;
    if s <= j {
      offset := j - s;
      UniqueRemainder(start + offset, len, q, j);
    } else {
      offset := j + len - s;
      assert start + offset == (q + 1) * len + j;
      UniqueRemainder(start + offset, len, q + 1, j);
    }
  }

  /** Whatever the cursor and the health, a pick is untried as long as the cycle holds one untried. */
  lemma PickIsUntried(order: seq<nat>, health: seq<Health>, start: nat, tried: seq<nat>, now: Instant, idx: nat, e: nat)
    requires order != [] && IsPick(order, health, start, tried, now, idx)
    requires e in order && e !in tried
    ensures idx in order && idx !in tried
  {
    var j :| 0 <= j < |order| && order[j] == e;
    var offset := RotationReaches(order, start, j);
    assert At(order, start, offset) !in tried;
  }

  /** With nothing tried and everyone healthy a pick is simply the cursor's turn. */
  lemma HealthyPickIsTheTurn(order: seq<nat>, health: seq<Health>, start: nat, now: Instant, idx: nat)
    requires order != [] && IsPick(order, health, start, [], now, idx)
    requires forall e <- order :: Ready(health, e, now)
    ensures idx == At(order, start, 0)
  {
    assert At(order, start, 0) in order;
    forall k | 0 <= k < |order| ensures Ready(health, At(order, start, k), now) {
      assert At(order, start, k) in order;
    }
  }

  lemma {:induction false} CountSplits(a: seq<nat>, b: seq<nat>, i: nat)
    ensures SmoothOrder.Count(a + b, i) == SmoothOrder.Count(a, i) + SmoothOrder.Count(b, i)
  {
    if b == [] {
      assert a + b == a;
    } else {
      assert (a + b)[..|a + b| - 1] == a + b[..|b| - 1];
      CountSplits(a, b[..|b| - 1], i);
    }
  }

  /** Whose turn it is at each of |order| successive cursors. */
  function Turns(order: seq<nat>, start: nat): (r: seq<nat>)
    requires order != []
    ensures |r| == |order| && forall k | 0 <= k < |order| :: r[k] == At(order, start + k, 0)
  {
    seq<nat>(|order|, k requires 0 <= k < |order| => At(order, start + k, 0))
  }

  lemma TurnAt(order: seq<nat>, start: nat, k: nat)
    requires k < |order|
    ensures var s := start % |order|; At(order, start + k, 0) == (order[s..] + order[..s])[k]
  {
    var len := |order|;
    var q, s := start / len, start % len;
    assert start == q * len + s;
    if s + k < len {
      UniqueRemainder(start + k, len, q, s + k);
    } else {
      assert start + k == (q + 1) * len + (s + k - len);
      UniqueRemainder(start + k, len, q + 1, s + k - len);
    }
  }

  lemma TurnsRotate(order: seq<nat>, start: nat)
    requires order != []
    ensures var s := start % |order|; Turns(order, start) == order[s..] + order[..s]
  {
    var s := start % |order|;
    forall k | 0 <= k < |order| ensures Turns(order, start)[k] == (order[s..] + order[..s])[k] {
      TurnAt(order, start, k);
    }
  }

  lemma RotationKeepsCounts(order: seq<nat>, s: nat, i: nat)
    requires s <= |order|
    ensures SmoothOrder.Count(order[s..] + order[..s], i) == SmoothOrder.Count(order, i)
  {
    CountSplits(order[s..], order[..s], i);
    CountSplits(order[..s], order[s..], i);
    assert order[..s] + order[s..] == order;
  }

  /** The turns of one cycle's worth of successive cursors, wherever they start, give each endpoint
      exactly its weight. */
  lemma AnyWindowTracksTheWeights(weights: seq<nat>, order: seq<nat>, start: nat, i: nat)
    requires SmoothOrder.Greedy(weights, order) && |order| == SmoothOrder.Sum(weights) > 0 && i < |weights|
    ensures SmoothOrder.Count(Turns(order, start), i) == weights[i]
  {
    TurnsRotate(order, start);
    RotationKeepsCounts(order, start % |order|, i);
    SmoothOrder.CycleIsExact(weights, order);
  }

  // ---- Failover ----

  predicate Distinct(s: seq<nat>) {
    forall i, j | 0 <= i < j < |s| :: s[i] != s[j]
  }

  function Below(n: nat): (r: set<nat>)
    ensures |r| == n
    ensures forall i: nat :: i in r <==> i < n
  {
    if n == 0 then {} else Below(n - 1) + {n - 1}
  }

  function Elements(s: seq<nat>): set<nat> {
    set x | x in s
  }

  lemma {:induction false} DistinctSize(s: seq<nat>)
    requires Distinct(s)
    ensures |Elements(s)| == |s|
  {
    if s != [] {
      var last := |s| - 1;
      DistinctSize(s[..last]);
      assert s == s[..last] + [s[last]];
      assert Elements(s) == Elements(s[..last]) + {s[last]};
      assert s[last] !in Elements(s[..last]);
    }
  }

  /** Fewer distinct tries than endpoints leave one untried; as many leave none. */
  lemma TriedAgainstPool(tried: seq<nat>, n: nat)
    requires Distinct(tried) && forall i | 0 <= i < |tried| :: tried[i] < n
    ensures |tried| <= n
    ensures |tried| < n ==> exists e: nat :: e < n && e !in tried
    ensures |tried| == n ==> forall e | 0 <= e < n :: e in tried
  {
    DistinctSize(tried);
    var elements := Elements(tried);
    assert elements <= Below(n);
    SubsetSize(elements, Below(n));
    if |tried| < n && forall e: nat :: e < n ==> e in tried {
      assert Below(n) <= elements;
      SubsetSize(Below(n), elements);
    }
    if |tried| == n {
      forall e | 0 <= e < n ensures e in tried {
        if e !in tried {
          assert elements <= Below(n) - {e};
          SubsetSize(elements, Below(n) - {e});
        }
      }
    }
  }

  lemma SubsetSize(a: set<nat>, b: set<nat>)
    requires a <= b
    ensures |a| <= |b|
  {
    assert b == a + (b - a);
    assert |b| == |a| + |b - a|;
  }

  /** What one attempt of a request yields, given how many came before it and the url it goes to. */
  type Attempts<T> = (nat, string) -> Result<T, ClientError>

  function TraceOf<T>(endpoints: seq<Endpoint>, attempt: Attempts<T>, calls: seq<nat>): (r: seq<Attempt>)
    requires forall k | 0 <= k < |calls| ::
      calls[k] < |endpoints| && attempt(k, endpoints[calls[k]].url).Err?
    ensures |r| == |calls|
  {
    seq(|calls|, k requires 0 <= k < |calls| =>
      Attempt(endpoints[calls[k]].name, attempt(k, endpoints[calls[k]].url).error))
  }

  ghost predicate FailsRetryably<T>(attempt: Attempts<T>, k: nat, url: string) {
    attempt(k, url).Err? && IsRetryable(attempt(k, url).error)
  }

  /** Distinct endpoints, each of which failed retryably when it was asked. */
  ghost predicate AllFailed<T>(endpoints: seq<Endpoint>, attempt: Attempts<T>, tried: seq<nat>) {
    && Distinct(tried)
    && forall k | 0 <= k < |tried| ::
         tried[k] < |endpoints| && FailsRetryably(attempt, k, endpoints[tried[k]].url)
  }

  /** Endpoint `calls[k]` was the k-th one asked, every ask before the last failed retryably, and the
      result is what the last ask settled. */
  ghost predicate IsFailover<T>(endpoints: seq<Endpoint>, attempt: Attempts<T>, calls: seq<nat>, r: Result<T, ClientError>) {
    && calls != [] && Distinct(calls)
    && var last := |calls| - 1;
       && calls[last] < |endpoints|
       && AllFailed(endpoints, attempt, calls[..last])
       && match attempt(last, endpoints[calls[last]].url)
          case Ok(value) => r == Ok(value)
          case Err(error) =>
            && (IsRetryable(error) ==> |calls| == |endpoints|)
            && r == Err(if |endpoints| == 1 then error else
                        FailoverExhausted(
                          TraceOf(endpoints, attempt, calls[..last]) + [Attempt(endpoints[calls[last]].name, error)],
                          |endpoints|, !IsRetryable(error)))
  }

  /** A request under way: everything tried failed retryably, and the trace, kept only where there is
      more than one endpoint, and the last error say so. */
  ghost predicate InProgress<T>(endpoints: seq<Endpoint>, attempt: Attempts<T>, tried: seq<nat>, trace: seq<Attempt>,
                                lastError: Option<ClientError>) {
    && AllFailed(endpoints, attempt, tried)
    && (|endpoints| > 1 ==> trace == TraceOf(endpoints, attempt, tried))
    && (tried != [] ==> lastError == Some(attempt(|tried| - 1, endpoints[tried[|tried| - 1]].url).error))
  }

  /** What a request in progress still needs to know of what it tried. */
  lemma TriedAreEndpoints<T>(endpoints: seq<Endpoint>, attempt: Attempts<T>, tried: seq<nat>, trace: seq<Attempt>,
                             lastError: Option<ClientError>)
    requires InProgress(endpoints, attempt, tried, trace, lastError)
    ensures Distinct(tried) && forall k | 0 <= k < |tried| :: tried[k] < |endpoints|
  {
  }

  lemma SuccessSettles<T>(endpoints: seq<Endpoint>, attempt: Attempts<T>, tried: seq<nat>, trace: seq<Attempt>,
                          lastError: Option<ClientError>, idx: nat, value: T)
    requires InProgress(endpoints, attempt, tried, trace, lastError) && idx < |endpoints| && idx !in tried
    requires attempt(|tried|, endpoints[idx].url) == Ok(value)
    ensures IsFailover(endpoints, attempt, tried + [idx], Ok(value))
  {
    assert (tried + [idx])[..|tried|] == tried;
  }

  lemma FatalSettles<T>(endpoints: seq<Endpoint>, attempt: Attempts<T>, tried: seq<nat>, trace: seq<Attempt>,
                        lastError: Option<ClientError>, idx: nat, error: ClientError)
    requires InProgress(endpoints, attempt, tried, trace, lastError) && idx < |endpoints| && idx !in tried
    requires attempt(|tried|, endpoints[idx].url) == Err(error) && !IsRetryable(error)
    ensures IsFailover(endpoints, attempt, tried + [idx], Err(
              if |endpoints| > 1 then FailoverExhausted(trace + [Attempt(endpoints[idx].name, error)], |endpoints|, true)
              else error))
  {
    assert (tried + [idx])[..|tried|] == tried;
  }

  lemma FailuresGrow<T>(endpoints: seq<Endpoint>, attempt: Attempts<T>, tried: seq<nat>, idx: nat)
    requires AllFailed(endpoints, attempt, tried) && idx < |endpoints| && idx !in tried
    requires FailsRetryably(attempt, |tried|, endpoints[idx].url)
    ensures AllFailed(endpoints, attempt, tried + [idx])
    ensures TraceOf(endpoints, attempt, tried + [idx])
            == TraceOf(endpoints, attempt, tried)
               + [Attempt(endpoints[idx].name, attempt(|tried|, endpoints[idx].url).error)]
  {
  }

  lemma FailureProgresses<T>(endpoints: seq<Endpoint>, attempt: Attempts<T>, tried: seq<nat>, trace: seq<Attempt>,
                             lastError: Option<ClientError>, idx: nat, error: ClientError)
    requires InProgress(endpoints, attempt, tried, trace, lastError) && idx < |endpoints| && idx !in tried
    requires attempt(|tried|, endpoints[idx].url) == Err(error) && IsRetryable(error)
    ensures InProgress(endpoints, attempt, tried + [idx],
                       if |endpoints| > 1 then trace + [Attempt(endpoints[idx].name, error)] else trace, Some(error))
  {
    FailuresGrow(endpoints, attempt, tried, idx);
  }

  /** The trace with one more failure, which a pool of one endpoint does not keep. */
  function Traced(endpoints: seq<Endpoint>, trace: seq<Attempt>, idx: nat, error: ClientError): seq<Attempt>
    requires idx < |endpoints|
  {
    if |endpoints| > 1 then trace + [Attempt(endpoints[idx].name, error)] else trace
  }

  /** What the outcome of an ask settles: a value or a failure that cannot be retried ends the request,
      anything else goes on the trace. */
  lemma OutcomeSettles<T>(endpoints: seq<Endpoint>, attempt: Attempts<T>, tried: seq<nat>, trace: seq<Attempt>,
                          lastError: Option<ClientError>, idx: nat)
    requires InProgress(endpoints, attempt, tried, trace, lastError) && idx < |endpoints| && idx !in tried
    ensures
      match attempt(|tried|, endpoints[idx].url)
      case Ok(value) => IsFailover(endpoints, attempt, tried + [idx], Ok(value))
      case Err(error) =>
        var longer := Traced(endpoints, trace, idx, error);
        if IsRetryable(error) then InProgress(endpoints, attempt, tried + [idx], longer, Some(error))
        else IsFailover(endpoints, attempt, tried + [idx],
                        Err(if |endpoints| > 1 then FailoverExhausted(longer, |endpoints|, true) else error))
  {
    match attempt(|tried|, endpoints[idx].url) {
      case Ok(value) => SuccessSettles(endpoints, attempt, tried, trace, lastError, idx, value);
      case Err(error) =>
        if IsRetryable(error) {
          FailureProgresses(endpoints, attempt, tried, trace, lastError, idx, error);
        } else {
          FatalSettles(endpoints, attempt, tried, trace, lastError, idx, error);
        }
    }
  }

  lemma ExhaustionSettles<T>(endpoints: seq<Endpoint>, attempt: Attempts<T>, tried: seq<nat>, trace: seq<Attempt>,
                             lastError: Option<ClientError>)
    requires InProgress(endpoints, attempt, tried, trace, lastError) && |tried| == |endpoints| > 0
    ensures lastError.Some?
    ensures IsFailover(endpoints, attempt, tried, Err(
              if |endpoints| > 1 then FailoverExhausted(trace, |endpoints|, false) else lastError.value))
  {
    var last := |tried| - 1;
    assert FailsRetryably(attempt, last, endpoints[tried[last]].url);
    FailuresGrow(endpoints, attempt, tried[..last], tried[last]);
    assert tried[..last] + [tried[last]] == tried;
  }

  lemma CallsAreEndpoints<T>(endpoints: seq<Endpoint>, attempt: Attempts<T>, calls: seq<nat>, r: Result<T, ClientError>)
    requires IsFailover(endpoints, attempt, calls, r)
    ensures forall k | 0 <= k < |calls| :: calls[k] < |endpoints|
    ensures forall k | 0 <= k < |calls| - 1 :: FailsRetryably(attempt, k, endpoints[calls[k]].url)
  {
    var before := calls[..|calls| - 1];
    assert forall k | 0 <= k < |before| :: calls[k] == before[k];
  }

  /** If every failure is retryable and some endpoint would always serve, the request is served. */
  lemma SomeEndpointServes<T>(endpoints: seq<Endpoint>, attempt: Attempts<T>, calls: seq<nat>,
                              r: Result<T, ClientError>, e: nat)
    requires IsFailover(endpoints, attempt, calls, r)
    requires forall k, url :: attempt(k, url).Ok? || IsRetryable(attempt(k, url).error)
    requires e < |endpoints| && forall k :: attempt(k, endpoints[e].url).Ok?
    ensures r.Ok?
  {
    if r.Err? {
      CallsAreEndpoints(endpoints, attempt, calls, r);
      TriedAgainstPool(calls, |endpoints|);
      assert e in calls;
    }
  }

  /** If every endpoint fails retryably, each is asked exactly once and the failure names them all. */
  lemma EveryEndpointAskedOnce<T>(endpoints: seq<Endpoint>, attempt: Attempts<T>, calls: seq<nat>, r: Result<T, ClientError>)
    requires IsFailover(endpoints, attempt, calls, r)
    requires forall k, url :: FailsRetryably(attempt, k, url)
    ensures |calls| == |endpoints| && Distinct(calls) && forall e | 0 <= e < |endpoints| :: e in calls
    ensures r.Err? && (|endpoints| > 1 ==>
              r.error.FailoverExhausted? && |r.error.trace| == |endpoints| && !r.error.shortCircuited)
  {
    assert FailsRetryably(attempt, |calls| - 1, endpoints[calls[|calls| - 1]].url);
    CallsAreEndpoints(endpoints, attempt, calls, r);
    TriedAgainstPool(calls, |endpoints|);
  }

  /** A request fails exactly when its last ask failed: unretryably, or with every endpoint asked. */
  lemma FailsOnlyWhenStopped<T>(endpoints: seq<Endpoint>, attempt: Attempts<T>, calls: seq<nat>, r: Result<T, ClientError>)
    requires IsFailover(endpoints, attempt, calls, r)
    ensures var last := attempt(|calls| - 1, endpoints[calls[|calls| - 1]].url);
            r.Err? <==> last.Err? && (!IsRetryable(last.error) || forall e | 0 <= e < |endpoints| :: e in calls)
  {
    CallsAreEndpoints(endpoints, attempt, calls, r);
    TriedAgainstPool(calls, |endpoints|);
  }

  // ---- What a request does to the pool ----

  /** What requests share: whose turn it is, and how everyone is doing. */
  datatype Desk = Desk(cursor: nat, health: seq<Health>)

  /** What other requests make of that, at each of the points of a request where they can. */
  type Interference = (nat, Desk) -> Desk

  /** No other request is running. */
  ghost predicate Quiet(others: Interference) {
    forall point, desk :: others(point, desk) == desk
  }

  function Disturbed(others: Interference, point: nat, desk: Desk): (r: Desk)
    ensures |r.health| == |desk.health|
  {
    var moved := others(point, desk);
    Desk(moved.cursor, if |moved.health| == |desk.health| then moved.health else desk.health)
  }

  /** One more failure, counted up to the width of the counter, and benched for as long as that many earn. */
  function Benched(health: Health, now: Instant): Health {
    var failures: int := health.consecutiveFailures;
    var counted := if failures + 1 < 0x1_0000_0000 then failures + 1 else failures;
    Health(counted, Some(now + BackoffDuration(counted)))
  }

  /** What a request runs against. */
  datatype Setting<!T> = Setting(
    endpoints: seq<Endpoint>, order: seq<nat>, attempt: Attempts<T>, clock: nat -> Instant, others: Interference)

  /** The desk as the k-th pick finds it. */
  function DeskAt<T>(setting: Setting<T>, k: nat, desk: Desk): (r: Desk)
    ensures |r.health| == |desk.health|
  {
    Disturbed(setting.others, 2 * k, desk)
  }

  /** The desk once an outcome is reported: a success clears the endpoint, a retryable failure benches it,
      and any other failure is not reported. */
  function Reported<T>(others: Interference, point: nat, desk: Desk, outcome: Result<T, ClientError>, idx: nat, now: Instant): (r: Desk)
    ensures |r.health| == |desk.health|
  {
    if outcome.Err? && !IsRetryable(outcome.error) then desk else
      var met := Disturbed(others, point, desk);
      if idx >= |met.health| then met
      else met.(health := met.health[idx := if outcome.Ok? then HEALTHY else Benched(met.health[idx], now)])
  }

  /** The desk after the k-th ask, of endpoint `idx`: the pick moves the cursor, and the outcome is
      reported. */
  function AfterAsk<T>(setting: Setting<T>, k: nat, desk: Desk, idx: nat): (r: Desk)
    requires idx < |setting.endpoints|
    ensures |r.health| == |desk.health|
  {
    var found := DeskAt(setting, k, desk);
    Reported(setting.others, 2 * k + 1, found.(cursor := found.cursor + 1),
             setting.attempt(k, setting.endpoints[idx].url), idx, setting.clock(k))
  }

  function DeskAfter<T>(setting: Setting<T>, start: Desk, calls: seq<nat>): (r: Desk)
    requires forall k | 0 <= k < |calls| :: calls[k] < |setting.endpoints|
    ensures |r.health| == |start.health|
  {
    if calls == [] then start else
      var last := |calls| - 1;
      AfterAsk(setting, last, DeskAfter(setting, start, calls[..last]), calls[last])
  }

  /** The k-th ask went to the pick of its moment. */
  ghost predicate PickedAt<T>(setting: Setting<T>, start: Desk, calls: seq<nat>, k: nat)
    requires k < |calls| && setting.order != []
  {
    && (forall j | 0 <= j < k :: calls[..k][j] < |setting.endpoints|)
    && var found := DeskAt(setting, k, DeskAfter(setting, start, calls[..k]));
       IsPick(setting.order, found.health, found.cursor, calls[..k], setting.clock(k), calls[k])
  }

  ghost predicate IsRequest<T>(setting: Setting<T>, start: Desk, calls: seq<nat>) {
    && setting.order != []
    && (forall k | 0 <= k < |calls| :: calls[k] < |setting.endpoints|)
    && (forall k | 0 <= k < |calls| :: PickedAt(setting, start, calls, k))
  }

  lemma PickedStays<T>(setting: Setting<T>, start: Desk, calls: seq<nat>, idx: nat, k: nat)
    requires k < |calls| && setting.order != [] && PickedAt(setting, start, calls, k)
    ensures PickedAt(setting, start, calls + [idx], k)
  {
    assert (calls + [idx])[..k] == calls[..k];
  }

  lemma AskExtends<T>(setting: Setting<T>, start: Desk, calls: seq<nat>, idx: nat)
    requires idx < |setting.endpoints| && forall k | 0 <= k < |calls| :: calls[k] < |setting.endpoints|
    ensures DeskAfter(setting, start, calls + [idx]) == AfterAsk(setting, |calls|, DeskAfter(setting, start, calls), idx)
  {
    assert (calls + [idx])[..|calls|] == calls;
  }

  lemma OneMoreAsk<T>(setting: Setting<T>, start: Desk, calls: seq<nat>, idx: nat, found: Desk)
    requires IsRequest(setting, start, calls) && idx < |setting.endpoints|
    requires found == DeskAt(setting, |calls|, DeskAfter(setting, start, calls))
    requires IsPick(setting.order, found.health, found.cursor, calls, setting.clock(|calls|), idx)
    ensures IsRequest(setting, start, calls + [idx])
    ensures DeskAfter(setting, start, calls + [idx]) == AfterAsk(setting, |calls|, DeskAfter(setting, start, calls), idx)
  {
    var longer := calls + [idx];
    AskExtends(setting, start, calls, idx);
    forall k | 0 <= k < |longer| ensures PickedAt(setting, start, longer, k) {
      if k < |calls| {
        PickedStays(setting, start, calls, idx, k);
      } else {
        assert longer[..|calls|] == calls;
      }
    }
  }

  // ---- What a request leaves behind ----

  /** How an attempt that started at `now` leaves the health of its endpoint: clear if it served, with one
      failure more, as far as can be counted, and cooling down for the backoff of that many if it failed
      retryably, and else as it was. */
  predicate SettledBy<T>(before: Health, after: Health, outcome: Result<T, ClientError>, now: Instant) {
    match outcome
    case Ok(_) => after.consecutiveFailures == 0 && after.cooldownUntil.None?
    case Err(error) =>
      if IsRetryable(error) then
        && (before.consecutiveFailures + 1 < 0x1_0000_0000 ==> after.consecutiveFailures == before.consecutiveFailures + 1)
        && (before.consecutiveFailures + 1 == 0x1_0000_0000 ==> after.consecutiveFailures == before.consecutiveFailures)
        && after.cooldownUntil == Some(now + BackoffDuration(after.consecutiveFailures))
      else after == before
  }

  lemma QuietAskSettles<T>(setting: Setting<T>, k: nat, desk: Desk, idx: nat, e: nat)
    requires Quiet(setting.others) && |desk.health| == |setting.endpoints|
    requires idx < |setting.endpoints| && e < |setting.endpoints|
    ensures
      var after := AfterAsk(setting, k, desk, idx);
      && after.cursor == desk.cursor + 1
      && (e != idx ==> after.health[e] == desk.health[e])
      && (e == idx ==> SettledBy(desk.health[e], after.health[e], setting.attempt(k, setting.endpoints[e].url), setting.clock(k)))
  {
  }

  /** With no other request running, a request moves the cursor once for each ask, settles the health of
      each endpoint it asked by that ask, and leaves all others as they were. */
  lemma {:induction false} QuietRequestSettles<T>(setting: Setting<T>, start: Desk, calls: seq<nat>, e: nat)
    requires Quiet(setting.others) && Distinct(calls) && |start.health| == |setting.endpoints|
    requires (forall k | 0 <= k < |calls| :: calls[k] < |setting.endpoints|) && e < |setting.endpoints|
    ensures DeskAfter(setting, start, calls).cursor == start.cursor + |calls|
    ensures e !in calls ==> DeskAfter(setting, start, calls).health[e] == start.health[e]
    ensures forall k | 0 <= k < |calls| && calls[k] == e ::
      SettledBy(start.health[e], DeskAfter(setting, start, calls).health[e],
                setting.attempt(k, setting.endpoints[e].url), setting.clock(k))
    decreases |calls|
  {
    if calls != [] {
      var last := |calls| - 1;
      var before := calls[..last];
      QuietRequestSettles(setting, start, before, e);
      QuietAskSettles(setting, last, DeskAfter(setting, start, before), calls[last], e);
      assert calls == before + [calls[last]];
      forall k | 0 <= k < |calls| && calls[k] == e
        ensures SettledBy(start.health[e], DeskAfter(setting, start, calls).health[e],
                          setting.attempt(k, setting.endpoints[e].url), setting.clock(k))
      {
        if k < last {
          assert before[k] == e && calls[last] != e;
        } else {
          assert e !in before;
        }
      }
    }
  }

  /** A pick is ready as long as someone untried in the cycle is. */
  lemma ReadyGoesFirst(order: seq<nat>, health: seq<Health>, start: nat, tried: seq<nat>, now: Instant, idx: nat, f: nat)
    requires order != [] && IsPick(order, health, start, tried, now, idx)
    requires f in order && f !in tried && Ready(health, f, now)
    ensures Ready(health, idx, now)
  {
    var j :| 0 <= j < |order| && order[j] == f;
    var offset := RotationReaches(order, start, j);
    assert At(order, start, offset) !in tried && Ready(health, At(order, start, offset), now);
  }

  /** Over two requests with no other running: an endpoint that failed in the first is not asked first in
      the second before its cooldown ends, as long as another is ready. */
  lemma JustFailedIsNotAskedFirst<T>(first: Setting<T>, second: Setting<T>, start: Desk, calls: seq<nat>, later: seq<nat>, k: nat, f: nat)
    requires Quiet(first.others) && Quiet(second.others) && |start.health| == |first.endpoints|
    requires IsRequest(first, start, calls) && Distinct(calls)
    requires IsRequest(second, DeskAfter(first, start, calls), later) && later != []
    requires k < |calls| && FailsRetryably(first.attempt, k, first.endpoints[calls[k]].url)
    requires var desk := DeskAfter(first, start, calls);
             && second.clock(0) < first.clock(k) + BackoffDuration(desk.health[calls[k]].consecutiveFailures)
             && f in second.order && Ready(desk.health, f, second.clock(0))
    ensures later[0] != calls[k]
  {
    var desk := DeskAfter(first, start, calls);
    QuietRequestSettles(first, start, calls, calls[k]);
    assert PickedAt(second, desk, later, 0);
    assert later[..0] == [];
    ReadyGoesFirst(second.order, desk.health, desk.cursor, [], second.clock(0), later[0], f);
  }

  /** What moves a request on to the next endpoint: a transport failure, a JSON-RPC error or a response that
      cannot be read; of the HTTP statuses 400, 401, 403, 408, 425, 429 and everything from 500 up; and
      nothing else. */
  lemma AsksOnExactly<T>(endpoints: seq<Endpoint>, attempt: Attempts<T>, calls: seq<nat>, r: Result<T, ClientError>, k: nat)
    requires IsFailover(endpoints, attempt, calls, r) && k < |calls|
    ensures calls[k] < |endpoints|
    ensures
      var outcome := attempt(k, endpoints[calls[k]].url);
      (k + 1 < |calls|) <==> (k + 1 < |endpoints| && outcome.Err? && (
        match outcome.error
        case HttpTransport(_) => true
        case JsonRpcError(_, _) => true
        case MalformedResponse(_, _) => true
        case HttpStatus(status, _) =>
          || status == 400 || status == 401 || status == 403 || status == 408 || status == 425 || status == 429
          || 500 <= status
        case _ => false))
  {
    CallsAreEndpoints(endpoints, attempt, calls, r);
    TriedAgainstPool(calls, |endpoints|);
  }

  /** What a failed request says: of a single endpoint its own error; of more, every ask in order by its
      endpoint's name and its error, how many endpoints there are, and whether it stopped short of asking
      them all because the last error could not be retried. */
  lemma FailureTellsEveryAsk<T>(endpoints: seq<Endpoint>, attempt: Attempts<T>, calls: seq<nat>, r: Result<T, ClientError>)
    requires IsFailover(endpoints, attempt, calls, r) && r.Err?
    ensures |endpoints| == 1 ==> calls == [0] && attempt(0, endpoints[0].url) == Err(r.error)
    ensures |endpoints| > 1 ==>
      && r.error.FailoverExhausted? && |r.error.trace| == |calls| && r.error.poolSize == |endpoints|
      && (forall k | 0 <= k < |calls| ::
            && calls[k] < |endpoints| && r.error.trace[k].name == endpoints[calls[k]].name
            && attempt(k, endpoints[calls[k]].url) == Err(r.error.trace[k].error))
      && (r.error.shortCircuited <==> !IsRetryable(r.error.trace[|calls| - 1].error))
  {
    CallsAreEndpoints(endpoints, attempt, calls, r);
    TriedAgainstPool(calls, |endpoints|);
    var last := |calls| - 1;
    var before := calls[..last];
    assert forall k | 0 <= k < last :: before[k] == calls[k];
  }

  class EndpointPool {
    const endpoints: seq<Endpoint>
    /** The cycle the cursor walks. */
    const order: seq<nat>
    var cursor: nat
    var health: seq<Health>

    ghost predicate Valid()
      reads this
    {
      && endpoints != [] && |health| == |endpoints|
      && (forall e | 0 <= e < |endpoints| :: e in order)
      && (forall e <- order :: e < |endpoints|)
    }

    constructor (endpoints: seq<Endpoint>, order: seq<nat>)
      requires endpoints != []
      requires (forall e | 0 <= e < |endpoints| :: e in order) && (forall e <- order :: e < |endpoints|)
      ensures Valid() && this.endpoints == endpoints && this.order == order
      ensures cursor == 0 && health == seq(|endpoints|, _ => HEALTHY)
    {
      this.endpoints, this.order := endpoints, order;
      cursor := 0;
      health := seq(|endpoints|, _ => HEALTHY);
    }

    /** Builds a pool over every spec, a weight of zero counting as one; no specs is a fault. */
    static method New(specs: seq<EndpointSpec>) returns (r: Result<EndpointPool, ClientError>)
      ensures specs == [] <==> r.Err?
      ensures r.Err? ==> r.error.InvalidConfig?
      ensures r.Ok? ==>
        var weights := seq(|specs|, i requires 0 <= i < |specs| => if specs[i].weight == 0 then 1 else specs[i].weight);
        && fresh(r.value) && r.value.Valid()
        && r.value.endpoints == seq(|specs|, i requires 0 <= i < |specs| => Endpoint(specs[i].url, specs[i].name))
        && SmoothOrder.Greedy(weights, r.value.order) && |r.value.order| == SmoothOrder.Sum(weights)
        && r.value.cursor == 0 && forall h <- r.value.health :: h == HEALTHY
    {
      if specs == [] {
        return Err(InvalidConfig("at least one rpc endpoint is required"));
      }
      var weights := seq(|specs|, i requires 0 <= i < |specs| => if specs[i].weight == 0 then 1 else specs[i].weight);
      var order := SmoothOrder.SmoothWeightedOrder(weights);
      var endpoints := seq(|specs|, i requires 0 <= i < |specs| => Endpoint(specs[i].url, specs[i].name));
      forall e | 0 <= e < |specs| ensures e in order {
        SmoothOrder.CycleCovers(weights, order, e);
      }
      SmoothOrder.GreedyPicksExist(weights, order);
      var pool := new EndpointPool(endpoints, order);
      return Ok(pool);
    }

    /** A pool of one endpoint, which is always that endpoint's turn. */
    static method Single(name: string, url: string) returns (pool: EndpointPool)
      ensures fresh(pool) && pool.Valid() && pool.endpoints == [Endpoint(url, name)] && pool.order == [0]
    {
      var order := [0];
      assert order[0] == 0;
      pool := new EndpointPool([Endpoint(url, name)], order);
    }

    ghost function View(): Desk
      reads this
    {
      Desk(cursor, health)
    }

    /** Whatever other requests do to the cursor and the health at one point of this one. */
    method Interfere(others: Interference, point: nat)
      requires Valid()
      modifies this`cursor, this`health
      ensures Valid() && View() == Disturbed(others, point, old(View()))
    {
      var moved := others(point, Desk(cursor, health));
      cursor := moved.cursor;
      if |moved.health| == |health| {
        health := moved.health;
      }
    }

    method PickExcluding(tried: seq<nat>, now: Instant) returns (idx: nat)
      requires Valid()
      modifies this`cursor
      ensures cursor == old(cursor) + 1
      ensures order != [] && IsPick(order, health, old(cursor), tried, now, idx)
    {
      assert 0 in order;
      var start := cursor;
      cursor := cursor + 1;

      var fallback: Option<(nat, Instant)> := None;
      ghost var best: nat := 0;
      for offset := 0 to |order|
        invariant forall k | 0 <= k < offset ::
          At(order, start, k) in tried || !Ready(health, At(order, start, k), now)
        invariant fallback.None? ==> forall k | 0 <= k < offset :: At(order, start, k) in tried
        invariant fallback.Some? ==>
          && IsSoonest(order, health, start, tried, now, offset, best)
          && fallback.value == (At(order, start, best), Cooldown(health, At(order, start, best)).value)
      {
        idx := order[(start + offset) % |order|];
        assert idx == At(order, start, offset);
        if idx in tried {
          continue;
        }
        assert idx in order;
        match health[idx].cooldownUntil {
          case None =>
            assert IsFirstReady(order, health, start, tried, now, offset);
            return;
          case Some(until) =>
            if until <= now {
              assert IsFirstReady(order, health, start, tried, now, offset);
              return;
            }
            if fallback.None? || until < fallback.value.1 {
              fallback := Some((idx, until));
              best := offset;
            }
        }
      }

      match fallback {
        case Some(found) =>
          idx := found.0;
          assert IsSoonest(order, health, start, tried, now, |order|, best);
        case None =>
          idx := order[start % |order|];
          assert idx == At(order, start, 0);
      }
    }

    method ReportSuccess(idx: nat)
      requires Valid()
      modifies this`health
      ensures Valid()
      ensures health == if idx < |endpoints| then old(health)[idx := HEALTHY] else old(health)
    {
      if idx < |health| {
        health := health[idx := HEALTHY];
      }
    }

    method ReportFailure(idx: nat, now: Instant)
      requires Valid()
      modifies this`health
      ensures Valid()
      ensures health == if idx < |endpoints| then old(health)[idx := Benched(old(health)[idx], now)] else old(health)
    {
      if idx < |health| {
        var failures: int := health[idx].consecutiveFailures;
        var counted := if failures + 1 < 0x1_0000_0000 then failures + 1 else failures;
        health := health[idx := Health(counted, Some(now + BackoffDuration(counted)))];
      }
    }

    /** The next endpoint of a request that has not yet exhausted the pool. */
    method NextUntried(tried: seq<nat>, now: Instant) returns (idx: nat)
      requires Valid() && Distinct(tried) && |tried| < |endpoints|
      requires forall i | 0 <= i < |tried| :: tried[i] < |endpoints|
      modifies this`cursor
      ensures Valid() && idx < |endpoints| && idx !in tried
      ensures View() == old(View()).(cursor := old(cursor) + 1)
      ensures order != [] && IsPick(order, health, old(cursor), tried, now, idx)
    {
      idx := PickExcluding(tried, now);
      TriedAgainstPool(tried, |endpoints|);
      ghost var e: nat :| e < |endpoints| && e !in tried;
      PickIsUntried(order, health, old(cursor), tried, now, idx, e);
    }

    /** Settles the health of an endpoint by the outcome of its attempt. */
    method Report<T>(others: Interference, point: nat, outcome: Result<T, ClientError>, idx: nat, now: Instant)
      requires Valid()
      modifies this`cursor, this`health
      ensures Valid() && View() == Reported(others, point, old(View()), outcome, idx, now)
    {
      if outcome.Ok? {
        Interfere(others, point);
        ReportSuccess(idx);
      } else if IsRetryable(outcome.error) {
        Interfere(others, point);
        ReportFailure(idx, now);
      }
    }

    /** The pool is that of the setting, and stands as the request so far left it. */
    ghost predicate Stands<T>(setting: Setting<T>, start: Desk, calls: seq<nat>)
      reads this
    {
      && Valid() && setting.endpoints == endpoints && setting.order == order
      && IsRequest(setting, start, calls) && View() == DeskAfter(setting, start, calls)
    }

    /** One ask: the next pick is attempted, and its endpoint's health follows the outcome. */
    method AskNext<T(0)>(setting: Setting<T>, tried: seq<nat>, ghost start: Desk)
      returns (idx: nat, outcome: Result<T, ClientError>)
      requires Stands(setting, start, tried) && Distinct(tried) && |tried| < |endpoints|
      modifies this`cursor, this`health
      ensures Stands(setting, start, tried + [idx])
      ensures idx < |endpoints| && idx !in tried && outcome == setting.attempt(|tried|, endpoints[idx].url)
    {
      var now := setting.clock(|tried|);
      ghost var before := View();
      Interfere(setting.others, 2 * |tried|);
      ghost var found := View();
      idx := NextUntried(tried, now);
      outcome := setting.attempt(|tried|, endpoints[idx].url);
      ghost var picked := View();
      Report(setting.others, 2 * |tried| + 1, outcome, idx, now);
      assert View() == AfterAsk(setting, |tried|, before, idx) by {
        assert found == DeskAt(setting, |tried|, before) && picked == found.(cursor := found.cursor + 1);
      }
      OneMoreAsk(setting, start, tried, idx, found);
    }

    /** Runs `attempt` against untried endpoints until one settles it, with other requests moving the
        cursor and the health before each pick and before each report. */
    method WithFailover<T(0)>(attempt: Attempts<T>, clock: nat -> Instant, others: Interference)
      returns (r: Result<T, ClientError>, ghost calls: seq<nat>)
      requires Valid()
      modifies this`cursor, this`health
      ensures Valid()
      ensures IsFailover(endpoints, attempt, calls, r)
      ensures IsRequest(Setting(endpoints, order, attempt, clock, others), old(View()), calls)
      ensures View() == DeskAfter(Setting(endpoints, order, attempt, clock, others), old(View()), calls)
    {
      var setting := Setting(endpoints, order, attempt, clock, others);
      ghost var start := View();
      var poolSize := |endpoints|;
      var tried: seq<nat> := [];
      var trace: seq<Attempt> := [];
      var lastError: Option<ClientError> := None;
      assert 0 in order;

      for k := 0 to poolSize
        invariant |tried| == k && Stands(setting, start, tried)
        invariant InProgress(endpoints, attempt, tried, trace, lastError)
      {
        TriedAreEndpoints(endpoints, attempt, tried, trace, lastError);
        var idx, outcome := AskNext(setting, tried, start);
        OutcomeSettles(endpoints, attempt, tried, trace, lastError, idx);
        match outcome {
          case Ok(_) =>
            return outcome, tried + [idx];
          case Err(error) =>
            if IsRetryable(error) {
              trace := Traced(endpoints, trace, idx, error);
              tried := tried + [idx];
              lastError := Some(error);
            } else {
              return Err(if poolSize > 1 then FailoverExhausted(Traced(endpoints, trace, idx, error), poolSize, true) else error),
                     tried + [idx];
            }
        }
      }

      ExhaustionSettles(endpoints, attempt, tried, trace, lastError);
      return Err(if poolSize > 1 then FailoverExhausted(trace, poolSize, false) else lastError.value), tried;
    }
  }
}
