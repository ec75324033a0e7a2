/** The retry loop and the guard around it: breaker, then retry, then the operation. Times are
    milliseconds on a monotonic clock; waiting never holds anything but the caller. */
module RetryLoop {
  import opened Basics
  import opened RetryBackoff
  import Breaker
  import BreakerObject

  datatype Result<+T, +E> = Ok(value: T) | Err(error: E)

  datatype Retryability = Yes(retryAfter: Option<Duration>) | No

  /** What the typed client reports: the transient bucket with its source, or a named client error. */
  datatype Source = CredentialError | ThrottleHint(retryAfter: Option<Duration>) | OtherSource
  datatype StoreError = Generic(source: Source) | NamedStoreError

  /** What the raw client reports. */
  datatype RawError = Backend | NamedRawError

  function Classify(e: StoreError): Retryability {
    match e
    case Generic(CredentialError) => No
    case Generic(ThrottleHint(after)) => Yes(after)
    case Generic(OtherSource) => Yes(None)
    case NamedStoreError => No
  }

  function ClassifyRaw(e: RawError): Retryability {
    match e
    case Backend => Yes(None)
    case NamedRawError => No
  }

  /** A hint is honoured exactly when the origin throttled with one; a credential failure and every named
      answer are terminal, anything else in the transient bucket is retried. */
  lemma TypedVerdicts(e: StoreError, hint: Duration)
    ensures Classify(e) == Yes(Some(hint)) <==> e == Generic(ThrottleHint(Some(hint)))
    ensures Classify(e) == No <==> e == NamedStoreError || e == Generic(CredentialError)
  {
  }

  datatype RetryPolicy = RetryPolicy(maxRetries: nat, initialMs: nat, maxMs: nat, budgetMs: nat)

  /** A monotonic clock: time passes by an arbitrary amount before every reading, and a sleep
      lasts at least as long as asked. */
  class Clock {
    const drift: nat -> Duration
    var now: Duration
    var readings: nat

    constructor (drift: nat -> Duration)
      ensures this.drift == drift && now == 0.0 && readings == 0
    {
      this.drift := drift;
      now, readings := 0.0, 0;
    }

    method Read() returns (t: Duration)
      modifies this
      ensures t == now >= old(now)
    {
      now, readings := now + drift(readings), readings + 1;
      t := now;
    }

    method Sleep(d: Duration)
      modifies this
      ensures now >= old(now) + d
    {
      now, readings := now + d + drift(readings), readings + 1;
    }
  }

  class RetryMetrics {
    var retries: nat

    constructor ()
      ensures retries == 0
    {
      retries := 0;
    }
  }

  function Total(ds: seq<Duration>): Duration {
    if ds == [] then 0.0 else Total(ds[..|ds| - 1]) + ds[|ds| - 1]
  }

  /** A total is the sum: of nothing, of one, and of two stretches. */
  lemma {:induction false} TotalAdds(a: seq<Duration>, b: seq<Duration>, d: Duration)
    ensures Total([]) == 0.0 && Total([d]) == d && Total(a + b) == Total(a) + Total(b)
    decreases |b|
  {
    assert [d][..0] == [];
    if b == [] {
      assert a + b == a;
    } else {
      TotalAdds(a, b[..|b| - 1], d);
      assert (a + b)[..|a + b| - 1] == a + b[..|b| - 1];
    }
  }

  /** What an attempt's result says about trying again. */
  function Verdict<T, E>(r: Result<T, E>, classify: E -> Retryability): Retryability {
    match r case Ok(_) => No case Err(e) => classify(e)
  }

  /** Asks for no wait at all: a zero hint, or no hint and a zero initial delay. */
  predicate AsksNoWait(verdict: Retryability, policy: RetryPolicy) {
    verdict.Yes? &&
    match verdict.retryAfter
    case Some(d) => d == 0.0
    case None => policy.initialMs == 0
  }

  /** A real pause after a transient failure: no longer than the origin asked for, or than the n-th
      delay of the exponential schedule may be. */
  predicate Allowed(d: Duration, verdict: Retryability, policy: RetryPolicy, n: nat) {
    d > 0.0 && verdict.Yes? &&
    match verdict.retryAfter
    case Some(hint) => d <= hint
    case None => d <= Cap(policy.initialMs as real, policy.maxMs as real, n)
  }

  /** The whole pause that was asked for: the origin's hint, or at least the initial delay. */
  predicate Full(d: Duration, verdict: Retryability, policy: RetryPolicy) {
    verdict.Yes? &&
    match verdict.retryAfter
    case Some(hint) => d == hint
    case None => d >= policy.initialMs as real
  }

  /** The backoff is at most where `n` draws could have brought it. */
  ghost predicate Follows(backoff: Backoff, policy: RetryPolicy, n: nat)
    reads backoff
  {
    backoff.initial == policy.initialMs as real && backoff.ceiling == policy.maxMs as real &&
    backoff.prev <= Cap(backoff.initial, backoff.ceiling, n)
  }

  /** The pause before the next attempt, cut to what is left of the budget; zero means give up. */
  method ChooseWait(policy: RetryPolicy, clock: Clock, start: Duration, backoff: Backoff, verdict: Retryability,
                    ghost n: nat)
    returns (wait: Duration)
    requires verdict.Yes? && start <= clock.now && Follows(backoff, policy, n)
    modifies clock, backoff
    ensures clock.now >= old(clock.now) && Follows(backoff, policy, n + 1)
    ensures Full(wait, verdict, policy) || clock.now - start + wait >= policy.budgetMs as real
    ensures wait > 0.0 ==> Allowed(wait, verdict, policy, n + 1) && clock.now - start + wait <= policy.budgetMs as real
    ensures wait == 0.0 ==> clock.now - start >= policy.budgetMs as real || AsksNoWait(verdict, policy)
  {
    HighBound(backoff.Value(), Doubled(backoff.initial, n));
    if verdict.retryAfter.Some? { wait := verdict.retryAfter.value; } else { wait := backoff.Next(); }
    var now := clock.Read();
    var budget: Duration := policy.budgetMs as real;
    var remaining: Duration := if now - start >= budget then 0.0 else budget - (now - start);
    wait := if wait <= remaining then wait else remaining;
  }

  /** Gives up, or sleeps before the next attempt; `chosen` is the time since the start at which the pause
      was cut to the budget. */
  method Pause(policy: RetryPolicy, clock: Clock, start: Duration, retriesLeft: nat, backoff: Backoff,
               verdict: Retryability, ghost n: nat)
    returns (wait: Duration, ghost chosen: real)
    requires verdict.Yes? && start <= clock.now && Follows(backoff, policy, n)
    modifies clock, backoff
    ensures clock.now >= old(clock.now) && chosen >= old(clock.now) - start && Follows(backoff, policy, n + 1)
    ensures wait > 0.0 ==>
              && retriesLeft > 0 && Allowed(wait, verdict, policy, n + 1) && chosen < policy.budgetMs as real
              && chosen + wait <= policy.budgetMs as real && chosen + wait <= clock.now - start
              && (Full(wait, verdict, policy) || clock.now - start >= policy.budgetMs as real)
    ensures wait == 0.0 ==>
              retriesLeft == 0 || clock.now - start >= policy.budgetMs as real || AsksNoWait(verdict, policy)
  {
    HighBound(backoff.Value(), Doubled(backoff.initial, n));
    var now := clock.Read();
    chosen := now - start;
    if retriesLeft == 0 || now - start >= policy.budgetMs as real { return 0.0, chosen; }
    wait := ChooseWait(policy, clock, start, backoff, verdict, n);
    chosen := clock.now - start;
    if wait > 0.0 { clock.Sleep(wait); }
  }

  ghost predicate SleepsAllowed<T, E>(sleeps: seq<Duration>, policy: RetryPolicy, classify: E -> Retryability,
                                      op: nat -> Result<T, E>)
  {
    forall k :: 0 <= k < |sleeps| ==> Allowed(sleeps[k], Verdict(op(k), classify), policy, k + 1)
  }

  ghost predicate AllFull<T, E>(sleeps: seq<Duration>, policy: RetryPolicy, classify: E -> Retryability,
                                op: nat -> Result<T, E>)
  {
    forall k :: 0 <= k < |sleeps| ==> Full(sleeps[k], Verdict(op(k), classify), policy)
  }

  /** Every sleep but the last is as long as was asked for. */
  ghost predicate OnlyLastCut<T, E>(sleeps: seq<Duration>, policy: RetryPolicy, classify: E -> Retryability,
                                    op: nat -> Result<T, E>)
  {
    sleeps == [] || AllFull(sleeps[..|sleeps| - 1], policy, classify, op)
  }

  /** What the sleeps so far keep, `elapsed` after the start. */
  ghost predicate SleepsOk<T, E>(sleeps: seq<Duration>, elapsed: real, policy: RetryPolicy, classify: E -> Retryability,
                                 op: nat -> Result<T, E>)
  {
    && SleepsAllowed(sleeps, policy, classify, op) && OnlyLastCut(sleeps, policy, classify, op)
    && (elapsed < policy.budgetMs as real ==> AllFull(sleeps, policy, classify, op))
    && Total(sleeps) <= elapsed && Total(sleeps) <= policy.budgetMs as real
  }

  lemma TimePasses<T, E>(sleeps: seq<Duration>, elapsed: real, later: real, policy: RetryPolicy,
                         classify: E -> Retryability, op: nat -> Result<T, E>)
    requires SleepsOk(sleeps, elapsed, policy, classify, op) && elapsed <= later
    ensures SleepsOk(sleeps, later, policy, classify, op)
  {
  }

  /** A pause `d`, chosen at `elapsed`, is over at `later`. */
  lemma OneMoreSleep<T, E>(sleeps: seq<Duration>, d: Duration, elapsed: real, later: real, policy: RetryPolicy,
                           classify: E -> Retryability, op: nat -> Result<T, E>)
    requires SleepsOk(sleeps, elapsed, policy, classify, op) && elapsed < policy.budgetMs as real
    requires Allowed(d, Verdict(op(|sleeps|), classify), policy, |sleeps| + 1)
    requires elapsed + d <= policy.budgetMs as real && elapsed + d <= later
    requires Full(d, Verdict(op(|sleeps|), classify), policy) || later >= policy.budgetMs as real
    ensures SleepsOk(sleeps + [d], later, policy, classify, op)
  {
    assert (sleeps + [d])[..|sleeps|] == sleeps;
  }

  /** The loop, for any operation outcomes `op(0), op(1), ...` and any clock: it ends after at most
      `maxRetries + 1` attempts, returns the last attempt's own result, retries only transient
      failures, counts one retry per sleep, never sleeps longer than asked nor past the budget in
      total, keeps to the exponential schedule where the origin gave no hint, cuts only its last
      sleep short, and gives up on a transient failure only when the attempts or the budget are
      spent or no wait was asked for. */
  method RetryGeneric<T, E>(policy: RetryPolicy, clock: Clock, metrics: RetryMetrics, seed: bv64,
                            classify: E -> Retryability, op: nat -> Result<T, E>)
    returns (result: Result<T, E>, attempts: nat, sleeps: seq<Duration>)
    modifies clock, metrics
    ensures 1 <= attempts <= policy.maxRetries + 1 && result == op(attempts - 1)
    ensures |sleeps| == attempts - 1 && metrics.retries == old(metrics.retries) + |sleeps|
    ensures SleepsAllowed(sleeps, policy, classify, op) && OnlyLastCut(sleeps, policy, classify, op)
    ensures Total(sleeps) <= policy.budgetMs as real
    ensures Verdict(result, classify).Yes? ==>
              attempts == policy.maxRetries + 1 || clock.now - old(clock.now) >= policy.budgetMs as real ||
              AsksNoWait(Verdict(result, classify), policy)
  {
    var start := clock.Read();
    var backoff := new Backoff(policy.initialMs, policy.maxMs, seed);
    var retriesLeft := policy.maxRetries;
    attempts, sleeps := 0, [];
    while true
      invariant fresh(backoff) && Follows(backoff, policy, attempts) && old(clock.now) <= start <= clock.now
      invariant attempts + retriesLeft == policy.maxRetries && |sleeps| == attempts
      invariant metrics.retries == old(metrics.retries) + attempts
      invariant SleepsOk(sleeps, clock.now - start, policy, classify, op)
      decreases retriesLeft
    {
      result, attempts := op(attempts), attempts + 1;
      if result.Ok? { return; }
      var verdict := Verdict(result, classify);
      if verdict.No? { return; }
      ghost var asked := clock.now - start;
      var wait, chosen := Pause(policy, clock, start, retriesLeft, backoff, verdict, attempts - 1);
      if wait == 0.0 { return; }
      TimePasses(sleeps, asked, chosen, policy, classify, op);
      OneMoreSleep(sleeps, wait, chosen, clock.now - start, policy, classify, op);
      sleeps, retriesLeft := sleeps + [wait], retriesLeft - 1;
      metrics.retries := metrics.retries + 1;
    }
  }

  // ---- The guard ----------------------------------------------------------------------

  /** What another request does to the shared breaker meanwhile. */
  datatype Other = OtherAdmit(now: nat) | OtherRecord(ticket: Breaker.Ticket, ok: bool, now: nat)

  function Meanwhile(p: Breaker.Policy, b: Breaker.State, others: seq<Other>): Breaker.State {
    if others == [] then b
    else
      var before := Meanwhile(p, b, others[..|others| - 1]);
      match others[|others| - 1]
      case OtherAdmit(now) => Breaker.Admit(p, before, now).0
      case OtherRecord(ticket, ok, now) => Breaker.Record(p, before, ticket, ok, now)
  }

  method Interfere(breaker: BreakerObject.CircuitBreaker, others: seq<Other>)
    modifies breaker
    ensures breaker.Value() == Meanwhile(breaker.policy, old(breaker.Value()), others)
  {
    for i := 0 to |others|
      invariant breaker.Value() == Meanwhile(breaker.policy, old(breaker.Value()), others[..i])
    {
      assert others[..i + 1][..i] == others[..i];
      match others[i] {
        case OtherAdmit(now) => var _ := breaker.Admit(now);
        case OtherRecord(ticket, ok, now) => breaker.Record(ticket, ok, now);
      }
    }
    assert others[..|others|] == others;
  }

  /** A success or a terminal answer means the origin is healthy. */
  predicate Healthy<T, E>(r: Result<T, E>, classify: E -> Retryability) {
    r.Ok? || classify(r.error).No?
  }

  /** On either surface only a transient failure counts against the origin: a success, a named answer and a
      credential failure leave it healthy. */
  lemma OnlyTransientHurts<T>(typed: Result<T, StoreError>, raw: Result<T, RawError>)
    ensures !Healthy(typed, Classify) <==> typed.Err? && typed.error.Generic? && !typed.error.source.CredentialError?
    ensures !Healthy(raw, ClassifyRaw) <==> raw.Err? && raw.error.Backend?
  {
  }

  /** The guard, whatever other requests do to the breaker in between: a shed request runs no
      attempt, takes no time and records nothing; an admitted one gives the breaker exactly one
      outcome, for its own ticket, healthy exactly when it succeeded or failed terminally. */
  method GuardGeneric<T, E>(breaker: BreakerObject.CircuitBreaker, policy: RetryPolicy, clock: Clock,
                            metrics: RetryMetrics, seed: bv64, classify: E -> Retryability, shed: E,
                            op: nat -> Result<T, E>, admitAt: nat, recordAt: nat, others: seq<Other>)
    returns (result: Result<T, E>, attempts: nat)
    modifies breaker, clock, metrics
    ensures var (admitted, answer) := Breaker.Admit(breaker.policy, old(breaker.Value()), admitAt);
            if answer.Reject? then
              && result == Err(shed) && attempts == 0 && breaker.Value() == admitted
              && clock.now == old(clock.now) && metrics.retries == old(metrics.retries)
            else
              && 1 <= attempts <= policy.maxRetries + 1 && result == op(attempts - 1)
              && metrics.retries == old(metrics.retries) + attempts - 1
              && breaker.Value() == Breaker.Record(breaker.policy, Meanwhile(breaker.policy, admitted, others),
                                                   answer.ticket, Healthy(result, classify), recordAt)
  {
    var admission := breaker.Admit(admitAt);
    if admission.Reject? { return Err(shed), 0; }
    var sleeps;
    result, attempts, sleeps := RetryGeneric(policy, clock, metrics, seed, classify, op);
    Interfere(breaker, others);
    var healthy := match result case Ok(_) => true case Err(e) => classify(e).No?;
    breaker.Record(admission.ticket, healthy, recordAt);
  }
}
