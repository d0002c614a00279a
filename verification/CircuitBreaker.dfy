/** The mutex-guarded circuit breaker (internal/integration/dsl_loader.go). Every method holds
    the lock, so each is one atomic function of the breaker's fields. */
module CircuitBreaker {
  import opened Results

  datatype State = Closed | Open | HalfOpen

  datatype Breaker = Breaker(
    threshold: int,
    timeout: int,
    maxConcurrent: int,
    state: State,
    failures: int,
    lastFailure: int,
    concurrent: int)

  datatype Refusal = IsOpen | AwaitingTest | TooManyConcurrent

  function Fresh(threshold: int, timeout: int, maxConcurrent: int): Breaker {
    Breaker(threshold, timeout, maxConcurrent, Closed, 0, 0, 0)
  }

  /** Why Allow would refuse now, if it would. */
  function Refused(b: Breaker, now: int): Option<Refusal> {
    match b.state
    case Open => if now - b.lastFailure > b.timeout then None else Some(IsOpen)
    case HalfOpen => if b.concurrent >= 1 then Some(AwaitingTest) else None
    case Closed => if b.maxConcurrent > 0 && b.concurrent >= b.maxConcurrent then Some(TooManyConcurrent) else None
  }

  function AfterAllow(b: Breaker, now: int): Breaker {
    if Refused(b, now).Some? then b
    else b.(state := if b.state == Open then HalfOpen else b.state, concurrent := b.concurrent + 1)
  }

  function AfterDone(b: Breaker): Breaker {
    if b.concurrent > 0 then b.(concurrent := b.concurrent - 1) else b
  }

  function AfterFailure(b: Breaker, now: int): Breaker {
    b.(failures := b.failures + 1, lastFailure := now,
       state := if b.failures + 1 >= b.threshold then Open else b.state)
  }

  /** A success counts only in the half-open state; elsewhere it resets nothing. */
  function AfterSuccess(b: Breaker): Breaker {
    if b.state == HalfOpen then b.(state := Closed, failures := 0) else b
  }

  function AfterRecord(b: Breaker, ok: bool, now: int): Breaker {
    if ok then AfterSuccess(b) else AfterFailure(b, now)
  }

  class CircuitBreaker {
    const failureThreshold: int
    const timeout: int
    const maxConcurrent: int
    var state: State
    var failures: int
    var lastFailure: int
    var concurrent: int

    function Value(): Breaker
      reads this
    {
      Breaker(failureThreshold, timeout, maxConcurrent, state, failures, lastFailure, concurrent)
    }

    constructor (threshold: int, timeout: int, maxConcurrent: int)
      ensures Value() == Fresh(threshold, timeout, maxConcurrent)
    {
      this.failureThreshold := threshold;
      this.timeout := timeout;
      this.maxConcurrent := maxConcurrent;
      state := Closed;
      failures := 0;
      lastFailure := 0;
      concurrent := 0;
    }

    method Allow(now: int) returns (r: Option<Refusal>)
      modifies this
      ensures r == Refused(old(Value()), now) && Value() == AfterAllow(old(Value()), now)
    {
      match state {
        case Open =>
          if now - lastFailure > timeout {
            state := HalfOpen;
            concurrent := concurrent + 1;
            return None;
          }
          return Some(IsOpen);
        case HalfOpen =>
          if concurrent >= 1 {
            return Some(AwaitingTest);
          }
          concurrent := concurrent + 1;
          return None;
        case Closed =>
          if maxConcurrent > 0 && concurrent >= maxConcurrent {
            return Some(TooManyConcurrent);
          }
          concurrent := concurrent + 1;
          return None;
      }
    }

    method Done()
      modifies this
      ensures Value() == AfterDone(old(Value()))
    {
      if concurrent > 0 {
        concurrent := concurrent - 1;
      }
    }

    method RecordFailure(now: int)
      modifies this
      ensures Value() == AfterFailure(old(Value()), now)
    {
      failures := failures + 1;
      lastFailure := now;
      if failures >= failureThreshold {
        state := Open;
      }
    }

    method RecordSuccess()
      modifies this
      ensures Value() == AfterSuccess(old(Value()))
    {
      if state == HalfOpen {
        state := Closed;
        failures := 0;
      }
    }
  }

  /** How the request itself went, once admitted. */
  datatype Outcome = BadRequest | TransportError | Responded(status: int)

  /** The call shape of Client.Do when nobody else uses the breaker: Allow, one record, Done. */
  method Do(cb: CircuitBreaker, outcome: Outcome, start: int, end: int) returns (r: Result<int, Option<Refusal>>)
    modifies cb
    ensures match Refused(old(cb.Value()), start)
      case Some(why) => r == Err(Some(why)) && cb.Value() == old(cb.Value())
      case None =>
        && r == (if outcome.Responded? then Ok(outcome.status) else Err(None))
        && cb.Value() == AfterDone(AfterRecord(
             AfterAllow(old(cb.Value()), start), outcome.Responded? && outcome.status < 500, end))
  {
    var refused := cb.Allow(start);
    if refused.Some? {
      return Err(refused);
    }
    match outcome {
      case BadRequest =>
        cb.RecordFailure(end);
        r := Err(None);
      case TransportError =>
        cb.RecordFailure(end);
        r := Err(None);
      case Responded(status) =>
        if status >= 500 {
          cb.RecordFailure(end);
        } else {
          cb.RecordSuccess();
        }
        r := Ok(status);
    }
    cb.Done();
  }
}
