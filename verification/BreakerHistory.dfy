/** When the breaker admits a request, told from what happened before and not from its fields. */
module BreakerHistory {
  import opened Results
  import opened CircuitBreaker
  import opened BreakerRuns

  /** What an onlooker notes of each step. */
  datatype Note = Admitted | TurnedAway | Succeeded | Failed(now: int) | Left

  type History = seq<Note>

  function Noted(s: System, a: Action): Note {
    match a
    case Allow(_, now) => if Refused(s.b, now).Some? then TurnedAway else Admitted
    case Record(_, ok, now) => if ok then Succeeded else Failed(now)
    case Finish(_) => Left
  }

  function Notes(s: System, run: seq<Action>): History
    requires IsRun(s, run)
    decreases |run|
  {
    if run == [] then [] else [Noted(s, run[0])] + Notes(Step(s, run[0]), run[1..])
  }

  function Before(h: History): History
    requires h != []
  {
    h[..|h| - 1]
  }

  function Last(h: History): Note
    requires h != []
  {
    h[|h| - 1]
  }

  /** Failures since a success last answered a test request. */
  function Failures(h: History, threshold: int): nat
    decreases |h|
  {
    if h == [] then 0 else
    match Last(h)
    case Failed(_) => Failures(Before(h), threshold) + 1
    case Succeeded => if Testing(Before(h), threshold) then 0 else Failures(Before(h), threshold)
    case _ => Failures(Before(h), threshold)
  }

  /** A request was admitted although the failures had reached the threshold, and nothing has been
      recorded since. */
  predicate Testing(h: History, threshold: int)
    decreases |h|
  {
    h != [] &&
    match Last(h)
    case Admitted => Testing(Before(h), threshold) || Failures(Before(h), threshold) >= threshold
    case Failed(_) => false
    case Succeeded => false
    case _ => Testing(Before(h), threshold)
  }

  function LastFailure(h: History): int {
    if h == [] then 0 else if Last(h).Failed? then Last(h).now else LastFailure(Before(h))
  }

  /** Admitted requests that have not left. */
  function Inside(h: History): int {
    if h == [] then 0
    else Inside(Before(h)) + (if Last(h) == Admitted then 1 else if Last(h) == Left then -1 else 0)
  }

  /** Why a request is turned away now, if it is. */
  function Verdict(h: History, threshold: int, timeout: int, maxConcurrent: int, now: int): Option<Refusal> {
    if Failures(h, threshold) < threshold then
      if maxConcurrent > 0 && Inside(h) >= maxConcurrent then Some(TooManyConcurrent) else None
    else if Testing(h, threshold) then Some(AwaitingTest)
    else if now <= LastFailure(h) + timeout then Some(IsOpen)
    else None
  }

  // ----- the breaker's fields tell the same -----

  predicate Tells(s: System, h: History) {
    && Inv(s)
    && s.b.failures == Failures(h, s.b.threshold)
    && (s.b.state == HalfOpen <==> Testing(h, s.b.threshold))
    && s.b.lastFailure == LastFailure(h)
    && s.b.concurrent == Inside(h)
  }

  lemma Appended(h: History, n: Note)
    ensures Last(h + [n]) == n && Before(h + [n]) == h
  {
  }

  lemma StepTells(s: System, h: History, a: Action)
    requires Tells(s, h) && Enabled(s, a) && s.b.threshold >= 1
    ensures Tells(Step(s, a), h + [Noted(s, a)])
  {
    Appended(h, Noted(s, a));
    StepKeepsInv(s, a);
    if a.Finish? {
      CountPositive(s.phases, a.i, Recorded);
    }
  }

  lemma {:induction false} RunTells(s: System, h: History, run: seq<Action>)
    requires Tells(s, h) && IsRun(s, run) && s.b.threshold >= 1
    ensures Tells(Final(s, run), h + Notes(s, run))
    decreases |run|
  {
    if run == [] {
      assert h + [] == h;
    } else {
      StepTells(s, h, run[0]);
      RunTells(Step(s, run[0]), h + [Noted(s, run[0])], run[1..]);
      assert h + [Noted(s, run[0])] + Notes(Step(s, run[0]), run[1..]) == h + Notes(s, run);
    }
  }

  lemma VerdictTells(s: System, h: History, now: int)
    requires Tells(s, h) && s.b.threshold >= 1
    ensures Refused(s.b, now) == Verdict(h, s.b.threshold, s.b.timeout, s.b.maxConcurrent, now)
  {
    if s.b.state == HalfOpen {
      CountPositive(s.phases, s.probe, Executing);
    }
  }

  lemma RunVerdict(
    threshold: int, timeout: int, maxConcurrent: int, clients: nat, run: seq<Action>, now: int)
    requires threshold >= 1 && IsRun(Start(Fresh(threshold, timeout, maxConcurrent), clients), run)
    ensures var start := Start(Fresh(threshold, timeout, maxConcurrent), clients);
      Refused(Final(start, run).b, now) == Verdict(Notes(start, run), threshold, timeout, maxConcurrent, now)
  {
    var start := Start(Fresh(threshold, timeout, maxConcurrent), clients);
    CountIdle(clients, Executing);
    CountIdle(clients, Recorded);
    RunTells(start, [], run);
    assert [] + Notes(start, run) == Notes(start, run);
    RunSettings(start, run);
    VerdictTells(Final(start, run), Notes(start, run), now);
  }

  /** After every run of any number of clients a request is turned away, and with which error,
      exactly as the notes say; and then nothing changes. */
  lemma AllowExactly(
    threshold: int, timeout: int, maxConcurrent: int, clients: nat, run: seq<Action>, i: nat, now: int)
    requires threshold >= 1 && IsRun(Start(Fresh(threshold, timeout, maxConcurrent), clients), run)
    ensures var start := Start(Fresh(threshold, timeout, maxConcurrent), clients);
      var s, verdict := Final(start, run), Verdict(Notes(start, run), threshold, timeout, maxConcurrent, now);
      Refused(s.b, now) == verdict
      && (Enabled(s, Allow(i, now)) && verdict.Some? ==> Step(s, Allow(i, now)) == s)
      && (Enabled(s, Allow(i, now)) && verdict.None? ==>
            Step(s, Allow(i, now)).phases == s.phases[i := Executing]
            && Step(s, Allow(i, now)).b.concurrent == s.b.concurrent + 1)
  {
    RunVerdict(threshold, timeout, maxConcurrent, clients, run, now);
  }

  /** An open breaker: while the failures since the last close have reached the threshold and no test
      request is out, a request is turned away exactly until the timeout after the last failure. */
  lemma OpenRefusesExactly(
    threshold: int, timeout: int, maxConcurrent: int, clients: nat, run: seq<Action>, now: int)
    requires threshold >= 1 && IsRun(Start(Fresh(threshold, timeout, maxConcurrent), clients), run)
    requires var h := Notes(Start(Fresh(threshold, timeout, maxConcurrent), clients), run);
      Failures(h, threshold) >= threshold && !Testing(h, threshold)
    ensures var start := Start(Fresh(threshold, timeout, maxConcurrent), clients);
      Refused(Final(start, run).b, now) == Some(IsOpen) <==> now <= LastFailure(Notes(start, run)) + timeout
    ensures var start := Start(Fresh(threshold, timeout, maxConcurrent), clients);
      Refused(Final(start, run).b, now) == None <==> now > LastFailure(Notes(start, run)) + timeout
  {
    AllowExactly(threshold, timeout, maxConcurrent, clients, run, 0, now);
  }
}
