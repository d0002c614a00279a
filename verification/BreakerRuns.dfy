/** Any number of clients share one breaker; each call goes Allow, record, Done, and the steps of
    different clients interleave freely. */
module BreakerRuns {
  import opened CircuitBreaker

  /** Where a client's current call is. */
  datatype Phase = Idle | Executing | Recorded

  /** The breaker, the clients, and a record of the current half-open episode: who opened it and
      how many requests it has admitted. */
  datatype System = System(b: Breaker, phases: seq<Phase>, probe: nat, admitted: nat)

  datatype Action = Allow(i: nat, now: int) | Record(i: nat, ok: bool, now: int) | Finish(i: nat)

  function Start(b: Breaker, clients: nat): System {
    System(b, seq(clients, i => Idle), 0, 0)
  }

  /** A client can only take the next step of its own call. */
  predicate Enabled(s: System, a: Action) {
    a.i < |s.phases| &&
    match a
    case Allow(i, _) => s.phases[i] == Idle
    case Record(i, _, _) => s.phases[i] == Executing
    case Finish(i) => s.phases[i] == Recorded
  }

  function Step(s: System, a: Action): System
    requires Enabled(s, a)
  {
    match a
    case Allow(i, now) =>
      if Refused(s.b, now).Some? then s
      else
        System(AfterAllow(s.b, now), s.phases[i := Executing],
               if s.b.state == Open then i else s.probe,
               if s.b.state == Open then 1 else if s.b.state == HalfOpen then s.admitted + 1 else s.admitted)
    case Record(i, ok, now) => s.(b := AfterRecord(s.b, ok, now), phases := s.phases[i := Recorded])
    case Finish(i) => s.(b := AfterDone(s.b), phases := s.phases[i := Idle])
  }

  predicate IsRun(s: System, run: seq<Action>)
    decreases |run|
  {
    run == [] || (Enabled(s, run[0]) && IsRun(Step(s, run[0]), run[1..]))
  }

  function Final(s: System, run: seq<Action>): System
    requires IsRun(s, run)
    decreases |run|
  {
    if run == [] then s else Final(Step(s, run[0]), run[1..])
  }

  // ----- counting clients -----

  function Count(phases: seq<Phase>, p: Phase): nat {
    if phases == [] then 0 else (if phases[0] == p then 1 else 0) + Count(phases[1..], p)
  }

  function InFlight(phases: seq<Phase>): nat {
    Count(phases, Executing) + Count(phases, Recorded)
  }

  lemma {:induction false} CountUpdate(phases: seq<Phase>, i: nat, to: Phase, p: Phase)
    requires i < |phases|
    ensures Count(phases[i := to], p)
         == Count(phases, p) - (if phases[i] == p then 1 else 0) + (if to == p then 1 else 0)
    decreases |phases|
  {
    if i == 0 {
      assert phases[0 := to][1..] == phases[1..];
    } else {
      CountUpdate(phases[1..], i - 1, to, p);
      assert phases[i := to][1..] == phases[1..][i - 1 := to];
    }
  }

  lemma {:induction false} CountPositive(phases: seq<Phase>, i: nat, p: Phase)
    requires i < |phases| && phases[i] == p
    ensures Count(phases, p) > 0
    decreases |phases|
  {
    if i > 0 {
      CountPositive(phases[1..], i - 1, p);
    }
  }

  lemma {:induction false} CountIdle(clients: nat, p: Phase)
    ensures p != Idle ==> Count(seq(clients, i => Idle), p) == 0
    decreases clients
  {
    if clients > 0 {
      assert seq(clients, i => Idle)[1..] == seq(clients - 1, i => Idle);
      CountIdle(clients - 1, p);
    }
  }

  // ----- the invariant -----

  predicate Inv(s: System) {
    // `concurrent` counts the calls between Allow and Done
    && s.b.concurrent == InFlight(s.phases)
    // the breaker is closed exactly while failures are below the threshold
    && (s.b.state == Closed <==> s.b.failures < s.b.threshold)
    // a half-open episode has admitted one request, still in flight and unrecorded
    && (s.b.state == HalfOpen ==> s.admitted == 1 && s.probe < |s.phases| && s.phases[s.probe] == Executing)
    // requests being executed stay within the limit, plus the probe of a half-open episode
    && (s.b.maxConcurrent > 0 ==>
          Count(s.phases, Executing) <= s.b.maxConcurrent + (if s.b.state == HalfOpen then 1 else 0))
  }

  lemma StepKeepsInv(s: System, a: Action)
    requires Inv(s) && Enabled(s, a) && s.b.threshold >= 1
    ensures Inv(Step(s, a)) && Step(s, a).b.threshold == s.b.threshold
  {
    var to := match a case Allow(_, _) => Executing case Record(_, _, _) => Recorded case Finish(_) => Idle;
    CountUpdate(s.phases, a.i, to, Executing);
    CountUpdate(s.phases, a.i, to, Recorded);
    CountPositive(s.phases, a.i, s.phases[a.i]);
    if s.b.state == HalfOpen {
      CountPositive(s.phases, s.probe, Executing);
    }
  }

  lemma {:induction false} RunKeepsInv(s: System, run: seq<Action>)
    requires Inv(s) && s.b.threshold >= 1 && IsRun(s, run)
    ensures Inv(Final(s, run))
    decreases |run|
  {
    if run != [] {
      StepKeepsInv(s, run[0]);
      RunKeepsInv(Step(s, run[0]), run[1..]);
    }
  }

  /** Over every interleaving of any number of clients from a new breaker the invariant holds. */
  lemma ReachableInv(threshold: int, timeout: int, maxConcurrent: int, clients: nat, run: seq<Action>)
    requires threshold >= 1 && IsRun(Start(Fresh(threshold, timeout, maxConcurrent), clients), run)
    ensures Inv(Final(Start(Fresh(threshold, timeout, maxConcurrent), clients), run))
  {
    CountIdle(clients, Executing);
    CountIdle(clients, Recorded);
    RunKeepsInv(Start(Fresh(threshold, timeout, maxConcurrent), clients), run);
  }

  /** The threshold's bound is exact: a new breaker is closed with no failures, so the
      correspondence between state and count already fails there for a threshold below one. */
  lemma ThresholdNeeded(threshold: int, timeout: int, maxConcurrent: int)
    ensures Inv(Start(Fresh(threshold, timeout, maxConcurrent), 0)) <==> threshold >= 1
  {
    assert Start(Fresh(threshold, timeout, maxConcurrent), 0).phases == [];
  }

  /** While a half-open episode lasts nobody else is admitted and nobody has recorded: the next
      record of any client ends the episode. */
  lemma EpisodeEndsWithRecord(s: System, a: Action)
    requires Inv(s) && Enabled(s, a) && s.b.state == HalfOpen && s.b.threshold >= 1
    ensures a.Allow? ==> Step(s, a) == s
    ensures Step(s, a).b.state == HalfOpen <==> !a.Record?
    ensures a.Record? ==> (Step(s, a).b.state == Closed <==> a.ok)
  {
    CountPositive(s.phases, s.probe, Executing);
  }

  // ----- what the breaker does not promise -----

  lemma {:induction false} RunOn(s: System, run: seq<Action>, a: Action)
    requires IsRun(s, run) && Enabled(Final(s, run), a)
    ensures IsRun(s, run + [a]) && Final(s, run + [a]) == Step(Final(s, run), a)
    decreases |run|
  {
    if run == [] {
      assert [a][1..] == [];
      assert run + [a] == [a];
    } else {
      assert (run + [a])[1..] == run[1..] + [a];
      RunOn(Step(s, run[0]), run[1..], a);
    }
  }

  lemma {:induction false} RunSettings(s: System, run: seq<Action>)
    requires IsRun(s, run)
    ensures |Final(s, run).phases| == |s.phases|
    ensures Final(s, run).b.threshold == s.b.threshold && Final(s, run).b.maxConcurrent == s.b.maxConcurrent
    ensures Final(s, run).b.timeout == s.b.timeout
    decreases |run|
  {
    if run != [] {
      RunSettings(Step(s, run[0]), run[1..]);
    }
  }

  /** `k` calls of one client, each failing and finishing before the next. */
  function Rounds(k: nat): seq<Action> {
    if k == 0 then [] else Rounds(k - 1) + [Allow(0, 0), Record(0, false, 0), Finish(0)]
  }

  /** Failures below the threshold leave the breaker closed and everybody idle. */
  lemma {:induction false} RoundsCount(b: Breaker, clients: nat, k: nat)
    requires b == Fresh(b.threshold, b.timeout, b.maxConcurrent) && k < b.threshold && clients > 0
    ensures IsRun(Start(b, clients), Rounds(k))
    ensures Final(Start(b, clients), Rounds(k)) == Start(b.(failures := k), clients)
    decreases k
  {
    if k > 0 {
      RoundsCount(b, clients, k - 1);
      var s, run := Start(b, clients), Rounds(k - 1);
      var middle := Final(s, run);
      RunOn(s, run, Allow(0, 0));
      RunOn(s, run + [Allow(0, 0)], Record(0, false, 0));
      RunOn(s, run + [Allow(0, 0)] + [Record(0, false, 0)], Finish(0));
      assert Rounds(k) == run + [Allow(0, 0)] + [Record(0, false, 0)] + [Finish(0)];
      assert middle.phases[0 := Executing][0 := Recorded][0 := Idle] == middle.phases;
    }
  }

  /** A time at which the breaker, open since `since`, lets a test request through. */
  function Later(since: int, timeout: int): (now: int)
    ensures now > since && now - since > timeout
  {
    since + (if timeout > 0 then timeout else 0) + 1
  }

  // ----- who answers a half-open episode -----

  /** Somebody other than the test request records while the breaker is half-open. */
  predicate Intrudes(s: System, a: Action) {
    Enabled(s, a) && s.b.state == HalfOpen && a.Record? && a.i != s.probe
  }

  ghost predicate SomeoneIntrudes(s: System) {
    exists run, a :: IsRun(s, run) && Intrudes(Final(s, run), a)
  }

  lemma {:induction false} CountTwo(phases: seq<Phase>, i: nat, j: nat, p: Phase)
    requires i < j < |phases| && phases[i] == p && phases[j] == p
    ensures Count(phases, p) >= 2
    decreases |phases|
  {
    if i == 0 {
      CountPositive(phases[1..], j - 1, p);
    } else {
      CountTwo(phases[1..], i - 1, j - 1, p);
    }
  }

  /** With a limit of one nothing is being executed while the breaker is open. */
  predicate OneAtATime(s: System) {
    Inv(s) && Count(s.phases, Executing) <= (if s.b.state == Open then 0 else 1)
  }

  lemma {:induction false} RunOneAtATime(s: System, run: seq<Action>)
    requires OneAtATime(s) && s.b.threshold >= 1 && s.b.maxConcurrent == 1 && IsRun(s, run)
    ensures OneAtATime(Final(s, run))
    decreases |run|
  {
    if run != [] {
      var a := run[0];
      StepKeepsInv(s, a);
      CountUpdate(s.phases, a.i, if a.Allow? then Executing else if a.Record? then Recorded else Idle, Executing);
      CountPositive(s.phases, a.i, s.phases[a.i]);
      RunOneAtATime(Step(s, a), run[1..]);
    }
  }

  lemma OneAtATimeNoIntruder(s: System, a: Action)
    requires OneAtATime(s)
    ensures !Intrudes(s, a)
  {
    if Intrudes(s, a) {
      if a.i < s.probe {
        CountTwo(s.phases, a.i, s.probe, Executing);
      } else {
        CountTwo(s.phases, s.probe, a.i, Executing);
      }
    }
  }

  /** With room for two calls, a success admitted before the breaker opened closes it while its test
      request is still unanswered. */
  lemma StaleSuccessCloses(threshold: int, timeout: int, maxConcurrent: int, clients: nat)
    returns (run: seq<Action>, last: Action)
    requires threshold >= 1 && maxConcurrent != 1 && clients >= 2
    ensures IsRun(Start(Fresh(threshold, timeout, maxConcurrent), clients), run)
    ensures var before := Final(Start(Fresh(threshold, timeout, maxConcurrent), clients), run);
      Intrudes(before, last) && before.probe < |before.phases|
      && Step(before, last).b.state == Closed && Step(before, last).phases[before.probe] == Executing
  {
    var s := Start(Fresh(threshold, timeout, maxConcurrent), clients);
    run := Rounds(threshold - 1);
    RoundsCount(s.b, clients, threshold - 1);
    RunOn(s, run, Allow(0, 0));
    run := run + [Allow(0, 0)];
    RunOn(s, run, Allow(1, 0));
    run := run + [Allow(1, 0)];
    RunOn(s, run, Record(1, false, 0));
    run := run + [Record(1, false, 0)];
    RunOn(s, run, Finish(1));
    run := run + [Finish(1)];
    RunOn(s, run, Allow(1, Later(0, timeout)));
    run := run + [Allow(1, Later(0, timeout))];
    last := Record(0, true, Later(0, timeout));
  }

  /** Exactly when a limit of one is set, or there is nobody else, only the test request can answer
      a half-open episode. */
  lemma ProbeAnswersExactly(threshold: int, timeout: int, maxConcurrent: int, clients: nat)
    requires threshold >= 1
    ensures !SomeoneIntrudes(Start(Fresh(threshold, timeout, maxConcurrent), clients))
       <==> maxConcurrent == 1 || clients <= 1
  {
    var s := Start(Fresh(threshold, timeout, maxConcurrent), clients);
    if maxConcurrent != 1 && clients > 1 {
      var run, last := StaleSuccessCloses(threshold, timeout, maxConcurrent, clients);
      assert IsRun(s, run) && Intrudes(Final(s, run), last);
    } else {
      CountIdle(clients, Executing);
      CountIdle(clients, Recorded);
      forall run, a | IsRun(s, run)
        ensures !Intrudes(Final(s, run), a)
      {
        ReachableInv(threshold, timeout, maxConcurrent, clients, run);
        RunSettings(s, run);
        if maxConcurrent == 1 {
          RunOneAtATime(s, run);
          OneAtATimeNoIntruder(Final(s, run), a);
        }
      }
    }
  }

  // ----- how many calls are in flight -----

  lemma {:induction false} InFlightAtMost(phases: seq<Phase>)
    ensures InFlight(phases) <= |phases|
    decreases |phases|
  {
    if phases != [] {
      InFlightAtMost(phases[1..]);
    }
  }

  /** Calls that have recorded but not yet finished keep their place in `concurrent`, and each
      timeout admits one more: whatever the limit, every client can be in flight at once. */
  lemma {:induction false} ConcurrentReaches(b: Breaker, clients: nat, k: nat) returns (run: seq<Action>)
    requires b == Fresh(b.threshold, b.timeout, b.maxConcurrent) && b.threshold >= 1 && k <= clients && clients > 0
    ensures IsRun(Start(b, clients), run)
    ensures Final(Start(b, clients), run).b.concurrent == k
    ensures Final(Start(b, clients), run).b.state == if k == 0 then Closed else Open
    ensures Final(Start(b, clients), run).b.failures == b.threshold - 1 + k
    ensures forall i :: k <= i < |Final(Start(b, clients), run).phases| ==>
        Final(Start(b, clients), run).phases[i] == Idle
    decreases k
  {
    var s := Start(b, clients);
    if k == 0 {
      run := Rounds(b.threshold - 1);
      RoundsCount(b, clients, b.threshold - 1);
    } else {
      run := ConcurrentReaches(b, clients, k - 1);
      RunSettings(s, run);
      var now := Later(Final(s, run).b.lastFailure, b.timeout);
      RunOn(s, run, Allow(k - 1, now));
      run := run + [Allow(k - 1, now)];
      RunOn(s, run, Record(k - 1, false, now));
      run := run + [Record(k - 1, false, now)];
    }
  }

  ghost predicate LimitHolds(s: System) {
    forall run :: IsRun(s, run) ==> Final(s, run).b.concurrent <= s.b.maxConcurrent
  }

  /** The limit bounds the calls in flight exactly when there are no more clients than it allows. */
  lemma LimitHoldsExactly(threshold: int, timeout: int, maxConcurrent: int, clients: nat)
    requires threshold >= 1 && maxConcurrent >= 1
    ensures LimitHolds(Start(Fresh(threshold, timeout, maxConcurrent), clients)) <==> clients <= maxConcurrent
  {
    var b := Fresh(threshold, timeout, maxConcurrent);
    var s := Start(b, clients);
    if clients <= maxConcurrent {
      forall run | IsRun(s, run)
        ensures Final(s, run).b.concurrent <= maxConcurrent
      {
        ReachableInv(threshold, timeout, maxConcurrent, clients, run);
        RunSettings(s, run);
        InFlightAtMost(Final(s, run).phases);
      }
    } else {
      var run := ConcurrentReaches(b, clients, clients);
      assert IsRun(s, run) && Final(s, run).b.concurrent > maxConcurrent;
    }
  }
}
