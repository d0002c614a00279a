/** Graceful shutdown (internal/shutdown/manager.go): any number of callers of either entry point go
    through one sync.Once, whose body runs the hooks; hooks of one group run in any order, and one whose
    timeout passes before it is called may run long after. */
module ShutdownRuns {
  import opened HookGroups

  datatype State = StateRunning | StateShuttingDown | StateShutdown

  /** How far an execution of the body has come. */
  datatype Stage = Entered | Marked | Executing | Executed | Over

  /** A hook's function runs in a goroutine of its own, which may be scheduled at any time. */
  datatype Call = Uncalled | Running | Returned

  /** A goroutine that the loop over a group has spawned: it waits for the function of its hook, for
      the hook's timeout, and for the context. `left` says that its wait is over. */
  datatype Routine = Routine(call: Call, late: bool, left: bool)

  /** One execution of the body: its groups, how many of them it has waited for, and the goroutines
      spawned for these and for the group it is waiting for. */
  datatype Body = Body(
    stage: Stage, groups: seq<seq<Hook>>, current: nat, routines: seq<seq<Routine>>, expired: bool)

  /** A hook of the snapshot: its group, and its place there. */
  datatype Id = Id(group: nat, index: nat)

  /** A hook's function is called, or returns or panics; its timeout passes; the wait for it is over;
      the context is cancelled or its deadline passes. */
  datatype Event = Started(id: Id) | Ended(id: Id) | TimedOut(id: Id) | Left(id: Id) | Expired

  /** `holder` and `done` are the mutex and the flag of sync.Once; `bodies` holds the body of every
      caller that has entered one. */
  datatype Manager = Manager(
    state: State,
    holder: set<nat>,
    done: bool,
    waiting: set<nat>,
    returned: set<nat>,
    bodies: map<nat, Body>,
    registered: seq<Hook>,
    closes: nat,
    log: seq<Event>)

  function Initial(): Manager {
    Manager(StateRunning, {}, false, {}, {}, map[], [], 0, [])
  }

  /** A step inside one body. */
  datatype Move =
    | Mark                         // the state becomes ShuttingDown
    | Snapshot(order: seq<Hook>)   // a copy of the hooks, sorted and grouped
    | Spawn                        // the loop over the current group starts its next goroutine
    | StartHook(id: Id)            // the hook's function is called, be it long after the wait for it
    | EndHook(id: Id)              // the function returns or panics
    | TimeOut(id: Id)              // the hook's own timeout passes
    | Leave(id: Id)                // the wait ends: the function is done, or one of the two has passed
    | Expire                       // the context is cancelled or its deadline passes
    | NextGroup                    // the wait group is done: on to the next group, if the context lives
    | Finish                       // the state becomes Shutdown and the done channel is closed

  datatype Step =
    | Register(hook: Hook)
    | Call(caller: nat)               // one of the entry points calls shutdownOnce.Do
    | Enter(caller: nat)              // the mutex is free and the flag unset: the body is entered
    | Inside(caller: nat, move: Move)
    | Exit(caller: nat)               // the body is over: the flag is set and the mutex released
    | Return(caller: nat)             // the flag is set: the call returns without a body

  predicate Sorts(order: seq<Hook>, hooks: seq<Hook>) {
    multiset(order) == multiset(hooks) && Descending(order)
  }

  predicate HasRoutine(b: Body, id: Id) {
    id.group < |b.routines| && id.index < |b.routines[id.group]|
  }

  function RoutineOf(b: Body, id: Id): Routine
    requires HasRoutine(b, id)
  {
    b.routines[id.group][id.index]
  }

  function WithRoutine(b: Body, id: Id, r: Routine): Body
    requires HasRoutine(b, id)
  {
    b.(routines := b.routines[id.group := b.routines[id.group][id.index := r]])
  }

  /** All goroutines of the group are spawned and have left their waits. */
  predicate Waited(b: Body, g: nat) {
    g < |b.groups| && g < |b.routines| && |b.routines[g]| == |b.groups[g]|
    && forall i :: 0 <= i < |b.routines[g]| ==> b.routines[g][i].left
  }

  predicate CanMove(b: Body, registered: seq<Hook>, a: Move) {
    match a
    case Mark => b.stage == Entered
    case Snapshot(order) => b.stage == Marked && Sorts(order, registered)
    case Spawn =>
      b.stage == Executing && b.current < |b.groups| && b.current < |b.routines|
      && |b.routines[b.current]| < |b.groups[b.current]|
    case StartHook(id) => HasRoutine(b, id) && RoutineOf(b, id).call == Uncalled
    case EndHook(id) => HasRoutine(b, id) && RoutineOf(b, id).call == Running
    case TimeOut(id) => HasRoutine(b, id) && !RoutineOf(b, id).late && !RoutineOf(b, id).left
    case Leave(id) =>
      HasRoutine(b, id) && !RoutineOf(b, id).left
      && (RoutineOf(b, id).call == Returned || RoutineOf(b, id).late || b.expired)
    case Expire => !b.expired
    case NextGroup => b.stage == Executing && Waited(b, b.current)
    case Finish => b.stage == Executed
  }

  function Moved(b: Body, registered: seq<Hook>, a: Move): Body
    requires CanMove(b, registered, a)
  {
    match a
    case Mark => b.(stage := Marked)
    case Snapshot(order) =>
      if order == [] then b.(stage := Executed, groups := [])
      else b.(stage := Executing, groups := Groups(order), routines := [[]])
    case Spawn =>
      b.(routines := b.routines[b.current := b.routines[b.current] + [Routine(Uncalled, false, false)]])
    case StartHook(id) => WithRoutine(b, id, RoutineOf(b, id).(call := Running))
    case EndHook(id) => WithRoutine(b, id, RoutineOf(b, id).(call := Returned))
    case TimeOut(id) => WithRoutine(b, id, RoutineOf(b, id).(late := true))
    case Leave(id) => WithRoutine(b, id, RoutineOf(b, id).(left := true))
    case Expire => b.(expired := true)
    case NextGroup =>
      if b.expired || b.current + 1 == |b.groups| then b.(current := b.current + 1, stage := Executed)
      else b.(current := b.current + 1, routines := b.routines + [[]])
    case Finish => b.(stage := Over)
  }

  function Logged(a: Move): seq<Event> {
    match a
    case StartHook(id) => [Started(id)]
    case EndHook(id) => [Ended(id)]
    case TimeOut(id) => [TimedOut(id)]
    case Leave(id) => [Left(id)]
    case Expire => [Expired]
    case Mark => []
    case Snapshot(_) => []
    case Spawn => []
    case NextGroup => []
    case Finish => []
  }

  predicate Enabled(m: Manager, s: Step) {
    match s
    case Register(_) => true
    case Call(c) => c !in m.waiting && c !in m.returned && c !in m.bodies
    case Enter(c) => c in m.waiting && m.holder == {} && !m.done
    case Inside(c, a) => c in m.bodies && CanMove(m.bodies[c], m.registered, a)
    case Exit(c) => c in m.bodies && c !in m.returned && m.bodies[c].stage == Over
    case Return(c) => c in m.waiting && m.done
  }

  function Next(m: Manager, s: Step): Manager
    requires Enabled(m, s)
  {
    match s
    case Register(h) => m.(registered := m.registered + [h])
    case Call(c) => m.(waiting := m.waiting + {c})
    case Enter(c) =>
      m.(waiting := m.waiting - {c}, holder := m.holder + {c}, bodies := m.bodies[c := Body(Entered, [], 0, [], false)])
    case Inside(c, a) =>
      m.(bodies := m.bodies[c := Moved(m.bodies[c], m.registered, a)], log := m.log + Logged(a),
         state := if a == Mark then StateShuttingDown else if a == Finish then StateShutdown else m.state,
         closes := if a == Finish then m.closes + 1 else m.closes)
    case Exit(c) => m.(done := true, holder := m.holder - {c}, returned := m.returned + {c})
    case Return(c) => m.(waiting := m.waiting - {c}, returned := m.returned + {c})
  }

  ghost predicate IsRun(ms: seq<Manager>, steps: seq<Step>) {
    && |ms| == |steps| + 1 && ms[0] == Initial()
    && forall i :: 0 <= i < |steps| ==> Enabled(ms[i], steps[i]) && ms[i + 1] == Next(ms[i], steps[i])
  }

  // ----- counting events -----

  function Count(log: seq<Event>, e: Event): nat {
    if log == [] then 0 else (if log[0] == e then 1 else 0) + Count(log[1..], e)
  }

  lemma {:induction false} CountAppend(log: seq<Event>, e: Event, x: Event)
    ensures Count(log + [e], x) == Count(log, x) + (if e == x then 1 else 0)
    decreases |log|
  {
    if log == [] {
      assert log + [e] == [e] && [e][1..] == [];
    } else {
      assert (log + [e])[1..] == log[1..] + [e];
      CountAppend(log[1..], e, x);
    }
  }

  lemma {:induction false} CountMember(log: seq<Event>, e: Event)
    ensures Count(log, e) > 0 <==> e in log
    decreases |log|
  {
    if log != [] {
      CountMember(log[1..], e);
    }
  }

  lemma {:induction false} CountSplit(log: seq<Event>, k: nat, e: Event)
    requires k <= |log|
    ensures Count(log, e) == Count(log[..k], e) + Count(log[k..], e)
    decreases k
  {
    if k == 0 {
      assert log[..0] == [] && log[0..] == log;
    } else {
      assert log[..k][1..] == log[1..][..k - 1] && log[1..][k - 1..] == log[k..];
      CountSplit(log[1..], k - 1, e);
    }
  }

  // ----- the invariant -----

  predicate IsId(b: Body, id: Id) {
    id.group < |b.groups| && id.index < |b.groups[id.group]|
  }

  /** What has happened, as the loop counters and the goroutines say. */
  predicate Happened(b: Body, e: Event) {
    match e
    case Started(id) => HasRoutine(b, id) && RoutineOf(b, id).call != Uncalled
    case Ended(id) => HasRoutine(b, id) && RoutineOf(b, id).call == Returned
    case TimedOut(id) => HasRoutine(b, id) && RoutineOf(b, id).late
    case Left(id) => HasRoutine(b, id) && RoutineOf(b, id).left
    case Expired => b.expired
  }

  /** The log holds the events of this body, each once. */
  ghost predicate Accounts(b: Body, log: seq<Event>) {
    forall e :: Count(log, e) == if Happened(b, e) then 1 else 0
  }

  /** Waits of earlier groups are over before a hook starts; it starts before it ends; a wait ends
      because the hook has ended, its timeout has passed, or the context has expired. */
  predicate Justified(groups: seq<seq<Hook>>, log: seq<Event>, e: Event) {
    match e
    case Started(id) =>
      forall g: nat, i: nat | g < id.group && g < |groups| && i < |groups[g]| :: Left(Id(g, i)) in log
    case Ended(id) => Started(id) in log
    case Left(id) => Ended(id) in log || TimedOut(id) in log || Expired in log
    case TimedOut(_) => true
    case Expired => true
  }

  ghost predicate InOrder(groups: seq<seq<Hook>>, log: seq<Event>) {
    forall k: nat | k < |log| :: Justified(groups, log[..k], log[k])
  }

  predicate WellFormed(b: Body) {
    && (b.stage in {Entered, Marked} ==> b.groups == [] && b.current == 0)
    && |b.routines| == (if b.stage == Executing then b.current + 1 else b.current) <= |b.groups|
    && (forall g :: 0 <= g < |b.routines| ==> |b.routines[g]| <= |b.groups[g]|)
    && (forall g: nat | g < b.current :: Waited(b, g))
    && StrictlyDescending(b.groups)
    && (b.stage in {Executed, Over} && !b.expired ==> b.current == |b.groups|)
  }

  function StateOf(stage: Stage): State {
    match stage
    case Entered => StateRunning
    case Marked => StateShuttingDown
    case Executing => StateShuttingDown
    case Executed => StateShuttingDown
    case Over => StateShutdown
  }

  ghost predicate BodyInv(b: Body, log: seq<Event>) {
    WellFormed(b) && Accounts(b, log) && InOrder(b.groups, log)
  }

  /** The mutex and the flag let one body in, ever. */
  predicate Once(m: Manager) {
    && m.holder == (if m.done then {} else m.bodies.Keys)
    && (forall c, d :: c in m.bodies && d in m.bodies ==> c == d)
    && (m.done ==> exists c :: c in m.bodies && m.bodies[c].stage == Over && c in m.returned)
    && (m.returned != {} ==> m.done)
  }

  ghost predicate Inv(m: Manager) {
    && Once(m)
    && (forall c :: c in m.bodies ==> BodyInv(m.bodies[c], m.log) && m.state == StateOf(m.bodies[c].stage))
    && (m.bodies == map[] ==> m.log == [] && m.state == StateRunning)
    && m.closes == (if m.state == StateShutdown then 1 else 0)
  }

  // ----- every step keeps it -----

  /** An event joins the log. */
  lemma EventKeeps(b: Body, b': Body, log: seq<Event>, e: Event)
    requires Accounts(b, log) && InOrder(b.groups, log) && b'.groups == b.groups
    requires !Happened(b, e) && Justified(b.groups, log, e)
    requires forall x :: Happened(b', x) <==> Happened(b, x) || x == e
    ensures Accounts(b', log + [e]) && InOrder(b'.groups, log + [e])
  {
    forall x
      ensures Count(log + [e], x) == if Happened(b', x) then 1 else 0
    {
      CountAppend(log, e, x);
    }
    forall k: nat | k < |log + [e]|
      ensures Justified(b'.groups, (log + [e])[..k], (log + [e])[k])
    {
      assert (log + [e])[..k] == if k < |log| then log[..k] else log;
    }
  }

  lemma InLog(b: Body, log: seq<Event>, e: Event)
    requires Accounts(b, log)
    ensures e in log <==> Happened(b, e)
  {
    CountMember(log, e);
  }

  /** What the move logs has not happened before, and nothing else happens. */
  lemma HookMoves(b: Body, registered: seq<Hook>, a: Move, x: Event)
    requires CanMove(b, registered, a) && (a.StartHook? || a.EndHook? || a.TimeOut? || a.Leave?)
    ensures |Logged(a)| == 1 && !Happened(b, Logged(a)[0])
    ensures Happened(Moved(b, registered, a), x) <==> Happened(b, x) || x == Logged(a)[0]
  {
    if !x.Expired? {
      assert HasRoutine(Moved(b, registered, a), x.id) == HasRoutine(b, x.id);
    }
  }

  /** A hook is called only once the loop has reached its group, and so waited for those before. */
  lemma EarlierLeft(b: Body, log: seq<Event>, id: Id)
    requires WellFormed(b) && Accounts(b, log) && HasRoutine(b, id)
    ensures Justified(b.groups, log, Started(id))
  {
    forall g: nat, i: nat | g < id.group && i < |b.groups[g]|
      ensures Left(Id(g, i)) in log
    {
      assert Waited(b, g);
      InLog(b, log, Left(Id(g, i)));
    }
  }

  lemma HookMoveKeeps(b: Body, registered: seq<Hook>, a: Move, log: seq<Event>)
    requires BodyInv(b, log) && CanMove(b, registered, a)
    requires a.StartHook? || a.EndHook? || a.TimeOut? || a.Leave?
    ensures BodyInv(Moved(b, registered, a), log + Logged(a))
  {
    var b' := Moved(b, registered, a);
    forall x
      ensures !Happened(b, Logged(a)[0])
      ensures Happened(b', x) <==> Happened(b, x) || x == Logged(a)[0]
    {
      HookMoves(b, registered, a, x);
    }
    EarlierLeft(b, log, a.id);
    InLog(b, log, Started(a.id));
    InLog(b, log, Ended(a.id));
    InLog(b, log, TimedOut(a.id));
    InLog(b, log, Expired);
    EventKeeps(b, b', log, Logged(a)[0]);
    WaitsStay(b, a.id, RoutineOf(b', a.id));
  }

  /** A routine that changes without coming back to its wait leaves the waits that are over so. */
  lemma WaitsStay(b: Body, id: Id, r: Routine)
    requires WellFormed(b) && HasRoutine(b, id) && (RoutineOf(b, id).left ==> r.left)
    ensures WellFormed(WithRoutine(b, id, r))
  {
    var b' := WithRoutine(b, id, r);
    forall g: nat | g < b'.current
      ensures Waited(b', g)
    {
      assert Waited(b, g);
    }
  }

  /** Moves that log nothing. */
  lemma QuietKeeps(b: Body, b': Body, log: seq<Event>)
    requires Accounts(b, log)
    requires forall x :: Happened(b', x) == Happened(b, x)
    ensures Accounts(b', log)
  {
  }

  lemma SnapshotKeeps(b: Body, registered: seq<Hook>, order: seq<Hook>, log: seq<Event>)
    requires BodyInv(b, log) && CanMove(b, registered, Snapshot(order))
    ensures BodyInv(Moved(b, registered, Snapshot(order)), log)
  {
    GroupsDescend(order);
    QuietKeeps(b, Moved(b, registered, Snapshot(order)), log);
    forall k: nat | k < |log|
      ensures log[k] == Expired
    {
      InLog(b, log, log[k]);
    }
  }

  lemma SpawnKeeps(b: Body, registered: seq<Hook>, log: seq<Event>)
    requires BodyInv(b, log) && CanMove(b, registered, Spawn)
    ensures BodyInv(Moved(b, registered, Spawn), log)
  {
    var b' := Moved(b, registered, Spawn);
    QuietKeeps(b, b', log);
    forall g: nat | g < b'.current
      ensures Waited(b', g)
    {
      assert Waited(b, g);
    }
  }

  lemma NextGroupKeeps(b: Body, registered: seq<Hook>, log: seq<Event>)
    requires BodyInv(b, log) && CanMove(b, registered, NextGroup)
    ensures BodyInv(Moved(b, registered, NextGroup), log)
  {
    var b' := Moved(b, registered, NextGroup);
    QuietKeeps(b, b', log);
    forall g: nat | g < b'.current
      ensures Waited(b', g)
    {
      assert Waited(b, g);
    }
  }

  lemma ExpireKeeps(b: Body, registered: seq<Hook>, log: seq<Event>)
    requires BodyInv(b, log) && CanMove(b, registered, Expire)
    ensures BodyInv(Moved(b, registered, Expire), log + [Expired])
  {
    EventKeeps(b, Moved(b, registered, Expire), log, Expired);
    WaitedStays(b, Moved(b, registered, Expire));
  }

  lemma WaitedStays(b: Body, b': Body)
    requires b'.groups == b.groups && b'.routines == b.routines
    ensures forall g: nat :: Waited(b', g) == Waited(b, g)
  {
  }

  lemma StageKeeps(b: Body, registered: seq<Hook>, a: Move, log: seq<Event>)
    requires BodyInv(b, log) && CanMove(b, registered, a) && a in {Mark, Finish}
    ensures BodyInv(Moved(b, registered, a), log)
  {
    QuietKeeps(b, Moved(b, registered, a), log);
    WaitedStays(b, Moved(b, registered, a));
  }

  lemma MoveKeeps(b: Body, registered: seq<Hook>, a: Move, log: seq<Event>)
    requires BodyInv(b, log) && CanMove(b, registered, a)
    ensures BodyInv(Moved(b, registered, a), log + Logged(a))
  {
    assert log + [] == log;
    match a {
      case Snapshot(order) => SnapshotKeeps(b, registered, order, log);
      case StartHook(_) => HookMoveKeeps(b, registered, a, log);
      case EndHook(_) => HookMoveKeeps(b, registered, a, log);
      case TimeOut(_) => HookMoveKeeps(b, registered, a, log);
      case Leave(_) => HookMoveKeeps(b, registered, a, log);
      case NextGroup => NextGroupKeeps(b, registered, log);
      case Spawn => SpawnKeeps(b, registered, log);
      case Expire => ExpireKeeps(b, registered, log);
      case Mark => StageKeeps(b, registered, a, log);
      case Finish => StageKeeps(b, registered, a, log);
    }
  }

  /** A body that has just been entered, before anything is logged. */
  lemma EnteredInv()
    ensures BodyInv(Body(Entered, [], 0, [], false), [])
  {
  }

  /** Only the first and the last move of a body change the manager's state, and nothing after the
      last one changes the stage. */
  lemma MovedStage(b: Body, registered: seq<Hook>, a: Move)
    requires CanMove(b, registered, a)
    ensures var stage := Moved(b, registered, a).stage;
      StateOf(stage) == (if a == Mark then StateShuttingDown
                         else if a == Finish then StateShutdown else StateOf(b.stage))
      && (b.stage == Over ==> stage == Over && Moved(b, registered, a).current == b.current
                              && a != Finish && a != Mark)
      && (b.stage != Over ==> StateOf(b.stage) != StateShutdown)
  {
  }

  /** The one body moves on. */
  lemma PutKeeps(m: Manager, c: nat, b: Body, state: State, closes: nat, log: seq<Event>)
    requires Once(m) && c in m.bodies && BodyInv(b, log) && state == StateOf(b.stage)
    requires m.bodies[c].stage == Over ==> b.stage == Over
    requires closes == if state == StateShutdown then 1 else 0
    ensures Inv(m.(bodies := m.bodies[c := b], state := state, closes := closes, log := log))
  {
    assert m.bodies[c := b].Keys == m.bodies.Keys;
  }

  lemma InsideKeeps(m: Manager, c: nat, a: Move)
    requires Inv(m) && Enabled(m, Inside(c, a))
    ensures Inv(Next(m, Inside(c, a)))
  {
    MoveKeeps(m.bodies[c], m.registered, a, m.log);
    MovedStage(m.bodies[c], m.registered, a);
    var n := Next(m, Inside(c, a));
    PutKeeps(m, c, n.bodies[c], n.state, n.closes, n.log);
  }

  lemma StepKeeps(m: Manager, s: Step)
    requires Inv(m) && Enabled(m, s)
    ensures Inv(Next(m, s))
  {
    match s {
      case Register(_) =>
      case Call(_) =>
      case Enter(c) =>
        EnteredInv();
        assert m.bodies == map[];
      case Inside(c, a) => InsideKeeps(m, c, a);
      case Exit(_) =>
      case Return(_) =>
    }
  }

  lemma {:induction false} RunInv(ms: seq<Manager>, steps: seq<Step>, i: nat)
    requires IsRun(ms, steps) && i < |ms|
    ensures Inv(ms[i])
    decreases i
  {
    if i > 0 {
      RunInv(ms, steps, i - 1);
      StepKeeps(ms[i - 1], steps[i - 1]);
    }
  }

  // ----- what every run does -----

  function Priority(b: Body, id: Id): int
    requires IsId(b, id)
  {
    b.groups[id.group][id.index].priority
  }

  /** However many callers there are, no hook starts twice, and none ends twice. */
  lemma AtMostOnce(ms: seq<Manager>, steps: seq<Step>, i: nat, id: Id)
    requires IsRun(ms, steps) && i < |ms|
    ensures Count(ms[i].log, Started(id)) <= 1 && Count(ms[i].log, Ended(id)) <= 1
  {
    RunInv(ms, steps, i);
    if ms[i].bodies != map[] {
      var c :| c in ms[i].bodies;
      assert Accounts(ms[i].bodies[c], ms[i].log);
    }
  }

  /** However many callers there are, one body is entered. */
  lemma OneBody(ms: seq<Manager>, steps: seq<Step>, i: nat, c: nat, d: nat)
    requires IsRun(ms, steps) && i < |ms| && c in ms[i].bodies && d in ms[i].bodies
    ensures c == d
  {
    RunInv(ms, steps, i);
  }

  /** What a log orders is so before each of its events. */
  lemma RunInOrder(ms: seq<Manager>, steps: seq<Step>, i: nat, c: nat, k: nat)
    requires IsRun(ms, steps) && i < |ms| && c in ms[i].bodies && k < |ms[i].log|
    ensures Justified(ms[i].bodies[c].groups, ms[i].log[..k], ms[i].log[k])
  {
    RunInv(ms, steps, i);
  }

  /** An event of the log has not happened before. */
  lemma NotBefore(ms: seq<Manager>, steps: seq<Step>, i: nat, c: nat, k: nat)
    requires IsRun(ms, steps) && i < |ms| && c in ms[i].bodies && k < |ms[i].log|
    ensures ms[i].log[k] !in ms[i].log[..k]
  {
    RunInv(ms, steps, i);
    var log := ms[i].log;
    assert Count(log, log[k]) <= 1;
    CountSplit(log, k, log[k]);
    CountMember(log[..k], log[k]);
    CountMember(log[k..], log[k]);
    assert log[k..][0] == log[k];
  }

  /** When a hook starts, and it may start late, every wait for a hook of higher priority is over:
      that hook has ended, or its timeout or the context's has passed. */
  lemma HigherFirst(ms: seq<Manager>, steps: seq<Step>, i: nat, k: nat, c: nat, id: Id, higher: Id)
    requires IsRun(ms, steps) && i < |ms| && k < |ms[i].log| && ms[i].log[k] == Started(id) && c in ms[i].bodies
    requires IsId(ms[i].bodies[c], id) && IsId(ms[i].bodies[c], higher)
    requires Priority(ms[i].bodies[c], higher) > Priority(ms[i].bodies[c], id)
    ensures var before := ms[i].log[..k];
      Left(higher) in before && Started(id) !in before
      && (Ended(higher) in before || TimedOut(higher) in before || Expired in before)
  {
    RunInv(ms, steps, i);
    RunInOrder(ms, steps, i, c, k);
    NotBefore(ms, steps, i, c, k);
    var b, log := ms[i].bodies[c], ms[i].log;
    assert Uniform(b.groups[id.group]) && Uniform(b.groups[higher.group]);
    assert Left(Id(higher.group, higher.index)) in log[..k];
    var j :| 0 <= j < k && log[..k][j] == Left(higher);
    RunInOrder(ms, steps, i, c, j);
    assert forall e :: e in log[..j] ==> e in log[..k];
  }

  /** When shutdown is over, exactly the groups before `current` have been waited for, from the
      highest priority down, and no hook of a later group has been called or ever will be; without
      an expired context these are all groups. */
  lemma WholeGroups(ms: seq<Manager>, steps: seq<Step>, i: nat, j: nat, c: nat, id: Id)
    requires IsRun(ms, steps) && i <= j < |ms| && ms[i].state == StateShutdown
    requires c in ms[i].bodies && IsId(ms[i].bodies[c], id)
    ensures var current := ms[i].bodies[c].current;
      Count(ms[i].log, Left(id)) == (if id.group < current then 1 else 0)
      && (Started(id) in ms[j].log ==> id.group < current)
      && (Expired !in ms[i].log ==> current == |ms[i].bodies[c].groups|)
  {
    RunInv(ms, steps, i);
    RunInv(ms, steps, j);
    var b := ms[i].bodies[c];
    OverStays(ms, steps, i, j, c);
    InLog(b, ms[i].log, Expired);
    InLog(ms[j].bodies[c], ms[j].log, Started(id));
    assert id.group < b.current ==> Waited(b, id.group);
  }

  lemma StepKeepsOver(m: Manager, s: Step, c: nat)
    requires Once(m) && Enabled(m, s) && c in m.bodies && m.bodies[c].stage == Over
    ensures c in Next(m, s).bodies && Next(m, s).bodies[c].stage == Over
    ensures Next(m, s).bodies[c].current == m.bodies[c].current
  {
    if s.Inside? {
      MovedStage(m.bodies[s.caller], m.registered, s.move);
    } else {
      assert c in m.bodies.Keys;
    }
  }

  lemma {:induction false} OverStays(ms: seq<Manager>, steps: seq<Step>, i: nat, j: nat, c: nat)
    requires IsRun(ms, steps) && i <= j < |ms| && c in ms[i].bodies && ms[i].bodies[c].stage == Over
    ensures c in ms[j].bodies && ms[j].bodies[c].stage == Over && ms[j].bodies[c].current == ms[i].bodies[c].current
    decreases j - i
  {
    if i < j {
      OverStays(ms, steps, i, j - 1, c);
      RunInv(ms, steps, j - 1);
      StepKeepsOver(ms[j - 1], steps[j - 1], c);
    }
  }

  /** The hook's timeout or the context's, if it passes, passes after the event. */
  ghost predicate InTime(log: seq<Event>, id: Id, e: Event) {
    forall k: nat | k < |log| && log[k] in {TimedOut(id), Expired} :: e in log[..k]
  }

  /** A hook of the snapshot whose function was called before its timeout or the context's passed has
      started once when shutdown is over; if it returned before that, it has ended once. */
  lemma ExactlyOnce(ms: seq<Manager>, steps: seq<Step>, i: nat, c: nat, id: Id)
    requires IsRun(ms, steps) && i < |ms| && ms[i].state == StateShutdown
    requires c in ms[i].bodies && IsId(ms[i].bodies[c], id)
    ensures InTime(ms[i].log, id, Started(id)) ==> Count(ms[i].log, Started(id)) == 1
    ensures InTime(ms[i].log, id, Ended(id)) ==>
      Count(ms[i].log, Started(id)) == 1 && Count(ms[i].log, Ended(id)) == 1
  {
    RunInv(ms, steps, i);
    var b, log := ms[i].bodies[c], ms[i].log;
    WholeGroups(ms, steps, i, i, c, id);
    EndedStarted(b, log, id);
    if Expired in log {
      var k :| 0 <= k < |log| && log[k] == Expired;
      Prefix(log, k);
    } else {
      CountMember(log, Left(id));
      var k :| 0 <= k < |log| && log[k] == Left(id);
      RunInOrder(ms, steps, i, c, k);
      Prefix(log, k);
      if TimedOut(id) in log {
        var t :| 0 <= t < |log| && log[t] == TimedOut(id);
        Prefix(log, t);
      }
    }
    CountMember(log, Started(id));
    CountMember(log, Ended(id));
  }

  lemma Prefix(log: seq<Event>, k: nat)
    requires k <= |log|
    ensures forall e :: e in log[..k] ==> e in log
  {
  }

  lemma EndedStarted(b: Body, log: seq<Event>, id: Id)
    requires Accounts(b, log)
    ensures Ended(id) in log ==> Started(id) in log
  {
    InLog(b, log, Started(id));
    InLog(b, log, Ended(id));
  }

  // ----- what a passed timeout takes away -----

  ghost predicate Reached(m: Manager) {
    exists ms, steps :: IsRun(ms, steps) && ms[|steps|] == m
  }

  lemma ReachedStep(m: Manager, s: Step)
    requires Reached(m) && Enabled(m, s)
    ensures Reached(Next(m, s))
  {
    var ms, steps :| IsRun(ms, steps) && ms[|steps|] == m;
    var more, further := ms + [Next(m, s)], steps + [s];
    forall i | 0 <= i < |further|
      ensures Enabled(more[i], further[i]) && more[i + 1] == Next(more[i], further[i])
    {
      assert i < |steps| ==> more[i] == ms[i] && more[i + 1] == ms[i + 1] && further[i] == steps[i];
    }
    assert IsRun(more, further) && more[|further|] == Next(m, s);
  }

  /** The events that are no call of a hook's function, all caused as `expired` says. */
  predicate NoCalls(log: seq<Event>, expired: bool) {
    forall e :: e in log ==> !e.Started? && (if expired then !e.TimedOut? else !e.Expired?)
  }

  /** The first caller's body is under way, and of the hooks it has waited for none has been called. */
  ghost predicate Missed(m: Manager, order: seq<Hook>, expired: bool) {
    && Reached(m) && 0 in m.bodies && NoCalls(m.log, expired)
    && m.bodies[0].groups == Groups(order) && m.bodies[0].expired == expired
    && WellFormed(m.bodies[0])
    && forall g, i :: 0 <= g < |m.bodies[0].routines| && 0 <= i < |m.bodies[0].routines[g]| ==>
         m.bodies[0].routines[g][i] == Routine(Uncalled, !expired, true)
  }

  lemma ReachedWell(m: Manager, c: nat)
    requires Reached(m) && c in m.bodies
    ensures WellFormed(m.bodies[c]) && m.state == StateOf(m.bodies[c].stage)
  {
    var ms, steps :| IsRun(ms, steps) && ms[|steps|] == m;
    RunInv(ms, steps, |steps|);
  }

  function After(m: Manager, a: Move): Manager
    requires Enabled(m, Inside(0, a))
  {
    Next(m, Inside(0, a))
  }

  lemma AfterReached(m: Manager, a: Move, expired: bool)
    requires Reached(m) && Enabled(m, Inside(0, a)) && NoCalls(m.log, expired) && NoCalls(Logged(a), expired)
    ensures Reached(After(m, a)) && NoCalls(After(m, a).log, expired)
    ensures 0 in After(m, a).bodies && After(m, a).bodies[0] == Moved(m.bodies[0], m.registered, a)
  {
    ReachedStep(m, Inside(0, a));
  }

  /** A goroutine after its timeout has passed, unless the context's has. */
  function Late(b: Body, registered: seq<Hook>, id: Id): Body
    requires HasRoutine(b, id) && !RoutineOf(b, id).left && !RoutineOf(b, id).late
  {
    if b.expired then b else Moved(b, registered, TimeOut(id))
  }

  function Extended(b: Body, r: Routine): Body
    requires b.current < |b.routines|
  {
    b.(routines := b.routines[b.current := b.routines[b.current] + [r]])
  }

  lemma MissMoves(b: Body, registered: seq<Hook>)
    requires CanMove(b, registered, Spawn)
    ensures var id, spawned := Id(b.current, |b.routines[b.current]|), Moved(b, registered, Spawn);
      HasRoutine(spawned, id) && RoutineOf(spawned, id) == Routine(Uncalled, false, false)
      && CanMove(Late(spawned, registered, id), registered, Leave(id))
      && Moved(Late(spawned, registered, id), registered, Leave(id)) == Extended(b, Routine(Uncalled, !b.expired, true))
  {
    var id, spawned := Id(b.current, |b.routines[b.current]|), Moved(b, registered, Spawn);
    var last := Moved(Late(spawned, registered, id), registered, Leave(id));
    assert last.routines[b.current] == b.routines[b.current] + [Routine(Uncalled, !b.expired, true)];
  }

  lemma ExtendedMisses(m: Manager, m': Manager, order: seq<Hook>, expired: bool)
    requires Missed(m, order, expired) && m.bodies[0].current < |m.bodies[0].routines|
    requires Reached(m') && 0 in m'.bodies && NoCalls(m'.log, expired)
    requires m'.bodies[0] == Extended(m.bodies[0], Routine(Uncalled, !expired, true))
    ensures Missed(m', order, expired)
  {
    ReachedWell(m', 0);
  }

  /** A goroutine is spawned, and its wait ends before its hook is called. */
  lemma MissHook(m: Manager, order: seq<Hook>, expired: bool) returns (m': Manager)
    requires Missed(m, order, expired) && CanMove(m.bodies[0], m.registered, Spawn)
    ensures Missed(m', order, expired) && m'.bodies[0].stage == Executing
    ensures m'.bodies[0].current == m.bodies[0].current
    ensures |m'.bodies[0].routines[m.bodies[0].current]| == |m.bodies[0].routines[m.bodies[0].current]| + 1
  {
    var b := m.bodies[0];
    var id := Id(b.current, |b.routines[b.current]|);
    MissMoves(b, m.registered);
    AfterReached(m, Spawn, expired);
    m' := After(m, Spawn);
    if !expired {
      AfterReached(m', TimeOut(id), expired);
      m' := After(m', TimeOut(id));
    }
    AfterReached(m', Leave(id), expired);
    m' := After(m', Leave(id));
    ExtendedMisses(m, m', order, expired);
  }

  lemma MissGroup(m: Manager, order: seq<Hook>, expired: bool) returns (m': Manager)
    requires Missed(m, order, expired) && m.bodies[0].stage == Executing
    ensures Missed(m', order, expired) && m'.bodies[0].current == m.bodies[0].current + 1
    ensures m'.bodies[0].stage == if expired || m'.bodies[0].current == |Groups(order)| then Executed else Executing
    decreases |m.bodies[0].groups[m.bodies[0].current]| - |m.bodies[0].routines[m.bodies[0].current]|
  {
    var b := m.bodies[0];
    if |b.routines[b.current]| < |b.groups[b.current]| {
      m' := MissHook(m, order, expired);
      m' := MissGroup(m', order, expired);
    } else {
      AfterReached(m, NextGroup, expired);
      m' := After(m, NextGroup);
      ReachedWell(m', 0);
    }
  }

  /** All groups are missed so, or the first if the context has expired. */
  lemma MissGroups(m: Manager, order: seq<Hook>, expired: bool) returns (m': Manager)
    requires Missed(m, order, expired) && m.bodies[0].stage == Executing && (expired ==> m.bodies[0].current == 0)
    ensures Missed(m', order, expired) && m'.bodies[0].stage == Executed
    ensures m'.bodies[0].current == if expired then 1 else |Groups(order)|
    decreases |Groups(order)| - m.bodies[0].current
  {
    m' := MissGroup(m, order, expired);
    if m'.bodies[0].stage == Executing {
      m' := MissGroups(m', order, expired);
    }
  }

  lemma {:induction false} Registers(hooks: seq<Hook>)
    ensures Reached(Initial().(registered := hooks))
    decreases |hooks|
  {
    if hooks == [] {
      assert IsRun([Initial()], []) && [Initial()][0] == Initial();
    } else {
      Registers(hooks[..|hooks| - 1]);
      ReachedStep(Initial().(registered := hooks[..|hooks| - 1]), Register(hooks[|hooks| - 1]));
      assert hooks == hooks[..|hooks| - 1] + [hooks[|hooks| - 1]];
    }
  }

  /** The body is entered, its context expired or not. */
  lemma Begun(order: seq<Hook>, expired: bool) returns (m: Manager)
    ensures Reached(m) && 0 in m.bodies && NoCalls(m.log, expired) && m.registered == order
    ensures m.bodies[0] == Body(Marked, [], 0, [], expired)
  {
    Registers(order);
    m := Initial().(registered := order);
    ReachedStep(m, Call(0));
    m := Next(m, Call(0));
    ReachedStep(m, Enter(0));
    m := Next(m, Enter(0));
    if expired {
      AfterReached(m, Expire, expired);
      m := After(m, Expire);
    }
    AfterReached(m, Mark, expired);
    m := After(m, Mark);
  }

  /** The hooks are grouped. */
  lemma Grouped(order: seq<Hook>, expired: bool) returns (m: Manager)
    requires Descending(order)
    ensures Missed(m, order, expired) && m.bodies[0].stage == (if order == [] then Executed else Executing)
    ensures m.bodies[0].current == 0
  {
    m := Begun(order, expired);
    AfterReached(m, Snapshot(order), expired);
    m := After(m, Snapshot(order));
    ReachedWell(m, 0);
  }

  /** Whatever hooks there are, shutdown can be over before any of them is called: because all their
      timeouts have passed first, or because the context has, and then all but the first group are
      never called. The waited-for hooks can still start afterwards. */
  lemma NothingStarted(order: seq<Hook>, expired: bool) returns (m: Manager)
    requires Descending(order)
    ensures Reached(m) && m.state == StateShutdown && 0 in m.bodies && NoCalls(m.log, expired)
    ensures var b := m.bodies[0];
      b.groups == Groups(order) && b.current == (if expired && order != [] then 1 else |b.groups|)
      && forall id :: IsId(b, id) && id.group < b.current ==> Enabled(m, Inside(0, StartHook(id)))
  {
    m := Grouped(order, expired);
    if order != [] {
      m := MissGroups(m, order, expired);
    }
    AfterReached(m, Finish, expired);
    m := After(m, Finish);
    ReachedWell(m, 0);
    StillCallable(m.bodies[0], m.registered, expired);
  }

  lemma StillCallable(b: Body, registered: seq<Hook>, expired: bool)
    requires WellFormed(b)
    requires forall g, i :: 0 <= g < |b.routines| && 0 <= i < |b.routines[g]| ==>
      b.routines[g][i] == Routine(Uncalled, !expired, true)
    ensures forall id :: IsId(b, id) && id.group < b.current ==> CanMove(b, registered, StartHook(id))
  {
    forall id | IsId(b, id) && id.group < b.current
      ensures CanMove(b, registered, StartHook(id))
    {
      assert Waited(b, id.group);
    }
  }

  function Rank(s: State): nat {
    match s
    case StateRunning => 0
    case StateShuttingDown => 1
    case StateShutdown => 2
  }

  /** However many callers there are, the state moves forward one step at a time, and done is closed
      once, when the state becomes Shutdown. */
  lemma StateMovesForward(ms: seq<Manager>, steps: seq<Step>, i: nat)
    requires IsRun(ms, steps) && i < |steps|
    ensures Rank(ms[i].state) <= Rank(ms[i + 1].state) <= Rank(ms[i].state) + 1
    ensures ms[i + 1].closes == (if ms[i + 1].state == StateShutdown then 1 else 0)
  {
    RunInv(ms, steps, i);
    RunInv(ms, steps, i + 1);
    StepForward(ms[i], steps[i]);
  }

  lemma StepForward(m: Manager, s: Step)
    requires Inv(m) && Enabled(m, s)
    ensures Rank(m.state) <= Rank(Next(m, s).state) <= Rank(m.state) + 1
  {
    if s.Inside? {
      MovedStage(m.bodies[s.caller], m.registered, s.move);
      InsideRank(m.bodies[s.caller], m.registered, s.move);
    }
  }

  lemma InsideRank(b: Body, registered: seq<Hook>, a: Move)
    requires CanMove(b, registered, a)
    ensures a == Mark ==> StateOf(b.stage) == StateRunning
    ensures a == Finish ==> StateOf(b.stage) == StateShuttingDown
  {
  }

  /** The snapshot is the hooks registered at that moment, in uniform groups of descending priority. */
  lemma SnapshotIsRegistered(ms: seq<Manager>, steps: seq<Step>, i: nat, c: nat)
    requires IsRun(ms, steps) && i < |steps| && steps[i].Inside? && steps[i].caller == c && steps[i].move.Snapshot?
    ensures c in ms[i + 1].bodies && StrictlyDescending(ms[i + 1].bodies[c].groups)
    ensures multiset(Flatten(ms[i + 1].bodies[c].groups)) == multiset(ms[i].registered)
  {
    assert Enabled(ms[i], steps[i]);
    GroupsPartition(steps[i].move.order);
    GroupsDescend(steps[i].move.order);
  }

  lemma StepKeepsSnapshot(m: Manager, s: Step, c: nat)
    requires Once(m) && Enabled(m, s) && c in m.bodies && m.bodies[c].stage in {Executing, Executed, Over}
    ensures c in Next(m, s).bodies && Next(m, s).bodies[c].stage in {Executing, Executed, Over}
    ensures Next(m, s).bodies[c].groups == m.bodies[c].groups
  {
    assert s.Inside? || c in m.bodies.Keys;
  }

  /** Once taken, the snapshot does not change: hooks registered later are not run. */
  lemma {:induction false} SnapshotStays(ms: seq<Manager>, steps: seq<Step>, i: nat, j: nat, c: nat)
    requires IsRun(ms, steps) && i <= j < |ms| && c in ms[i].bodies
    requires ms[i].bodies[c].stage in {Executing, Executed, Over}
    ensures c in ms[j].bodies && ms[j].bodies[c].stage in {Executing, Executed, Over}
    ensures ms[j].bodies[c].groups == ms[i].bodies[c].groups
    decreases j - i
  {
    if i < j {
      SnapshotStays(ms, steps, i, j - 1, c);
      RunInv(ms, steps, j - 1);
      StepKeepsSnapshot(ms[j - 1], steps[j - 1], c);
    }
  }

  /** No caller comes back before shutdown is over. */
  lemma ReturnsAfterwards(ms: seq<Manager>, steps: seq<Step>, i: nat)
    requires IsRun(ms, steps) && i < |ms|
    ensures ms[i].returned != {} ==> ms[i].state == StateShutdown
  {
    RunInv(ms, steps, i);
  }
}
