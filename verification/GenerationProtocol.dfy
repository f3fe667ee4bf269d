/** The add-on generation lifecycle as a state machine over its suspension points.

    One reconcile or dispose operation runs at a time; the others wait in `queue`. The running operation is
    suspended at the promise named by `running`. `CallDispose` overtakes it: it cancels the activation in
    flight at once and outdates every earlier reconcile by raising the epoch. */
module GenerationProtocol {
  import opened Results
  import opened TopologicalOrder

  /** `content` stands for every descriptor field the manager only compares. */
  datatype Descriptor = Descriptor(generationId: string, content: string, dependencies: seq<AddonId>)

  type Addons = map<AddonId, Descriptor>

  datatype ScopeState = ScopeActive | ScopeDisposing | ScopeDisposed

  /** A generation and the number of its scope. */
  datatype Generation = Generation(descriptor: Descriptor, scope: nat)

  datatype FailureKind = ActivationFailed | DependencyUnavailable
  datatype Failure = Failure(id: AddonId, kind: FailureKind)

  datatype Target = Target(graphRevision: string, addons: Addons, order: seq<AddonId>) {
    ghost predicate Valid() {
      IsTopologicalOrder(DependenciesOf(addons), order)
    }
  }

  datatype Operation = ReconcileOperation(target: Target, epoch: nat) | DisposeOperation(interrupted: Option<nat>)

  /** What follows once every active generation has stopped. */
  datatype Continuation = ThenActivate(target: Target, epoch: nat) | ThenClear

  datatype Running =
    | Idle
    | AwaitingInterrupted(interrupted: Option<nat>)
    | Stopping(rest: seq<AddonId>, stopped: nat, next: Continuation)
    | AllStopped(next: Continuation)
    | Activating(target: Target, epoch: nat, index: nat, failures: seq<Failure>)
    | CleaningUp(target: Target, epoch: nat, index: nat, failures: seq<Failure>)

  datatype OperationResult = Reconciled(target: Target, failures: seq<Failure>) | Aborted | AllDisposed

  datatype State = State(
    active: map<AddonId, Generation>,
    pending: Option<Generation>,
    epoch: nat,
    graphRevision: string,
    queue: seq<Operation>,
    running: Running,
    results: seq<OperationResult>,
    scopes: seq<ScopeState>)

  const Initial := State(map[], None, 0, "", [], Idle, [], [])

  function DependenciesOf(addons: Addons): Graph {
    map id | id in addons :: addons[id].dependencies
  }

  function ActiveDependencies(active: map<AddonId, Generation>): Graph {
    map id | id in active :: active[id].descriptor.dependencies
  }

  function Reverse<T>(s: seq<T>): (r: seq<T>)
    ensures |r| == |s|
    ensures forall i | 0 <= i < |s| :: r[i] == s[|s| - 1 - i]
  {
    if s == [] then [] else Reverse(s[1..]) + [s[0]]
  }

  // ----- the code between two suspension points -----

  /** `GenerationScope.dispose`: only the first call has an effect. */
  function Dispose(scopes: seq<ScopeState>, scope: nat): (r: seq<ScopeState>)
    ensures |r| == |scopes|
    ensures forall i | 0 <= i < |scopes| && i != scope :: r[i] == scopes[i]
    ensures scope < |scopes| ==> r[scope] != ScopeActive
  {
    if scope < |scopes| && scopes[scope] == ScopeActive then scopes[scope := ScopeDisposing] else scopes
  }

  function Matches(s: State, target: Target): bool {
    && s.graphRevision == target.graphRevision
    && s.active.Keys == target.addons.Keys
    && forall id <- target.addons.Keys :: s.active[id].descriptor == target.addons[id]
  }

  /** Stops the first add-on of the list that is still active, or ends the stop. */
  function StopFrom(s: State, order: seq<AddonId>, next: Continuation): State {
    if order == [] then s.(running := AllStopped(next))
    else if order[0] !in s.active then StopFrom(s, order[1..], next)
    else
      var scope := s.active[order[0]].scope;
      s.(active := s.active - {order[0]}, scopes := Dispose(s.scopes, scope), running := Stopping(order[1..], scope, next))
  }

  predicate Unavailable(s: State, descriptor: Descriptor) {
    exists dependency <- descriptor.dependencies :: dependency !in s.active
  }

  /** Walks the activation order up to the next add-on that can activate, or to its end. */
  function ActivateFrom(s: State, target: Target, epoch: nat, index: nat, failures: seq<Failure>): State
    decreases |target.order| - index
  {
    if epoch != s.epoch then s.(running := Idle, results := s.results + [Aborted])
    else if index >= |target.order| then
      s.(running := Idle, graphRevision := target.graphRevision, results := s.results + [Reconciled(target, failures)])
    else
      var id := target.order[index];
      if id !in target.addons then s.(running := Idle, results := s.results + [Aborted])
      else if Unavailable(s, target.addons[id]) then
        ActivateFrom(s, target, epoch, index + 1, failures + [Failure(id, DependencyUnavailable)])
      else
        s.(pending := Some(Generation(target.addons[id], |s.scopes|)), scopes := s.scopes + [ScopeActive],
           running := Activating(target, epoch, index, failures))
  }

  datatype Event =
    | CallReconcile(target: Target)
    | CallDispose
    | StartNext(plan: seq<AddonId>)
    | Resume(success: bool, plan: seq<AddonId>)
    | ScopeDrained(scope: nat)

  /** The order that stopping everything follows when `plan` is what the topological sort returns. */
  ghost predicate IsPlan(s: State, plan: seq<AddonId>) {
    IsTopologicalOrder(ActiveDependencies(s.active), plan)
  }

  /** The next operation begins by stopping everything that is active. */
  predicate StartStops(s: State)
    requires s.queue != []
  {
    s.queue[0].ReconcileOperation? && s.queue[0].epoch == s.epoch && !Matches(s, s.queue[0].target)
  }

  function StartNextStep(s: State, plan: seq<AddonId>): State
    requires s.queue != []
  {
    var begun := s.(queue := s.queue[1..]);
    match s.queue[0]
    case ReconcileOperation(target, epoch) =>
      if epoch != s.epoch then begun.(results := s.results + [Aborted])
      else if Matches(s, target) then begun.(results := s.results + [Reconciled(target, [])])
      else StopFrom(begun, Reverse(plan), ThenActivate(target, epoch))
    case DisposeOperation(interrupted) =>
      begun.(running := AwaitingInterrupted(interrupted))
  }

  /** The promise the running operation awaits has settled. */
  predicate CanResume(s: State) {
    match s.running
    case Idle => false
    case AwaitingInterrupted(interrupted) => interrupted.Some? ==> Drained(s, interrupted.value)
    case Stopping(_, stopped, _) => Drained(s, stopped)
    case AllStopped(_) => true
    case Activating(_, _, _, _) => s.pending.Some?
    case CleaningUp(_, _, _, _) => s.pending.Some? && Drained(s, s.pending.value.scope)
  }

  predicate Drained(s: State, scope: nat) {
    scope < |s.scopes| && s.scopes[scope] == ScopeDisposed
  }

  function ResumeStep(s: State, success: bool, plan: seq<AddonId>): State
    requires CanResume(s)
  {
    match s.running
    case AwaitingInterrupted(_) => StopFrom(s, Reverse(plan), ThenClear)
    case Stopping(rest, _, next) => StopFrom(s, rest, next)
    case AllStopped(ThenClear) => s.(running := Idle, graphRevision := "", results := s.results + [AllDisposed])
    case AllStopped(ThenActivate(target, epoch)) => ActivateFrom(s, target, epoch, 0, [])
    case Activating(target, epoch, index, failures) =>
      var scope := s.pending.value.scope;
      var id := if index < |target.order| then target.order[index] else "";
      if success && scope < |s.scopes| && s.scopes[scope] == ScopeActive then
        ActivateFrom(s.(active := s.active[id := s.pending.value], pending := None), target, epoch, index + 1, failures)
      else
        s.(scopes := Dispose(s.scopes, scope),
           running := CleaningUp(target, epoch, index, failures + [Failure(id, ActivationFailed)]))
    case CleaningUp(target, epoch, index, failures) =>
      ActivateFrom(s.(pending := None), target, epoch, index + 1, failures)
  }

  function CallDisposeStep(s: State): State {
    var interrupted := if s.pending.Some? then Some(s.pending.value.scope) else None;
    s.(epoch := s.epoch + 1, queue := s.queue + [DisposeOperation(interrupted)],
       scopes := if s.pending.Some? then Dispose(s.scopes, s.pending.value.scope) else s.scopes)
  }

  /** One atomic step of the protocol. */
  ghost predicate Step(s: State, event: Event, next: State) {
    match event
    case CallReconcile(target) =>
      // `normalizeGenerationSet` throws before anything changes unless it can order the target.
      target.Valid() && next == s.(queue := s.queue + [ReconcileOperation(target, s.epoch)])
    case CallDispose => next == CallDisposeStep(s)
    case StartNext(plan) =>
      s.running == Idle && s.queue != [] && (StartStops(s) ==> IsPlan(s, plan)) && next == StartNextStep(s, plan)
    case Resume(success, plan) =>
      CanResume(s) && (s.running.AwaitingInterrupted? ==> IsPlan(s, plan)) && next == ResumeStep(s, success, plan)
    case ScopeDrained(scope) =>
      && scope < |s.scopes| && s.scopes[scope] == ScopeDisposing
      && next == s.(scopes := s.scopes[scope := ScopeDisposed])
  }

  // ----- the invariant -----

  ghost predicate Stopped(s: State, scope: nat) {
    scope < |s.scopes| && s.scopes[scope] != ScopeActive
  }

  /** Every active generation has a live scope of its own. */
  ghost predicate ScopesOwned(s: State) {
    && (forall id | id in s.active :: s.active[id].scope < |s.scopes| && s.scopes[s.active[id].scope] == ScopeActive)
    && (forall a, b | a in s.active && b in s.active && a != b :: s.active[a].scope != s.active[b].scope)
    && (s.pending.Some? ==> s.pending.value.scope < |s.scopes|)
    && (s.pending.Some? ==> forall id | id in s.active :: s.active[id].scope != s.pending.value.scope)
  }

  /** The active set is acyclic and contains all of its dependencies. */
  ghost predicate Closed(active: map<AddonId, Generation>) {
    && !HasCycle(ActiveDependencies(active))
    && forall id, dependency | id in active && dependency in active[id].descriptor.dependencies :: dependency in active
  }

  ghost predicate OperationValid(s: State, operation: Operation) {
    match operation
    case ReconcileOperation(target, epoch) => target.Valid() && epoch <= s.epoch
    case DisposeOperation(interrupted) => interrupted.Some? ==> Stopped(s, interrupted.value)
  }

  ghost predicate QueueValid(s: State) {
    forall operation <- s.queue :: OperationValid(s, operation)
  }

  ghost predicate ContinuationValid(s: State, next: Continuation) {
    next.ThenActivate? ==> next.target.Valid() && next.epoch <= s.epoch
  }

  /** Stopping in this order stops dependents before what they depend on. */
  ghost predicate IsStopOrder(active: map<AddonId, Generation>, order: seq<AddonId>) {
    && (forall id | id in active :: id in order)
    && forall i, dependency | 0 <= i < |order| && order[i] in active && dependency in active[order[i]].descriptor.dependencies ::
      dependency !in order[..i + 1]
  }

  ghost predicate Handled(s: State, id: AddonId, failures: seq<Failure>) {
    id in s.active || exists failure <- failures :: failure.id == id
  }

  /** A reported add-on is not active, and a missing dependency is really missing. */
  ghost predicate Genuine(s: State, target: Target, index: nat, failure: Failure)
    requires index <= |target.order|
  {
    && failure.id in target.order[..index] && failure.id in target.addons && failure.id !in s.active
    && (failure.kind == DependencyUnavailable ==> Unavailable(s, target.addons[failure.id]))
  }

  /** The activation loop stands at `index`: what precedes it is active or has failed, and nothing else is active. */
  ghost predicate LoopValid(s: State, target: Target, epoch: nat, index: nat, failures: seq<Failure>) {
    && target.Valid() && epoch <= s.epoch
    && index <= |target.order|
    && (forall id | id in s.active :: id in target.order[..index] && id in target.addons && s.active[id].descriptor == target.addons[id])
    && (forall id <- target.order[..index] :: Handled(s, id, failures))
    && (forall failure <- failures :: Genuine(s, target, index, failure))
  }

  ghost predicate PendingValid(s: State, target: Target, index: nat) {
    && s.pending.Some? && index < |target.order| && target.order[index] in target.addons
    && s.pending.value.descriptor == target.addons[target.order[index]]
    && !Unavailable(s, s.pending.value.descriptor)
  }

  ghost predicate RunningValid(s: State) {
    match s.running
    case Idle => s.pending.None?
    case AwaitingInterrupted(interrupted) => s.pending.None? && (interrupted.Some? ==> Stopped(s, interrupted.value))
    case Stopping(rest, stopped, next) =>
      s.pending.None? && ContinuationValid(s, next) && Stopped(s, stopped) && IsStopOrder(s.active, rest)
    case AllStopped(next) => s.pending.None? && ContinuationValid(s, next) && s.active == map[]
    case Activating(target, epoch, index, failures) =>
      && LoopValid(s, target, epoch, index, failures) && PendingValid(s, target, index)
      && (epoch != s.epoch <==> Stopped(s, s.pending.value.scope))
    case CleaningUp(target, epoch, index, failures) =>
      && index < |target.order| && LoopValid(s, target, epoch, index + 1, failures)
      && s.pending.Some? && Stopped(s, s.pending.value.scope)
  }

  /** What holds between two activations, whatever comes next. */
  ghost predicate Resting(s: State) {
    ScopesOwned(s) && Closed(s.active) && QueueValid(s) && s.pending.None?
  }

  /** Holds at every suspension point. */
  ghost predicate Valid(s: State) {
    ScopesOwned(s) && Closed(s.active) && QueueValid(s) && RunningValid(s)
  }

  // ----- every step keeps the invariant -----

  lemma {:induction false} StopFromKeepsValid(s: State, order: seq<AddonId>, next: Continuation)
    requires Resting(s)
    requires ContinuationValid(s, next) && IsStopOrder(s.active, order)
    ensures Valid(StopFrom(s, order, next))
  {
    if order == [] {
      assert s.active == map[];
    } else {
      StopOrderTail(s.active, order);
      if order[0] !in s.active {
        assert s.active - {order[0]} == s.active;
        StopFromKeepsValid(s, order[1..], next);
      } else {
        RemovalKeepsClosed(s.active, order[0]);
        RemovalKeepsScopes(s, order[0]);
      }
    }
  }

  lemma RemovalKeepsClosed(active: map<AddonId, Generation>, id: AddonId)
    requires Closed(active)
    requires forall other | other in active :: id !in active[other].descriptor.dependencies
    ensures Closed(active - {id})
  {
    ClosedPartIsSound(ActiveDependencies(active), ActiveDependencies(active - {id}));
  }

  lemma RemovalKeepsScopes(s: State, id: AddonId)
    requires ScopesOwned(s) && QueueValid(s) && s.pending.None? && id in s.active
    ensures
      var scope := s.active[id].scope;
      var left := s.(active := s.active - {id}, scopes := Dispose(s.scopes, scope));
      ScopesOwned(left) && QueueValid(left) && Stopped(left, scope)
  {
    var left := s.(active := s.active - {id}, scopes := Dispose(s.scopes, s.active[id].scope));
    forall operation <- left.queue
      ensures OperationValid(left, operation)
    {
      assert OperationValid(s, operation);
    }
  }

  /** Nothing later in a stop order depends on what comes first. */
  lemma StopOrderTail(active: map<AddonId, Generation>, order: seq<AddonId>)
    requires order != [] && IsStopOrder(active, order)
    ensures IsStopOrder(active - {order[0]}, order[1..])
    ensures forall id | id in active :: order[0] !in active[id].descriptor.dependencies
  {
    var rest := order[1..];
    forall i, dependency | 0 <= i < |rest| && rest[i] in active && dependency in active[rest[i]].descriptor.dependencies
      ensures dependency !in rest[..i + 1]
    {
      assert dependency !in order[..i + 2];
      assert rest[..i + 1] == order[1..i + 2];
    }
    forall id | id in active
      ensures order[0] !in active[id].descriptor.dependencies
    {
      var i :| 0 <= i < |order| && order[i] == id;
      assert order[0] in order[..i + 1];
    }
  }

  lemma ReversedIsStopOrder(active: map<AddonId, Generation>, plan: seq<AddonId>)
    requires IsTopologicalOrder(ActiveDependencies(active), plan)
    ensures IsStopOrder(active, Reverse(plan))
  {
    var order := Reverse(plan);
    forall i, dependency | 0 <= i < |order| && order[i] in active && dependency in active[order[i]].descriptor.dependencies
      ensures dependency !in order[..i + 1]
    {
      var k := |plan| - 1 - i;
      assert dependency in plan[..k];
      forall j | 0 <= j <= i
        ensures order[j] != dependency
      {
        assert order[j] == plan[|plan| - 1 - j];
      }
    }
    forall id | id in active
      ensures id in order
    {
      assert id in ActiveDependencies(active) && id in plan;
      var i :| 0 <= i < |plan| && plan[i] == id;
      assert order[|plan| - 1 - i] == id;
    }
  }

  /** Scopes never become active again, so what is queued stays valid. */
  ghost predicate Follows(s: State, s': State) {
    && s.epoch <= s'.epoch && |s.scopes| <= |s'.scopes|
    && forall i | 0 <= i < |s.scopes| && s.scopes[i] != ScopeActive :: s'.scopes[i] != ScopeActive
  }

  lemma QueueFrame(s: State, s': State)
    requires QueueValid(s) && Follows(s, s')
    requires s'.queue == s.queue || (s.queue != [] && s'.queue == s.queue[1..])
    ensures QueueValid(s')
  {
    forall operation <- s'.queue
      ensures OperationValid(s', operation)
    {
      assert OperationValid(s, operation);
    }
  }

  /** The loop suspends at the first add-on that can activate. */
  lemma SuspendKeepsValid(s: State, target: Target, index: nat, failures: seq<Failure>)
    requires Resting(s)
    requires LoopValid(s, target, s.epoch, index, failures) && index < |target.order|
    requires target.order[index] in target.addons
    requires !Unavailable(s, target.addons[target.order[index]])
    ensures
      Valid(s.(pending := Some(Generation(target.addons[target.order[index]], |s.scopes|)), scopes := s.scopes + [ScopeActive],
               running := Activating(target, s.epoch, index, failures)))
  {
    var started := s.(pending := Some(Generation(target.addons[target.order[index]], |s.scopes|)),
                      scopes := s.scopes + [ScopeActive], running := Activating(target, s.epoch, index, failures));
    QueueFrame(s, started);
    LoopFrame(s, started, target, s.epoch, index, failures);
  }

  lemma {:induction false} ActivateFromKeepsValid(s: State, target: Target, epoch: nat, index: nat, failures: seq<Failure>)
    requires Resting(s)
    requires LoopValid(s, target, epoch, index, failures)
    ensures Valid(ActivateFrom(s, target, epoch, index, failures))
    decreases |target.order| - index
  {
    if epoch == s.epoch && index < |target.order| {
      var id := target.order[index];
      OrderedIsDeclared(target, index);
      if Unavailable(s, target.addons[id]) {
        SkipKeepsLoop(s, target, epoch, index, failures);
        ActivateFromKeepsValid(s, target, epoch, index + 1, failures + [Failure(id, DependencyUnavailable)]);
      } else {
        SuspendKeepsValid(s, target, index, failures);
      }
    } else {
      EndKeepsValid(s, ActivateFrom(s, target, epoch, index, failures));
    }
  }

  lemma OrderedIsDeclared(target: Target, index: nat)
    requires target.Valid() && index < |target.order|
    ensures target.order[index] in target.addons
  {
    assert target.order[index] in target.order;
    assert target.order[index] in DependenciesOf(target.addons);
  }

  lemma EndKeepsValid(s: State, s': State)
    requires Resting(s)
    requires s' == s.(running := Idle, results := s'.results, graphRevision := s'.graphRevision)
    ensures Valid(s')
  {
    QueueFrame(s, s');
  }

  lemma LoopFrame(s: State, s': State, target: Target, epoch: nat, index: nat, failures: seq<Failure>)
    requires LoopValid(s, target, epoch, index, failures)
    requires s'.active == s.active && s.epoch <= s'.epoch
    ensures LoopValid(s', target, epoch, index, failures)
  {
    forall id <- target.order[..index]
      ensures Handled(s', id, failures)
    {
      assert Handled(s, id, failures);
    }
    forall failure <- failures
      ensures Genuine(s', target, index, failure)
    {
      assert Genuine(s, target, index, failure);
    }
  }

  /** The loop moves past an add-on that has failed. */
  lemma FailureKeepsLoop(s: State, target: Target, epoch: nat, index: nat, failures: seq<Failure>, failure: Failure)
    requires LoopValid(s, target, epoch, index, failures) && index < |target.order|
    requires failure.id == target.order[index] && failure.id in target.addons
    requires failure.kind == DependencyUnavailable ==> Unavailable(s, target.addons[failure.id])
    ensures LoopValid(s, target, epoch, index + 1, failures + [failure])
  {
    var more := failures + [failure];
    assert target.order[..index + 1] == target.order[..index] + [failure.id];
    assert failure in more;
    forall id <- target.order[..index + 1]
      ensures Handled(s, id, more)
    {
      if id in target.order[..index] {
        assert Handled(s, id, failures);
        if id !in s.active {
          var f :| f in failures && f.id == id;
          assert f in more;
        }
      }
    }
    forall f <- more
      ensures Genuine(s, target, index + 1, f)
    {
      if f in failures {
        assert Genuine(s, target, index, f);
      }
    }
  }

  lemma SkipKeepsLoop(s: State, target: Target, epoch: nat, index: nat, failures: seq<Failure>)
    requires LoopValid(s, target, epoch, index, failures) && index < |target.order|
    requires target.order[index] in target.addons
    requires Unavailable(s, target.addons[target.order[index]])
    ensures LoopValid(s, target, epoch, index + 1, failures + [Failure(target.order[index], DependencyUnavailable)])
  {
    FailureKeepsLoop(s, target, epoch, index, failures, Failure(target.order[index], DependencyUnavailable));
  }

  /** The state in which an activation that completed has joined the active set. */
  ghost function Joined(s: State, id: AddonId): State
    requires s.pending.Some?
  {
    s.(active := s.active[id := s.pending.value], pending := None)
  }

  lemma JoiningKeepsClosed(s: State, target: Target, epoch: nat, index: nat, failures: seq<Failure>)
    requires LoopValid(s, target, epoch, index, failures) && PendingValid(s, target, index) && Closed(s.active)
    ensures Closed(Joined(s, target.order[index]).active)
  {
    OrderedGraphIsSound(DependenciesOf(target.addons), target.order);
    ClosedPartIsSound(DependenciesOf(target.addons), ActiveDependencies(Joined(s, target.order[index]).active));
  }

  lemma JoiningKeepsLoop(s: State, target: Target, epoch: nat, index: nat, failures: seq<Failure>)
    requires LoopValid(s, target, epoch, index, failures) && PendingValid(s, target, index)
    ensures LoopValid(Joined(s, target.order[index]), target, epoch, index + 1, failures)
  {
    var id := target.order[index];
    var joined := Joined(s, id);
    assert target.order[..index + 1] == target.order[..index] + [id];
    forall other <- target.order[..index + 1]
      ensures Handled(joined, other, failures)
    {
      assert other != id ==> Handled(s, other, failures);
    }
    forall failure <- failures
      ensures Genuine(joined, target, index + 1, failure)
    {
      assert Genuine(s, target, index, failure);
      GenuineSurvives(s, target, index, failure);
    }
  }

  lemma JoiningKeepsScopes(s: State, id: AddonId)
    requires ScopesOwned(s) && QueueValid(s) && s.pending.Some? && s.scopes[s.pending.value.scope] == ScopeActive
    ensures ScopesOwned(Joined(s, id)) && QueueValid(Joined(s, id))
  {
    QueueFrame(s, Joined(s, id));
  }

  lemma GenuineSurvives(s: State, target: Target, index: nat, failure: Failure)
    requires target.Valid() && index < |target.order| && Genuine(s, target, index, failure)
    ensures failure.id != target.order[index]
    ensures failure.kind == DependencyUnavailable ==>
      exists dependency <- target.addons[failure.id].dependencies :: dependency !in s.active && dependency != target.order[index]
  {
    var graph := DependenciesOf(target.addons);
    var i :| 0 <= i < index && target.order[i] == failure.id;
    if failure.kind == DependencyUnavailable {
      var dependency :| dependency in target.addons[failure.id].dependencies && dependency !in s.active;
      assert dependency in graph[target.order[i]];
      assert dependency in target.order[..i];
    }
  }

  lemma StartNextKeepsValid(s: State, plan: seq<AddonId>)
    requires Valid(s) && s.running == Idle && s.queue != [] && (StartStops(s) ==> IsPlan(s, plan))
    ensures Valid(StartNextStep(s, plan))
  {
    var begun := s.(queue := s.queue[1..]);
    QueueFrame(s, begun);
    assert OperationValid(s, s.queue[0]);
    match s.queue[0]
    case ReconcileOperation(target, epoch) =>
      if epoch != s.epoch || Matches(s, target) {
        EndKeepsValid(begun, StartNextStep(s, plan));
      } else {
        ReversedIsStopOrder(s.active, plan);
        StopFromKeepsValid(begun, Reverse(plan), ThenActivate(target, epoch));
      }
    case DisposeOperation(_) =>
      QueueFrame(begun, StartNextStep(s, plan));
  }

  lemma FailedActivationKeepsValid(s: State, target: Target, epoch: nat, index: nat, failures: seq<Failure>)
    requires Valid(s) && s.running == Activating(target, epoch, index, failures)
    ensures Valid(s.(scopes := Dispose(s.scopes, s.pending.value.scope),
                     running := CleaningUp(target, epoch, index, failures + [Failure(target.order[index], ActivationFailed)])))
  {
    var failure := Failure(target.order[index], ActivationFailed);
    var failed := s.(scopes := Dispose(s.scopes, s.pending.value.scope),
                     running := CleaningUp(target, epoch, index, failures + [failure]));
    FailureKeepsLoop(s, target, epoch, index, failures, failure);
    LoopFrame(s, failed, target, epoch, index + 1, failures + [failure]);
    QueueFrame(s, failed);
  }

  lemma ActivatingInRange(s: State)
    requires Valid(s) && s.running.Activating? && CanResume(s)
    ensures s.pending.value.scope < |s.scopes| && s.running.index < |s.running.target.order|
  {
  }

  /** An activation that settled and joins the active set goes on with the next add-on; any other is cleaned up. */
  lemma SettledActivationIs(s: State, success: bool, plan: seq<AddonId>)
    requires s.running.Activating? && CanResume(s) && s.pending.value.scope < |s.scopes| && s.running.index < |s.running.target.order|
    ensures
      var Activating(target, epoch, index, failures) := s.running;
      ResumeStep(s, success, plan) ==
        if success && s.scopes[s.pending.value.scope] == ScopeActive then
          ActivateFrom(Joined(s, target.order[index]), target, epoch, index + 1, failures)
        else
          s.(scopes := Dispose(s.scopes, s.pending.value.scope),
             running := CleaningUp(target, epoch, index, failures + [Failure(target.order[index], ActivationFailed)]))
  {
    hide ActivateFrom;
  }

  lemma SettledActivationKeepsValid(s: State, success: bool, plan: seq<AddonId>)
    requires Valid(s) && s.running.Activating? && CanResume(s)
    ensures Valid(ResumeStep(s, success, plan))
  {
    hide ResumeStep, ActivateFrom, LoopValid, Closed, QueueValid;
    var Activating(target, epoch, index, failures) := s.running;
    ActivatingInRange(s);
    SettledActivationIs(s, success, plan);
    var scope := s.pending.value.scope;
    if success && s.scopes[scope] == ScopeActive {
      JoiningKeepsClosed(s, target, epoch, index, failures);
      JoiningKeepsLoop(s, target, epoch, index, failures);
      JoiningKeepsScopes(s, target.order[index]);
      ActivateFromKeepsValid(Joined(s, target.order[index]), target, epoch, index + 1, failures);
    } else {
      FailedActivationKeepsValid(s, target, epoch, index, failures);
    }
  }

  lemma CleanedUpKeepsValid(s: State, success: bool, plan: seq<AddonId>)
    requires Valid(s) && s.running.CleaningUp? && CanResume(s)
    ensures Valid(ResumeStep(s, success, plan))
  {
    hide ActivateFrom, LoopValid, Closed;
    var CleaningUp(target, epoch, index, failures) := s.running;
    var cleaned := s.(pending := None);
    QueueFrame(s, cleaned);
    LoopFrame(s, cleaned, target, epoch, index + 1, failures);
    ActivateFromKeepsValid(cleaned, target, epoch, index + 1, failures);
  }

  lemma ResumeKeepsValid(s: State, success: bool, plan: seq<AddonId>)
    requires Valid(s) && CanResume(s) && (s.running.AwaitingInterrupted? ==> IsPlan(s, plan))
    ensures Valid(ResumeStep(s, success, plan))
  {
    match s.running
    case AwaitingInterrupted(_) =>
      ReversedIsStopOrder(s.active, plan);
      StopFromKeepsValid(s, Reverse(plan), ThenClear);
    case Stopping(rest, _, next) =>
      StopFromKeepsValid(s, rest, next);
    case AllStopped(ThenClear) =>
      EndKeepsValid(s, ResumeStep(s, success, plan));
    case AllStopped(ThenActivate(target, epoch)) =>
      ActivateFromKeepsValid(s, target, epoch, 0, []);
    case Activating(_, _, _, _) =>
      SettledActivationKeepsValid(s, success, plan);
    case CleaningUp(_, _, _, _) =>
      CleanedUpKeepsValid(s, success, plan);
  }

  lemma RunningFrame(s: State, s': State)
    requires RunningValid(s) && Follows(s, s')
    requires s'.running == s.running && s'.active == s.active && s'.pending == s.pending
    requires s.pending.Some? ==> (Stopped(s', s.pending.value.scope) <==> s.epoch != s'.epoch || Stopped(s, s.pending.value.scope))
    ensures RunningValid(s')
  {
    match s.running
    case Activating(target, epoch, index, failures) => LoopFrame(s, s', target, epoch, index, failures);
    case CleaningUp(target, epoch, index, failures) => LoopFrame(s, s', target, epoch, index + 1, failures);
    case _ =>
  }

  lemma CallDisposeKeepsValid(s: State)
    requires Valid(s)
    ensures Valid(CallDisposeStep(s))
  {
    var called := CallDisposeStep(s);
    RunningFrame(s, called);
    QueueFrame(s, called.(queue := s.queue));
    forall operation <- called.queue
      ensures OperationValid(called, operation)
    {
      assert operation in s.queue ==> OperationValid(called.(queue := s.queue), operation);
    }
  }

  /** The invariant holds at every suspension point of every interleaving. */
  lemma StepKeepsValid(s: State, event: Event, s': State)
    requires Valid(s) && Step(s, event, s')
    ensures Valid(s')
  {
    match event
    case CallReconcile(target) =>
      RunningFrame(s, s');
      QueueFrame(s, s'.(queue := s.queue));
      forall operation <- s'.queue
        ensures OperationValid(s', operation)
      {
        assert operation in s.queue ==> OperationValid(s'.(queue := s.queue), operation);
      }
    case CallDispose => CallDisposeKeepsValid(s);
    case StartNext(plan) => StartNextKeepsValid(s, plan);
    case Resume(success, plan) => ResumeKeepsValid(s, success, plan);
    case ScopeDrained(_) =>
      RunningFrame(s, s');
      QueueFrame(s, s');
  }

  // ----- what the invariant gives the host -----

  /** At every suspension point the active set contains its dependencies, every active scope is live, and
      planning the stop of everything cannot fail: the topological sort throws only for graphs of the other kind. */
  lemma ActiveSetIsSound(s: State)
    requires Valid(s)
    ensures forall id, dependency | id in s.active && dependency in s.active[id].descriptor.dependencies :: dependency in s.active
    ensures forall id | id in s.active :: s.scopes[s.active[id].scope] == ScopeActive
    ensures !HasCycle(ActiveDependencies(s.active)) && !HasMissingDependency(ActiveDependencies(s.active))
  {
    ClosedPartIsSound(ActiveDependencies(s.active), ActiveDependencies(s.active));
  }

  /** What stops first is never needed by anything that is still active. */
  lemma {:induction false} StopsDependentsFirst(s: State, order: seq<AddonId>, next: Continuation)
    requires IsStopOrder(s.active, order)
    ensures
      var s' := StopFrom(s, order, next);
      && s'.active.Keys <= s.active.Keys
      && (forall id | id in s'.active :: s'.active[id] == s.active[id])
      && (forall id, gone | id in s.active && gone in s.active && gone !in s'.active :: gone !in s.active[id].descriptor.dependencies)
  {
    if order != [] {
      StopOrderTail(s.active, order);
      if order[0] !in s.active {
        assert s.active - {order[0]} == s.active;
        StopsDependentsFirst(s, order[1..], next);
      }
    }
  }

  /** A reconcile that no later dispose has cancelled is queued or running. */
  ghost predicate HasCurrentReconcile(s: State) {
    || (exists operation <- s.queue :: operation.ReconcileOperation? && operation.epoch == s.epoch)
    || (match s.running
        case Stopping(_, _, ThenActivate(_, epoch)) => epoch == s.epoch
        case AllStopped(ThenActivate(_, epoch)) => epoch == s.epoch
        case Activating(_, epoch, _, _) => epoch == s.epoch
        case CleaningUp(_, epoch, _, _) => epoch == s.epoch
        case _ => false)
  }

  /** A dispose is queued or running. */
  ghost predicate HasDispose(s: State) {
    || (exists operation <- s.queue :: operation.DisposeOperation?)
    || (match s.running
        case AwaitingInterrupted(_) => true
        case Stopping(_, _, next) => next.ThenClear?
        case AllStopped(next) => next.ThenClear?
        case _ => false)
  }

  /** Nothing can enter the active set any more, and a dispose will empty it unless it is empty. */
  ghost predicate Quiet(s: State) {
    Valid(s) && !HasCurrentReconcile(s) && (HasDispose(s) || s.active == map[])
  }

  lemma CallDisposeMakesQuiet(s: State)
    requires Valid(s)
    ensures Quiet(CallDisposeStep(s)) && CallDisposeStep(s).active == s.active
  {
    CallDisposeKeepsValid(s);
    var called := CallDisposeStep(s);
    assert called.queue[|s.queue|].DisposeOperation?;
    forall operation <- called.queue | operation.ReconcileOperation?
      ensures operation.epoch != called.epoch
    {
      assert OperationValid(s, operation);
    }
  }

  lemma {:induction false} StopFromStaysQuiet(s: State, order: seq<AddonId>, next: Continuation)
    requires forall operation <- s.queue :: operation.ReconcileOperation? ==> operation.epoch != s.epoch
    requires next.ThenActivate? ==> next.epoch != s.epoch
    ensures var s' := StopFrom(s, order, next); !HasCurrentReconcile(s') && s'.active.Keys <= s.active.Keys
    ensures next.ThenClear? ==> HasDispose(StopFrom(s, order, next))
    ensures StopFrom(s, order, next).queue == s.queue
  {
    if order != [] && order[0] !in s.active {
      StopFromStaysQuiet(s, order[1..], next);
    }
  }

  lemma StartNextStaysQuiet(s: State, plan: seq<AddonId>)
    requires Quiet(s) && s.running == Idle && s.queue != [] && (StartStops(s) ==> IsPlan(s, plan))
    ensures Quiet(StartNextStep(s, plan)) && StartNextStep(s, plan).active.Keys <= s.active.Keys
  {
    StartNextKeepsValid(s, plan);
    assert s.queue[0] in s.queue;
    assert s.queue == [s.queue[0]] + s.queue[1..];
  }

  lemma ResumeStaysQuiet(s: State, success: bool, plan: seq<AddonId>)
    requires Quiet(s) && CanResume(s) && (s.running.AwaitingInterrupted? ==> IsPlan(s, plan))
    ensures Quiet(ResumeStep(s, success, plan)) && ResumeStep(s, success, plan).active.Keys <= s.active.Keys
  {
    ResumeKeepsValid(s, success, plan);
    match s.running
    case AwaitingInterrupted(_) => StopFromStaysQuiet(s, Reverse(plan), ThenClear);
    case Stopping(rest, _, next) => StopFromStaysQuiet(s, rest, next);
    case _ =>
  }

  /** Once quiet, every step but a new reconcile call keeps the protocol quiet and the active set from growing. */
  lemma StepStaysQuiet(s: State, event: Event, s': State)
    requires Quiet(s) && Step(s, event, s') && !event.CallReconcile?
    ensures Quiet(s') && s'.active.Keys <= s.active.Keys
  {
    StepKeepsValid(s, event, s');
    match event
    case CallDispose => CallDisposeMakesQuiet(s);
    case StartNext(plan) => StartNextStaysQuiet(s, plan);
    case Resume(success, plan) => ResumeStaysQuiet(s, success, plan);
    case ScopeDrained(_) =>
  }

  // ----- whole runs -----

  ghost predicate IsRun(states: seq<State>, events: seq<Event>) {
    |states| == |events| + 1 && forall i | 0 <= i < |events| :: Step(states[i], events[i], states[i + 1])
  }

  /** Every state of every run from the start satisfies the invariant. */
  lemma {:induction false} RunsKeepValid(states: seq<State>, events: seq<Event>, i: nat)
    requires IsRun(states, events) && states[0] == Initial && i < |states|
    ensures Valid(states[i])
  {
    if i == 0 {
      assert forall path :: IsPath(ActiveDependencies(map[]), path) && 2 <= |path| ==> path[0] in ActiveDependencies(map[]);
    } else {
      RunsKeepValid(states, events, i - 1);
      StepKeepsValid(states[i - 1], events[i - 1], states[i]);
    }
  }

  /** After a call of `dispose` nothing enters the active set until reconcile is called again, and once
      every operation has settled the active set is empty. */
  lemma {:induction false} DisposeIsFinal(states: seq<State>, events: seq<Event>, i: nat)
    requires IsRun(states, events) && Valid(states[0])
    requires 0 < i < |states| && events[0] == CallDispose
    requires forall j | 0 < j < |events| :: !events[j].CallReconcile?
    ensures Quiet(states[i]) && states[i].active.Keys <= states[0].active.Keys
    ensures states[i].running == Idle && states[i].queue == [] ==> states[i].active == map[]
  {
    if i == 1 {
      CallDisposeMakesQuiet(states[0]);
    } else {
      DisposeIsFinal(states, events, i - 1);
      StepStaysQuiet(states[i - 1], events[i - 1], states[i]);
    }
  }

  /** A reconcile that completes has dealt with every add-on of its target: it is active as described, or it is
      reported; a reported add-on is not active, and a missing dependency is really missing. */
  ghost predicate Accounts(s: State, target: Target, failures: seq<Failure>) {
    && target.Valid() && s.graphRevision == target.graphRevision
    && (forall id | id in target.addons :: Handled(s, id, failures))
    && (forall id | id in s.active :: id in target.addons && s.active[id].descriptor == target.addons[id])
    && (forall failure <- failures :: failure.id in target.addons && failure.id !in s.active
          && (failure.kind == DependencyUnavailable ==> Unavailable(s, target.addons[failure.id])))
  }

  /** If the step from `s` to `s'` completed a reconcile, its report accounts for the target. */
  ghost predicate ReportAccounts(s: State, s': State) {
    |s'.results| > |s.results| && s'.results[|s.results|].Reconciled? ==>
      Accounts(s', s'.results[|s.results|].target, s'.results[|s.results|].failures)
  }

  lemma {:induction false} ActivateFromAccounts(s: State, target: Target, epoch: nat, index: nat, failures: seq<Failure>)
    requires Resting(s) && LoopValid(s, target, epoch, index, failures)
    ensures ReportAccounts(s, ActivateFrom(s, target, epoch, index, failures))
    decreases |target.order| - index
  {
    if epoch == s.epoch && index < |target.order| {
      OrderedIsDeclared(target, index);
      if Unavailable(s, target.addons[target.order[index]]) {
        SkipKeepsLoop(s, target, epoch, index, failures);
        ActivateFromAccounts(s, target, epoch, index + 1, failures + [Failure(target.order[index], DependencyUnavailable)]);
      }
    } else if epoch == s.epoch {
      LoopEndAccounts(s, target, failures);
    }
  }

  lemma LoopEndAccounts(s: State, target: Target, failures: seq<Failure>)
    requires LoopValid(s, target, s.epoch, |target.order|, failures)
    ensures Accounts(s.(running := Idle, graphRevision := target.graphRevision,
                        results := s.results + [Reconciled(target, failures)]), target, failures)
  {
    var s' := s.(running := Idle, graphRevision := target.graphRevision, results := s.results + [Reconciled(target, failures)]);
    LoopFrame(s, s', target, s.epoch, |target.order|, failures);
    assert target.order[..|target.order|] == target.order;
    forall id | id in target.addons
      ensures Handled(s', id, failures)
    {
      assert id in DependenciesOf(target.addons) && id in target.order;
    }
    forall failure <- failures
      ensures failure.id !in s'.active
    {
      assert Genuine(s', target, |target.order|, failure);
    }
  }

  lemma StartNextAccounts(s: State, plan: seq<AddonId>)
    requires Valid(s) && s.running == Idle && s.queue != []
    ensures ReportAccounts(s, StartNextStep(s, plan))
  {
    assert OperationValid(s, s.queue[0]);
    hide ScopesOwned, Closed, RunningValid, StopFrom;
    var begun := s.(queue := s.queue[1..]);
    match s.queue[0]
    case ReconcileOperation(target, epoch) => StopFromKeepsResults(begun, Reverse(plan), ThenActivate(target, epoch));
    case DisposeOperation(_) =>
  }

  lemma SettledActivationAccounts(s: State, success: bool, plan: seq<AddonId>)
    requires Valid(s) && s.running.Activating? && CanResume(s)
    ensures ReportAccounts(s, ResumeStep(s, success, plan))
  {
    hide ResumeStep, ActivateFrom, Accounts, LoopValid, Closed, QueueValid;
    var Activating(target, epoch, index, failures) := s.running;
    ActivatingInRange(s);
    SettledActivationIs(s, success, plan);
    if success && s.scopes[s.pending.value.scope] == ScopeActive {
      JoiningKeepsClosed(s, target, epoch, index, failures);
      JoiningKeepsLoop(s, target, epoch, index, failures);
      JoiningKeepsScopes(s, target.order[index]);
      ActivateFromAccounts(Joined(s, target.order[index]), target, epoch, index + 1, failures);
    }
  }

  lemma CleanedUpAccounts(s: State, success: bool, plan: seq<AddonId>)
    requires Valid(s) && s.running.CleaningUp? && CanResume(s)
    ensures ReportAccounts(s, ResumeStep(s, success, plan))
  {
    var CleaningUp(target, epoch, index, failures) := s.running;
    var cleaned := s.(pending := None);
    QueueFrame(s, cleaned);
    LoopFrame(s, cleaned, target, epoch, index + 1, failures);
    ActivateFromAccounts(cleaned, target, epoch, index + 1, failures);
  }

  lemma ResumeAccounts(s: State, success: bool, plan: seq<AddonId>)
    requires Valid(s) && CanResume(s)
    ensures ReportAccounts(s, ResumeStep(s, success, plan))
  {
    match s.running
    case AwaitingInterrupted(_) => StopFromKeepsResults(s, Reverse(plan), ThenClear);
    case Stopping(rest, _, next) => StopFromKeepsResults(s, rest, next);
    case AllStopped(ThenActivate(target, epoch)) => ActivateFromAccounts(s, target, epoch, 0, []);
    case AllStopped(ThenClear) =>
    case Activating(_, _, _, _) => SettledActivationAccounts(s, success, plan);
    case CleaningUp(_, _, _, _) => CleanedUpAccounts(s, success, plan);
  }

  /** Whenever a step completes a reconcile, its report accounts for the whole target. */
  lemma ReconcileAccountsForItsTarget(s: State, event: Event, s': State)
    requires Valid(s) && Step(s, event, s')
    ensures ReportAccounts(s, s')
  {
    match event
    case StartNext(plan) => StartNextAccounts(s, plan);
    case Resume(success, plan) => ResumeAccounts(s, success, plan);
    case _ =>
  }

  lemma {:induction false} StopFromKeepsResults(s: State, order: seq<AddonId>, next: Continuation)
    ensures StopFrom(s, order, next).results == s.results
  {
    if order != [] && order[0] !in s.active {
      StopFromKeepsResults(s, order[1..], next);
    }
  }

  // ----- progress -----

  function Disposing(scopes: seq<ScopeState>): nat {
    if scopes == [] then 0
    else Disposing(scopes[..|scopes| - 1]) + if scopes[|scopes| - 1] == ScopeDisposing then 1 else 0
  }

  lemma {:induction false} DrainedIsOneLess(scopes: seq<ScopeState>, scope: nat)
    requires scope < |scopes| && scopes[scope] == ScopeDisposing
    ensures Disposing(scopes[scope := ScopeDisposed]) == Disposing(scopes) - 1
  {
    var front := scopes[..|scopes| - 1];
    if scope < |front| {
      DrainedIsOneLess(front, scope);
      assert scopes[scope := ScopeDisposed][..|front|] == front[scope := ScopeDisposed];
    } else {
      assert scopes[scope := ScopeDisposed][..|front|] == front;
    }
  }

  /** The steps after the stop. */
  function StepsAfter(next: Continuation): nat {
    if next.ThenActivate? then 2 * |next.target.order| + 1 else 1
  }

  /** The steps the running operation takes at most. */
  function StepsLeft(running: Running): int {
    match running
    case Idle => 0
    case AwaitingInterrupted(_) => 0
    case Stopping(rest, _, next) => StepsAfter(next) + |rest| + 1
    case AllStopped(next) => StepsAfter(next)
    case Activating(target, _, index, _) => 2 * (|target.order| - index)
    case CleaningUp(target, _, index, _) => 2 * (|target.order| - index) - 1
  }

  /** Fewer queued operations, else a later part of the running one, else fewer scopes to drain. */
  ghost predicate Closer(s: State, s': State) {
    || |s'.queue| < |s.queue|
    || (|s'.queue| == |s.queue|
        && (|| (s.running.AwaitingInterrupted? && !s'.running.AwaitingInterrupted?)
            || (!s.running.AwaitingInterrupted? && !s'.running.AwaitingInterrupted? && 0 <= StepsLeft(s'.running) < StepsLeft(s.running))
            || (s'.running == s.running && Disposing(s'.scopes) < Disposing(s.scopes))))
  }

  lemma {:induction false} StopFromProgress(s: State, order: seq<AddonId>, next: Continuation)
    ensures
      var s' := StopFrom(s, order, next);
      s'.queue == s.queue && (s'.running.Stopping? || s'.running.AllStopped?) && 0 <= StepsLeft(s'.running) <= StepsAfter(next) + |order|
  {
    if order != [] && order[0] !in s.active {
      StopFromProgress(s, order[1..], next);
    }
  }

  lemma {:induction false} ActivateFromProgress(s: State, target: Target, epoch: nat, index: nat, failures: seq<Failure>)
    requires index <= |target.order|
    ensures
      var s' := ActivateFrom(s, target, epoch, index, failures);
      s'.queue == s.queue && (s'.running.Idle? || s'.running.Activating?) && 0 <= StepsLeft(s'.running) <= 2 * (|target.order| - index)
    decreases |target.order| - index
  {
    if epoch == s.epoch && index < |target.order| && target.order[index] in target.addons && Unavailable(s, target.addons[target.order[index]]) {
      ActivateFromProgress(s, target, epoch, index + 1, failures + [Failure(target.order[index], DependencyUnavailable)]);
    }
  }

  lemma ResumeProgress(s: State, success: bool, plan: seq<AddonId>)
    requires Valid(s) && CanResume(s)
    ensures Closer(s, ResumeStep(s, success, plan))
  {
    hide ActivateFrom, StopFrom, ScopesOwned, QueueValid, LoopValid, Closed;
    match s.running
    case AwaitingInterrupted(_) => StopFromProgress(s, Reverse(plan), ThenClear);
    case Stopping(rest, _, next) => StopFromProgress(s, rest, next);
    case AllStopped(ThenClear) =>
    case AllStopped(ThenActivate(target, epoch)) => ActivateFromProgress(s, target, epoch, 0, []);
    case Activating(target, epoch, index, failures) =>
      ActivatingInRange(s);
      SettledActivationIs(s, success, plan);
      ActivateFromProgress(Joined(s, target.order[index]), target, epoch, index + 1, failures);
    case CleaningUp(target, epoch, index, failures) =>
      ActivateFromProgress(s.(pending := None), target, epoch, index + 1, failures);
  }

  /** Every step that is not a new call brings the manager closer to rest, so its queue drains when the disposers
      and the activations it waits for end. */
  lemma StepsProgress(s: State, event: Event, s': State)
    requires Valid(s) && Step(s, event, s') && !event.CallReconcile? && !event.CallDispose?
    ensures Closer(s, s')
  {
    hide ResumeStep, ScopesOwned, QueueValid, RunningValid, Closed;
    match event
    case StartNext(plan) =>
      if StartStops(s) { StopFromProgress(s.(queue := s.queue[1..]), Reverse(plan), ThenActivate(s.queue[0].target, s.queue[0].epoch)); }
    case Resume(success, plan) => ResumeProgress(s, success, plan);
    case ScopeDrained(scope) => DrainedIsOneLess(s.scopes, scope);
  }

  /** A manager with work left is never stuck: the next operation can begin, the running one can go on, or the
      scope it waits for is still draining. */
  lemma NeverStuck(s: State, success: bool) returns (event: Event, s': State)
    requires Valid(s) && (s.running != Idle || s.queue != [])
    ensures Step(s, event, s') && !event.CallReconcile? && !event.CallDispose?
    ensures event.StartNext? <==> s.running.Idle?
    ensures event.Resume? <==> CanResume(s)
  {
    hide ResumeStep, StartNextStep, ScopesOwned, QueueValid, LoopValid;
    var plan := PlanExists(s.active);
    if s.running.Idle? {
      event, s' := StartNext(plan), StartNextStep(s, plan);
    } else if CanResume(s) {
      event, s' := Resume(success, plan), ResumeStep(s, success, plan);
    } else {
      var scope := AwaitedScope(s);
      event, s' := ScopeDrained(scope), s.(scopes := s.scopes[scope := ScopeDisposed]);
    }
  }

  lemma PlanExists(active: map<AddonId, Generation>) returns (plan: seq<AddonId>)
    requires Closed(active)
    ensures IsTopologicalOrder(ActiveDependencies(active), plan)
  {
    ClosedPartIsSound(ActiveDependencies(active), ActiveDependencies(active));
    plan := OrderExists(ActiveDependencies(active));
  }

  /** The scope whose disposal the running operation awaits. */
  lemma AwaitedScope(s: State) returns (scope: nat)
    requires Valid(s) && !s.running.Idle? && !CanResume(s)
    ensures scope < |s.scopes| && s.scopes[scope] == ScopeDisposing
  {
    hide ScopesOwned, QueueValid, LoopValid, Closed;
    match s.running
    case AwaitingInterrupted(interrupted) => scope := interrupted.value;
    case Stopping(_, stopped, _) => scope := stopped;
    case CleaningUp(_, _, _, _) => scope := s.pending.value.scope;
    case _ => assert false;
  }
}
