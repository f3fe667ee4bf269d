/** The browser generation manager itself. Each method runs from one suspension point to the next and takes
    exactly one step of the protocol, so everything proved about the protocol's runs holds of the manager. */
module GenerationManagers {
  import opened Results
  import opened TopologicalOrder
  import opened GenerationProtocol

  class BrowserGenerationManager {
    var active: map<AddonId, Generation>
    var pending: Option<Generation>
    var epoch: nat
    var graphRevision: string
    /** The operations chained on the tail promise, and the promise the running one awaits. */
    var queue: seq<Operation>
    var running: Running
    var results: seq<OperationResult>
    var scopes: seq<ScopeState>

    ghost function View(): State
      reads this
    {
      State(active, pending, epoch, graphRevision, queue, running, results, scopes)
    }

    constructor ()
      ensures View() == Initial
    {
      active, pending, epoch, graphRevision := map[], None, 0, "";
      queue, running, results, scopes := [], Idle, [], [];
    }

    /** Plans the target and queues it under the current epoch. A target that cannot be ordered, because of a
        cycle or a missing dependency, is refused and changes nothing. */
    method Reconcile(revision: string, addons: Addons) returns (plan: Plan)
      modifies this
      ensures plan.Ordered? <==> !HasCycle(DependenciesOf(addons)) && !HasMissingDependency(DependenciesOf(addons))
      ensures plan.PlanFailed? ==> View() == old(View())
      ensures plan.Ordered? ==> Step(old(View()), CallReconcile(Target(revision, addons, plan.order)), View())
    {
      plan := Sort(DependenciesOf(addons));
      if plan.Ordered? {
        queue := queue + [ReconcileOperation(Target(revision, addons, plan.order), epoch)];
      }
    }

    /** Raises the epoch and cancels the activation in flight at once; the rest of the work is queued. */
    method Dispose()
      modifies this
      ensures Step(old(View()), CallDispose, View())
    {
      epoch := epoch + 1;
      var interrupted := None;
      if pending.Some? {
        DisposeScope(pending.value.scope);
        interrupted := Some(pending.value.scope);
      }
      queue := queue + [DisposeOperation(interrupted)];
    }

    method DisposeScope(scope: nat)
      modifies `scopes
      ensures scopes == GenerationProtocol.Dispose(old(scopes), scope)
    {
      if scope < |scopes| && scopes[scope] == ScopeActive {
        scopes := scopes[scope := ScopeDisposing];
      }
    }

    /** The disposal of a scope has run to its end. */
    method ScopeSettled(scope: nat)
      requires scope < |scopes| && scopes[scope] == ScopeDisposing
      modifies `scopes
      ensures Step(old(View()), ScopeDrained(scope), View())
    {
      scopes := scopes[scope := ScopeDisposed];
    }

    /** The operation at the head of the tail chain begins. */
    method StartNext() returns (ghost plan: seq<AddonId>)
      requires Valid(View()) && running == Idle && queue != []
      modifies this
      ensures Step(old(View()), GenerationProtocol.StartNext(plan), View()) && Valid(View())
    {
      ghost var before := View();
      plan := [];
      var operation := queue[0];
      queue := queue[1..];
      match operation {
        case ReconcileOperation(target, started) =>
          if started != epoch {
            results := results + [Aborted];
          } else if graphRevision == target.graphRevision && active.Keys == target.addons.Keys
                    && forall id <- target.addons.Keys :: active[id].descriptor == target.addons[id] {
            results := results + [Reconciled(target, [])];
          } else {
            plan := StopAll(ThenActivate(target, started));
          }
        case DisposeOperation(interrupted) =>
          running := AwaitingInterrupted(interrupted);
      }
      StepKeepsValid(before, GenerationProtocol.StartNext(plan), View());
    }

    /** Continues the running operation when the promise it awaits settles. */
    method Resume(success: bool) returns (ghost plan: seq<AddonId>)
      requires Valid(View()) && CanResume(View())
      modifies this
      ensures Step(old(View()), GenerationProtocol.Resume(success, plan), View()) && Valid(View())
    {
      hide StopFrom, ActivateFrom, RunningValid, QueueValid, ScopesOwned;
      ghost var before := View();
      plan := [];
      if running.Activating? { ActivatingInRange(before); }
      match running {
        case AwaitingInterrupted(_) =>
          plan := StopAll(ThenClear);
        case Stopping(rest, _, next) =>
          StopFromHere(rest, next);
        case AllStopped(next) =>
          if next.ThenClear? {
            running, graphRevision, results := Idle, "", results + [AllDisposed];
          } else {
            ActivateFromHere(next.target, next.epoch, 0, []);
          }
        case Activating(target, started, index, failures) =>
          var id := target.order[index];
          var scope := pending.value.scope;
          if success && scopes[scope] == ScopeActive {
            active, pending := active[id := pending.value], None;
            ActivateFromHere(target, started, index + 1, failures);
          } else {
            DisposeScope(scope);
            running := CleaningUp(target, started, index, failures + [Failure(id, ActivationFailed)]);
          }
        case CleaningUp(target, started, index, failures) =>
          pending := None;
          ActivateFromHere(target, started, index + 1, failures);
      }
      StepKeepsValid(before, GenerationProtocol.Resume(success, plan), View());
    }

    /** Stops everything that is active, dependents first. The sort never throws here. */
    method StopAll(next: Continuation) returns (ghost plan: seq<AddonId>)
      requires Closed(active)
      modifies this
      ensures IsPlan(old(View()), plan) && View() == StopFrom(old(View()), Reverse(plan), next)
    {
      ClosedPartIsSound(ActiveDependencies(active), ActiveDependencies(active));
      var sorted := Sort(ActiveDependencies(active));
      plan := sorted.order;
      StopFromHere(Reverse(sorted.order), next);
    }

    method StopFromHere(order: seq<AddonId>, next: Continuation)
      modifies this
      ensures View() == StopFrom(old(View()), order, next)
    {
      var rest := order;
      while rest != []
        invariant View() == old(View())
        invariant StopFrom(old(View()), order, next) == StopFrom(old(View()), rest, next)
      {
        var id := rest[0];
        if id in active {
          var scope := active[id].scope;
          active := active - {id};
          DisposeScope(scope);
          running := Stopping(rest[1..], scope, next);
          return;
        }
        rest := rest[1..];
      }
      running := AllStopped(next);
    }

    method ActivateFromHere(target: Target, started: nat, index: nat, failed: seq<Failure>)
      modifies this
      ensures View() == ActivateFrom(old(View()), target, started, index, failed)
    {
      var i, failures := index, failed;
      while i < |target.order|
        invariant View() == old(View())
        invariant ActivateFrom(old(View()), target, started, index, failed) == ActivateFrom(old(View()), target, started, i, failures)
      {
        var id := target.order[i];
        if started != epoch || id !in target.addons {
          running, results := Idle, results + [Aborted];
          return;
        }
        var descriptor := target.addons[id];
        if exists dependency <- descriptor.dependencies :: dependency !in active {
          failures := failures + [Failure(id, DependencyUnavailable)];
        } else {
          pending := Some(Generation(descriptor, |scopes|));
          scopes := scopes + [ScopeActive];
          running := Activating(target, started, i, failures);
          return;
        }
        i := i + 1;
      }
      if started != epoch {
        running, results := Idle, results + [Aborted];
        return;
      }
      running, graphRevision, results := Idle, target.graphRevision, results + [Reconciled(target, failures)];
    }
  }
}
