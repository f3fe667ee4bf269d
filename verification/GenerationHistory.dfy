/** What the reports of the generation manager and its active set go back to, over whole runs: which activations were
    awaited, and how they settled. */
module GenerationHistory {
  import opened Results
  import opened TopologicalOrder
  import opened GenerationProtocol

  /** A reconcile is walking its activation order. */
  ghost predicate InLoop(s: State) {
    s.running.Activating? || s.running.CleaningUp?
  }

  /** The activation of `id` for `target` is awaited and settles in this event, with this success. */
  ghost predicate Settles(s: State, event: Event, target: Target, id: AddonId, success: bool) {
    && s.running.Activating? && s.running.target == target && s.pending.Some?
    && s.running.index < |target.order| && target.order[s.running.index] == id
    && event.Resume? && event.success == success
  }

  /** The step that makes `later` of the results `earlier` completes a reconcile with this report. */
  ghost predicate Reports(earlier: seq<OperationResult>, later: seq<OperationResult>, target: Target, failures: seq<Failure>) {
    |later| > |earlier| && later[|earlier|] == Reconciled(target, failures)
  }

  /** The failure was recorded by the loop before, or its activation fails in this event; and the loop is current. */
  ghost predicate Honest(s: State, event: Event, target: Target, failure: Failure) {
    && InLoop(s) && s.running.target == target && s.running.epoch == s.epoch && !event.StartNext?
    && (failure in s.running.failures || Settles(s, event, target, failure.id, false))
  }

  /** Walking on records no failed activation and reports those it was given. */
  lemma {:induction false} ActivateFromAddsNone(s: State, target: Target, epoch: nat, index: nat, failures: seq<Failure>, failure: Failure)
    requires failure.kind == ActivationFailed
    ensures
      var s' := ActivateFrom(s, target, epoch, index, failures);
      && (InLoop(s') ==> s'.running.target == target && s'.running.epoch == epoch == s.epoch
                         && (failure in s'.running.failures ==> failure in failures))
      && (forall other, reported | Reports(s.results, s'.results, other, reported) ::
            other == target && epoch == s.epoch && (failure in reported ==> failure in failures))
    decreases |target.order| - index
  {
    if epoch == s.epoch && index < |target.order| && target.order[index] in target.addons && Unavailable(s, target.addons[target.order[index]]) {
      ActivateFromAddsNone(s, target, epoch, index + 1, failures + [Failure(target.order[index], DependencyUnavailable)], failure);
    }
  }

  lemma {:induction false} StopFromIsSilent(s: State, order: seq<AddonId>, next: Continuation)
    ensures
      var s' := StopFrom(s, order, next);
      !InLoop(s') && s'.results == s.results
  {
    if order != [] && order[0] !in s.active {
      StopFromIsSilent(s, order[1..], next);
    }
  }

  lemma SettlingIsHonest(s: State, success: bool, plan: seq<AddonId>, failure: Failure)
    requires Valid(s) && CanResume(s) && s.running.Activating? && failure.kind == ActivationFailed
    ensures StepIsHonest(s, Resume(success, plan), ResumeStep(s, success, plan), failure)
  {
    hide ActivateFrom, LoopValid, Closed, QueueValid, ResumeStep;
    var Activating(target, epoch, index, failures) := s.running;
    ActivatingInRange(s);
    SettledActivationIs(s, success, plan);
    ActivateFromAddsNone(Joined(s, target.order[index]), target, epoch, index + 1, failures, failure);
  }

  ghost predicate StepIsHonest(s: State, event: Event, s': State, failure: Failure) {
    && (InLoop(s') && s'.running.epoch == s'.epoch && failure in s'.running.failures ==> Honest(s, event, s'.running.target, failure))
    && (forall target, failures | Reports(s.results, s'.results, target, failures) && failure in failures :: Honest(s, event, target, failure))
  }

  lemma ResumingIsHonest(s: State, success: bool, plan: seq<AddonId>, failure: Failure)
    requires Valid(s) && CanResume(s) && failure.kind == ActivationFailed
    ensures StepIsHonest(s, Resume(success, plan), ResumeStep(s, success, plan), failure)
  {
    hide ActivateFrom, StopFrom, LoopValid, Closed, QueueValid, ScopesOwned;
    match s.running
    case AwaitingInterrupted(_) => StopFromIsSilent(s, Reverse(plan), ThenClear);
    case Stopping(rest, _, next) => StopFromIsSilent(s, rest, next);
    case AllStopped(ThenActivate(target, epoch)) => ActivateFromAddsNone(s, target, epoch, 0, [], failure);
    case AllStopped(ThenClear) =>
    case Activating(_, _, _, _) => SettlingIsHonest(s, success, plan, failure);
    case CleaningUp(target, epoch, index, failures) =>
      ActivateFromAddsNone(s.(pending := None), target, epoch, index + 1, failures, failure);
  }

  lemma LoopIsNotAhead(s: State)
    requires Valid(s) && InLoop(s)
    ensures s.running.epoch <= s.epoch
  {
  }

  lemma EveryStepIsHonest(s: State, event: Event, s': State, failure: Failure)
    requires Valid(s) && Step(s, event, s') && failure.kind == ActivationFailed
    ensures StepIsHonest(s, event, s', failure)
  {
    hide ActivateFrom, StopFrom, LoopValid, Closed, QueueValid, ScopesOwned, ResumeStep;
    if InLoop(s) { LoopIsNotAhead(s); }
    match event
    case StartNext(plan) =>
      if StartStops(s) {
        StopFromIsSilent(s.(queue := s.queue[1..]), Reverse(plan), ThenActivate(s.queue[0].target, s.queue[0].epoch));
      }
    case Resume(success, plan) => ResumingIsHonest(s, success, plan, failure);
    case _ =>
  }

  /** In step `j` of the run the activation of `id` was awaited and failed, and no other operation began up to step `i`. */
  ghost predicate FailedAt(states: seq<State>, events: seq<Event>, target: Target, id: AddonId, j: nat, i: nat) {
    && j < i <= |events| && |states| == |events| + 1
    && Settles(states[j], events[j], target, id, false)
    && forall k | j <= k < i :: !events[k].StartNext?
  }

  /** What an honest step has recorded or reports was awaited in it, or recorded before. */
  lemma {:induction false} RecordedWasAwaited(states: seq<State>, events: seq<Event>, i: nat, failure: Failure) returns (j: nat)
    requires IsRun(states, events) && states[0] == Initial && i < |states| && failure.kind == ActivationFailed
    requires InLoop(states[i]) && states[i].running.epoch == states[i].epoch && failure in states[i].running.failures
    ensures FailedAt(states, events, states[i].running.target, failure.id, j, i)
    decreases i
  {
    hide Valid, Step, Settles;
    var k := i - 1;
    RunsKeepValid(states, events, k);
    EveryStepIsHonest(states[k], events[k], states[i], failure);
    var target := states[i].running.target;
    assert Honest(states[k], events[k], target, failure);
    if Settles(states[k], events[k], target, failure.id, false) {
      j := k;
    } else {
      j := RecordedWasAwaited(states, events, k, failure);
    }
  }

  /** Over every run: when a reconcile reports that an add-on's activation failed, that activation was awaited in this
      reconcile and was rejected. */
  lemma ReportedWasAwaited(states: seq<State>, events: seq<Event>, i: nat, target: Target, failures: seq<Failure>, failure: Failure)
    returns (j: nat)
    requires IsRun(states, events) && states[0] == Initial && i < |events|
    requires Reports(states[i].results, states[i + 1].results, target, failures) && failure in failures && failure.kind == ActivationFailed
    ensures FailedAt(states, events, target, failure.id, j, i + 1)
  {
    hide Valid, Step, Settles;
    RunsKeepValid(states, events, i);
    EveryStepIsHonest(states[i], events[i], states[i + 1], failure);
    assert Honest(states[i], events[i], target, failure);
    if Settles(states[i], events[i], target, failure.id, false) {
      j := i;
    } else {
      j := RecordedWasAwaited(states, events, i, failure);
    }
  }

  // ----- nothing fails unless an activation did -----

  /** Without a failed activation no dependency is unavailable: the order activates dependencies first. */
  lemma {:induction false} NoneUnavailable(s: State, target: Target, failures: seq<Failure>, index: nat)
    requires Accounts(s, target, failures) && index <= |target.order|
    requires forall failure <- failures :: failure.kind != ActivationFailed
    ensures forall id <- target.order[..index] :: id in s.active
  {
    if index > 0 {
      NoneUnavailable(s, target, failures, index - 1);
      var id := target.order[index - 1];
      assert target.order[..index] == target.order[..index - 1] + [id];
      OrderedIsDeclared(target, index - 1);
      assert id in DependenciesOf(target.addons) && DependenciesOf(target.addons)[id] == target.addons[id].dependencies;
      assert forall dependency <- target.addons[id].dependencies :: dependency in target.order[..index - 1];
      assert !Unavailable(s, target.addons[id]);
      assert Handled(s, id, failures);
    }
  }

  /** Every add-on of the target, as described, and no other. */
  ghost predicate AllActive(s: State, target: Target) {
    && s.active.Keys == target.addons.Keys
    && forall id | id in target.addons :: s.active[id].descriptor == target.addons[id]
  }

  lemma NoFailureMeansAllActive(s: State, target: Target, failures: seq<Failure>)
    requires Accounts(s, target, failures)
    requires forall failure <- failures :: failure.kind != ActivationFailed
    ensures failures == [] && AllActive(s, target)
  {
    NoneUnavailable(s, target, failures, |target.order|);
    assert target.order[..|target.order|] == target.order;
    forall id | id in target.addons
      ensures id in s.active
    {
      assert id in DependenciesOf(target.addons);
      assert id in target.order;
    }
    var first := if failures == [] then Failure("", ActivationFailed) else failures[0];
    assert failures != [] ==> first in failures;
  }

  lemma CompletedAccounts(s: State, s': State, target: Target, failures: seq<Failure>)
    requires Reports(s.results, s'.results, target, failures)
    ensures ReportAccounts(s, s') ==> Accounts(s', target, failures)
  {
  }

  /** The reconcile that step `i` completes began at step `start`, and every activation it awaited succeeded. */
  ghost predicate AllSucceed(states: seq<State>, events: seq<Event>, start: nat, i: nat)
    requires |states| == |events| + 1 && i < |events|
  {
    && start <= i && events[start].StartNext?
    && forall j | start < j <= i && states[j].running.Activating? && events[j].Resume? :: events[j].success
  }

  /** Over every run: a reconcile that completes, and whose activations all succeeded, reports no failure and leaves
      every add-on of its target active as described. (One that a dispose overtakes does not complete.) */
  lemma SuccessActivatesAll(states: seq<State>, events: seq<Event>, start: nat, i: nat, target: Target, failures: seq<Failure>)
    requires IsRun(states, events) && states[0] == Initial && i < |events|
    requires Reports(states[i].results, states[i + 1].results, target, failures) && AllSucceed(states, events, start, i)
    ensures failures == [] && AllActive(states[i + 1], target)
  {
    hide Valid, Step, Accounts, AllActive, Reports;
    assert ReportAccounts(states[i], states[i + 1]) ==> Accounts(states[i + 1], target, failures) by {
      CompletedAccounts(states[i], states[i + 1], target, failures);
    }
    RunsKeepValid(states, events, i);
    ReconcileAccountsForItsTarget(states[i], events[i], states[i + 1]);
    forall failure <- failures
      ensures failure.kind != ActivationFailed
    {
      if failure.kind == ActivationFailed {
        var j := ReportedWasAwaited(states, events, i, target, failures, failure);
      }
    }
    NoFailureMeansAllActive(states[i + 1], target, failures);
  }

  // ----- nothing is active unless its activation succeeded -----

  /** The generation was the one whose activation was awaited, in its own live scope, and it succeeded. */
  ghost predicate ActivatedAt(states: seq<State>, events: seq<Event>, id: AddonId, generation: Generation, j: nat) {
    && j < |events| && |states| == |events| + 1 && states[j].running.Activating?
    && Settles(states[j], events[j], states[j].running.target, id, true)
    && states[j].pending == Some(generation)
    && generation.scope < |states[j].scopes| && states[j].scopes[generation.scope] == ScopeActive
  }

  /** What is active after a step was active before it, or its activation succeeded in it. */
  ghost predicate Activates(s: State, event: Event, s': State) {
    forall id | id in s'.active ::
      || (id in s.active && s'.active[id] == s.active[id])
      || (s.running.Activating? && Settles(s, event, s.running.target, id, true) && s.pending == Some(s'.active[id])
          && s'.active[id].scope < |s.scopes| && s.scopes[s'.active[id].scope] == ScopeActive)
  }

  lemma {:induction false} ActivateFromKeepsActive(s: State, target: Target, epoch: nat, index: nat, failures: seq<Failure>)
    ensures ActivateFrom(s, target, epoch, index, failures).active == s.active
    decreases |target.order| - index
  {
    if epoch == s.epoch && index < |target.order| && target.order[index] in target.addons && Unavailable(s, target.addons[target.order[index]]) {
      ActivateFromKeepsActive(s, target, epoch, index + 1, failures + [Failure(target.order[index], DependencyUnavailable)]);
    }
  }

  lemma {:induction false} StopFromAddsNone(s: State, order: seq<AddonId>, next: Continuation)
    ensures
      var s' := StopFrom(s, order, next);
      forall id | id in s'.active :: id in s.active && s'.active[id] == s.active[id]
  {
    if order != [] && order[0] !in s.active {
      StopFromAddsNone(s, order[1..], next);
    }
  }

  lemma ResumeActivates(s: State, success: bool, plan: seq<AddonId>)
    requires Valid(s) && CanResume(s)
    ensures Activates(s, Resume(success, plan), ResumeStep(s, success, plan))
  {
    hide ActivateFrom, StopFrom, LoopValid, Closed, QueueValid, ScopesOwned;
    match s.running
    case AwaitingInterrupted(_) => StopFromAddsNone(s, Reverse(plan), ThenClear);
    case Stopping(rest, _, next) => StopFromAddsNone(s, rest, next);
    case AllStopped(ThenActivate(target, epoch)) => ActivateFromKeepsActive(s, target, epoch, 0, []);
    case AllStopped(ThenClear) =>
    case Activating(target, epoch, index, failures) =>
      ActivatingInRange(s);
      SettledActivationIs(s, success, plan);
      ActivateFromKeepsActive(Joined(s, target.order[index]), target, epoch, index + 1, failures);
    case CleaningUp(target, epoch, index, failures) =>
      ActivateFromKeepsActive(s.(pending := None), target, epoch, index + 1, failures);
  }

  lemma EveryStepActivates(s: State, event: Event, s': State)
    requires Valid(s) && Step(s, event, s')
    ensures Activates(s, event, s')
  {
    hide ActivateFrom, StopFrom, LoopValid, Closed, QueueValid, ScopesOwned, ResumeStep;
    match event
    case StartNext(plan) =>
      if StartStops(s) {
        StopFromAddsNone(s.(queue := s.queue[1..]), Reverse(plan), ThenActivate(s.queue[0].target, s.queue[0].epoch));
      }
    case Resume(success, plan) => ResumeActivates(s, success, plan);
    case _ =>
  }

  /** Over every run: every generation that is active was awaited, and its activation succeeded while its scope was open. */
  lemma {:induction false} ActiveWasActivated(states: seq<State>, events: seq<Event>, i: nat, id: AddonId) returns (j: nat)
    requires IsRun(states, events) && states[0] == Initial && i < |states| && id in states[i].active
    ensures j < i && ActivatedAt(states, events, id, states[i].active[id], j)
    decreases i
  {
    hide Valid, Step, Settles;
    var k := i - 1;
    RunsKeepValid(states, events, k);
    EveryStepActivates(states[k], events[k], states[i]);
    if id in states[k].active && states[k].active[id] == states[i].active[id] {
      j := ActiveWasActivated(states, events, k, id);
    } else {
      j := k;
    }
  }

  // ----- an aborted reconcile was overtaken -----

  /** The epoch under which the reconcile that takes this step was called. */
  function CalledUnder(s: State, event: Event): Option<nat> {
    if event.StartNext? && s.queue != [] && s.queue[0].ReconcileOperation? then Some(s.queue[0].epoch)
    else if !event.Resume? then None
    else
      match s.running
      case AllStopped(ThenActivate(_, epoch)) => Some(epoch)
      case Activating(_, epoch, _, _) => Some(epoch)
      case CleaningUp(_, epoch, _, _) => Some(epoch)
      case _ => None
  }

  ghost predicate Aborts(earlier: seq<OperationResult>, later: seq<OperationResult>) {
    |later| > |earlier| && later[|earlier|] == Aborted
  }

  lemma {:induction false} ActivateFromAbortsOvertaken(s: State, target: Target, epoch: nat, index: nat, failures: seq<Failure>)
    requires target.Valid()
    ensures Aborts(s.results, ActivateFrom(s, target, epoch, index, failures).results) ==> epoch != s.epoch
    decreases |target.order| - index
  {
    if epoch == s.epoch && index < |target.order| {
      OrderedIsDeclared(target, index);
      if Unavailable(s, target.addons[target.order[index]]) {
        ActivateFromAbortsOvertaken(s, target, epoch, index + 1, failures + [Failure(target.order[index], DependencyUnavailable)]);
      }
    }
  }

  /** A reconcile aborts only when a dispose has raised the epoch since it was called. */
  lemma AbortedWasOvertaken(s: State, event: Event, s': State)
    requires Valid(s) && Step(s, event, s') && Aborts(s.results, s'.results)
    ensures CalledUnder(s, event).Some? && CalledUnder(s, event).value < s.epoch
  {
    hide ActivateFrom, StopFrom, Closed, ScopesOwned, LoopValid;
    match event
    case StartNext(plan) =>
      assert OperationValid(s, s.queue[0]);
      if StartStops(s) {
        StopFromIsSilent(s.(queue := s.queue[1..]), Reverse(plan), ThenActivate(s.queue[0].target, s.queue[0].epoch));
      }
    case Resume(success, plan) => ResumeAbortsOvertaken(s, success, plan);
    case _ =>
  }

  lemma ResumeAbortsOvertaken(s: State, success: bool, plan: seq<AddonId>)
    requires Valid(s) && CanResume(s) && Aborts(s.results, ResumeStep(s, success, plan).results)
    ensures CalledUnder(s, Resume(success, plan)).Some? && CalledUnder(s, Resume(success, plan)).value < s.epoch
  {
    hide ActivateFrom, StopFrom, Closed, ScopesOwned, QueueValid;
    match s.running
    case AwaitingInterrupted(_) => StopFromIsSilent(s, Reverse(plan), ThenClear);
    case Stopping(rest, _, next) => StopFromIsSilent(s, rest, next);
    case AllStopped(ThenActivate(target, epoch)) => ActivateFromAbortsOvertaken(s, target, epoch, 0, []);
    case AllStopped(ThenClear) =>
    case Activating(target, epoch, index, failures) =>
      ActivatingInRange(s);
      SettledActivationIs(s, success, plan);
      ActivateFromAbortsOvertaken(Joined(s, target.order[index]), target, epoch, index + 1, failures);
    case CleaningUp(target, epoch, index, failures) =>
      ActivateFromAbortsOvertaken(s.(pending := None), target, epoch, index + 1, failures);
  }
}
