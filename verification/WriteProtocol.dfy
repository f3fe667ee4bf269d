/** The campaign write queue as a state machine over its suspension points.

    Each turn runs from one awaited promise to the next; between two of them anything else may happen: new
    requests, a disconnect that aborts the connection, a reconnect that starts a new queue, other operations
    that take the busy lease, and campaign refreshes. */
module WriteProtocol {
  import opened Results

  /** The revisions of the campaign that is shown. */
  type Revisions = map<(string, string), int>

  /** What the server confirmed about one record. */
  datatype Change = Change(record: (string, string), afterRevision: int, deleted: bool)

  datatype Receipt = Receipt(changes: seq<Change>, target: Option<(string, string)>)

  datatype Request = Request(twin: bool, manages: bool)

  datatype Answer =
    | Saved(shown: Revisions, receipt: Option<Receipt>)
    | NotShown
    | Unavailable
    | FinishEdits
    | Interrupted
    | Failed
    | Overwritten

  /** Where a turn is; a finished one remembers the lease it held. */
  datatype Phase = Queued | Writing(lease: nat) | Loading(lease: nat, receipt: Receipt) | Finished(held: Option<nat>)

  datatype Turn = Turn(connection: nat, request: Request, phase: Phase, answers: seq<Answer>)

  /** The leases that are held; their numbers are never used again. */
  datatype Leases = Leases(held: set<nat>, next: nat)

  /** `aborted` has one entry a connection; turns are in request order; `started` lists turns as they start. */
  datatype State = State(leases: Leases, aborted: seq<bool>, turns: seq<Turn>, started: seq<nat>, campaign: Option<Revisions>)

  // ----- busy leases -----

  predicate Busy(leases: Leases) {
    leases.held != {}
  }

  function Acquire(leases: Leases): Leases {
    Leases(leases.held + {leases.next}, leases.next + 1)
  }

  function Release(leases: Leases, lease: nat): Leases {
    leases.(held := leases.held - {lease})
  }

  function Clear(leases: Leases): Leases {
    leases.(held := {})
  }

  // ----- answers -----

  /** What the receipt's own check of its target finds; a receipt without one is fine. */
  datatype Check = Fine | Differs | Throws

  /** The shown campaign has the change, or a later revision of the record. */
  predicate Shown(campaign: Revisions, change: Change) {
    if change.deleted then change.record !in campaign || campaign[change.record] > change.afterRevision
    else change.record in campaign && campaign[change.record] >= change.afterRevision
  }

  predicate Confirmed(campaign: Revisions, receipt: Receipt) {
    && (forall change <- receipt.changes :: Shown(campaign, change))
    && (receipt.target.Some? ==>
          receipt.target.value in campaign && exists change <- receipt.changes :: change.record == receipt.target.value)
  }

  /** `#answer`; a receipt's own check of its target may throw, which the turn answers as it answers what is not shown. */
  function AnswerFor(campaign: Option<Revisions>, receipt: Option<Receipt>, check: Check): Answer {
    if campaign.None? then NotShown
    else if receipt.None? then Saved(campaign.value, None)
    else if !Confirmed(campaign.value, receipt.value) then NotShown
    else if receipt.value.target.None? then Saved(campaign.value, receipt)
    else
      match check
      case Fine => Saved(campaign.value, receipt)
      case Differs => Overwritten
      case Throws => NotShown
  }

  // ----- steps -----

  /** What the app tells a turn when it starts: whether the editor is still there, whether a writer is signed in
      and may manage the campaign, and whether an edit is open. */
  datatype World = World(ready: bool, writer: Option<bool>, editing: bool)

  /** How the wait for a handler's write ends; it throws when the write fails and when the connection is aborted. */
  datatype Outcome = Wrote(receipt: Option<Receipt>) | Threw

  datatype Event =
    | Connect
    | Disconnect
    | Enqueue(request: Request)
    | Start(turn: nat, world: World)
    | Settle(turn: nat, outcome: Outcome, check: Check)
    | Loaded(turn: nat, threw: bool, check: Check)
    | OtherAcquires
    | OtherReleases(lease: nat)
    | Cleared
    | Refreshed(campaign: Option<Revisions>)

  function Finish(s: State, i: nat, answer: Answer): State
    requires i < |s.turns|
  {
    var turn := s.turns[i];
    match turn.phase
    case Writing(lease) => Ended(s, i, Some(lease), answer)
    case Loading(lease, _) => Ended(s, i, Some(lease), answer)
    case _ => Ended(s, i, None, answer)
  }

  function Ended(s: State, i: nat, lease: Option<nat>, answer: Answer): State
    requires i < |s.turns|
  {
    var turn := s.turns[i];
    s.(turns := s.turns[i := turn.(phase := Finished(lease), answers := turn.answers + [answer])],
       leases := if lease.Some? then Release(s.leases, lease.value) else s.leases)
  }

  /** A turn starts when the one before it in its connection has finished. */
  ghost predicate CanStart(s: State, i: nat) {
    && i < |s.turns| && s.turns[i].phase.Queued?
    && forall j | 0 <= j < i && s.turns[j].connection == s.turns[i].connection :: s.turns[j].phase.Finished?
  }

  predicate Refused(s: State, turn: Turn, world: World)
    requires turn.connection < |s.aborted|
  {
    || s.aborted[turn.connection] || !world.ready || world.writer.None? || s.campaign.None? || Busy(s.leases)
    || (turn.request.manages && !world.writer.value)
  }

  function StartStep(s: State, i: nat, world: World): State
    requires i < |s.turns| && s.turns[i].connection < |s.aborted|
  {
    var turn := s.turns[i];
    var begun := s.(started := s.started + [i]);
    if Refused(s, turn, world) then Finish(begun, i, Unavailable)
    else if turn.request.twin && world.editing then Finish(begun, i, FinishEdits)
    else begun.(leases := Acquire(s.leases), turns := s.turns[i := turn.(phase := Writing(s.leases.next))])
  }

  function SettleStep(s: State, i: nat, outcome: Outcome, check: Check): State
    requires i < |s.turns| && s.turns[i].phase.Writing? && s.turns[i].connection < |s.aborted|
  {
    var turn := s.turns[i];
    var aborted := s.aborted[turn.connection];
    match outcome
    case Threw => Finish(s, i, if aborted then Interrupted else Failed)
    case Wrote(None) => Finish(s, i, if aborted then NotShown else AnswerFor(s.campaign, None, check))
    case Wrote(Some(receipt)) => s.(turns := s.turns[i := turn.(phase := Loading(turn.phase.lease, receipt))])
  }

  function LoadedStep(s: State, i: nat, threw: bool, check: Check): State
    requires i < |s.turns| && s.turns[i].phase.Loading? && s.turns[i].connection < |s.aborted|
  {
    var turn := s.turns[i];
    if threw || s.aborted[turn.connection] then Finish(s, i, NotShown)
    else Finish(s, i, AnswerFor(s.campaign, Some(turn.phase.receipt), check))
  }

  ghost predicate Step(s: State, event: Event, s': State) {
    match event
    case Connect => s' == s.(aborted := s.aborted + [false])
    case Disconnect => s.aborted != [] && s' == s.(aborted := s.aborted[|s.aborted| - 1 := true])
    case Enqueue(request) => s.aborted != [] && s' == s.(turns := s.turns + [Turn(|s.aborted| - 1, request, Queued, [])])
    case Start(i, world) => CanStart(s, i) && s.turns[i].connection < |s.aborted| && s' == StartStep(s, i, world)
    case Settle(i, outcome, check) =>
      i < |s.turns| && s.turns[i].phase.Writing? && s.turns[i].connection < |s.aborted| && s' == SettleStep(s, i, outcome, check)
    case Loaded(i, threw, check) =>
      i < |s.turns| && s.turns[i].phase.Loading? && s.turns[i].connection < |s.aborted| && s' == LoadedStep(s, i, threw, check)
    case OtherAcquires => s' == s.(leases := Acquire(s.leases))
    case OtherReleases(lease) => (forall turn <- s.turns :: LeaseOf(turn) != Some(lease)) && s' == s.(leases := Release(s.leases, lease))
    case Cleared => s' == s.(leases := Clear(s.leases))
    case Refreshed(campaign) => s' == s.(campaign := campaign)
  }

  // ----- the invariant -----

  /** The lease a turn holds while it runs. */
  function LeaseOf(turn: Turn): Option<nat> {
    match turn.phase
    case Writing(lease) => Some(lease)
    case Loading(lease, _) => Some(lease)
    case _ => None
  }

  /** A turn is answered once, and exactly when it has finished; an answer that claims success with a receipt
      shows every confirmed change. */
  ghost predicate TurnValid(turn: Turn, connections: nat, leases: Leases) {
    && turn.connection < connections
    && |turn.answers| == (if turn.phase.Finished? then 1 else 0)
    && (forall answer <- turn.answers :: AnswerValid(answer))
    && (LeaseOf(turn).Some? ==> LeaseOf(turn).value < leases.next)
    && (turn.phase.Finished? && turn.phase.held.Some? ==> turn.phase.held.value < leases.next && turn.phase.held.value !in leases.held)
  }

  ghost predicate AnswerValid(answer: Answer) {
    answer.Saved? && answer.receipt.Some? ==> Confirmed(answer.shown, answer.receipt.value)
  }

  /** Turns of one connection start one after the other. */
  ghost predicate InOrder(turns: seq<Turn>) {
    && (forall i, j | 0 <= i < j < |turns| :: turns[i].connection <= turns[j].connection)
    && (forall i, j | 0 <= i < j < |turns| && turns[i].connection == turns[j].connection && !turns[j].phase.Queued? ::
          turns[i].phase.Finished?)
  }

  /** At most one running turn holds its lease, and no two ever had the same one. */
  ghost predicate Exclusive(turns: seq<Turn>, leases: Leases) {
    forall i, j | 0 <= i < j < |turns| && LeaseOf(turns[i]).Some? && LeaseOf(turns[j]).Some? ::
      LeaseOf(turns[i]) != LeaseOf(turns[j]) && !(LeaseOf(turns[i]).value in leases.held && LeaseOf(turns[j]).value in leases.held)
  }

  /** The turns that have started, in the order they did. */
  ghost predicate StartsValid(turns: seq<Turn>, started: seq<nat>) {
    && (forall i <- started :: i < |turns| && !turns[i].phase.Queued?)
    && (forall i | 0 <= i < |turns| && !turns[i].phase.Queued? :: i in started)
    && (forall a, b | 0 <= a < b < |started| && started[b] < |turns| && started[a] < |turns| && turns[started[a]].connection == turns[started[b]].connection ::
          started[a] < started[b])
  }

  ghost predicate Valid(s: State) {
    && (forall lease <- s.leases.held :: lease < s.leases.next)
    && (forall turn <- s.turns :: TurnValid(turn, |s.aborted|, s.leases))
    && InOrder(s.turns) && Exclusive(s.turns, s.leases) && StartsValid(s.turns, s.started)
  }

  lemma AnswerIsValid(campaign: Option<Revisions>, receipt: Option<Receipt>, check: Check)
    ensures AnswerValid(AnswerFor(campaign, receipt, check))
  {
  }

  lemma TurnsByIndex(s: State)
    requires Valid(s)
    ensures forall i | 0 <= i < |s.turns| :: TurnValid(s.turns[i], |s.aborted|, s.leases)
  {
    assert forall i | 0 <= i < |s.turns| :: s.turns[i] in s.turns;
  }

  /** One turn changed its phase; the others are as they were. */
  ghost predicate Replaces(s: State, i: nat, turns: seq<Turn>) {
    && i < |s.turns| && |turns| == |s.turns| && turns[i].connection == s.turns[i].connection
    && forall j | 0 <= j < |turns| && j != i :: turns[j] == s.turns[j]
  }

  lemma ReplacedTurnsAreValid(s: State, i: nat, turns: seq<Turn>, leases: Leases)
    requires Valid(s) && Replaces(s, i, turns)
    requires TurnValid(turns[i], |s.aborted|, leases) && s.leases.next <= leases.next
    requires forall lease | lease < s.leases.next && lease in leases.held :: lease in s.leases.held
    ensures forall turn <- turns :: TurnValid(turn, |s.aborted|, leases)
  {
    TurnsByIndex(s);
    forall turn <- turns
      ensures TurnValid(turn, |s.aborted|, leases)
    {
      var j :| 0 <= j < |turns| && turns[j] == turn;
    }
  }

  /** A running turn moves on or ends. */
  lemma ContinuingKeepsOrder(s: State, i: nat, turns: seq<Turn>)
    requires Valid(s) && Replaces(s, i, turns) && LeaseOf(s.turns[i]).Some? && !turns[i].phase.Queued?
    ensures InOrder(turns) && StartsValid(turns, s.started)
  {
  }

  lemma FewerLeasesAreExclusive(s: State, i: nat, turns: seq<Turn>, leases: Leases)
    requires Valid(s) && Replaces(s, i, turns) && leases.held <= s.leases.held
    requires LeaseOf(turns[i]).None? || LeaseOf(turns[i]) == LeaseOf(s.turns[i])
    ensures Exclusive(turns, leases)
  {
  }

  /** A turn ends: it is answered and its lease is released. */
  lemma EndKeepsValid(s: State, i: nat, answer: Answer)
    requires Valid(s) && i < |s.turns| && LeaseOf(s.turns[i]).Some? && AnswerValid(answer)
    ensures Valid(Finish(s, i, answer))
  {
    TurnsByIndex(s);
    var ended := Finish(s, i, answer);
    ReplacedTurnsAreValid(s, i, ended.turns, ended.leases);
    ContinuingKeepsOrder(s, i, ended.turns);
    FewerLeasesAreExclusive(s, i, ended.turns, ended.leases);
  }

  /** A turn that is refused ends at once, without a lease. */
  lemma RefusalKeepsValid(s: State, i: nat, answer: Answer)
    requires Valid(s) && CanStart(s, i) && AnswerValid(answer)
    ensures Valid(Finish(s.(started := s.started + [i]), i, answer))
  {
    TurnsByIndex(s);
    var ended := Finish(s.(started := s.started + [i]), i, answer);
    ReplacedTurnsAreValid(s, i, ended.turns, ended.leases);
    FewerLeasesAreExclusive(s, i, ended.turns, ended.leases);
    StartKeepsOrder(s, i, ended.turns);
  }

  /** A turn that starts takes the lease nobody holds. */
  lemma AcquiringKeepsValid(s: State, i: nat)
    requires Valid(s) && CanStart(s, i) && !Busy(s.leases)
    ensures Valid(s.(started := s.started + [i], leases := Acquire(s.leases), turns := s.turns[i := s.turns[i].(phase := Writing(s.leases.next))]))
  {
    TurnsByIndex(s);
    var turns := s.turns[i := s.turns[i].(phase := Writing(s.leases.next))];
    ReplacedTurnsAreValid(s, i, turns, Acquire(s.leases));
    StartKeepsOrder(s, i, turns);
  }

  lemma StartedBefore(s: State, i: nat, j: nat)
    requires Valid(s) && i < |s.turns| && s.turns[i].phase.Queued? && j in s.started && s.turns[j].connection == s.turns[i].connection
    ensures j < i
  {
  }

  /** Starting the first turn that has not finished keeps the order of its connection. */
  lemma StartKeepsOrder(s: State, i: nat, turns: seq<Turn>)
    requires Valid(s) && CanStart(s, i) && Replaces(s, i, turns) && !turns[i].phase.Queued?
    ensures InOrder(turns) && StartsValid(turns, s.started + [i])
  {
    var started := s.started + [i];
    assert i !in s.started;
    forall a, b | 0 <= a < b < |started| && started[a] < |turns| && started[b] < |turns| && turns[started[a]].connection == turns[started[b]].connection
      ensures started[a] < started[b]
    {
      if b == |s.started| {
        StartedBefore(s, i, s.started[a]);
      }
    }
    forall j | 0 <= j < |turns| && !turns[j].phase.Queued?
      ensures j in started
    {
      if j != i {
        assert j in s.started;
      }
    }
  }

  lemma SettlingKeepsValid(s: State, i: nat, outcome: Outcome, check: Check)
    requires Valid(s) && i < |s.turns| && s.turns[i].phase.Writing? && s.turns[i].connection < |s.aborted|
    ensures Valid(SettleStep(s, i, outcome, check))
  {
    TurnsByIndex(s);
    var aborted := s.aborted[s.turns[i].connection];
    if outcome.Threw? {
      EndKeepsValid(s, i, if aborted then Interrupted else Failed);
    } else if outcome.receipt.None? {
      AnswerIsValid(s.campaign, None, check);
      EndKeepsValid(s, i, if aborted then NotShown else AnswerFor(s.campaign, None, check));
    } else {
      var after := SettleStep(s, i, outcome, check);
      ReplacedTurnsAreValid(s, i, after.turns, s.leases);
      ContinuingKeepsOrder(s, i, after.turns);
      FewerLeasesAreExclusive(s, i, after.turns, s.leases);
    }
  }

  lemma LoadingKeepsValid(s: State, i: nat, threw: bool, check: Check)
    requires Valid(s) && i < |s.turns| && s.turns[i].phase.Loading? && s.turns[i].connection < |s.aborted|
    ensures Valid(LoadedStep(s, i, threw, check))
  {
    if threw || s.aborted[s.turns[i].connection] {
      EndKeepsValid(s, i, NotShown);
    } else {
      AnswerIsValid(s.campaign, Some(s.turns[i].phase.receipt), check);
      EndKeepsValid(s, i, AnswerFor(s.campaign, Some(s.turns[i].phase.receipt), check));
    }
  }

  lemma StartingKeepsValid(s: State, i: nat, world: World)
    requires Valid(s) && CanStart(s, i) && s.turns[i].connection < |s.aborted|
    ensures Valid(StartStep(s, i, world))
  {
    if Refused(s, s.turns[i], world) {
      RefusalKeepsValid(s, i, Unavailable);
    } else if s.turns[i].request.twin && world.editing {
      RefusalKeepsValid(s, i, FinishEdits);
    } else {
      AcquiringKeepsValid(s, i);
    }
  }

  /** Steps of the rest of the app leave the turns alone. */
  lemma EnvironmentKeepsValid(s: State, event: Event, s': State)
    requires Valid(s) && Step(s, event, s')
    requires event.Connect? || event.Disconnect? || event.OtherAcquires? || event.OtherReleases? || event.Cleared? || event.Refreshed?
    ensures Valid(s')
  {
    TurnsByIndex(s);
  }

  lemma EnqueueKeepsValid(s: State, request: Request)
    requires Valid(s) && s.aborted != []
    ensures Valid(s.(turns := s.turns + [Turn(|s.aborted| - 1, request, Queued, [])]))
  {
    hide TurnValid, InOrder, Exclusive, StartsValid;
    var turn := Turn(|s.aborted| - 1, request, Queued, []);
    NewTurnIsValid(s, turn);
    EnqueueKeepsOrder(s, turn);
    EnqueueKeepsStarts(s, turn);
  }

  lemma NewTurnIsValid(s: State, turn: Turn)
    requires s.aborted != [] && turn.connection == |s.aborted| - 1 && turn.phase.Queued? && turn.answers == []
    ensures TurnValid(turn, |s.aborted|, s.leases)
  {
  }

  lemma EnqueueKeepsOrder(s: State, turn: Turn)
    requires Valid(s) && turn.connection == |s.aborted| - 1 && turn.phase.Queued?
    ensures InOrder(s.turns + [turn]) && Exclusive(s.turns + [turn], s.leases)
  {
    TurnsByIndex(s);
    var turns := s.turns + [turn];
    assert forall i | 0 <= i < |s.turns| :: turns[i] == s.turns[i] && turns[i].connection <= turn.connection;
    assert turns[|s.turns|] == turn && LeaseOf(turn).None?;
  }

  lemma EnqueueKeepsStarts(s: State, turn: Turn)
    requires Valid(s) && turn.phase.Queued?
    ensures StartsValid(s.turns + [turn], s.started)
  {
    var turns := s.turns + [turn];
    assert forall i | 0 <= i < |s.turns| :: turns[i] == s.turns[i];
    assert forall i | 0 <= i < |turns| && !turns[i].phase.Queued? :: i < |s.turns|;
  }

  /** The invariant holds at every suspension point of every interleaving. */
  lemma StepKeepsValid(s: State, event: Event, s': State)
    requires Valid(s) && Step(s, event, s')
    ensures Valid(s')
  {
    match event
    case Enqueue(request) => EnqueueKeepsValid(s, request);
    case Start(i, world) => StartingKeepsValid(s, i, world);
    case Settle(i, outcome, check) => SettlingKeepsValid(s, i, outcome, check);
    case Loaded(i, threw, check) => LoadingKeepsValid(s, i, threw, check);
    case _ => EnvironmentKeepsValid(s, event, s');
  }

  ghost predicate IsRun(states: seq<State>, events: seq<Event>) {
    && |states| == |events| + 1
    && states[0] == State(Leases({}, 0), [false], [], [], states[0].campaign)
    && forall k | 0 <= k < |events| :: Step(states[k], events[k], states[k + 1])
  }

  lemma {:induction false} RunsKeepValid(states: seq<State>, events: seq<Event>, k: nat)
    requires IsRun(states, events) && k < |states|
    ensures Valid(states[k])
  {
    if k > 0 {
      RunsKeepValid(states, events, k - 1);
      StepKeepsValid(states[k - 1], events[k - 1], states[k]);
    }
  }

  // ----- what editors can rely on -----

  /** No answer is ever taken back or given twice. */
  lemma AnswersAreFinal(s: State, event: Event, s': State, i: nat)
    requires Valid(s) && Step(s, event, s') && i < |s.turns| && s.turns[i].answers != []
    ensures i < |s'.turns| && s'.turns[i].answers == s.turns[i].answers && |s.turns[i].answers| == 1
  {
    TurnsByIndex(s);
  }

  function StepsLeft(turn: Turn): nat {
    match turn.phase
    case Queued => 3
    case Writing(_) => 2
    case Loading(_, _) => 1
    case Finished(_) => 0
  }

  /** How many steps the turns can still take. */
  function Remaining(turns: seq<Turn>): nat {
    if turns == [] then 0 else Remaining(turns[..|turns| - 1]) + StepsLeft(turns[|turns| - 1])
  }

  lemma {:induction false} RemainingReplaced(turns: seq<Turn>, i: nat, turn: Turn)
    requires i < |turns|
    ensures Remaining(turns[i := turn]) == Remaining(turns) - StepsLeft(turns[i]) + StepsLeft(turn)
  {
    var front, last := turns[..|turns| - 1], turns[|turns| - 1];
    if i == |turns| - 1 {
      assert turns[i := turn][..i] == front;
    } else {
      assert turns[i := turn][..|turns| - 1] == front[i := turn];
      RemainingReplaced(front, i, turn);
    }
  }

  /** A turn that has not finished, or one before it in its connection, can always take its next step. */
  lemma NeverStuck(s: State, i: nat) returns (head: nat)
    requires Valid(s) && i < |s.turns| && !s.turns[i].phase.Finished?
    ensures head <= i && s.turns[head].connection == s.turns[i].connection
    ensures CanStart(s, head) || s.turns[head].phase.Writing? || s.turns[head].phase.Loading?
    decreases i
  {
    if j :| 0 <= j < i && s.turns[j].connection == s.turns[i].connection && !s.turns[j].phase.Finished? {
      head := NeverStuck(s, j);
    } else {
      head := i;
    }
  }

  /** Each step of a turn brings the queue closer to having answered everyone; nothing but a new request sets
      it back. So every request is answered, once, when the writes and the loads that it waits for end. */
  lemma TurnsProgress(s: State, event: Event, s': State)
    requires Valid(s) && Step(s, event, s') && !event.Enqueue?
    ensures event.Start? || event.Settle? || event.Loaded? ==> Remaining(s'.turns) < Remaining(s.turns)
    ensures !(event.Start? || event.Settle? || event.Loaded?) ==> s'.turns == s.turns
  {
    if event.Start? || event.Settle? || event.Loaded? {
      OneTurnMoves(s, event, s');
      RemainingReplaced(s.turns, event.turn, s'.turns[event.turn]);
    }
  }

  lemma OneTurnMoves(s: State, event: Event, s': State)
    requires Step(s, event, s') && (event.Start? || event.Settle? || event.Loaded?)
    ensures event.turn < |s.turns| == |s'.turns| && s'.turns == s.turns[event.turn := s'.turns[event.turn]]
    ensures StepsLeft(s'.turns[event.turn]) < StepsLeft(s.turns[event.turn])
  {
  }

  /** Requests of one connection start in the order they were made. */
  lemma StartsInRequestOrder(s: State, a: nat, b: nat)
    requires Valid(s) && a < b < |s.started| && s.started[a] in s.started && s.started[b] in s.started
    requires s.started[a] < |s.turns| && s.started[b] < |s.turns|
    requires s.turns[s.started[a]].connection == s.turns[s.started[b]].connection
    ensures s.started[a] < s.started[b]
    ensures forall j | 0 <= j < s.started[b] && s.turns[j].connection == s.turns[s.started[b]].connection :: j in s.started && s.turns[j].phase.Finished?
  {
  }

  /** No two turns hold the busy state at once, and a turn that has ended holds nothing. */
  lemma OneWriteAtATime(s: State, i: nat, j: nat)
    requires Valid(s) && i < |s.turns| && j < |s.turns| && i != j
    requires LeaseOf(s.turns[i]).Some? && LeaseOf(s.turns[j]).Some?
    ensures !(LeaseOf(s.turns[i]).value in s.leases.held && LeaseOf(s.turns[j]).value in s.leases.held)
  {
    if i < j {
      assert LeaseOf(s.turns[i]) != LeaseOf(s.turns[j]);
    } else {
      assert LeaseOf(s.turns[j]) != LeaseOf(s.turns[i]);
    }
  }

  lemma LeaseIsReleased(s: State, i: nat)
    requires Valid(s) && i < |s.turns| && s.turns[i].phase.Finished? && s.turns[i].phase.held.Some?
    ensures s.turns[i].phase.held.value !in s.leases.held
  {
    TurnsByIndex(s);
  }

  /** A save that reports success with a receipt showed every change the server had confirmed. */
  lemma SavedMeansShown(s: State, i: nat, answer: Answer)
    requires Valid(s) && i < |s.turns| && answer in s.turns[i].answers && answer.Saved? && answer.receipt.Some?
    ensures forall change <- answer.receipt.value.changes :: Shown(answer.shown, change)
  {
    TurnsByIndex(s);
  }

  // ----- answers tell what happened -----

  /** The write of the turn was awaited in step `j` and ended like this. */
  ghost predicate EndedAs(events: seq<Event>, j: nat, i: nat, outcome: Outcome) {
    j < |events| && events[j].Settle? && events[j].turn == i && events[j].outcome == outcome
  }

  ghost predicate WriteEnded(events: seq<Event>, k: nat, i: nat, outcome: Outcome) {
    exists j | 0 <= j < k :: EndedAs(events, j, i, outcome)
  }

  ghost predicate NeverWrote(events: seq<Event>, k: nat, i: nat)
    requires k <= |events|
  {
    forall j | 0 <= j < k :: !(events[j].Settle? && events[j].turn == i)
  }

  /** A save is reported only of a write that succeeded with this receipt, a failure only of one that threw, and a
      refusal only of one that never began; what cannot be shown or was overwritten was written. */
  ghost predicate Tells(events: seq<Event>, k: nat, i: nat, answer: Answer)
    requires k <= |events|
  {
    match answer
    case Saved(_, receipt) => WriteEnded(events, k, i, Wrote(receipt))
    case NotShown => exists receipt :: WriteEnded(events, k, i, Wrote(receipt))
    case Overwritten => exists receipt :: WriteEnded(events, k, i, Wrote(receipt))
    case Interrupted => WriteEnded(events, k, i, Threw)
    case Failed => WriteEnded(events, k, i, Threw)
    case Unavailable => NeverWrote(events, k, i)
    case FinishEdits => NeverWrote(events, k, i)
  }

  ghost predicate TurnTells(events: seq<Event>, k: nat, i: nat, turn: Turn)
    requires k <= |events|
  {
    match turn.phase
    case Queued => turn.answers == [] && NeverWrote(events, k, i)
    case Writing(_) => turn.answers == [] && NeverWrote(events, k, i)
    case Loading(_, receipt) => turn.answers == [] && WriteEnded(events, k, i, Wrote(Some(receipt)))
    case Finished(_) => forall answer <- turn.answers :: Tells(events, k, i, answer)
  }

  lemma StillTells(events: seq<Event>, k: nat, i: nat, turn: Turn)
    requires k < |events| && TurnTells(events, k, i, turn) && !(events[k].Settle? && events[k].turn == i)
    ensures TurnTells(events, k + 1, i, turn)
  {
    assert forall outcome :: WriteEnded(events, k, i, outcome) ==> WriteEnded(events, k + 1, i, outcome);
    assert NeverWrote(events, k, i) ==> NeverWrote(events, k + 1, i);
    forall answer <- turn.answers | turn.phase.Finished?
      ensures Tells(events, k + 1, i, answer)
    {
      assert Tells(events, k, i, answer);
    }
  }

  lemma SettlingTells(s: State, events: seq<Event>, k: nat, s': State)
    requires k < |events| && events[k].Settle? && Step(s, events[k], s')
    requires TurnTells(events, k, events[k].turn, s.turns[events[k].turn])
    ensures TurnTells(events, k + 1, events[k].turn, s'.turns[events[k].turn])
  {
    var i := events[k].turn;
    assert EndedAs(events, k, i, events[k].outcome);
    assert WriteEnded(events, k + 1, i, events[k].outcome);
  }

  lemma LoadingTells(s: State, events: seq<Event>, k: nat, s': State)
    requires k < |events| && events[k].Loaded? && Step(s, events[k], s')
    requires TurnTells(events, k, events[k].turn, s.turns[events[k].turn])
    ensures TurnTells(events, k + 1, events[k].turn, s'.turns[events[k].turn])
  {
    var i := events[k].turn;
    StillTells(events, k, i, s.turns[i]);
  }

  lemma StartingTells(s: State, events: seq<Event>, k: nat, s': State)
    requires k < |events| && events[k].Start? && Step(s, events[k], s')
    requires TurnTells(events, k, events[k].turn, s.turns[events[k].turn])
    ensures TurnTells(events, k + 1, events[k].turn, s'.turns[events[k].turn])
  {
    var i := events[k].turn;
    StillTells(events, k, i, s.turns[i]);
  }

  /** No write ends for a turn that does not exist yet. */
  lemma {:induction false} NoneBeforeItsTurn(states: seq<State>, events: seq<Event>, k: nat, i: nat)
    requires IsRun(states, events) && k < |states| && i >= |states[k].turns|
    ensures NeverWrote(events, k, i)
  {
    if k > 0 {
      TurnsGrow(states[k - 1], events[k - 1], states[k]);
      NoneBeforeItsTurn(states, events, k - 1, i);
    }
  }

  lemma TurnsGrow(s: State, event: Event, s': State)
    requires Step(s, event, s')
    ensures |s.turns| <= |s'.turns|
    ensures event.Settle? ==> event.turn < |s.turns|
    ensures forall i | 0 <= i < |s.turns| && !((event.Start? || event.Settle? || event.Loaded?) && event.turn == i) :: s'.turns[i] == s.turns[i]
    ensures forall i | |s.turns| <= i < |s'.turns| :: s'.turns[i].phase.Queued? && s'.turns[i].answers == []
  {
  }

  /** Over every run, what a request is answered is what happened to its write. */
  lemma {:induction false} AnswersTellTheWrite(states: seq<State>, events: seq<Event>, k: nat, i: nat)
    requires IsRun(states, events) && k < |states| && i < |states[k].turns|
    ensures TurnTells(events, k, i, states[k].turns[i])
  {
    hide TurnTells, NeverWrote;
    if k > 0 {
      var s, event, s' := states[k - 1], events[k - 1], states[k];
      TurnsGrow(s, event, s');
      if i < |s.turns| {
        AnswersTellTheWrite(states, events, k - 1, i);
        if event.Settle? && event.turn == i {
          SettlingTells(s, events, k - 1, s');
        } else if event.Loaded? && event.turn == i {
          LoadingTells(s, events, k - 1, s');
        } else if event.Start? && event.turn == i {
          StartingTells(s, events, k - 1, s');
        } else {
          StillTells(events, k - 1, i, s.turns[i]);
        }
      } else {
        NoneBeforeItsTurn(states, events, k - 1, i);
        NewTurnTells(events, k - 1, i, s'.turns[i]);
      }
    }
  }

  lemma NewTurnTells(events: seq<Event>, k: nat, i: nat, turn: Turn)
    requires k < |events| && NeverWrote(events, k, i) && turn.phase.Queued? && turn.answers == []
    requires !(events[k].Settle? && events[k].turn == i)
    ensures TurnTells(events, k + 1, i, turn)
  {
  }

  /** The answer after a write that succeeded: a save if and only if the connection still stands, a campaign is shown and
      it has every confirmed change, and the receipt's check of its target, if it has one, finds it as written. */
  ghost predicate ReportsWrite(s: State, connection: nat, receipt: Option<Receipt>, check: Check, answer: Answer)
    requires connection < |s.aborted|
  {
    var shown := !s.aborted[connection] && s.campaign.Some? && (receipt.Some? ==> ShowsReceipt(s.campaign.value, receipt.value));
    var checked := receipt.Some? && receipt.value.target.Some?;
    && (answer.Saved? <==> shown && (checked ==> check.Fine?))
    && (answer.Saved? ==> s.campaign == Some(answer.shown) && answer.receipt == receipt)
    && (answer.Overwritten? <==> shown && checked && check.Differs?)
    && (answer.NotShown? <==> !shown || (checked && check.Throws?))
  }

  /** Every confirmed change is shown, at its revision or a later one, and so is the target. */
  ghost predicate ShowsReceipt(campaign: Revisions, receipt: Receipt) {
    && (forall change <- receipt.changes ::
          if change.record in campaign then (if change.deleted then campaign[change.record] > change.afterRevision else campaign[change.record] >= change.afterRevision)
          else change.deleted)
    && (receipt.target.Some? ==> receipt.target.value in campaign && exists change <- receipt.changes :: change.record == receipt.target.value)
  }

  /** Why a step gives its answer. */
  ghost predicate HasReason(s: State, event: Event, i: nat, answer: Answer)
    requires i < |s.turns| && s.turns[i].connection < |s.aborted|
  {
    var turn := s.turns[i];
    var aborted := s.aborted[turn.connection];
    match event
    case Start(_, world) =>
      var allowed := !aborted && world.ready && world.writer.Some? && s.campaign.Some? && s.leases.held == {}
                     && (turn.request.manages ==> world.writer.value);
      if allowed then answer.FinishEdits? && turn.request.twin && world.editing else answer.Unavailable?
    case Settle(_, outcome, check) =>
      if outcome.Threw? then (if aborted then answer.Interrupted? else answer.Failed?)
      else outcome.receipt.None? && ReportsWrite(s, turn.connection, None, check, answer)
    case Loaded(_, threw, check) =>
      turn.phase.Loading? && if threw then answer.NotShown? else ReportsWrite(s, turn.connection, Some(turn.phase.receipt), check, answer)
    case _ => false
  }

  lemma AnswerReports(s: State, connection: nat, receipt: Option<Receipt>, check: Check)
    requires connection < |s.aborted|
    ensures ReportsWrite(s, connection, receipt, check, if s.aborted[connection] then NotShown else AnswerFor(s.campaign, receipt, check))
  {
    if s.campaign.Some? && receipt.Some? {
      ConfirmedIsShown(s.campaign.value, receipt.value);
    }
  }

  lemma ConfirmedIsShown(campaign: Revisions, receipt: Receipt)
    ensures Confirmed(campaign, receipt) <==> ShowsReceipt(campaign, receipt)
  {
  }

  /** A step answers at most the turn it is about, and with that reason; a turn that starts and is not answered writes. */
  lemma AnswersHaveReasons(s: State, event: Event, s': State, i: nat)
    requires Valid(s) && Step(s, event, s') && i < |s.turns| && s.turns[i].answers == []
    ensures s.turns[i].connection < |s.aborted|
    ensures s'.turns[i].answers != [] ==> |s'.turns[i].answers| == 1 && HasReason(s, event, i, s'.turns[i].answers[0])
    ensures s'.turns[i].answers == [] && event.Start? && event.turn == i ==> s'.turns[i].phase == Writing(s.leases.next)
  {
    hide AnswerFor, ReportsWrite, InOrder, Exclusive, StartsValid;
    TurnsByIndex(s);
    var connection := s.turns[i].connection;
    if event.Settle? { AnswerReports(s, connection, None, event.check); }
    if event.Loaded? && s.turns[event.turn].phase.Loading? && event.turn == i { AnswerReports(s, connection, Some(s.turns[i].phase.receipt), event.check); }
  }
}
