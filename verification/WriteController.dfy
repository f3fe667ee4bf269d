/** The busy leases and the campaign write controller. Each controller method runs from one awaited promise to
    the next and takes exactly one step of the protocol. */
module WriteController {
  import opened Results
  import opened WriteProtocol

  class BusyLeases {
    var held: set<nat>
    var next: nat
    /** How often the app was told that its busy state may have changed. */
    var notices: nat

    ghost function View(): Leases
      reads this
    {
      Leases(held, next)
    }

    constructor ()
      ensures View() == Leases({}, 0) && notices == 0
    {
      held, next, notices := {}, 0, 0;
    }

    method Acquire() returns (lease: nat)
      modifies this
      ensures lease == old(next) && View() == WriteProtocol.Acquire(old(View())) && notices == old(notices) + 1
    {
      lease := next;
      held, next := held + {lease}, next + 1;
      notices := notices + 1;
    }

    /** Releasing a lease twice, or after it was cleared, changes nothing and tells nobody. */
    method Release(lease: nat)
      modifies this
      ensures View() == WriteProtocol.Release(old(View()), lease)
      ensures notices == if lease in old(held) then old(notices) + 1 else old(notices)
    {
      if lease in held {
        held := held - {lease};
        notices := notices + 1;
      } else {
        assert held - {lease} == held;
      }
    }

    method Clear()
      modifies this
      ensures View() == WriteProtocol.Clear(old(View()))
      ensures notices == if old(held) == {} then old(notices) else old(notices) + 1
    {
      if held == {} { return; }
      held := {};
      notices := notices + 1;
    }
  }

  class CampaignWriteController {
    const busy: BusyLeases
    /** One abort signal for each time the host was connected. */
    var aborted: seq<bool>
    /** Every request with its turn, in request order; each connection chains its own. */
    var turns: seq<Turn>
    var started: seq<nat>
    /** The campaign that is shown. */
    var campaign: Option<Revisions>

    ghost function View(): State
      reads this, busy
    {
      State(busy.View(), aborted, turns, started, campaign)
    }

    constructor (busy: BusyLeases, campaign: Option<Revisions>)
      ensures this.busy == busy && View() == State(busy.View(), [false], [], [], campaign)
    {
      this.busy, this.campaign := busy, campaign;
      aborted, turns, started := [false], [], [];
    }

    method HostConnected()
      modifies this`aborted
      ensures Step(old(View()), Connect, View())
    {
      aborted := aborted + [false];
    }

    method HostDisconnected()
      requires aborted != []
      modifies this`aborted
      ensures Step(old(View()), Disconnect, View())
    {
      aborted := aborted[|aborted| - 1 := true];
    }

    method Enqueue(request: Request)
      requires aborted != []
      modifies this`turns
      ensures Step(old(View()), WriteProtocol.Enqueue(request), View())
    {
      turns := turns + [Turn(|aborted| - 1, request, Queued, [])];
    }

    /** Answers a request, unless it has its answer already. */
    method Respond(i: nat, answer: Answer)
      requires i < |turns|
      modifies this`turns
      ensures turns == if old(turns)[i].answers == [] then old(turns)[i := old(turns)[i].(answers := [answer])] else old(turns)
    {
      if turns[i].answers == [] {
        turns := turns[i := turns[i].(answers := [answer])];
      }
    }

    /** Ends a turn that holds no lease. */
    method Refuse(i: nat, answer: Answer)
      requires i < |turns| && turns[i].phase.Queued? && turns[i].answers == []
      modifies this`turns
      ensures View() == Finish(old(View()), i, answer)
    {
      Respond(i, answer);
      turns := turns[i := turns[i].(phase := Finished(None))];
      assert old(turns)[i].answers + [answer] == [answer];
      assert turns == Finish(old(View()), i, answer).turns;
    }

    /** Answers a running turn and releases its lease. */
    method End(i: nat, answer: Answer)
      requires i < |turns| && LeaseOf(turns[i]).Some? && turns[i].answers == []
      modifies this`turns, busy
      ensures View() == Finish(old(View()), i, answer)
    {
      var lease := LeaseOf(turns[i]).value;
      Respond(i, answer);
      turns := turns[i := turns[i].(phase := Finished(Some(lease)))];
      assert old(turns)[i].answers + [answer] == [answer];
      assert turns == Finish(old(View()), i, answer).turns;
      busy.Release(lease);
    }

    /** A turn begins when the one before it in its connection has ended. */
    method StartTurn(i: nat, world: World)
      requires Valid(View()) && CanStart(View(), i)
      modifies this`turns, this`started, busy
      ensures Step(old(View()), Start(i, world), View())
    {
      TurnsByIndex(View());
      var turn := turns[i];
      started := started + [i];
      if aborted[turn.connection] || !world.ready || world.writer.None? || campaign.None? || busy.held != {}
         || (turn.request.manages && !world.writer.value) {
        Refuse(i, Unavailable);
        return;
      }
      if turn.request.twin && world.editing {
        Refuse(i, FinishEdits);
        return;
      }
      var lease := busy.Acquire();
      turns := turns[i := turn.(phase := Writing(lease))];
    }

    /** The wait for the handler's write has ended. */
    method WriteSettled(i: nat, outcome: Outcome, check: Check)
      requires Valid(View()) && i < |turns| && turns[i].phase.Writing?
      modifies this`turns, busy
      ensures Step(old(View()), Settle(i, outcome, check), View())
    {
      TurnsByIndex(View());
      var turn := turns[i];
      match outcome {
        case Threw => End(i, if aborted[turn.connection] then Interrupted else Failed);
        case Wrote(None) => End(i, if aborted[turn.connection] then NotShown else AnswerFor(campaign, None, check));
        case Wrote(Some(receipt)) => turns := turns[i := turn.(phase := Loading(turn.phase.lease, receipt))];
      }
    }

    /** The campaign was read back after a write. */
    method LoadSettled(i: nat, threw: bool, check: Check)
      requires Valid(View()) && i < |turns| && turns[i].phase.Loading?
      modifies this`turns, busy
      ensures Step(old(View()), Loaded(i, threw, check), View())
    {
      TurnsByIndex(View());
      var turn := turns[i];
      if threw || aborted[turn.connection] {
        End(i, NotShown);
      } else {
        End(i, AnswerFor(campaign, Some(turn.phase.receipt), check));
      }
    }
  }
}
