/** The event broker: the log with its replays, and live subscribers that are dropped rather than left with gaps. */
module EventBroker {
  import opened Results
  import opened Collections
  import opened EventLog

  /** A subscription: the notices since `since` are its own, `taken` of them by its reader. */
  datatype Subscriber = Subscriber(audience: Audience, since: nat, taken: seq<Event>, queue: seq<Event>)

  type Subscribers = map<nat, Subscriber>

  /** `notices` lists every event the subscribers were notified of; it exists only to say what they missed. */
  datatype Hub = Hub(subscribers: Subscribers, closed: Subscribers, nextSubscriber: nat, notices: seq<Event>)

  datatype Limits = Limits(subscribers: nat, queue: nat)

  /** The notices meant for an audience. */
  function Heard(notices: seq<Event>, audience: Audience): seq<Event> {
    if notices == [] then []
    else
      var last := notices[|notices| - 1];
      var front := Heard(notices[..|notices| - 1], audience);
      if Sees(audience, last.audience) then front + [last] else front
  }

  /** An open subscriber holds all it should have heard; a closed one stopped somewhere, and skipped nothing. */
  ghost predicate ValidHub(hub: Hub, limits: Limits) {
    && |hub.subscribers| <= limits.subscribers
    && (forall id | id in hub.subscribers :: id <= hub.nextSubscriber && id !in hub.closed && Complete(hub.subscribers[id], hub.notices)
                                             && |hub.subscribers[id].queue| <= limits.queue)
    && (forall id | id in hub.closed :: id <= hub.nextSubscriber && Prefixed(hub.closed[id], hub.notices))
  }

  ghost predicate Complete(s: Subscriber, notices: seq<Event>) {
    s.since <= |notices| && s.taken + s.queue == Heard(notices[s.since..], s.audience)
  }

  ghost predicate Prefixed(s: Subscriber, notices: seq<Event>) {
    s.since <= |notices| && s.taken + s.queue <= Heard(notices[s.since..], s.audience)
  }

  function Close(hub: Hub, id: nat): Hub {
    if id in hub.subscribers then hub.(subscribers := hub.subscribers - {id}, closed := hub.closed[id := hub.subscribers[id]]) else hub
  }

  predicate Overflows(s: Subscriber, event: Event, limits: Limits) {
    Sees(s.audience, event.audience) && |s.queue| >= limits.queue
  }

  function Offered(s: Subscriber, event: Event): Subscriber {
    if Sees(s.audience, event.audience) then s.(queue := s.queue + [event]) else s
  }

  /** One notification reaches every subscriber it is meant for; those whose queue is full are closed. */
  function Notify(hub: Hub, event: Event, limits: Limits): Hub {
    Hub(
      map id | id in hub.subscribers && !Overflows(hub.subscribers[id], event, limits) :: Offered(hub.subscribers[id], event),
      hub.closed + (map id | id in hub.subscribers && Overflows(hub.subscribers[id], event, limits) :: hub.subscribers[id]),
      hub.nextSubscriber,
      hub.notices + [event])
  }

  function Subscribe(hub: Hub, audience: Audience): Hub {
    hub.(subscribers := hub.subscribers[hub.nextSubscriber + 1 := Subscriber(audience, |hub.notices|, [], [])],
         nextSubscriber := hub.nextSubscriber + 1)
  }

  /** The reader takes the next event; what was queued can still be read after the channel was closed. */
  function Take(s: Subscriber): Subscriber {
    if s.queue == [] then s else s.(taken := s.taken + [s.queue[0]], queue := s.queue[1..])
  }

  function Receive(hub: Hub, id: nat): Hub {
    if id in hub.subscribers then hub.(subscribers := hub.subscribers[id := Take(hub.subscribers[id])])
    else if id in hub.closed then hub.(closed := hub.closed[id := Take(hub.closed[id])])
    else hub
  }

  lemma HeardNext(notices: seq<Event>, since: nat, event: Event, audience: Audience)
    requires since <= |notices|
    ensures Heard((notices + [event])[since..], audience)
      == if Sees(audience, event.audience) then Heard(notices[since..], audience) + [event] else Heard(notices[since..], audience)
  {
    var own := notices[since..];
    assert (notices + [event])[since..] == own + [event] && (own + [event])[..|own|] == own;
  }

  lemma OfferedStaysComplete(s: Subscriber, notices: seq<Event>, event: Event)
    requires Complete(s, notices)
    ensures Complete(Offered(s, event), notices + [event]) && Prefixed(s, notices + [event])
  {
    HeardNext(notices, s.since, event, s.audience);
    assert s.taken + (s.queue + [event]) == (s.taken + s.queue) + [event];
  }

  lemma StaysPrefixed(s: Subscriber, notices: seq<Event>, event: Event)
    requires Prefixed(s, notices)
    ensures Prefixed(s, notices + [event])
  {
    HeardNext(notices, s.since, event, s.audience);
  }

  lemma SmallerMap<T>(small: map<nat, T>, large: map<nat, T>)
    requires small.Keys <= large.Keys
    ensures |small| <= |large|
  {
    SubsetIsSmaller(small.Keys, large.Keys);
  }

  lemma NotifyKeepsValid(hub: Hub, event: Event, limits: Limits)
    requires ValidHub(hub, limits)
    ensures ValidHub(Notify(hub, event, limits), limits)
  {
    var after := Notify(hub, event, limits);
    SmallerMap(after.subscribers, hub.subscribers);
    forall id | id in after.subscribers
      ensures Complete(after.subscribers[id], after.notices) && |after.subscribers[id].queue| <= limits.queue
    {
      OfferedStaysComplete(hub.subscribers[id], hub.notices, event);
    }
    forall id | id in after.closed
      ensures id <= hub.nextSubscriber && Prefixed(after.closed[id], after.notices)
    {
      if id in hub.subscribers {
        OfferedStaysComplete(hub.subscribers[id], hub.notices, event);
      } else {
        StaysPrefixed(hub.closed[id], hub.notices, event);
      }
    }
  }

  lemma OneMoreKey<T>(m: map<nat, T>, key: nat, value: T)
    requires key !in m
    ensures |m[key := value]| == |m| + 1
  {
    assert m[key := value].Keys == m.Keys + {key};
    assert |m[key := value]| == |m[key := value].Keys| && |m| == |m.Keys|;
  }

  lemma SubscribeKeepsValid(hub: Hub, audience: Audience, limits: Limits)
    requires ValidHub(hub, limits) && |hub.subscribers| < limits.subscribers
    ensures ValidHub(Subscribe(hub, audience), limits)
  {
    var id := hub.nextSubscriber + 1;
    var newcomer := Subscriber(audience, |hub.notices|, [], []);
    assert id !in hub.subscribers;
    OneMoreKey(hub.subscribers, id, newcomer);
    assert hub.notices[|hub.notices|..] == [];
    assert Complete(newcomer, hub.notices);
  }

  lemma CloseKeepsValid(hub: Hub, id: nat, limits: Limits)
    requires ValidHub(hub, limits)
    ensures ValidHub(Close(hub, id), limits)
  {
    hide Heard;
    if id in hub.subscribers {
      var closed := hub.subscribers[id];
      SmallerMap(hub.subscribers - {id}, hub.subscribers);
      CompleteIsPrefixed(closed, hub.notices);
    }
  }

  lemma CompleteIsPrefixed(s: Subscriber, notices: seq<Event>)
    requires Complete(s, notices)
    ensures Prefixed(s, notices)
  {
  }

  lemma TakeStays(s: Subscriber, notices: seq<Event>)
    ensures Complete(s, notices) ==> Complete(Take(s), notices)
    ensures Prefixed(s, notices) ==> Prefixed(Take(s), notices)
    ensures |Take(s).queue| <= |s.queue|
  {
    assert Take(s).taken + Take(s).queue == s.taken + s.queue;
  }

  lemma ReceiveKeepsValid(hub: Hub, id: nat, limits: Limits)
    requires ValidHub(hub, limits)
    ensures ValidHub(Receive(hub, id), limits)
  {
    if id in hub.subscribers {
      TakeStays(hub.subscribers[id], hub.notices);
      SmallerMap(Receive(hub, id).subscribers, hub.subscribers);
    } else if id in hub.closed {
      TakeStays(hub.closed[id], hub.notices);
    }
  }

  datatype Step = Notified(event: Event) | Subscribed(audience: Audience) | Cancelled(id: nat) | Received(id: nat)

  function Perform(hub: Hub, step: Step, limits: Limits): Hub {
    match step
    case Notified(event) => Notify(hub, event, limits)
    case Subscribed(audience) =>
      if BrowserAudience(audience) && |hub.subscribers| < limits.subscribers then Subscribe(hub, audience) else hub
    case Cancelled(id) => Close(hub, id)
    case Received(id) => Receive(hub, id)
  }

  /** The notice is meant for the subscriber and finds its queue full. */
  ghost predicate FindsItFull(s: Subscriber, step: Step, limits: Limits) {
    step.Notified? && (step.event.audience == Public || step.event.audience == s.audience) && |s.queue| == limits.queue
  }

  /** A subscriber is closed exactly when it is cancelled or a notice meant for it finds its queue full; one that stays
      open is handed every notice meant for it. */
  lemma ClosedExactlyWhenFull(hub: Hub, step: Step, limits: Limits, id: nat)
    requires ValidHub(hub, limits) && id in hub.subscribers
    ensures
      var s, after := hub.subscribers[id], Perform(hub, step, limits);
      && (id in after.subscribers <==> step != Cancelled(id) && !FindsItFull(s, step, limits))
      && (id !in after.subscribers ==> id in after.closed && after.closed[id] == s)
      && (id in after.subscribers && step.Notified? ==>
            after.subscribers[id] ==
              if step.event.audience == Public || step.event.audience == s.audience then s.(queue := s.queue + [step.event]) else s)
  {
    hide Complete, Prefixed;
    var s := hub.subscribers[id];
    assert |s.queue| <= limits.queue;
    match step
    case Subscribed(_) => assert id != hub.nextSubscriber + 1;
    case _ =>
  }

  lemma PerformKeepsValid(hub: Hub, step: Step, limits: Limits)
    requires ValidHub(hub, limits)
    ensures ValidHub(Perform(hub, step, limits), limits)
  {
    hide ValidHub, Notify, Subscribe, Close, Receive;
    match step
    case Notified(event) => NotifyKeepsValid(hub, event, limits);
    case Subscribed(audience) =>
      if |hub.subscribers| < limits.subscribers {
        SubscribeKeepsValid(hub, audience, limits);
      }
    case Cancelled(id) => CloseKeepsValid(hub, id, limits);
    case Received(id) => ReceiveKeepsValid(hub, id, limits);
  }

  function Run(hub: Hub, steps: seq<Step>, limits: Limits): Hub {
    if steps == [] then hub else Perform(Run(hub, steps[..|steps| - 1], limits), steps[|steps| - 1], limits)
  }

  lemma {:induction false} RunsKeepValid(hub: Hub, steps: seq<Step>, limits: Limits)
    requires ValidHub(hub, limits)
    ensures ValidHub(Run(hub, steps, limits), limits)
  {
    if steps != [] {
      var before := Run(hub, steps[..|steps| - 1], limits);
      hide ValidHub, Perform;
      RunsKeepValid(hub, steps[..|steps| - 1], limits);
      PerformKeepsValid(before, steps[|steps| - 1], limits);
    }
  }

  /** What a reader has taken never has a gap: it is what the subscriber heard first, all of it while the
      subscription is open and the queue is empty. */
  lemma ReadersSeeNoGaps(steps: seq<Step>, limits: Limits, id: nat)
    requires
      var hub := Run(Hub(map[], map[], 0, []), steps, limits);
      id in hub.subscribers || id in hub.closed
    ensures
      var hub := Run(Hub(map[], map[], 0, []), steps, limits);
      var s := if id in hub.subscribers then hub.subscribers[id] else hub.closed[id];
      && s.since <= |hub.notices|
      && s.taken <= Heard(hub.notices[s.since..], s.audience)
      && (id in hub.subscribers && s.queue == [] ==> s.taken == Heard(hub.notices[s.since..], s.audience))
  {
    RunsKeepValid(Hub(map[], map[], 0, []), steps, limits);
    var hub := Run(Hub(map[], map[], 0, []), steps, limits);
    var s := if id in hub.subscribers then hub.subscribers[id] else hub.closed[id];
    assert Prefixed(s, hub.notices);
    assert s.taken <= s.taken + s.queue;
    assert s.queue == [] ==> s.taken + s.queue == s.taken;
  }

  lemma {:induction false} VisiblePrefix(log: seq<Event>, row: nat, audience: Audience, after: nat)
    requires row <= |log|
    ensures Visible(log[..row], audience, after) <= Visible(log, audience, after)
  {
    if row < |log| {
      var front := log[..|log| - 1];
      assert front[..row] == log[..row];
      VisiblePrefix(front, row, audience, after);
    } else {
      assert log[..row] == log;
    }
  }

  /** Rows past the limit need not be read: the page and whether there is more are known. */
  lemma NothingVisible(audience: Audience, after: nat)
    ensures Visible([], audience, after) == []
  {
  }

  lemma PageIsRead(log: seq<Event>, row: nat, values: seq<Event>, audience: Audience, after: nat, size: nat)
    requires row <= |log| && values == Visible(log[..row], audience, after) && (row < |log| ==> |values| > size)
    ensures
      var rows := Visible(log, audience, after);
      (|values| > size <==> |rows| > size) && if |rows| > size then values[..size] == rows[..size] else values == rows
  {
    VisiblePrefix(log, row, audience, after);
    assert row == |log| ==> log[..row] == log;
  }

  class Broker {
    const limits: Limits
    /** The database: the change log, its checkpoints and the last sequence. */
    var log: seq<Event>
    var checkpoints: Checkpoints
    var last: nat
    ghost var history: seq<Event>
    /** The live subscriptions. */
    var subscribers: Subscribers
    var closed: Subscribers
    var nextSubscriber: nat
    /** Only there to say what a subscriber should have heard. */
    var notices: seq<Event>

    ghost function TheStore(): Store
      reads this
    {
      Store(log, checkpoints, last, history)
    }

    ghost function TheHub(): Hub
      reads this
    {
      Hub(subscribers, closed, nextSubscriber, notices)
    }

    constructor (limits: Limits)
      ensures this.limits == limits
      ensures TheStore() == Store([], map[Public := 0, DM := 0, System := 0], 0, []) && Valid(TheStore())
      ensures TheHub() == Hub(map[], map[], 0, []) && ValidHub(TheHub(), limits)
    {
      this.limits := limits;
      log, checkpoints, last, history := [], map[Public := 0, DM := 0, System := 0], 0, [];
      subscribers, closed, nextSubscriber, notices := map[], map[], 0, [];
    }

    /** Records an event in the caller's transaction. */
    method Append(audience: Audience, content: string) returns (event: Event)
      modifies this`log, this`last, this`history
      ensures TheStore() == EventLog.Append(old(TheStore()), audience, content)
      ensures event == Event(last, audience, content)
    {
      last := last + 1;
      event := Event(last, audience, content);
      log := log + [event];
      history := history + [event];
    }

    /** Wakes the subscribers for an event that has committed. */
    method NotifyCommitted(event: Event)
      modifies this`subscribers, this`closed, this`notices
      ensures TheHub() == if event.sequence < 1 then old(TheHub()) else Notify(old(TheHub()), event, limits)
    {
      if event.sequence < 1 { return; }
      ghost var before := TheHub();
      var left := subscribers.Keys;
      NotifyStarts(before, event, limits);
      while left != {}
        invariant Notifying(before, TheHub(), event, limits, left)
        decreases left
      {
        var id: nat :| id in left;
        var entry := subscribers[id];
        NotifyOne(before, TheHub(), event, limits, left, id);
        if Overflows(entry, event, limits) {
          subscribers := subscribers - {id};
          closed := closed[id := entry];
        } else {
          subscribers := subscribers[id := Offered(entry, event)];
        }
        left := left - {id};
      }
      notices := notices + [event];
      NotifyEnds(before, Hub(subscribers, closed, nextSubscriber, before.notices), event, limits);
    }

    method Publish(audience: Audience, content: string) returns (event: Event)
      modifies this`log, this`last, this`history, this`subscribers, this`closed, this`notices
      ensures TheStore() == EventLog.Append(old(TheStore()), audience, content)
      ensures TheHub() == Notify(old(TheHub()), event, limits) && event == Event(last, audience, content)
    {
      event := Append(audience, content);
      NotifyCommitted(event);
    }

    /** Reads one page, at most one row past its limit. */
    method Replay(audience: Audience, after: int, limit: int) returns (replay: Option<Replay>)
      ensures replay == ReplayOf(TheStore(), audience, after, limit)
    {
      hide Latest, Visible, VisibleCheckpoint;
      var size := if limit == 0 then DEFAULT_REPLAY_LIMIT else limit;
      if !BrowserAudience(audience) || after < 0 || size < 1 || size > MAXIMUM_REPLAY_LIMIT { return None; }
      var latest := LatestSequence(audience);
      if after < VisibleCheckpoint(checkpoints, audience) { return Some(EventLog.Replay([], latest, false, true)); }
      assert Visible(log[..0], audience, after) == [] by { NothingVisible(audience, after); assert log[..0] == []; }
      var values: seq<Event> := [];
      var row := 0;
      while row < |log| && |values| <= size
        invariant row <= |log|
        invariant values == Visible(log[..row], audience, after)
      {
        VisibleNext(log[..row], log[row], audience, after);
        assert log[..row + 1] == log[..row] + [log[row]];
        if log[row].sequence > after && Sees(audience, log[row].audience) {
          values := values + [log[row]];
        }
        row := row + 1;
      }
      PageIsRead(log, row, values, audience, after, size);
      var truncated := |values| > size;
      if truncated {
        values := values[..size];
      }
      replay := Some(EventLog.Replay(values, latest, truncated, false));
    }

    method LatestSequence(audience: Audience) returns (latest: nat)
      ensures latest == Latest(TheStore(), audience)
    {
      latest := VisibleCheckpoint(checkpoints, audience);
      ghost var floor := latest;
      for row := 0 to |log|
        invariant latest == Max(HighestVisible(log[..row], audience), floor)
      {
        assert log[..row + 1][..row] == log[..row];
        if Sees(audience, log[row].audience) && log[row].sequence > latest {
          latest := log[row].sequence;
        }
      }
      assert log[..|log|] == log;
    }

    /** The offline `prune-logs` maintenance. */
    method PruneLogs(keep: nat)
      modifies this`log, this`checkpoints
      ensures TheStore() == Prune(old(TheStore()), keep)
    {
      hide Raised, Cut;
      var rows, kept := log, [];
      var raised := Raised(checkpoints, rows, keep);
      for row := 0 to |rows|
        modifies {}
        invariant kept == DropRows(rows[..row], rows, keep)
      {
        DropNext(rows[..row], rows[row], rows, keep);
        assert rows[..row + 1] == rows[..row] + [rows[row]];
        if rows[row].sequence > Cut(rows, rows[row].audience, keep) {
          kept := kept + [rows[row]];
        }
      }
      assert rows[..|rows|] == rows;
      checkpoints, log := raised, kept;
    }

    method Subscribe(audience: Audience) returns (id: Option<nat>)
      modifies this`subscribers, this`nextSubscriber
      ensures TheHub() == Perform(old(TheHub()), Subscribed(audience), limits)
      ensures id == if BrowserAudience(audience) && |old(subscribers)| < limits.subscribers then Some(nextSubscriber) else None
    {
      if !BrowserAudience(audience) || |subscribers| >= limits.subscribers { return None; }
      nextSubscriber := nextSubscriber + 1;
      subscribers := subscribers[nextSubscriber := Subscriber(audience, |notices|, [], [])];
      id := Some(nextSubscriber);
    }

    /** `Subscription.Close`; closing twice, or after being dropped, does nothing. */
    method Cancel(id: nat)
      modifies this`subscribers, this`closed
      ensures TheHub() == Close(old(TheHub()), id)
    {
      if id in subscribers {
        closed := closed[id := subscribers[id]];
        subscribers := subscribers - {id};
      }
    }
  }

  /** A notification that has still to reach the subscribers in `left`. */
  ghost predicate Notifying(before: Hub, now: Hub, event: Event, limits: Limits, left: set<nat>) {
    && left <= before.subscribers.Keys && left <= now.subscribers.Keys
    && now.nextSubscriber == before.nextSubscriber && now.notices == before.notices
    && now.subscribers == Reached(before, event, limits, left) && now.closed == before.closed + Dropped(before, event, limits, left)
  }

  ghost function Reached(before: Hub, event: Event, limits: Limits, left: set<nat>): Subscribers {
    map id | id in before.subscribers && (id in left || !Overflows(before.subscribers[id], event, limits)) ::
      if id in left then before.subscribers[id] else Offered(before.subscribers[id], event)
  }

  ghost function Dropped(before: Hub, event: Event, limits: Limits, left: set<nat>): Subscribers {
    map id | id in before.subscribers && id !in left && Overflows(before.subscribers[id], event, limits) :: before.subscribers[id]
  }

  lemma NotifyStarts(before: Hub, event: Event, limits: Limits)
    ensures Notifying(before, before, event, limits, before.subscribers.Keys)
  {
    assert Dropped(before, event, limits, before.subscribers.Keys) == map[];
    assert before.closed + map[] == before.closed;
  }

  lemma NotifyOne(before: Hub, now: Hub, event: Event, limits: Limits, left: set<nat>, id: nat)
    requires Notifying(before, now, event, limits, left) && id in left
    ensures now.subscribers[id] == before.subscribers[id]
    ensures
      var entry := now.subscribers[id];
      Notifying(before,
                if Overflows(entry, event, limits) then now.(subscribers := now.subscribers - {id}, closed := now.closed[id := entry])
                else now.(subscribers := now.subscribers[id := Offered(entry, event)]),
                event, limits, left - {id})
  {
    var entry := now.subscribers[id];
    if Overflows(entry, event, limits) {
      assert Dropped(before, event, limits, left - {id}) == Dropped(before, event, limits, left)[id := entry];
      assert now.subscribers - {id} == Reached(before, event, limits, left - {id});
    } else {
      assert Dropped(before, event, limits, left - {id}) == Dropped(before, event, limits, left);
      assert now.subscribers[id := Offered(entry, event)] == Reached(before, event, limits, left - {id});
    }
  }

  lemma NotifyEnds(before: Hub, now: Hub, event: Event, limits: Limits)
    requires Notifying(before, now, event, limits, {})
    ensures now.(notices := now.notices + [event]) == Notify(before, event, limits)
  {
  }

}
