/** The durable event log: audience-filtered replay against a log that grows and is pruned between pages. */
module EventLog {
  import opened Results
  import opened Collections

  datatype Audience = Public | DM | System

  /** `content` stands for the topic, resource, revision, time and metadata. */
  datatype Event = Event(sequence: nat, audience: Audience, content: string)

  type Checkpoints = map<Audience, nat>

  /** The change log, its replay checkpoints and the last sequence number handed out. `history` holds every
      event ever committed and exists only to say what was deleted. */
  datatype Store = Store(log: seq<Event>, checkpoints: Checkpoints, last: nat, history: seq<Event>)

  datatype Replay = Replay(events: seq<Event>, latest: nat, truncated: bool, expired: bool)

  const DEFAULT_REPLAY_LIMIT := 256
  const MAXIMUM_REPLAY_LIMIT := 1_000

  function Max(a: nat, b: nat): nat {
    if a < b then b else a
  }

  predicate Sees(audience: Audience, other: Audience) {
    other == Public || other == audience
  }

  predicate BrowserAudience(audience: Audience) {
    audience != System
  }

  function Checkpoint(checkpoints: Checkpoints, audience: Audience): nat {
    if audience in checkpoints then checkpoints[audience] else 0
  }

  /** The highest checkpoint the audience can see. */
  function VisibleCheckpoint(checkpoints: Checkpoints, audience: Audience): nat {
    Max(Checkpoint(checkpoints, Public), Checkpoint(checkpoints, audience))
  }

  /** The events an audience sees after a sequence number, in order. */
  function Visible(events: seq<Event>, audience: Audience, after: nat): seq<Event> {
    if events == [] then []
    else
      var last := events[|events| - 1];
      var front := Visible(events[..|events| - 1], audience, after);
      if last.sequence > after && Sees(audience, last.audience) then front + [last] else front
  }

  function HighestVisible(events: seq<Event>, audience: Audience): nat {
    if events == [] then 0
    else
      var last := events[|events| - 1];
      Max(HighestVisible(events[..|events| - 1], audience), if Sees(audience, last.audience) then last.sequence else 0)
  }

  function Latest(store: Store, audience: Audience): nat {
    Max(HighestVisible(store.log, audience), VisibleCheckpoint(store.checkpoints, audience))
  }

  /** One page of what follows a cursor, or word that part of it is gone. */
  function ReplayOf(store: Store, audience: Audience, after: int, limit: int): (r: Option<Replay>)
    ensures r.Some? && r.value.truncated ==> r.value.events != []
  {
    var size := if limit == 0 then DEFAULT_REPLAY_LIMIT else limit;
    if !BrowserAudience(audience) || after < 0 || size < 1 || size > MAXIMUM_REPLAY_LIMIT then None
    else if after < VisibleCheckpoint(store.checkpoints, audience) then Some(Replay([], Latest(store, audience), false, true))
    else
      var rows := Visible(store.log, audience, after);
      Some(Replay(if |rows| > size then rows[..size] else rows, Latest(store, audience), |rows| > size, false))
  }

  // ----- appends and prunes -----

  function Append(store: Store, audience: Audience, content: string): Store {
    var event := Event(store.last + 1, audience, content);
    store.(log := store.log + [event], last := store.last + 1, history := store.history + [event])
  }

  function OfAudience(events: seq<Event>, audience: Audience): seq<Event> {
    if events == [] then []
    else
      var last := events[|events| - 1];
      var front := OfAudience(events[..|events| - 1], audience);
      if last.audience == audience then front + [last] else front
  }

  /** The newest sequence of the audience that is not among the `keep` newest. */
  function Cut(log: seq<Event>, audience: Audience, keep: nat): nat {
    var rows := OfAudience(log, audience);
    if keep < |rows| then rows[|rows| - 1 - keep].sequence else 0
  }

  function Raised(checkpoints: Checkpoints, log: seq<Event>, keep: nat): Checkpoints {
    map audience | audience in {Public, DM, System} :: Max(Checkpoint(checkpoints, audience), Cut(log, audience, keep))
  }

  function DropRows(events: seq<Event>, log: seq<Event>, keep: nat): seq<Event> {
    if events == [] then []
    else
      var last := events[|events| - 1];
      var front := DropRows(events[..|events| - 1], log, keep);
      if last.sequence <= Cut(log, last.audience, keep) then front else front + [last]
  }

  /** `prune-logs`: raises each audience's checkpoint and deletes the rows at or below it, in one transaction. */
  function Prune(store: Store, keep: nat): Store {
    store.(checkpoints := Raised(store.checkpoints, store.log, keep), log := DropRows(store.log, store.log, keep))
  }

  // ----- the invariant -----

  ghost predicate Ascending(events: seq<Event>) {
    forall i, j | 0 <= i < j < |events| :: events[i].sequence < events[j].sequence
  }

  /** What the checkpoints leave of the history. */
  function Kept(history: seq<Event>, checkpoints: Checkpoints): seq<Event> {
    if history == [] then []
    else
      var last := history[|history| - 1];
      var front := Kept(history[..|history| - 1], checkpoints);
      if last.sequence > Checkpoint(checkpoints, last.audience) then front + [last] else front
  }

  /** The log holds exactly the events above their audience's checkpoint, and a checkpoint is the sequence of
      an event of its audience. */
  ghost predicate Valid(store: Store) {
    && Ascending(store.history)
    && (forall event <- store.history :: 0 < event.sequence <= store.last)
    && store.log == Kept(store.history, store.checkpoints)
    && (forall audience :: IsSequenceOf(store.history, audience, Checkpoint(store.checkpoints, audience)))
  }

  ghost predicate IsSequenceOf(history: seq<Event>, audience: Audience, sequence: nat) {
    sequence == 0 || exists event <- history :: event.audience == audience && event.sequence == sequence
  }

  lemma {:induction false} KeptContains(history: seq<Event>, checkpoints: Checkpoints)
    ensures forall event :: event in Kept(history, checkpoints) <==>
      event in history && event.sequence > Checkpoint(checkpoints, event.audience)
  {
    if history != [] {
      assert history == history[..|history| - 1] + [history[|history| - 1]];
      KeptContains(history[..|history| - 1], checkpoints);
    }
  }

  lemma {:induction false} VisibleContains(events: seq<Event>, audience: Audience, after: nat)
    ensures forall event :: event in Visible(events, audience, after) <==>
      event in events && event.sequence > after && Sees(audience, event.audience)
  {
    if events != [] {
      assert events == events[..|events| - 1] + [events[|events| - 1]];
      VisibleContains(events[..|events| - 1], audience, after);
    }
  }

  lemma {:induction false} OfAudienceContains(events: seq<Event>, audience: Audience)
    ensures forall event :: event in OfAudience(events, audience) <==> event in events && event.audience == audience
  {
    if events != [] {
      assert events == events[..|events| - 1] + [events[|events| - 1]];
      OfAudienceContains(events[..|events| - 1], audience);
    }
  }

  lemma {:induction false} VisibleAscends(events: seq<Event>, audience: Audience, after: nat)
    requires Ascending(events)
    ensures Ascending(Visible(events, audience, after))
  {
    if events != [] {
      var front, last := events[..|events| - 1], events[|events| - 1];
      VisibleAscends(front, audience, after);
      VisibleContains(front, audience, after);
      forall event <- Visible(front, audience, after)
        ensures event.sequence < last.sequence
      {
        var i :| 0 <= i < |front| && front[i] == event;
        assert events[i].sequence < events[|front|].sequence;
      }
    }
  }

  lemma AppendKeepsValid(store: Store, audience: Audience, content: string)
    requires Valid(store)
    ensures Valid(Append(store, audience, content))
  {
    var after := Append(store, audience, content);
    assert after.history[..|store.history|] == store.history;
    forall a
      ensures IsSequenceOf(after.history, a, Checkpoint(store.checkpoints, a))
    {
      assert IsSequenceOf(store.history, a, Checkpoint(store.checkpoints, a));
    }
    CheckpointIsOld(store, audience);
    forall i | 0 <= i < |store.history|
      ensures store.history[i].sequence < after.last
    {
      assert store.history[i] in store.history;
    }
  }

  lemma CheckpointIsOld(store: Store, audience: Audience)
    requires Valid(store)
    ensures Checkpoint(store.checkpoints, audience) <= store.last
  {
    assert IsSequenceOf(store.history, audience, Checkpoint(store.checkpoints, audience));
  }

  lemma CutIsSequence(log: seq<Event>, audience: Audience, keep: nat)
    ensures IsSequenceOf(log, audience, Cut(log, audience, keep))
  {
    OfAudienceContains(log, audience);
    var rows := OfAudience(log, audience);
    if keep < |rows| {
      assert rows[|rows| - 1 - keep] in rows;
    }
  }

  lemma DropNext(events: seq<Event>, next: Event, log: seq<Event>, keep: nat)
    ensures DropRows(events + [next], log, keep)
      == if next.sequence <= Cut(log, next.audience, keep) then DropRows(events, log, keep) else DropRows(events, log, keep) + [next]
  {
    assert (events + [next])[..|events|] == events;
  }

  lemma VisibleNext(events: seq<Event>, next: Event, audience: Audience, after: nat)
    ensures Visible(events + [next], audience, after)
      == if next.sequence > after && Sees(audience, next.audience) then Visible(events, audience, after) + [next]
         else Visible(events, audience, after)
  {
    assert (events + [next])[..|events|] == events;
  }

  /** Deleting the rows and raising the checkpoints agree. */
  lemma {:induction false} DropsAsRaised(store: Store, keep: nat, history: seq<Event>)
    ensures DropRows(Kept(history, store.checkpoints), store.log, keep) == Kept(history, Raised(store.checkpoints, store.log, keep))
  {
    if history != [] {
      var front, last := history[..|history| - 1], history[|history| - 1];
      DropsAsRaised(store, keep, front);
      RaisedIs(store, keep, last.audience);
      if last.sequence > Checkpoint(store.checkpoints, last.audience) {
        DropNext(Kept(front, store.checkpoints), last, store.log, keep);
      }
    }
  }

  lemma RaisedIs(store: Store, keep: nat, audience: Audience)
    ensures Checkpoint(Raised(store.checkpoints, store.log, keep), audience) == Max(Checkpoint(store.checkpoints, audience), Cut(store.log, audience, keep))
  {
  }

  lemma PruneKeepsValid(store: Store, keep: nat)
    requires Valid(store)
    ensures Valid(Prune(store, keep))
  {
    DropsAsRaised(store, keep, store.history);
    KeptContains(store.history, store.checkpoints);
    forall audience
      ensures IsSequenceOf(store.history, audience, Checkpoint(Prune(store, keep).checkpoints, audience))
    {
      CutIsSequence(store.log, audience, keep);
      assert IsSequenceOf(store.history, audience, Checkpoint(store.checkpoints, audience));
    }
  }

  function Above(rows: seq<Event>, sequence: nat): seq<Event> {
    if rows == [] then []
    else
      var last := rows[|rows| - 1];
      var front := Above(rows[..|rows| - 1], sequence);
      if last.sequence <= sequence then front else front + [last]
  }

  lemma {:induction false} AboveAll(rows: seq<Event>, sequence: nat)
    requires forall row <- rows :: row.sequence > sequence
    ensures Above(rows, sequence) == rows
  {
    if rows != [] {
      AboveAll(rows[..|rows| - 1], sequence);
    }
  }

  lemma {:induction false} AboveRow(rows: seq<Event>, k: nat)
    requires Ascending(rows) && k < |rows|
    ensures Above(rows, rows[k].sequence) == rows[k + 1..]
  {
    var front := rows[..|rows| - 1];
    if k < |front| {
      AboveRow(front, k);
      assert front[k + 1..] + [rows[|front|]] == rows[k + 1..];
    } else {
      AboveNone(front, rows[k].sequence);
    }
  }

  lemma {:induction false} AboveNone(rows: seq<Event>, sequence: nat)
    requires forall row <- rows :: row.sequence <= sequence
    ensures Above(rows, sequence) == []
  {
    if rows != [] {
      AboveNone(rows[..|rows| - 1], sequence);
    }
  }

  /** Of each audience the rows above its cut stay. */
  lemma {:induction false} DroppedOfAudience(events: seq<Event>, log: seq<Event>, keep: nat, audience: Audience)
    ensures OfAudience(DropRows(events, log, keep), audience) == Above(OfAudience(events, audience), Cut(log, audience, keep))
  {
    hide Cut;
    if events != [] {
      var front, last := events[..|events| - 1], events[|events| - 1];
      DroppedOfAudience(front, log, keep, audience);
      var kept := DropRows(front, log, keep);
      assert (kept + [last])[..|kept|] == kept;
      var rows := OfAudience(front, audience);
      assert (rows + [last])[..|rows|] == rows;
    }
  }

  lemma {:induction false} OfAudienceAscends(events: seq<Event>, audience: Audience)
    requires Ascending(events)
    ensures Ascending(OfAudience(events, audience))
  {
    if events != [] {
      var front, last := events[..|events| - 1], events[|events| - 1];
      OfAudienceAscends(front, audience);
      OfAudienceContains(front, audience);
      forall event <- OfAudience(front, audience)
        ensures event.sequence < last.sequence
      {
        var i :| 0 <= i < |front| && front[i] == event;
        assert events[i].sequence < events[|front|].sequence;
      }
    }
  }

  lemma {:induction false} KeptAscends(history: seq<Event>, checkpoints: Checkpoints)
    requires Ascending(history)
    ensures Ascending(Kept(history, checkpoints))
  {
    if history != [] {
      var front, last := history[..|history| - 1], history[|history| - 1];
      KeptAscends(front, checkpoints);
      KeptContains(front, checkpoints);
      forall event <- Kept(front, checkpoints)
        ensures event.sequence < last.sequence
      {
        var i :| 0 <= i < |front| && front[i] == event;
        assert history[i].sequence < history[|front|].sequence;
      }
    }
  }

  lemma RowsAreSound(store: Store, audience: Audience)
    requires Valid(store)
    ensures Ascending(OfAudience(store.log, audience))
    ensures forall row <- OfAudience(store.log, audience) :: row.sequence > 0
  {
    KeptAscends(store.history, store.checkpoints);
    KeptContains(store.history, store.checkpoints);
    OfAudienceAscends(store.log, audience);
    OfAudienceContains(store.log, audience);
  }

  /** A prune leaves exactly the `keep` newest rows of each audience, or all of them when there are fewer. */
  lemma PruneKeepsNewest(store: Store, keep: nat, audience: Audience)
    requires Valid(store)
    ensures
      var rows := OfAudience(store.log, audience);
      OfAudience(Prune(store, keep).log, audience) == rows[if keep < |rows| then |rows| - keep else 0..]
  {
    hide DropRows, Above, Valid, OfAudience;
    var rows := OfAudience(store.log, audience);
    DroppedOfAudience(store.log, store.log, keep, audience);
    RowsAreSound(store, audience);
    if keep < |rows| {
      AboveRow(rows, |rows| - 1 - keep);
    } else {
      AboveAll(rows, 0);
    }
  }

  // ----- what a replay can promise -----

  lemma {:induction false} NothingVisibleIsGone(history: seq<Event>, checkpoints: Checkpoints, audience: Audience, after: nat)
    requires VisibleCheckpoint(checkpoints, audience) <= after
    ensures Visible(Kept(history, checkpoints), audience, after) == Visible(history, audience, after)
  {
    if history != [] {
      var front, last := history[..|history| - 1], history[|history| - 1];
      NothingVisibleIsGone(front, checkpoints, audience, after);
      if last.sequence > Checkpoint(checkpoints, last.audience) {
        VisibleNext(Kept(front, checkpoints), last, audience, after);
      }
    }
  }

  /** A replay is refused exactly when an event it should contain has been deleted. */
  lemma ExpiredMeansGone(store: Store, audience: Audience, after: nat)
    requires Valid(store)
    ensures after < VisibleCheckpoint(store.checkpoints, audience) <==>
      exists event <- store.history :: event.sequence > after && Sees(audience, event.audience) && event !in store.log
  {
    KeptContains(store.history, store.checkpoints);
    if after < Checkpoint(store.checkpoints, Public) {
      assert IsSequenceOf(store.history, Public, Checkpoint(store.checkpoints, Public));
    } else if after < Checkpoint(store.checkpoints, audience) {
      assert IsSequenceOf(store.history, audience, Checkpoint(store.checkpoints, audience));
    }
  }

  lemma {:induction false} HighestIsHighest(events: seq<Event>, audience: Audience)
    ensures forall event <- events :: Sees(audience, event.audience) ==> event.sequence <= HighestVisible(events, audience)
    ensures HighestVisible(events, audience) == 0
      || exists event <- events :: Sees(audience, event.audience) && event.sequence == HighestVisible(events, audience)
  {
    if events != [] {
      assert events == events[..|events| - 1] + [events[|events| - 1]];
      HighestIsHighest(events[..|events| - 1], audience);
    }
  }

  /** The latest cursor is the highest sequence the audience was ever shown, however much was pruned. */
  lemma LatestIsOfAllTime(store: Store, audience: Audience)
    requires Valid(store)
    ensures Latest(store, audience) == HighestVisible(store.history, audience)
  {
    HighestIsHighest(store.log, audience);
    HighestIsHighest(store.history, audience);
    KeptContains(store.history, store.checkpoints);
    assert IsSequenceOf(store.history, Public, Checkpoint(store.checkpoints, Public));
    assert IsSequenceOf(store.history, audience, Checkpoint(store.checkpoints, audience));
  }

  /** The latest cursor never goes back, whatever is appended or pruned. */
  lemma LatestNeverDecreases(store: Store, audience: Audience, reader: Audience, content: string, keep: nat)
    requires Valid(store)
    ensures Latest(store, reader) <= Latest(Append(store, audience, content), reader)
    ensures Latest(store, reader) == Latest(Prune(store, keep), reader)
  {
    AppendKeepsValid(store, audience, content);
    PruneKeepsValid(store, keep);
    LatestIsOfAllTime(store, reader);
    LatestIsOfAllTime(Append(store, audience, content), reader);
    LatestIsOfAllTime(Prune(store, keep), reader);
    assert Append(store, audience, content).history[..|store.history|] == store.history;
  }

  // ----- a client that pages -----

  datatype Action = Publish(audience: Audience, content: string) | Retain(keep: nat) | Page(limit: int)

  /** A client reads pages from a cursor until one is not truncated; `through` is the last sequence there was
      when it read that page. */
  datatype Client = Reading(cursor: nat, received: seq<Event>) | Done(through: nat, received: seq<Event>) | Reset(latest: nat)

  function ReadPage(store: Store, client: Client, audience: Audience, limit: int): Client {
    if !client.Reading? then client
    else
      match ReplayOf(store, audience, client.cursor, limit)
      case None => client
      case Some(replay) =>
        if replay.expired then Reset(replay.latest)
        else
          var received := client.received + replay.events;
          if replay.truncated then Reading(replay.events[|replay.events| - 1].sequence, received)
          else Done(store.last, received)
  }

  function Interact(store: Store, client: Client, audience: Audience, action: Action): (Store, Client) {
    match action
    case Publish(other, content) => (Append(store, other, content), client)
    case Retain(keep) => (Prune(store, keep), client)
    case Page(limit) => (store, ReadPage(store, client, audience, limit))
  }

  function Session(store: Store, client: Client, audience: Audience, actions: seq<Action>): (Store, Client) {
    if actions == [] then (store, client)
    else
      var (before, reader) := Session(store, client, audience, actions[..|actions| - 1]);
      Interact(before, reader, audience, actions[|actions| - 1])
  }

  /** The events up to a sequence number. */
  function UpTo(events: seq<Event>, through: nat): seq<Event> {
    if events == [] then []
    else
      var last := events[|events| - 1];
      var front := UpTo(events[..|events| - 1], through);
      if last.sequence <= through then front + [last] else front
  }

  /** A client has received exactly the events it can see after its start, up to where it has read. */
  ghost predicate UpToDate(store: Store, client: Client, audience: Audience, start: nat) {
    match client
    case Reading(cursor, received) =>
      start <= cursor && (cursor == start || cursor <= store.last) && received == UpTo(Visible(store.history, audience, start), cursor)
    case Done(through, received) => through <= store.last && received == UpTo(Visible(store.history, audience, start), through)
    case Reset(_) => true
  }

  lemma {:induction false} UpToIsPrefix(events: seq<Event>, count: nat)
    requires Ascending(events) && 0 < count <= |events|
    ensures UpTo(events, events[count - 1].sequence) == events[..count]
  {
    if count < |events| {
      var front := events[..|events| - 1];
      assert front[count - 1] == events[count - 1] && front[..count] == events[..count];
      UpToIsPrefix(front, count);
    } else {
      AllUpTo(events, events[count - 1].sequence);
      assert events[..count] == events;
    }
  }

  lemma {:induction false} AllUpTo(events: seq<Event>, through: nat)
    requires forall i | 0 <= i < |events| :: events[i].sequence <= through
    ensures UpTo(events, through) == events
  {
    if events != [] {
      AllUpTo(events[..|events| - 1], through);
    }
  }

  /** What is visible after a start is what is visible up to a cursor, and then after it. */
  lemma {:induction false} SplitsAtCursor(history: seq<Event>, audience: Audience, start: nat, cursor: nat)
    requires Ascending(history) && start <= cursor
    ensures Visible(history, audience, start) == UpTo(Visible(history, audience, start), cursor) + Visible(history, audience, cursor)
  {
    if history != [] {
      var front, last := history[..|history| - 1], history[|history| - 1];
      var before := Visible(front, audience, start);
      SplitsAtCursor(front, audience, start, cursor);
      if last.sequence > start && Sees(audience, last.audience) {
        UpToNext(before, last, cursor);
        if last.sequence <= cursor {
          NothingAfter(front, audience, cursor, last.sequence);
        }
      }
    }
  }

  lemma UpToNext(events: seq<Event>, next: Event, through: nat)
    ensures UpTo(events + [next], through) == if next.sequence <= through then UpTo(events, through) + [next] else UpTo(events, through)
  {
    assert (events + [next])[..|events|] == events;
  }

  lemma NothingAfter(events: seq<Event>, audience: Audience, after: nat, bound: nat)
    requires forall i | 0 <= i < |events| :: events[i].sequence < bound
    requires bound <= after
    ensures Visible(events, audience, after) == []
  {
    VisibleContains(events, audience, after);
    forall event <- events
      ensures event.sequence <= after
    {
    }
    EmptyOrInhabited(Visible(events, audience, after));
  }

  lemma NextRows(all: seq<Event>, received: seq<Event>, rows: seq<Event>, size: nat)
    requires Ascending(all) && all == received + rows && 0 < size <= |rows|
    ensures rows[size - 1] in all && received + rows[..size] == UpTo(all, rows[size - 1].sequence)
  {
    var count := |received| + size;
    assert all[count - 1] == rows[size - 1] && all[..count] == received + rows[..size];
    UpToIsPrefix(all, count);
  }

  lemma AllRows(store: Store, audience: Audience, start: nat)
    requires Valid(store)
    ensures Ascending(Visible(store.history, audience, start))
    ensures forall event <- Visible(store.history, audience, start) :: start < event.sequence <= store.last
    ensures UpTo(Visible(store.history, audience, start), store.last) == Visible(store.history, audience, start)
  {
    var all := Visible(store.history, audience, start);
    VisibleAscends(store.history, audience, start);
    VisibleContains(store.history, audience, start);
    assert forall i | 0 <= i < |all| :: all[i] in all;
    AllUpTo(all, store.last);
  }

  /** A page holds exactly the next events: those up to its last one, or all there are. */
  lemma PageReads(store: Store, audience: Audience, start: nat, cursor: nat, limit: int, replay: Replay)
    requires Valid(store) && start <= cursor
    requires ReplayOf(store, audience, cursor, limit) == Some(replay) && !replay.expired
    ensures
      var all := Visible(store.history, audience, start);
      var read := UpTo(all, cursor) + replay.events;
      if replay.truncated
      then var last := replay.events[|replay.events| - 1].sequence; start < last <= store.last && read == UpTo(all, last)
      else read == UpTo(all, store.last)
  {
    var all, rows := Visible(store.history, audience, start), Visible(store.history, audience, cursor);
    NothingVisibleIsGone(store.history, store.checkpoints, audience, cursor);
    SplitsAtCursor(store.history, audience, start, cursor);
    AllRows(store, audience, start);
    if replay.truncated {
      NextRows(all, UpTo(all, cursor), rows, |replay.events|);
    }
  }

  lemma PageKeepsUpToDate(store: Store, client: Client, audience: Audience, start: nat, limit: int)
    requires Valid(store) && UpToDate(store, client, audience, start)
    ensures UpToDate(store, ReadPage(store, client, audience, limit), audience, start)
  {
    if client.Reading? {
      var replay := ReplayOf(store, audience, client.cursor, limit);
      if replay.Some? && !replay.value.expired {
        PageReads(store, audience, start, client.cursor, limit, replay.value);
      }
    }
  }

  lemma PublishKeepsUpToDate(store: Store, client: Client, audience: Audience, start: nat, other: Audience, content: string)
    requires Valid(store) && UpToDate(store, client, audience, start)
    ensures UpToDate(Append(store, other, content), client, audience, start)
  {
    if !client.Reset? {
      var through := if client.Reading? then client.cursor else client.through;
      var event := Event(store.last + 1, other, content);
      VisibleNext(store.history, event, audience, start);
      if event.sequence > start && Sees(audience, other) {
        UpToNext(Visible(store.history, audience, start), event, through);
      }
    }
  }

  /** Over any interleaving of publications and prunes with its pages, a client that was not told to reset has
      received every visible event after its start, up to the last page it read, exactly once and in order. */
  lemma {:induction false} SessionIsUpToDate(store: Store, start: nat, audience: Audience, actions: seq<Action>)
    requires Valid(store)
    ensures
      var (after, client) := Session(store, Reading(start, []), audience, actions);
      Valid(after) && UpToDate(after, client, audience, start)
  {
    if actions == [] {
      NothingYet(store, start, audience);
    } else {
      var front, action := actions[..|actions| - 1], actions[|actions| - 1];
      SessionIsUpToDate(store, start, audience, front);
      var (before, reader) := Session(store, Reading(start, []), audience, front);
      match action
      case Publish(other, content) =>
        AppendKeepsValid(before, other, content);
        PublishKeepsUpToDate(before, reader, audience, start, other, content);
      case Retain(keep) =>
        PruneKeepsValid(before, keep);
      case Page(limit) =>
        PageKeepsUpToDate(before, reader, audience, start, limit);
    }
  }

  lemma NothingYet(store: Store, start: nat, audience: Audience)
    ensures UpTo(Visible(store.history, audience, start), start) == []
  {
    VisibleContains(store.history, audience, start);
    NoneUpTo(Visible(store.history, audience, start), start);
  }

  lemma {:induction false} NoneUpTo(events: seq<Event>, through: nat)
    requires forall event <- events :: event.sequence > through
    ensures UpTo(events, through) == []
  {
    if events != [] {
      assert events[|events| - 1] in events;
      NoneUpTo(events[..|events| - 1], through);
    }
  }

  /** Without the checkpoints a gap would go unnoticed: a replay never skips an event that was deleted. */
  lemma FinishedHasEverything(store: Store, start: nat, audience: Audience, actions: seq<Action>, event: Event)
    requires Valid(store)
    requires
      var (after, client) := Session(store, Reading(start, []), audience, actions);
      client.Done? && event in after.history && start < event.sequence <= client.through && Sees(audience, event.audience)
    ensures event in Session(store, Reading(start, []), audience, actions).1.received
  {
    SessionIsUpToDate(store, start, audience, actions);
    var (after, client) := Session(store, Reading(start, []), audience, actions);
    VisibleContains(after.history, audience, start);
    UpToContains(Visible(after.history, audience, start), client.through);
  }

  lemma {:induction false} UpToContains(events: seq<Event>, through: nat)
    ensures forall event :: event in UpTo(events, through) <==> event in events && event.sequence <= through
  {
    if events != [] {
      assert events == events[..|events| - 1] + [events[|events| - 1]];
      UpToContains(events[..|events| - 1], through);
    }
  }
}
