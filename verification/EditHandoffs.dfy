/** Drafts that survive the reload of an add-on: each is handed from the view that ended to the next mount. */
module EditHandoffs {
  import opened Results

  type Slot = nat

  /** A draft that waits for the next mount of its slot, and the view whose checkpoint it is. */
  datatype Draft = Draft(owner: string, value: string, source: nat)

  type Pending = map<Slot, Draft>

  /** What an add-on did with its handoff. */
  datatype Action = Checkpointed(value: Option<string>) | Took(draft: string)

  datatype Ending = Restored | HandedOff(value: string) | Dropped

  datatype Phase = Open | Closed(ending: Ending)

  /** One mounted view. `actions` lists what the add-on did and exists only to say where its draft came from. */
  datatype View = View(
    owner: string, slot: Option<Slot>, inherited: Option<Draft>, checkpoint: Option<string>, recovered: Option<string>,
    dirty: bool, saving: bool, retain: bool, phase: Phase, actions: seq<Action>)

  /** Views are numbered in the order they were opened; closed ones are kept to say what became of them. */
  datatype State = State(views: seq<View>, pending: Pending)

  datatype Event =
    | OpenView(owner: string, slot: Option<Slot>, live: bool)
    | Mark(view: nat, dirty: bool, saving: bool, retain: bool)
    | Checkpoint(view: nat, value: Option<string>)
    | Take(view: nat)
    | End(view: nat, mountFailed: bool, abort: Option<string>)
    | Forget(forgotten: Slot)
    | Retain(owners: set<string>)

  predicate Unclaimed(view: View) {
    view.recovered.Some?
  }

  // ----- steps -----

  function OpenStep(s: State, owner: string, slot: Option<Slot>, live: bool): State {
    var inherited := if live && slot.Some? && slot.value in s.pending then Some(s.pending[slot.value]) else None;
    var value := if inherited.Some? then Some(inherited.value.value) else None;
    State(
      s.views + [View(owner, slot, inherited, value, value, inherited.Some?, false, false, if live then Open else Closed(Dropped), [])],
      if live && slot.Some? then s.pending - {slot.value} else s.pending)
  }

  function CheckpointStep(view: View, value: Option<string>): View {
    view.(checkpoint := value, recovered := None, actions := view.actions + [Checkpointed(value)])
  }

  function TakeStep(view: View): View
    requires Unclaimed(view)
  {
    view.(recovered := None, dirty := true, actions := view.actions + [Took(view.recovered.value)])
  }

  /** A view leaves a draft for the next mount when a reload or an update ended it with something to save. */
  predicate LeavesDraft(view: View, abort: Option<string>) {
    && view.slot.Some? && view.checkpoint.Some? && (view.dirty || view.saving || Unclaimed(view))
    && (abort == Some("reload") || abort == Some("updated"))
  }

  function EndStep(s: State, id: nat, mountFailed: bool, abort: Option<string>): State
    requires id < |s.views| && s.views[id].phase.Open?
  {
    var view := s.views[id];
    var closed := view.(checkpoint := None, recovered := None);
    if mountFailed && view.inherited.Some? && view.slot.Some? then
      State(s.views[id := closed.(phase := Closed(Restored))], s.pending[view.slot.value := view.inherited.value])
    else if LeavesDraft(view, abort) then
      State(s.views[id := closed.(phase := Closed(HandedOff(view.checkpoint.value)))],
            s.pending[view.slot.value := Draft(view.owner, view.checkpoint.value, id)])
    else s.(views := s.views[id := closed.(phase := Closed(Dropped))])
  }

  predicate IsOpen(s: State, id: nat) {
    id < |s.views| && s.views[id].phase.Open?
  }

  function Perform(s: State, event: Event): State {
    match event
    case OpenView(owner, slot, live) => OpenStep(s, owner, slot, live)
    case Mark(id, dirty, saving, retain) =>
      if IsOpen(s, id)
      then s.(views := s.views[id := s.views[id].(dirty := dirty, saving := saving, retain := retain)]) else s
    case Checkpoint(id, value) =>
      if IsOpen(s, id) && s.views[id].slot.Some?
      then s.(views := s.views[id := CheckpointStep(s.views[id], value)]) else s
    case Take(id) =>
      if IsOpen(s, id) && s.views[id].slot.Some? && Unclaimed(s.views[id])
      then s.(views := s.views[id := TakeStep(s.views[id])]) else s
    case End(id, mountFailed, abort) =>
      if IsOpen(s, id) then EndStep(s, id, mountFailed, abort) else s
    case Forget(slot) => s.(pending := s.pending - {slot})
    case Retain(owners) => s.(pending := map slot | slot in s.pending && s.pending[slot].owner in owners :: s.pending[slot])
  }

  // ----- the invariant -----

  /** The last value the add-on checkpointed; what the view inherited until it did. */
  function LastCheckpoint(inherited: Option<Draft>, actions: seq<Action>): Option<string> {
    if actions == [] then if inherited.Some? then Some(inherited.value.value) else None
    else
      match actions[|actions| - 1]
      case Checkpointed(value) => value
      case Took(_) => LastCheckpoint(inherited, actions[..|actions| - 1])
  }

  function Takes(actions: seq<Action>): nat {
    if actions == [] then 0 else Takes(actions[..|actions| - 1]) + (if actions[|actions| - 1].Took? then 1 else 0)
  }

  ghost predicate ViewValid(views: seq<View>, id: nat)
    requires id < |views|
  {
    var view := views[id];
    && (view.inherited.Some? ==> view.slot.Some? && DraftValid(views, view.slot.value, view.inherited.value, id))
    && Takes(view.actions) <= 1
    && (forall action <- view.actions | action.Took? :: view.inherited.Some? && action.draft == view.inherited.value.value)
    && (view.phase.Open? ==>
          && view.checkpoint == LastCheckpoint(view.inherited, view.actions)
          && (Unclaimed(view) <==> view.inherited.Some? && view.actions == [])
          && (Unclaimed(view) ==> view.recovered == Some(view.inherited.value.value)))
    && (view.phase.Closed? && view.phase.ending.HandedOff? ==>
          view.slot.Some? && LastCheckpoint(view.inherited, view.actions) == Some(view.phase.ending.value))
    && (view.phase.Closed? && view.phase.ending.Restored? ==> view.inherited.Some?)
  }

  /** The draft is the last checkpoint of the view it names, and every live view of the slot between that one
      and `before` failed to mount and gave it back. */
  ghost predicate DraftValid(views: seq<View>, slot: Slot, draft: Draft, before: nat)
    requires before <= |views|
  {
    && draft.source < before
    && var source := views[draft.source];
       && source.slot == Some(slot) && source.owner == draft.owner
       && source.phase == Closed(HandedOff(draft.value))
       && forall id | draft.source < id < before && views[id].slot == Some(slot) :: GaveBack(views[id], draft)
  }

  /** The view was opened for an add-on that was gone already, or failed to mount. */
  ghost predicate GaveBack(view: View, draft: Draft) {
    || (view.phase == Closed(Dropped) && view.inherited.None? && view.actions == [])
    || (view.phase == Closed(Restored) && view.inherited == Some(draft))
  }

  ghost predicate OneViewEach(views: seq<View>) {
    forall i, j | 0 <= i < j < |views| && views[i].phase.Open? && views[j].phase.Open? && views[i].slot.Some? :: views[i].slot != views[j].slot
  }

  /** While a view of a slot is open nothing waits for the slot. */
  ghost predicate NothingBehindOpen(s: State) {
    forall id | 0 <= id < |s.views| && s.views[id].phase.Open? && s.views[id].slot.Some? :: s.views[id].slot.value !in s.pending
  }

  ghost predicate Valid(s: State) {
    && (forall id | 0 <= id < |s.views| :: ViewValid(s.views, id))
    && (forall slot | slot in s.pending :: DraftValid(s.views, slot, s.pending[slot], |s.views|))
    && OneViewEach(s.views) && NothingBehindOpen(s)
  }

  /** Callers keep at most one view of a slot open. */
  ghost predicate Respects(s: State, event: Event) {
    event.OpenView? && event.live && event.slot.Some? ==>
      forall id | 0 <= id < |s.views| && s.views[id].phase.Open? :: s.views[id].slot != event.slot
  }

  // ----- every event keeps the invariant -----

  /** One view changed; no view that had closed did. */
  ghost predicate Replaces(views: seq<View>, id: nat, after: seq<View>) {
    && id < |views| && |after| == |views| && views[id].phase.Open? && after[id].slot == views[id].slot
    && forall j | 0 <= j < |views| && j != id :: after[j] == views[j]
  }

  lemma DraftStays(views: seq<View>, id: nat, after: seq<View>, slot: Slot, draft: Draft, before: nat)
    requires Replaces(views, id, after) && before <= |views| && DraftValid(views, slot, draft, before)
    ensures DraftValid(after, slot, draft, before)
  {
    assert views[draft.source].phase.Closed?;
    forall j | draft.source < j < before && after[j].slot == Some(slot)
      ensures GaveBack(after[j], draft)
    {
      assert GaveBack(views[j], draft);
    }
  }

  lemma ViewsStay(s: State, id: nat, after: seq<View>)
    requires Valid(s) && Replaces(s.views, id, after) && ViewValid(after, id)
    ensures forall j | 0 <= j < |after| :: ViewValid(after, j)
  {
    forall j | 0 <= j < |after|
      ensures ViewValid(after, j)
    {
      if j != id {
        assert ViewValid(s.views, j);
        var view := s.views[j];
        if view.inherited.Some? {
          DraftStays(s.views, id, after, view.slot.value, view.inherited.value, j);
        }
      }
    }
  }

  lemma InheritedStays(s: State, id: nat, after: seq<View>)
    requires Valid(s) && Replaces(s.views, id, after) && after[id].inherited == s.views[id].inherited
    ensures after[id].inherited.Some? ==> after[id].slot.Some? && DraftValid(after, after[id].slot.value, after[id].inherited.value, id)
  {
    assert ViewValid(s.views, id);
    if after[id].inherited.Some? {
      DraftStays(s.views, id, after, after[id].slot.value, after[id].inherited.value, id);
    }
  }

  /** An open view marks itself, checkpoints or takes: it stays open and what waits is untouched. */
  lemma UpdateKeepsValid(s: State, id: nat, view: View)
    requires Valid(s) && id < |s.views| && s.views[id].phase.Open?
    requires view.phase.Open? && view.slot == s.views[id].slot && view.inherited == s.views[id].inherited
    requires ViewBody(view)
    ensures Valid(s.(views := s.views[id := view])) && (LaterViewsAreDead(s) ==> LaterViewsAreDead(s.(views := s.views[id := view])))
  {
    var after := s.views[id := view];
    InheritedStays(s, id, after);
    ViewsStay(s, id, after);
    forall slot | slot in s.pending
      ensures DraftValid(after, slot, s.pending[slot], |after|)
    {
      DraftStays(s.views, id, after, slot, s.pending[slot], |after|);
    }
  }

  /** What a view's own fields promise while it is open. */
  ghost predicate ViewBody(view: View) {
    && Takes(view.actions) <= 1
    && (forall action <- view.actions | action.Took? :: view.inherited.Some? && action.draft == view.inherited.value.value)
    && view.checkpoint == LastCheckpoint(view.inherited, view.actions)
    && (Unclaimed(view) <==> view.inherited.Some? && view.actions == [])
    && (Unclaimed(view) ==> view.recovered == Some(view.inherited.value.value))
  }

  lemma CheckpointKeepsBody(view: View, value: Option<string>)
    requires ViewBody(view)
    ensures ViewBody(CheckpointStep(view, value))
  {
    var after := CheckpointStep(view, value);
    assert after.actions[..|view.actions|] == view.actions;
  }

  lemma TakeKeepsBody(view: View)
    requires ViewBody(view) && Unclaimed(view)
    ensures ViewBody(TakeStep(view))
  {
    var after := TakeStep(view);
    assert after.actions[..|view.actions|] == view.actions;
  }

  lemma PendingStays(s: State, id: nat, after: seq<View>)
    requires Valid(s) && Replaces(s.views, id, after)
    ensures forall slot | slot in s.pending :: DraftValid(after, slot, s.pending[slot], |after|)
  {
    forall slot | slot in s.pending
      ensures DraftValid(after, slot, s.pending[slot], |after|)
    {
      DraftStays(s.views, id, after, slot, s.pending[slot], |after|);
    }
  }

  lemma EndedViewIsValid(s: State, id: nat, mountFailed: bool, abort: Option<string>)
    requires Valid(s) && IsOpen(s, id)
    ensures Replaces(s.views, id, EndStep(s, id, mountFailed, abort).views)
    ensures ViewValid(EndStep(s, id, mountFailed, abort).views, id)
  {
    assert ViewValid(s.views, id);
    InheritedStays(s, id, EndStep(s, id, mountFailed, abort).views);
  }

  /** The draft an ending view leaves is the one that waits, and is valid. */
  lemma LeftDraftIsValid(s: State, id: nat, mountFailed: bool, abort: Option<string>)
    requires Valid(s) && LaterViewsAreDead(s) && IsOpen(s, id) && s.views[id].slot.Some?
    ensures
      var after := EndStep(s, id, mountFailed, abort);
      var slot := s.views[id].slot.value;
      slot in after.pending ==> DraftValid(after.views, slot, after.pending[slot], |after.views|)
  {
    var after := EndStep(s, id, mountFailed, abort);
    var slot := s.views[id].slot.value;
    EndedViewIsValid(s, id, mountFailed, abort);
    assert ViewValid(s.views, id) && slot !in s.pending;
    if slot in after.pending {
      forall j | id < j < |s.views| && after.views[j].slot == Some(slot)
        ensures GaveBack(after.views[j], after.pending[slot])
      {
        assert s.views[j].slot == s.views[id].slot;
      }
    }
  }

  lemma EndKeepsValid(s: State, id: nat, mountFailed: bool, abort: Option<string>)
    requires Valid(s) && LaterViewsAreDead(s) && IsOpen(s, id)
    ensures Valid(EndStep(s, id, mountFailed, abort)) && LaterViewsAreDead(EndStep(s, id, mountFailed, abort))
  {
    hide ViewValid, DraftValid, OneViewEach, NothingBehindOpen, LaterViewsAreDead;
    var after := EndStep(s, id, mountFailed, abort);
    EndedViewIsValid(s, id, mountFailed, abort);
    ViewsStay(s, id, after.views);
    PendingStays(s, id, after.views);
    if s.views[id].slot.Some? {
      LeftDraftIsValid(s, id, mountFailed, abort);
    }
    EndKeepsOpenViews(s, id, mountFailed, abort);
  }

  lemma EndKeepsOpenViews(s: State, id: nat, mountFailed: bool, abort: Option<string>)
    requires OneViewEach(s.views) && NothingBehindOpen(s) && LaterViewsAreDead(s) && IsOpen(s, id)
    ensures
      var after := EndStep(s, id, mountFailed, abort);
      OneViewEach(after.views) && NothingBehindOpen(after) && LaterViewsAreDead(after)
  {
  }

  /** Behind an open view only views of add-ons that were gone already can have been opened. */
  ghost predicate LaterViewsAreDead(s: State) {
    forall i, j | 0 <= i < j < |s.views| && s.views[i].phase.Open? && s.views[i].slot.Some? && s.views[j].slot == s.views[i].slot ::
      s.views[j].phase == Closed(Dropped) && s.views[j].inherited.None? && s.views[j].actions == []
  }

  lemma OpenKeepsValid(s: State, owner: string, slot: Option<Slot>, live: bool)
    requires Valid(s) && LaterViewsAreDead(s) && Respects(s, OpenView(owner, slot, live))
    ensures Valid(OpenStep(s, owner, slot, live)) && LaterViewsAreDead(OpenStep(s, owner, slot, live))
  {
    hide ViewValid, DraftValid, OneViewEach, NothingBehindOpen, LaterViewsAreDead, Respects;
    var after := OpenStep(s, owner, slot, live);
    forall id | 0 <= id < |after.views|
      ensures ViewValid(after.views, id)
    {
      OpenKeepsView(s, owner, slot, live, id);
    }
    forall other | other in after.pending
      ensures DraftValid(after.views, other, after.pending[other], |after.views|)
    {
      OpenKeepsDraft(s, owner, slot, live, other);
    }
    OpenKeepsOpenViews(s, owner, slot, live);
  }

  /** A draft says nothing about views opened later. */
  lemma DraftOutlivesOpening(views: seq<View>, more: View, slot: Slot, draft: Draft, before: nat)
    requires before <= |views| && DraftValid(views, slot, draft, before)
    ensures DraftValid(views + [more], slot, draft, before)
  {
    assert forall j | 0 <= j < before :: (views + [more])[j] == views[j];
  }

  lemma OpenKeepsView(s: State, owner: string, slot: Option<Slot>, live: bool, id: nat)
    requires Valid(s) && id < |OpenStep(s, owner, slot, live).views|
    ensures ViewValid(OpenStep(s, owner, slot, live).views, id)
  {
    hide OneViewEach, NothingBehindOpen, DraftValid;
    var after := OpenStep(s, owner, slot, live).views;
    assert id < |s.views| ==> ViewValid(s.views, id) && after[id] == s.views[id];
    if after[id].inherited.Some? {
      DraftOutlivesOpening(s.views, after[|s.views|], after[id].slot.value, after[id].inherited.value, id);
    }
  }

  lemma OpenKeepsDraft(s: State, owner: string, slot: Option<Slot>, live: bool, other: Slot)
    requires Valid(s) && other in OpenStep(s, owner, slot, live).pending
    ensures
      var after := OpenStep(s, owner, slot, live);
      DraftValid(after.views, other, after.pending[other], |after.views|)
  {
    hide OneViewEach, NothingBehindOpen, ViewValid;
    var after := OpenStep(s, owner, slot, live).views;
    DraftOutlivesOpening(s.views, after[|s.views|], other, s.pending[other], |s.views|);
  }

  lemma OpenKeepsOpenViews(s: State, owner: string, slot: Option<Slot>, live: bool)
    requires OneViewEach(s.views) && NothingBehindOpen(s) && LaterViewsAreDead(s) && Respects(s, OpenView(owner, slot, live))
    ensures
      var after := OpenStep(s, owner, slot, live);
      OneViewEach(after.views) && NothingBehindOpen(after) && LaterViewsAreDead(after)
  {
  }

  lemma MarkKeepsValid(s: State, id: nat, dirty: bool, saving: bool, retain: bool)
    requires Valid(s) && LaterViewsAreDead(s) && IsOpen(s, id)
    ensures
      var after := s.(views := s.views[id := s.views[id].(dirty := dirty, saving := saving, retain := retain)]);
      Valid(after) && LaterViewsAreDead(after)
  {
    assert ViewValid(s.views, id);
    UpdateKeepsValid(s, id, s.views[id].(dirty := dirty, saving := saving, retain := retain));
  }

  lemma HandoffKeepsValid(s: State, id: nat, view: View)
    requires Valid(s) && LaterViewsAreDead(s) && IsOpen(s, id)
    requires (exists value :: view == CheckpointStep(s.views[id], value)) || (Unclaimed(s.views[id]) && view == TakeStep(s.views[id]))
    ensures Valid(s.(views := s.views[id := view])) && LaterViewsAreDead(s.(views := s.views[id := view]))
  {
    assert ViewValid(s.views, id);
    if value :| view == CheckpointStep(s.views[id], value) {
      CheckpointKeepsBody(s.views[id], value);
    } else {
      TakeKeepsBody(s.views[id]);
    }
    UpdateKeepsValid(s, id, view);
  }

  lemma FewerDraftsAreValid(s: State, pending: Pending)
    requires Valid(s) && LaterViewsAreDead(s)
    requires forall slot | slot in pending :: slot in s.pending && pending[slot] == s.pending[slot]
    ensures Valid(s.(pending := pending)) && LaterViewsAreDead(s.(pending := pending))
  {
  }

  lemma StepKeepsValid(s: State, event: Event)
    requires Valid(s) && LaterViewsAreDead(s) && Respects(s, event)
    ensures Valid(Perform(s, event)) && LaterViewsAreDead(Perform(s, event))
  {
    match event
    case OpenView(owner, slot, live) => OpenKeepsValid(s, owner, slot, live);
    case Mark(id, dirty, saving, retain) =>
      if IsOpen(s, id) {
        MarkKeepsValid(s, id, dirty, saving, retain);
      }
    case Checkpoint(id, value) =>
      if IsOpen(s, id) && s.views[id].slot.Some? {
        HandoffKeepsValid(s, id, CheckpointStep(s.views[id], value));
      }
    case Take(id) =>
      if IsOpen(s, id) && s.views[id].slot.Some? && Unclaimed(s.views[id]) {
        HandoffKeepsValid(s, id, TakeStep(s.views[id]));
      }
    case End(id, mountFailed, abort) =>
      if IsOpen(s, id) {
        EndKeepsValid(s, id, mountFailed, abort);
      }
    case _ => FewerDraftsAreValid(s, Perform(s, event).pending);
  }

  function Run(events: seq<Event>): State {
    if events == [] then State([], map[]) else Perform(Run(events[..|events| - 1]), events[|events| - 1])
  }

  /** A run in which callers keep at most one view of a slot open. */
  ghost predicate Respectful(events: seq<Event>) {
    events == [] || (Respectful(events[..|events| - 1]) && Respects(Run(events[..|events| - 1]), events[|events| - 1]))
  }

  lemma {:induction false} RunsKeepValid(events: seq<Event>)
    requires Respectful(events)
    ensures Valid(Run(events)) && LaterViewsAreDead(Run(events))
  {
    if events != [] {
      RunsKeepValid(events[..|events| - 1]);
      StepKeepsValid(Run(events[..|events| - 1]), events[|events| - 1]);
    }
  }

  // ----- what the next mount is offered -----

  /** What waits for a slot is the last checkpoint of a view of that slot that ended with something to save, and
      every live view of the slot since then failed to mount and gave it back. */
  lemma OfferedDraft(s: State, slot: Slot)
    requires Valid(s) && slot in s.pending
    ensures
      var draft := s.pending[slot];
      && draft.source < |s.views|
      && var source := s.views[draft.source];
         && source.slot == Some(slot) && source.owner == draft.owner && source.phase == Closed(HandedOff(draft.value))
         && LastCheckpoint(source.inherited, source.actions) == Some(draft.value)
         && forall id | draft.source < id < |s.views| && s.views[id].slot == Some(slot) :: GaveBack(s.views[id], draft)
  {
    assert DraftValid(s.views, slot, s.pending[slot], |s.views|);
    assert ViewValid(s.views, s.pending[slot].source);
  }

  /** A view that a reload or an update ends while dirty, saving or unclaimed leaves its last checkpoint. */
  lemma EndingLeavesDraft(s: State, id: nat, abort: Option<string>)
    requires Valid(s) && IsOpen(s, id)
    ensures
      var view := s.views[id];
      var last := LastCheckpoint(view.inherited, view.actions);
      var after := Perform(s, End(id, false, abort));
      if view.slot.Some? && last.Some? && abort in {Some("reload"), Some("updated")}
         && (view.dirty || view.saving || (view.inherited.Some? && view.actions == []))
      then after.pending == s.pending[view.slot.value := Draft(view.owner, last.value, id)]
      else after.pending == s.pending
  {
    assert ViewValid(s.views, id);
  }

  /** A failed mount puts back what it inherited. */
  lemma FailedMountRestores(s: State, id: nat, abort: Option<string>)
    requires Valid(s) && IsOpen(s, id) && s.views[id].inherited.Some?
    ensures s.views[id].slot.Some?
    ensures Perform(s, End(id, true, abort)).pending == s.pending[s.views[id].slot.value := s.views[id].inherited.value]
  {
    assert ViewValid(s.views, id);
  }

  /** A mount takes its draft at most once, and it is the one it inherited. */
  lemma TakenAtMostOnce(events: seq<Event>, id: nat)
    requires Respectful(events) && id < |Run(events).views|
    ensures Takes(Run(events).views[id].actions) <= 1
    ensures forall action <- Run(events).views[id].actions | action.Took? ::
      Run(events).views[id].inherited.Some? && action.draft == Run(events).views[id].inherited.value.value
  {
    RunsKeepValid(events);
    assert ViewValid(Run(events).views, id);
  }

  // ----- the registry itself -----

  class BrowserContributionEdits {
    var views: seq<View>
    var pending: Pending

    ghost function TheState(): State
      reads this
    {
      State(views, pending)
    }

    constructor ()
      ensures TheState() == State([], map[])
    {
      views, pending := [], map[];
    }

    /** Whether a draft waits for the slot, or its view has not claimed the one it inherited. */
    method IsPending(slot: Slot) returns (waits: bool)
      ensures waits <==> slot in pending || exists view <- views :: view.phase.Open? && view.slot == Some(slot) && Unclaimed(view)
    {
      if slot in pending { return true; }
      for k := 0 to |views|
        invariant forall view <- views[..k] :: !(view.phase.Open? && view.slot == Some(slot) && Unclaimed(view))
      {
        assert views[..k + 1] == views[..k] + [views[k]];
        if views[k].phase.Open? && views[k].slot == Some(slot) && Unclaimed(views[k]) { return true; }
      }
      assert views[..|views|] == views;
      waits := false;
    }

    method Forget(slot: Slot)
      modifies this`pending
      ensures TheState() == Perform(old(TheState()), Event.Forget(slot))
    {
      pending := pending - {slot};
    }

    method Retain(owners: set<string>)
      modifies this`pending
      ensures TheState() == Perform(old(TheState()), Event.Retain(owners))
    {
      pending := map slot | slot in pending && pending[slot].owner in owners :: pending[slot];
    }

    /** Opens a view; one of an add-on that is gone already stays closed. */
    method Open(owner: string, slot: Option<Slot>, live: bool) returns (id: nat)
      modifies this`views, this`pending
      ensures TheState() == Perform(old(TheState()), OpenView(owner, slot, live)) && id == |old(views)|
    {
      id := |views|;
      var inherited: Option<Draft> := None;
      if live && slot.Some? {
        inherited := if slot.value in pending then Some(pending[slot.value]) else None;
        pending := pending - {slot.value};
      }
      var value := if inherited.Some? then Some(inherited.value.value) else None;
      var phase := if live then Phase.Open else Closed(Dropped);
      views := views + [View(owner, slot, inherited, value, value, inherited.Some?, false, false, phase, [])];
    }

    method Set(id: nat, dirty: bool, saving: bool, retain: bool)
      requires id < |views|
      modifies this`views
      ensures TheState() == Perform(old(TheState()), Mark(id, dirty, saving, retain))
    {
      if views[id].phase.Open? {
        views := views[id := views[id].(dirty := dirty, saving := saving, retain := retain)];
      }
    }

    /** Replaces the checkpoint; whatever was inherited counts as consumed. */
    method Checkpoint(id: nat, value: Option<string>) returns (consumed: bool)
      requires id < |views|
      modifies this`views
      ensures TheState() == Perform(old(TheState()), Event.Checkpoint(id, value))
      ensures consumed <==> old(views)[id].phase.Open? && old(views)[id].slot.Some? && Unclaimed(old(views)[id])
    {
      if !views[id].phase.Open? || views[id].slot.None? { return false; }
      consumed := Unclaimed(views[id]);
      views := views[id := CheckpointStep(views[id], value)];
    }

    /** Hands out the inherited draft, once. */
    method Take(id: nat) returns (draft: Option<string>)
      requires id < |views|
      modifies this`views
      ensures TheState() == Perform(old(TheState()), Event.Take(id))
      ensures draft == if old(views)[id].phase.Open? && old(views)[id].slot.Some? then old(views)[id].recovered else None
    {
      if !views[id].phase.Open? || views[id].slot.None? || views[id].recovered.None? { return None; }
      draft := views[id].recovered;
      views := views[id := TakeStep(views[id])];
    }

    /** `dispose`, and what the abort of the view's signal does; ending twice does nothing. */
    method Dispose(id: nat, mountFailed: bool, abort: Option<string>)
      requires id < |views|
      modifies this`views, this`pending
      ensures TheState() == Perform(old(TheState()), End(id, mountFailed, abort))
    {
      var view := views[id];
      if !view.phase.Open? { return; }
      var ending := Dropped;
      if mountFailed && view.inherited.Some? && view.slot.Some? {
        pending := pending[view.slot.value := view.inherited.value];
        ending := Restored;
      } else if LeavesDraft(view, abort) {
        pending := pending[view.slot.value := Draft(view.owner, view.checkpoint.value, id)];
        ending := HandedOff(view.checkpoint.value);
      }
      views := views[id := view.(checkpoint := None, recovered := None, phase := Closed(ending))];
    }

    /** The edits as a whole are dirty while a draft waits, while a view has not claimed its own, and while a view
        is dirty that leaving the route would not keep. */
    method EditState(kept: set<nat>) returns (dirty: bool, saving: bool)
      ensures dirty <==> pending != map[] || exists id | 0 <= id < |views| :: CountsAsDirty(views, kept, id)
      ensures saving <==> exists id | 0 <= id < |views| :: views[id].phase.Open? && views[id].saving
    {
      dirty, saving := pending != map[], false;
      for k := 0 to |views|
        invariant dirty <==> pending != map[] || exists id | 0 <= id < k :: CountsAsDirty(views, kept, id)
        invariant saving <==> exists id | 0 <= id < k :: views[id].phase.Open? && views[id].saving
      {
        dirty := dirty || CountsAsDirty(views, kept, k);
        saving := saving || (views[k].phase.Open? && views[k].saving);
      }
    }
  }

  predicate CountsAsDirty(views: seq<View>, kept: set<nat>, id: nat)
    requires id < |views|
  {
    views[id].phase.Open? && (Unclaimed(views[id]) || (views[id].dirty && !(views[id].retain && id in kept)))
  }
}
