/** Updating all add-ons at once: a retry loop whose result is a least fixed point. */
module UpdateAll {
  import opened Results
  import opened Collections

  datatype Candidate = Candidate(id: string, active: bool)

  /** A finished check lists its packages; a failed one has a message. */
  datatype Check = Found(candidates: seq<Candidate>) | CheckFailed(message: string)

  datatype Target = Target(addonId: string, candidates: seq<Candidate>, candidateId: string)

  datatype Change = Change(category: string, added: seq<string>, changed: seq<string>)

  datatype Review = Review(
    suggested: seq<string>, required: seq<string>, currentVersion: string, changes: seq<Change>, blockers: seq<string>)

  datatype Issue =
    | Permissions(permissions: seq<string>)
    | Data
    | Blocked(codes: seq<string>)
    | Disabled
    | Failed(error: string)
    | Choose
    | Unchecked(message: string)

  datatype Attention = Attention(addonId: string, issue: Issue, generationId: Option<string>)

  /** The server the batch talks to. Its answers may depend on the updates that are active already. */
  datatype Clients = Clients(
    stage: Target -> Result<string, string>,
    review: (string, string, set<string>) -> Result<Review, string>,
    activate: (string, string, seq<string>, set<string>) -> Option<string>)

  const DATA_BLOCKERS := {"DATA_MIGRATION_REQUIRED", "INVALID_STORED_DOCUMENT", "DATA_DEFINITION_REMOVED", "UNIQUE_INDEX_CONFLICT"}

  // ----- reviewIssue -----

  function Excluding(s: seq<string>, known: set<string>): (r: seq<string>)
    ensures forall x :: x in r <==> x in s && x !in known
  {
    if s == [] then [] else (if s[0] in known then [] else [s[0]]) + Excluding(s[1..], known)
  }

  /** The first occurrences of each element. */
  function Unique(s: seq<string>): (r: seq<string>)
    ensures forall x :: x in r <==> x in s
  {
    if s == [] then []
    else
      var front := Unique(s[..|s| - 1]);
      assert s == s[..|s| - 1] + [s[|s| - 1]];
      if s[|s| - 1] in front then front else front + [s[|s| - 1]]
  }

  function FirstOf(changes: seq<Change>, category: string): Option<Change> {
    if changes == [] then None
    else if changes[0].category == category then Some(changes[0])
    else FirstOf(changes[1..], category)
  }

  function RequestedPermissions(review: Review): seq<string> {
    var changes := FirstOf(review.changes, "permissions");
    Unique((if changes.Some? then changes.value.added + changes.value.changed else [])
           + Excluding(review.required, Elements(review.suggested)))
  }

  function ReviewIssue(review: Review): Option<Issue> {
    var other := Excluding(review.blockers, DATA_BLOCKERS);
    if other != [] then Some(Blocked(other))
    else if review.blockers != [] then Some(Data)
    else if review.currentVersion == "" then Some(Disabled)
    else
      var permissions := RequestedPermissions(review);
      if permissions != [] then Some(Permissions(permissions)) else None
  }

  /** An update is approved unasked only when nothing blocks it, the add-on is on, and the grants it has
      already cover all it requires. */
  lemma ApprovedAsksForNothingNew(review: Review)
    ensures ReviewIssue(review).None? <==>
      && review.blockers == [] && review.currentVersion != ""
      && Elements(review.required) <= Elements(review.suggested)
      && var changes := FirstOf(review.changes, "permissions");
         changes.None? || (changes.value.added == [] && changes.value.changed == [])
  {
    var changes := FirstOf(review.changes, "permissions");
    var lists := if changes.Some? then changes.value.added + changes.value.changed else [];
    var more := Excluding(review.required, Elements(review.suggested));
    assert RequestedPermissions(review) == [] <==> lists + more == [] by {
      EmptyOrInhabited(RequestedPermissions(review));
      EmptyOrInhabited(lists + more);
    }
    assert more == [] <==> Elements(review.required) <= Elements(review.suggested) by {
      EmptyOrInhabited(more);
    }
    if review.blockers != [] {
      assert review.blockers[0] in review.blockers;
      EmptyOrInhabited(Excluding(review.blockers, DATA_BLOCKERS));
    }
  }

  // ----- updateAll -----

  /** Reviews a staged package and activates it when the review asks for nothing. */
  function Attempt(clients: Clients, addonId: string, generationId: string, active: set<string>): Option<Issue> {
    match clients.review(addonId, generationId, active)
    case Err(error) => Some(Failed(error))
    case Ok(review) =>
      var issue := ReviewIssue(review);
      if issue.Some? then issue
      else
        match clients.activate(addonId, generationId, review.suggested, active)
        case Some(error) => Some(Failed(error))
        case None => None
  }

  /** What the batch has done so far. */
  datatype Batch = Batch(updated: seq<string>, waiting: seq<Attention>, failed: seq<Attention>)

  /** Stages one target and attempts it. */
  function StageOne(clients: Clients, batch: Batch, target: Target): Batch {
    match clients.stage(target)
    case Err(error) => batch.(failed := batch.failed + [Attention(target.addonId, Failed(error), None)])
    case Ok(generationId) =>
      match Attempt(clients, target.addonId, generationId, Elements(batch.updated))
      case Some(issue) => batch.(waiting := batch.waiting + [Attention(target.addonId, issue, Some(generationId))])
      case None => batch.(updated := batch.updated + [target.addonId])
  }

  function Stages(clients: Clients, targets: seq<Target>): Batch {
    if targets == [] then Batch([], [], [])
    else StageOne(clients, Stages(clients, targets[..|targets| - 1]), targets[|targets| - 1])
  }

  /** What one more attempt of an add-on that waits says; only a blocked one is attempted again. */
  function Again(clients: Clients, item: Attention, active: set<string>): Option<Issue> {
    if item.issue.Blocked? && item.generationId.Some? then Attempt(clients, item.addonId, item.generationId.value, active)
    else Some(item.issue)
  }

  /** One pass: the updates after it, and the add-ons that still wait. */
  function Round(clients: Clients, before: seq<string>, waiting: seq<Attention>): (r: (seq<string>, seq<Attention>))
    ensures |before| <= |r.0| && |r.0| + |r.1| == |before| + |waiting|
  {
    if waiting == [] then (before, [])
    else
      var (updated, next) := Round(clients, before, waiting[..|waiting| - 1]);
      var item := waiting[|waiting| - 1];
      match Again(clients, item, Elements(updated))
      case Some(issue) => (updated, next + [item.(issue := issue)])
      case None => (updated + [item.addonId], next)
  }

  /** Passes repeat while they make progress. */
  function Rounds(clients: Clients, updated: seq<string>, waiting: seq<Attention>, progress: bool): (seq<string>, seq<Attention>)
    decreases |waiting|, progress
  {
    if !progress then (updated, waiting)
    else
      var (more, next) := Round(clients, updated, waiting);
      Rounds(clients, more, next, |updated| < |more|)
  }

  /** The updates and the reports of a batch, in order. */
  function Run(clients: Clients, targets: seq<Target>): (seq<string>, seq<Attention>) {
    var batch := Stages(clients, targets);
    var (updated, waiting) := Rounds(clients, batch.updated, batch.waiting, batch.updated != []);
    (updated, waiting + batch.failed)
  }

  /** How often an add-on occurs among the updates, the reports and the targets. */
  function Count(ids: seq<string>, id: string): nat {
    if ids == [] then 0 else Count(ids[..|ids| - 1], id) + (if ids[|ids| - 1] == id then 1 else 0)
  }

  function CountItems(items: seq<Attention>, id: string): nat {
    if items == [] then 0 else CountItems(items[..|items| - 1], id) + (if items[|items| - 1].addonId == id then 1 else 0)
  }

  function CountTargets(targets: seq<Target>, id: string): nat {
    if targets == [] then 0 else CountTargets(targets[..|targets| - 1], id) + (if targets[|targets| - 1].addonId == id then 1 else 0)
  }

  /** Every update went through when those before it were active. */
  ghost predicate Justified(clients: Clients, targets: seq<Target>, updated: seq<string>) {
    updated == []
    || var front := updated[..|updated| - 1];
       Justified(clients, targets, front) && CanUpdate(clients, targets, updated[|updated| - 1], Elements(front))
  }

  /** An add-on that could be updated once those in `active` are. */
  ghost predicate CanUpdate(clients: Clients, targets: seq<Target>, addonId: string, active: set<string>) {
    exists target <- targets :: Passes(clients, target, addonId, active)
  }

  ghost predicate Passes(clients: Clients, target: Target, addonId: string, active: set<string>) {
    && target.addonId == addonId && clients.stage(target).Ok?
    && Attempt(clients, addonId, clients.stage(target).value, active).None?
  }

  /** An add-on that waits was attempted while some of the updates were active. */
  ghost predicate Waits(clients: Clients, target: Target, item: Attention, active: set<string>) {
    && item.addonId == target.addonId && clients.stage(target).Ok?
    && item.generationId == Some(clients.stage(target).value)
    && Attempt(clients, item.addonId, item.generationId.value, active) == Some(item.issue)
  }

  ghost predicate NotStaged(clients: Clients, target: Target, item: Attention) {
    clients.stage(target).Err? && item == Attention(target.addonId, Failed(clients.stage(target).error), None)
  }

  /** An item that waits, and if it is blocked, is so with everything in `current` active. */
  ghost predicate Reported(clients: Clients, targets: seq<Target>, item: Attention, updated: set<string>, current: set<string>) {
    exists target <- targets :: ReportedFor(clients, target, item, updated, current)
  }

  ghost predicate ReportedFor(clients: Clients, target: Target, item: Attention, updated: set<string>, current: set<string>) {
    exists active: set<string> {:trigger Waits(clients, target, item, active)} ::
      Waits(clients, target, item, active) && active <= updated && (item.issue.Blocked? ==> current <= active)
  }

  /** Each target is either updated or reported, as often as it is named. */
  ghost predicate Accounted(targets: seq<Target>, updated: seq<string>, attention: seq<Attention>) {
    forall id :: Count(updated, id) + CountItems(attention, id) == CountTargets(targets, id)
  }

  /** What a finished batch promises of any server: every target is accounted for; updates were justified when
      they happened; and no add-on is reported blocked on the strength of an old review. */
  ghost predicate Outcome(clients: Clients, targets: seq<Target>, updated: seq<string>, attention: seq<Attention>) {
    && Accounted(targets, updated, attention)
    && Justified(clients, targets, updated)
    && forall item <- attention ::
         || (exists target <- targets :: NotStaged(clients, target, item))
         || Reported(clients, targets, item, Elements(updated), Elements(updated))
  }

  ghost predicate AllReported(clients: Clients, targets: seq<Target>, items: seq<Attention>, updated: set<string>, current: set<string>) {
    items == []
    || (AllReported(clients, targets, items[..|items| - 1], updated, current)
        && Reported(clients, targets, items[|items| - 1], updated, current))
  }

  lemma {:induction false} ReportedItem(clients: Clients, targets: seq<Target>, items: seq<Attention>, updated: set<string>, current: set<string>, i: nat)
    requires AllReported(clients, targets, items, updated, current) && i < |items|
    ensures Reported(clients, targets, items[i], updated, current)
  {
    if i < |items| - 1 {
      ReportedItem(clients, targets, items[..|items| - 1], updated, current, i);
    }
  }

  lemma AlsoReported(clients: Clients, targets: seq<Target>, items: seq<Attention>, updated: set<string>, current: set<string>, item: Attention)
    requires AllReported(clients, targets, items, updated, current) && Reported(clients, targets, item, updated, current)
    ensures AllReported(clients, targets, items + [item], updated, current)
  {
    assert (items + [item])[..|items|] == items;
  }

  lemma UpdateJustified(clients: Clients, targets: seq<Target>, updated: seq<string>, target: Target, addonId: string)
    requires Justified(clients, targets, updated) && target in targets
    requires Passes(clients, target, addonId, Elements(updated))
    ensures Justified(clients, targets, updated + [addonId])
  {
    var more := updated + [addonId];
    assert more[..|more| - 1] == updated;
  }

  lemma {:induction false} StillReported(clients: Clients, targets: seq<Target>, items: seq<Attention>, updated: set<string>, current: set<string>,
                                         updated': set<string>, current': set<string>)
    requires AllReported(clients, targets, items, updated, current)
    requires updated <= updated' && current' <= current
    ensures AllReported(clients, targets, items, updated', current')
  {
    if items != [] {
      var item := items[|items| - 1];
      StillReported(clients, targets, items[..|items| - 1], updated, current, updated', current');
      var target :| target in targets && ReportedFor(clients, target, item, updated, current);
      var active: set<string> :| Waits(clients, target, item, active) && active <= updated && (item.issue.Blocked? ==> current <= active);
      assert ReportedFor(clients, target, item, updated', current');
    }
  }

  /** The batch after the first targets were staged and attempted once. */
  ghost predicate Staged(clients: Clients, targets: seq<Target>, k: nat, updated: seq<string>, waiting: seq<Attention>, failed: seq<Attention>)
    requires k <= |targets|
  {
    && (forall id :: Count(updated, id) + CountItems(waiting, id) + CountItems(failed, id) == CountTargets(targets[..k], id))
    && Justified(clients, targets, updated)
    && AllReported(clients, targets, waiting, Elements(updated), {})
    && forall item <- failed :: exists target <- targets :: NotStaged(clients, target, item)
  }

  lemma StageFailed(clients: Clients, targets: seq<Target>, k: nat, updated: seq<string>, waiting: seq<Attention>, failed: seq<Attention>, item: Attention)
    requires k < |targets| && Staged(clients, targets, k, updated, waiting, failed) && NotStaged(clients, targets[k], item)
    ensures Staged(clients, targets, k + 1, updated, waiting, failed + [item])
  {
    assert targets[..k + 1][..k] == targets[..k] && (failed + [item])[..|failed|] == failed;
  }

  lemma StageWaits(clients: Clients, targets: seq<Target>, k: nat, updated: seq<string>, waiting: seq<Attention>, failed: seq<Attention>, item: Attention)
    requires k < |targets| && Staged(clients, targets, k, updated, waiting, failed) && Waits(clients, targets[k], item, Elements(updated))
    ensures Staged(clients, targets, k + 1, updated, waiting + [item], failed)
  {
    assert targets[..k + 1][..k] == targets[..k] && (waiting + [item])[..|waiting|] == waiting;
    assert ReportedFor(clients, targets[k], item, Elements(updated), {});
    AlsoReported(clients, targets, waiting, Elements(updated), {}, item);
  }

  lemma StageUpdates(clients: Clients, targets: seq<Target>, k: nat, updated: seq<string>, waiting: seq<Attention>, failed: seq<Attention>)
    requires k < |targets| && Staged(clients, targets, k, updated, waiting, failed)
    requires Passes(clients, targets[k], targets[k].addonId, Elements(updated))
    ensures Staged(clients, targets, k + 1, updated + [targets[k].addonId], waiting, failed)
  {
    assert targets[..k + 1][..k] == targets[..k] && (updated + [targets[k].addonId])[..|updated|] == updated;
    UpdateJustified(clients, targets, updated, targets[k], targets[k].addonId);
    StillReported(clients, targets, waiting, Elements(updated), {}, Elements(updated + [targets[k].addonId]), {});
  }

  lemma {:induction false} StagesStaged(clients: Clients, targets: seq<Target>, k: nat)
    requires k <= |targets|
    ensures
      var batch := Stages(clients, targets[..k]);
      Staged(clients, targets, k, batch.updated, batch.waiting, batch.failed)
  {
    hide Staged, StageOne, Stages;
    if k == 0 {
      StageStarts(clients, targets);
    } else {
      StagesStaged(clients, targets, k - 1);
      StagesStep(clients, targets, k - 1);
      StageOneStaged(clients, targets, k - 1, Stages(clients, targets[..k - 1]));
    }
  }

  lemma StageStarts(clients: Clients, targets: seq<Target>)
    ensures Stages(clients, targets[..0]) == Batch([], [], [])
    ensures Staged(clients, targets, 0, [], [], [])
  {
    assert targets[..0] == [];
  }

  lemma StagesStep(clients: Clients, targets: seq<Target>, k: nat)
    requires k < |targets|
    ensures Stages(clients, targets[..k + 1]) == StageOne(clients, Stages(clients, targets[..k]), targets[k])
  {
    hide StageOne;
    assert targets[..k + 1][..k] == targets[..k] && targets[..k + 1][k] == targets[k];
  }

  lemma StageOneStaged(clients: Clients, targets: seq<Target>, k: nat, batch: Batch)
    requires k < |targets| && Staged(clients, targets, k, batch.updated, batch.waiting, batch.failed)
    ensures
      var after := StageOne(clients, batch, targets[k]);
      Staged(clients, targets, k + 1, after.updated, after.waiting, after.failed)
  {
    hide Staged;
    var target := targets[k];
    match clients.stage(target)
    case Err(error) =>
      StageFailed(clients, targets, k, batch.updated, batch.waiting, batch.failed, Attention(target.addonId, Failed(error), None));
    case Ok(generationId) =>
      match Attempt(clients, target.addonId, generationId, Elements(batch.updated))
      case Some(issue) =>
        StageWaits(clients, targets, k, batch.updated, batch.waiting, batch.failed, Attention(target.addonId, issue, Some(generationId)));
      case None =>
        StageUpdates(clients, targets, k, batch.updated, batch.waiting, batch.failed);
  }

  method StageAll(targets: seq<Target>, clients: Clients)
    returns (updated: seq<string>, waiting: seq<Attention>, failed: seq<Attention>)
    ensures Batch(updated, waiting, failed) == Stages(clients, targets)
  {
    updated, waiting, failed := [], [], [];
    for k := 0 to |targets|
      invariant Batch(updated, waiting, failed) == Stages(clients, targets[..k])
    {
      var target := targets[k];
      assert targets[..k + 1][..k] == targets[..k];
      match clients.stage(target) {
        case Err(error) =>
          failed := failed + [Attention(target.addonId, Failed(error), None)];
        case Ok(generationId) =>
          var issue := Attempt(clients, target.addonId, generationId, Elements(updated));
          if issue.Some? {
            waiting := waiting + [Attention(target.addonId, issue.value, Some(generationId))];
          } else {
            updated := updated + [target.addonId];
          }
      }
    }
    assert targets[..|targets|] == targets;
  }

  /** The add-ons updated and waiting, together, are the same as before. */
  ghost predicate SameIds(updated: seq<string>, waiting: seq<Attention>, before: seq<string>, waited: seq<Attention>) {
    forall id :: Count(updated, id) + CountItems(waiting, id) == Count(before, id) + CountItems(waited, id)
  }

  /** A pass after the first of the add-ons that wait. */
  ghost predicate Retried(clients: Clients, targets: seq<Target>, before: seq<string>, waiting: seq<Attention>, k: nat,
                          updated: seq<string>, next: seq<Attention>)
    requires k <= |waiting|
  {
    && SameIds(updated, next, before, waiting[..k])
    && |updated| + |next| == |before| + k && before <= updated
    && Justified(clients, targets, updated) && Elements(before) <= Elements(updated)
    && AllReported(clients, targets, next, Elements(updated), Elements(before))
    && AllReported(clients, targets, waiting, Elements(updated), {})
  }

  lemma RetryStarts(clients: Clients, targets: seq<Target>, before: seq<string>, waiting: seq<Attention>)
    requires Justified(clients, targets, before) && AllReported(clients, targets, waiting, Elements(before), {})
    ensures Retried(clients, targets, before, waiting, 0, before, [])
  {
    assert waiting[..0] == [];
  }

  lemma StillSameIds(updated: seq<string>, waiting: seq<Attention>, before: seq<string>, waited: seq<Attention>, item: Attention, again: Attention)
    requires SameIds(updated, waiting, before, waited) && item.addonId == again.addonId
    ensures SameIds(updated, waiting + [again], before, waited + [item])
    ensures SameIds(updated + [item.addonId], waiting, before, waited + [item])
  {
    assert (waiting + [again])[..|waiting|] == waiting && (waited + [item])[..|waited|] == waited;
    assert (updated + [item.addonId])[..|updated|] == updated;
  }

  lemma RetryWaits(clients: Clients, targets: seq<Target>, before: seq<string>, waiting: seq<Attention>, k: nat,
                   updated: seq<string>, next: seq<Attention>, target: Target, item: Attention, active: set<string>)
    requires k < |waiting| && Retried(clients, targets, before, waiting, k, updated, next)
    requires target in targets && item.addonId == waiting[k].addonId && active <= Elements(updated)
    requires Waits(clients, target, item, active) && (item.issue.Blocked? ==> Elements(before) <= active)
    ensures Retried(clients, targets, before, waiting, k + 1, updated, next + [item])
  {
    hide AllReported, Justified, SameIds, Waits;
    assert waiting[..k + 1] == waiting[..k] + [waiting[k]];
    StillSameIds(updated, next, before, waiting[..k], waiting[k], item);
    assert ReportedFor(clients, target, item, Elements(updated), Elements(before));
    AlsoReported(clients, targets, next, Elements(updated), Elements(before), item);
  }

  lemma RetryUpdates(clients: Clients, targets: seq<Target>, before: seq<string>, waiting: seq<Attention>, k: nat,
                     updated: seq<string>, next: seq<Attention>, target: Target)
    requires k < |waiting| && Retried(clients, targets, before, waiting, k, updated, next)
    requires target in targets && Passes(clients, target, waiting[k].addonId, Elements(updated))
    ensures Retried(clients, targets, before, waiting, k + 1, updated + [waiting[k].addonId], next)
  {
    hide Justified, AllReported, SameIds, Passes;
    var more := updated + [waiting[k].addonId];
    assert waiting[..k + 1] == waiting[..k] + [waiting[k]];
    StillSameIds(updated, next, before, waiting[..k], waiting[k], waiting[k]);
    UpdateJustified(clients, targets, updated, target, waiting[k].addonId);
    StillReported(clients, targets, next, Elements(updated), Elements(before), Elements(more), Elements(before));
    StillReported(clients, targets, waiting, Elements(updated), {}, Elements(more), {});
  }

  lemma WaitingTarget(clients: Clients, targets: seq<Target>, items: seq<Attention>, updated: set<string>, i: nat)
    returns (target: Target, active: set<string>)
    requires AllReported(clients, targets, items, updated, {}) && i < |items|
    ensures target in targets && active <= updated && Waits(clients, target, items[i], active)
  {
    ReportedItem(clients, targets, items, updated, {}, i);
    target :| target in targets && ReportedFor(clients, target, items[i], updated, {});
    active :| active <= updated && Waits(clients, target, items[i], active);
  }

  lemma RetriedNext(clients: Clients, targets: seq<Target>, before: seq<string>, waiting: seq<Attention>, k: nat,
                    updated: seq<string>, next: seq<Attention>)
    requires k < |waiting| && Retried(clients, targets, before, waiting, k, updated, next)
    ensures
      match Again(clients, waiting[k], Elements(updated))
      case Some(issue) => Retried(clients, targets, before, waiting, k + 1, updated, next + [waiting[k].(issue := issue)])
      case None => Retried(clients, targets, before, waiting, k + 1, updated + [waiting[k].addonId], next)
  {
    var item := waiting[k];
    var target, active := WaitingTarget(clients, targets, waiting, Elements(updated), k);
    if item.issue.Blocked? {
      active := Elements(updated);
    }
    hide Retried, AllReported, Justified, SameIds;
    assert Elements(before) <= Elements(updated) by { RetriedGrows(clients, targets, before, waiting, k, updated, next); }
    match Again(clients, item, Elements(updated))
    case Some(issue) => RetryWaits(clients, targets, before, waiting, k, updated, next, target, item.(issue := issue), active);
    case None => RetryUpdates(clients, targets, before, waiting, k, updated, next, target);
  }

  lemma RetriedGrows(clients: Clients, targets: seq<Target>, before: seq<string>, waiting: seq<Attention>, k: nat,
                     updated: seq<string>, next: seq<Attention>)
    requires k <= |waiting| && Retried(clients, targets, before, waiting, k, updated, next)
    ensures Elements(before) <= Elements(updated)
  {
  }

  lemma {:induction false} RoundRetried(clients: Clients, targets: seq<Target>, before: seq<string>, waiting: seq<Attention>, k: nat)
    requires k <= |waiting| && Retried(clients, targets, before, waiting, 0, before, [])
    ensures
      var (updated, next) := Round(clients, before, waiting[..k]);
      Retried(clients, targets, before, waiting, k, updated, next)
  {
    hide Retried, Again, Round;
    if k == 0 {
      assert Round(clients, before, waiting[..0]) == (before, []) by { RoundStarts(clients, before, waiting); }
    } else {
      RoundRetried(clients, targets, before, waiting, k - 1);
      RoundStep(clients, before, waiting, k - 1);
      var (updated, next) := Round(clients, before, waiting[..k - 1]);
      RetriedNext(clients, targets, before, waiting, k - 1, updated, next);
    }
  }

  lemma RoundStarts(clients: Clients, before: seq<string>, waiting: seq<Attention>)
    ensures Round(clients, before, waiting[..0]) == (before, [])
  {
    assert waiting[..0] == [];
  }

  lemma RoundStep(clients: Clients, before: seq<string>, waiting: seq<Attention>, k: nat)
    requires k < |waiting|
    ensures
      var (updated, next) := Round(clients, before, waiting[..k]);
      Round(clients, before, waiting[..k + 1])
      == match Again(clients, waiting[k], Elements(updated))
         case Some(issue) => (updated, next + [waiting[k].(issue := issue)])
         case None => (updated + [waiting[k].addonId], next)
  {
    hide Again;
    assert waiting[..k + 1][..k] == waiting[..k] && waiting[..k + 1][k] == waiting[k];
  }

  /** One pass over the add-ons that wait: the blocked ones are attempted again. */
  method Pass(clients: Clients, before: seq<string>, waiting: seq<Attention>) returns (updated: seq<string>, next: seq<Attention>)
    ensures (updated, next) == Round(clients, before, waiting)
  {
    updated, next := before, [];
    for k := 0 to |waiting|
      invariant (updated, next) == Round(clients, before, waiting[..k])
    {
      var item := waiting[k];
      assert waiting[..k + 1][..k] == waiting[..k];
      var issue := Again(clients, item, Elements(updated));
      if issue.Some? {
        next := next + [item.(issue := issue.value)];
      } else {
        updated := updated + [item.addonId];
      }
    }
    assert waiting[..|waiting|] == waiting;
  }

  /** Updates what needs no decision; passes repeat while they make progress, so the loop ends when no blocked
      add-on has been unblocked. */
  method UpdateAll(targets: seq<Target>, clients: Clients) returns (updated: seq<string>, attention: seq<Attention>)
    ensures (updated, attention) == Run(clients, targets)
    ensures Outcome(clients, targets, updated, attention)
  {
    var waiting, failed;
    updated, waiting, failed := StageAll(targets, clients);
    var progress := updated != [];
    while progress
      invariant Rounds(clients, updated, waiting, progress)
        == Rounds(clients, Stages(clients, targets).updated, Stages(clients, targets).waiting, Stages(clients, targets).updated != [])
      decreases |waiting|, progress
    {
      var before := updated;
      updated, waiting := Pass(clients, before, waiting);
      progress := |before| < |updated|;
    }
    attention := waiting + failed;
    RunHasOutcome(clients, targets);
  }

  /** A batch whose passes go on: what waits may still be blocked on the strength of an old review. */
  ghost predicate Running(clients: Clients, targets: seq<Target>, updated: seq<string>, waiting: seq<Attention>, failed: seq<Attention>, progress: bool) {
    && (forall id :: Count(updated, id) + CountItems(waiting, id) + CountItems(failed, id) == CountTargets(targets, id))
    && Justified(clients, targets, updated)
    && AllReported(clients, targets, waiting, Elements(updated), if progress then {} else Elements(updated))
    && forall item <- failed :: exists target <- targets :: NotStaged(clients, target, item)
  }

  lemma RoundKeepsRunning(clients: Clients, targets: seq<Target>, updated: seq<string>, waiting: seq<Attention>, failed: seq<Attention>)
    requires Running(clients, targets, updated, waiting, failed, true)
    ensures
      var (more, next) := Round(clients, updated, waiting);
      Running(clients, targets, more, next, failed, |updated| < |more|)
  {
    RetryStarts(clients, targets, updated, waiting);
    RoundRetried(clients, targets, updated, waiting, |waiting|);
    assert waiting[..|waiting|] == waiting;
    var (more, next) := Round(clients, updated, waiting);
    if |updated| < |more| {
      StillReported(clients, targets, next, Elements(more), Elements(updated), Elements(more), {});
    } else {
      assert more == updated;
    }
  }

  lemma {:induction false} RoundsEnd(clients: Clients, targets: seq<Target>, updated: seq<string>, waiting: seq<Attention>, failed: seq<Attention>, progress: bool)
    requires Running(clients, targets, updated, waiting, failed, progress)
    ensures
      var (all, rest) := Rounds(clients, updated, waiting, progress);
      Running(clients, targets, all, rest, failed, false)
    decreases |waiting|, progress
  {
    hide Running;
    if progress {
      var (more, next) := Round(clients, updated, waiting);
      RoundKeepsRunning(clients, targets, updated, waiting, failed);
      RoundsEnd(clients, targets, more, next, failed, |updated| < |more|);
    }
  }

  /** Whatever the server answers, every batch has a sound outcome. */
  lemma RunHasOutcome(clients: Clients, targets: seq<Target>)
    ensures Outcome(clients, targets, Run(clients, targets).0, Run(clients, targets).1)
  {
    var batch := Stages(clients, targets);
    StagesStaged(clients, targets, |targets|);
    assert targets[..|targets|] == targets;
    StagedIsRunning(clients, targets, batch);
    RoundsEnd(clients, targets, batch.updated, batch.waiting, batch.failed, batch.updated != []);
    var (updated, waiting) := Rounds(clients, batch.updated, batch.waiting, batch.updated != []);
    EndedHasOutcome(clients, targets, updated, waiting, batch.failed);
  }

  lemma StagedIsRunning(clients: Clients, targets: seq<Target>, batch: Batch)
    requires Staged(clients, targets, |targets|, batch.updated, batch.waiting, batch.failed)
    ensures Running(clients, targets, batch.updated, batch.waiting, batch.failed, batch.updated != [])
  {
    assert targets[..|targets|] == targets;
    assert batch.updated == [] ==> Elements(batch.updated) == {};
  }

  lemma EndedHasOutcome(clients: Clients, targets: seq<Target>, updated: seq<string>, waiting: seq<Attention>, failed: seq<Attention>)
    requires Running(clients, targets, updated, waiting, failed, false)
    ensures Outcome(clients, targets, updated, waiting + failed)
  {
    forall i | 0 <= i < |waiting|
      ensures Reported(clients, targets, waiting[i], Elements(updated), Elements(updated))
    {
      ReportedItem(clients, targets, waiting, Elements(updated), Elements(updated), i);
    }
    ItemsSplit(waiting, failed);
  }

  lemma {:induction false} ItemsSplit(left: seq<Attention>, right: seq<Attention>)
    ensures forall id :: CountItems(left + right, id) == CountItems(left, id) + CountItems(right, id)
  {
    if right == [] {
      assert left + right == left;
    } else {
      ItemsSplit(left, right[..|right| - 1]);
      assert (left + right)[..|left + right| - 1] == left + right[..|right| - 1];
    }
  }

  // ----- what a batch did with each add-on -----

  /** `codes` are the elements of `s` at the positions `at`: exactly those that `known` does not have, in their order. */
  ghost predicate Selects(s: seq<string>, known: set<string>, codes: seq<string>, at: seq<nat>) {
    && |at| == |codes| && (forall j, k | 0 <= j < k < |at| :: at[j] < at[k])
    && (forall k | 0 <= k < |at| :: at[k] < |s| && s[at[k]] !in known && codes[k] == s[at[k]])
    && forall i: nat | i < |s| && s[i] !in known :: i in at
  }

  lemma {:induction false} ExcludingNext(s: seq<string>, known: set<string>, last: string)
    ensures Excluding(s + [last], known) == Excluding(s, known) + if last in known then [] else [last]
  {
    if s != [] {
      ExcludingNext(s[1..], known, last);
      assert (s + [last])[1..] == s[1..] + [last];
    }
  }

  lemma {:induction false} ExcludingSelects(s: seq<string>, known: set<string>) returns (at: seq<nat>)
    ensures Selects(s, known, Excluding(s, known), at)
  {
    at := [];
    if s != [] {
      var front, last := s[..|s| - 1], s[|s| - 1];
      assert s == front + [last];
      at := ExcludingSelects(front, known);
      ExcludingNext(front, known, last);
      SelectsNext(front, known, Excluding(front, known), at, last);
      if last !in known {
        at := at + [|front|];
      } else {
        assert Excluding(front, known) + [] == Excluding(front, known);
      }
    }
  }

  lemma SelectsNext(s: seq<string>, known: set<string>, codes: seq<string>, at: seq<nat>, last: string)
    requires Selects(s, known, codes, at)
    ensures if last in known then Selects(s + [last], known, codes, at) else Selects(s + [last], known, codes + [last], at + [|s|])
  {
    var more := s + [last];
    assert forall i | 0 <= i < |s| :: more[i] == s[i];
    assert last !in known ==> (at + [|s|])[|at|] == |s|;
    assert forall k | 0 <= k < |at| :: (at + [|s|])[k] == at[k] && at[k] in at + [|s|];
  }

  lemma {:induction false} UniqueRepeatsNone(s: seq<string>)
    ensures NoRepeats(Unique(s))
  {
    if s != [] {
      UniqueRepeatsNone(s[..|s| - 1]);
    }
  }

  /** What the changes of a review newly ask for, and what it requires beyond the suggested grants. */
  ghost predicate IsAskedFor(review: Review, permission: string) {
    || (permission in review.required && permission !in review.suggested)
    || (FirstOf(review.changes, "permissions").Some?
        && var change := FirstOf(review.changes, "permissions").value; permission in change.added || permission in change.changed)
  }

  ghost predicate AsksForNothing(review: Review) {
    review.blockers == [] && review.currentVersion != "" && forall permission :: !IsAskedFor(review, permission)
  }

  /** The issue that a review gives: its blockers other than those of saved data, else saved data, else that the add-on is
      off, else the permissions it asks for. */
  ghost predicate Gives(review: Review, issue: Issue) {
    match issue
    case Blocked(codes) => codes != [] && exists at :: Selects(review.blockers, DATA_BLOCKERS, codes, at)
    case Data => review.blockers != [] && forall code <- review.blockers :: code in DATA_BLOCKERS
    case Disabled => review.blockers == [] && review.currentVersion == ""
    case Permissions(permissions) =>
      && review.blockers == [] && review.currentVersion != "" && permissions != [] && NoRepeats(permissions)
      && forall permission :: permission in permissions <==> IsAskedFor(review, permission)
    case _ => false
  }

  lemma IssueIsExact(review: Review)
    ensures ReviewIssue(review).None? <==> AsksForNothing(review)
    ensures ReviewIssue(review).Some? ==> Gives(review, ReviewIssue(review).value)
  {
    var at := ExcludingSelects(review.blockers, DATA_BLOCKERS);
    var requested := RequestedPermissions(review);
    forall permission
      ensures permission in requested <==> IsAskedFor(review, permission)
    {
    }
    EmptyOrInhabited(requested);
    var changes := FirstOf(review.changes, "permissions");
    UniqueRepeatsNone((if changes.Some? then changes.value.added + changes.value.changed else [])
                      + Excluding(review.required, Elements(review.suggested)));
    if Excluding(review.blockers, DATA_BLOCKERS) == [] {
      forall code <- review.blockers
        ensures code in DATA_BLOCKERS
      {
        assert code !in Excluding(review.blockers, DATA_BLOCKERS);
      }
    }
  }

  /** The staged package was reviewed, asked for nothing, and was activated with the suggested grants. */
  ghost predicate Activated(clients: Clients, target: Target, addonId: string, active: set<string>) {
    && target.addonId == addonId && clients.stage(target).Ok?
    && var generationId := clients.stage(target).value;
       && clients.review(addonId, generationId, active).Ok?
       && var review := clients.review(addonId, generationId, active).value;
          AsksForNothing(review) && clients.activate(addonId, generationId, review.suggested, active) == None
  }

  /** The staged package was reviewed while `active` were, and the issue is the review's, or the error of the review or of
      the activation that it allowed. */
  ghost predicate Explained(clients: Clients, target: Target, item: Attention, active: set<string>) {
    && item.addonId == target.addonId && clients.stage(target).Ok? && item.generationId == Some(clients.stage(target).value)
    && match clients.review(item.addonId, clients.stage(target).value, active)
       case Err(error) => item.issue == Failed(error)
       case Ok(review) =>
         if AsksForNothing(review) then
           var answer := clients.activate(item.addonId, clients.stage(target).value, review.suggested, active);
           answer.Some? && item.issue == Failed(answer.value)
         else Gives(review, item.issue)
  }

  lemma PassedWasActivated(clients: Clients, target: Target, addonId: string, active: set<string>)
    ensures Passes(clients, target, addonId, active) <==> Activated(clients, target, addonId, active)
  {
    hide ReviewIssue, AsksForNothing, Gives;
    if clients.stage(target).Ok? && clients.review(addonId, clients.stage(target).value, active).Ok? {
      IssueIsExact(clients.review(addonId, clients.stage(target).value, active).value);
    }
  }

  lemma WaitingIsExplained(clients: Clients, target: Target, item: Attention, active: set<string>)
    requires Waits(clients, target, item, active)
    ensures Explained(clients, target, item, active)
  {
    hide ReviewIssue, AsksForNothing, Gives;
    if clients.review(item.addonId, clients.stage(target).value, active).Ok? {
      IssueIsExact(clients.review(item.addonId, clients.stage(target).value, active).value);
    }
  }

  ghost predicate WasActivated(clients: Clients, targets: seq<Target>, updated: seq<string>, i: nat)
    requires i < |updated|
  {
    exists target <- targets :: Activated(clients, target, updated[i], Elements(updated[..i]))
  }

  /** An updated add-on was activated when those before it were active. */
  lemma {:induction false} UpdatedWasActivated(clients: Clients, targets: seq<Target>, updated: seq<string>, i: nat)
    requires Justified(clients, targets, updated) && i < |updated|
    ensures WasActivated(clients, targets, updated, i)
  {
    hide Passes, Activated;
    if i == |updated| - 1 {
      var target :| target in targets && Passes(clients, target, updated[i], Elements(updated[..i]));
      PassedWasActivated(clients, target, updated[i], Elements(updated[..i]));
    } else {
      UpdatedWasActivated(clients, targets, updated[..|updated| - 1], i);
      assert updated[..|updated| - 1][..i] == updated[..i];
    }
  }

  ghost predicate ReasonFor(clients: Clients, targets: seq<Target>, item: Attention, target: Target, active: set<string>, updated: set<string>) {
    && target in targets && active <= updated
    && (NotStaged(clients, target, item) || Explained(clients, target, item, active))
    && (item.issue.Blocked? ==> active == updated)
  }

  /** What a batch did, for any server: every update was activated with the grants its review suggested, and every report
      has the reason that its last attempt gave, with all updates active if it is that the add-on is blocked. */
  lemma BatchIsExplained(clients: Clients, targets: seq<Target>, updated: seq<string>, attention: seq<Attention>)
    requires Run(clients, targets) == (updated, attention)
    ensures forall i | 0 <= i < |updated| :: WasActivated(clients, targets, updated, i)
    ensures forall item <- attention :: exists target, active: set<string> :: ReasonFor(clients, targets, item, target, active, Elements(updated))
  {
    hide Run, Accounted, Justified, WasActivated, NotStaged, Explained, Waits;
    RunHasOutcome(clients, targets);
    forall i | 0 <= i < |updated|
      ensures WasActivated(clients, targets, updated, i)
    {
      UpdatedWasActivated(clients, targets, updated, i);
    }
    forall item <- attention
      ensures exists target, active: set<string> :: ReasonFor(clients, targets, item, target, active, Elements(updated))
    {
      if target :| target in targets && NotStaged(clients, target, item) {
        assert !item.issue.Blocked? by { NotStagedIsFailed(clients, target, item); }
        assert ReasonFor(clients, targets, item, target, {}, Elements(updated));
      } else {
        var target :| target in targets && ReportedFor(clients, target, item, Elements(updated), Elements(updated));
        var active: set<string> :| Waits(clients, target, item, active) && active <= Elements(updated)
          && (item.issue.Blocked? ==> Elements(updated) <= active);
        WaitingIsExplained(clients, target, item, active);
        assert ReasonFor(clients, targets, item, target, active, Elements(updated));
      }
    }
  }

  lemma NotStagedIsFailed(clients: Clients, target: Target, item: Attention)
    requires NotStaged(clients, target, item)
    ensures item.issue.Failed?
  {
  }

  // ----- the least fixed point -----

  /** Active updates can only unblock an add-on; every other answer stays what it is. */
  ghost predicate Steady(clients: Clients) {
    forall addonId, generationId, fewer: set<string>, more: set<string> | fewer <= more ::
      KeepsAnswer(clients, addonId, generationId, fewer, more)
  }

  ghost predicate KeepsAnswer(clients: Clients, addonId: string, generationId: string, fewer: set<string>, more: set<string>) {
    var answer := Attempt(clients, addonId, generationId, fewer);
    answer == Attempt(clients, addonId, generationId, more) || (answer.Some? && answer.value.Blocked?)
  }

  lemma StillPasses(clients: Clients, target: Target, addonId: string, fewer: set<string>, more: set<string>)
    requires Steady(clients) && Passes(clients, target, addonId, fewer) && fewer <= more
    ensures Passes(clients, target, addonId, more)
  {
    assert KeepsAnswer(clients, addonId, clients.stage(target).value, fewer, more);
  }

  ghost predicate DistinctTargets(targets: seq<Target>) {
    forall i, j | 0 <= i < j < |targets| :: targets[i].addonId != targets[j].addonId
  }

  ghost predicate FixedPoint(clients: Clients, targets: seq<Target>, active: set<string>) {
    forall addonId :: addonId in active <==> CanUpdate(clients, targets, addonId, active)
  }

  lemma {:induction false} UpdatedIsLeast(clients: Clients, targets: seq<Target>, updated: seq<string>, closed: set<string>)
    requires Steady(clients) && Justified(clients, targets, updated)
    requires forall addonId | CanUpdate(clients, targets, addonId, closed) :: addonId in closed
    ensures Elements(updated) <= closed
  {
    hide CanUpdate, Steady;
    if updated != [] {
      var front, last := updated[..|updated| - 1], updated[|updated| - 1];
      UpdatedIsLeast(clients, targets, front, closed);
      StillCanUpdate(clients, targets, last, Elements(front), closed);
      assert updated == front + [last];
    }
  }

  lemma StillCanUpdate(clients: Clients, targets: seq<Target>, addonId: string, fewer: set<string>, more: set<string>)
    requires Steady(clients) && CanUpdate(clients, targets, addonId, fewer) && fewer <= more
    ensures CanUpdate(clients, targets, addonId, more)
  {
    var target :| target in targets && Passes(clients, target, addonId, fewer);
    StillPasses(clients, target, addonId, fewer, more);
  }

  /** Different add-ons: each is in exactly one of the two lists. */
  lemma InOneList(targets: seq<Target>, updated: seq<string>, attention: seq<Attention>, addonId: string)
    requires DistinctTargets(targets) && Accounted(targets, updated, attention)
    ensures (exists target <- targets :: target.addonId == addonId) <==> addonId in updated || exists item <- attention :: item.addonId == addonId
    ensures !(addonId in updated && exists item <- attention :: item.addonId == addonId)
  {
    CountIsPresence(updated, addonId);
    ItemCountIsPresence(attention, addonId);
    TargetCountIsPresence(targets, addonId);
    assert Count(updated, addonId) + CountItems(attention, addonId) == CountTargets(targets, addonId);
  }

  lemma {:induction false} CountIsPresence(ids: seq<string>, id: string)
    ensures Count(ids, id) > 0 <==> id in ids
  {
    if ids != [] {
      assert ids == ids[..|ids| - 1] + [ids[|ids| - 1]];
      CountIsPresence(ids[..|ids| - 1], id);
    }
  }

  lemma {:induction false} ItemCountIsPresence(items: seq<Attention>, id: string)
    ensures CountItems(items, id) > 0 <==> exists item <- items :: item.addonId == id
  {
    if items != [] {
      assert items == items[..|items| - 1] + [items[|items| - 1]];
      ItemCountIsPresence(items[..|items| - 1], id);
    }
  }

  lemma {:induction false} TargetCountIsPresence(targets: seq<Target>, id: string)
    ensures CountTargets(targets, id) > 0 <==> exists target <- targets :: target.addonId == id
    ensures DistinctTargets(targets) ==> CountTargets(targets, id) <= 1
  {
    if targets != [] {
      var front, last := targets[..|targets| - 1], targets[|targets| - 1];
      assert targets == front + [last];
      TargetCountIsPresence(front, id);
      if DistinctTargets(targets) && last.addonId == id {
        forall target <- front
          ensures target.addonId != id
        {
          var i :| 0 <= i < |front| && front[i] == target;
          assert targets[i].addonId != targets[|front|].addonId;
        }
      }
    }
  }

  lemma SameTarget(targets: seq<Target>, a: Target, b: Target)
    requires DistinctTargets(targets) && a in targets && b in targets && a.addonId == b.addonId
    ensures a == b
  {
    var i :| 0 <= i < |targets| && targets[i] == a;
    var j :| 0 <= j < |targets| && targets[j] == b;
  }

  /** What a report is about: a target that could not be staged, or one that was attempted. */
  lemma ReportedTarget(clients: Clients, targets: seq<Target>, updated: seq<string>, attention: seq<Attention>, item: Attention) returns (target: Target)
    requires Outcome(clients, targets, updated, attention) && item in attention
    ensures target in targets && target.addonId == item.addonId
    ensures clients.stage(target).Err? ==> NotStaged(clients, target, item)
    ensures clients.stage(target).Ok? ==> ReportedFor(clients, target, item, Elements(updated), Elements(updated))
  {
    if Reported(clients, targets, item, Elements(updated), Elements(updated)) {
      target :| target in targets && ReportedFor(clients, target, item, Elements(updated), Elements(updated));
    } else {
      target :| target in targets && NotStaged(clients, target, item);
    }
  }

  /** The report an attempt would give now is the one that was given. */
  lemma ReportIsCurrent(clients: Clients, targets: seq<Target>, updated: seq<string>, attention: seq<Attention>, item: Attention, target: Target)
    requires Steady(clients) && DistinctTargets(targets) && Outcome(clients, targets, updated, attention)
    requires item in attention && target in targets && target.addonId == item.addonId && clients.stage(target).Ok?
    ensures item.generationId == Some(clients.stage(target).value)
    ensures Attempt(clients, item.addonId, clients.stage(target).value, Elements(updated)) == Some(item.issue)
  {
    var other := ReportedTarget(clients, targets, updated, attention, item);
    SameTarget(targets, target, other);
    var active: set<string> :| active <= Elements(updated)
      && Waits(clients, target, item, active) && (item.issue.Blocked? ==> Elements(updated) <= active);
    assert KeepsAnswer(clients, item.addonId, item.generationId.value, active, Elements(updated));
    if item.issue.Blocked? {
      assert active == Elements(updated);
    }
  }

  /** A batch updates exactly the least fixed point: everything that can be updated, and nothing that only
      some other set of updates would have allowed. */
  lemma BatchIsLeastFixedPoint(clients: Clients, targets: seq<Target>, updated: seq<string>, attention: seq<Attention>)
    requires Steady(clients) && DistinctTargets(targets) && Outcome(clients, targets, updated, attention)
    ensures FixedPoint(clients, targets, Elements(updated))
    ensures forall other: set<string> | FixedPoint(clients, targets, other) :: Elements(updated) <= other
  {
    forall addonId
      ensures addonId in Elements(updated) <==> CanUpdate(clients, targets, addonId, Elements(updated))
    {
      if addonId in updated {
        UpdatedCanUpdate(clients, targets, updated, addonId, Elements(updated));
      } else if target :| target in targets && Passes(clients, target, addonId, Elements(updated)) {
        InOneList(targets, updated, attention, addonId);
        var item :| item in attention && item.addonId == addonId;
        ReportIsCurrent(clients, targets, updated, attention, item, target);
      }
    }
    forall other: set<string> | FixedPoint(clients, targets, other)
      ensures Elements(updated) <= other
    {
      UpdatedIsLeast(clients, targets, updated, other);
    }
  }

  lemma {:induction false} UpdatedCanUpdate(clients: Clients, targets: seq<Target>, updated: seq<string>, addonId: string, active: set<string>)
    requires Steady(clients) && Justified(clients, targets, updated) && addonId in updated && Elements(updated) <= active
    ensures CanUpdate(clients, targets, addonId, active)
  {
    var front, last := updated[..|updated| - 1], updated[|updated| - 1];
    assert updated == front + [last];
    assert Elements(front) <= active;
    if addonId in front {
      UpdatedCanUpdate(clients, targets, front, addonId, active);
    } else {
      StillCanUpdate(clients, targets, addonId, Elements(front), active);
    }
  }

  /** The order of the targets does not matter: two batches over the same targets update the same add-ons and
      report the same issues. */
  lemma OrderDoesNotMatter(clients: Clients, targets: seq<Target>, others: seq<Target>,
                           updated: seq<string>, attention: seq<Attention>, updated': seq<string>, attention': seq<Attention>)
    requires Steady(clients) && DistinctTargets(targets) && DistinctTargets(others)
    requires forall target :: target in targets <==> target in others
    requires Outcome(clients, targets, updated, attention) && Outcome(clients, others, updated', attention')
    ensures Elements(updated) == Elements(updated')
    ensures forall item :: item in attention <==> item in attention'
  {
    BatchIsLeastFixedPoint(clients, targets, updated, attention);
    BatchIsLeastFixedPoint(clients, others, updated', attention');
    assert forall addonId, active: set<string> :: CanUpdate(clients, targets, addonId, active) <==> CanUpdate(clients, others, addonId, active);
    assert FixedPoint(clients, targets, Elements(updated')) && FixedPoint(clients, others, Elements(updated));
    SameReports(clients, targets, others, updated, attention, updated', attention');
    SameReports(clients, others, targets, updated', attention', updated, attention);
  }

  /** So it is for what the batches return. */
  lemma RunsAgree(clients: Clients, targets: seq<Target>, others: seq<Target>)
    requires Steady(clients) && DistinctTargets(targets) && DistinctTargets(others)
    requires forall target :: target in targets <==> target in others
    ensures Elements(Run(clients, targets).0) == Elements(Run(clients, others).0)
    ensures forall item :: item in Run(clients, targets).1 <==> item in Run(clients, others).1
  {
    hide Run, Steady, Outcome;
    RunHasOutcome(clients, targets);
    RunHasOutcome(clients, others);
    OrderDoesNotMatter(clients, targets, others, Run(clients, targets).0, Run(clients, targets).1, Run(clients, others).0, Run(clients, others).1);
  }

  lemma SameReports(clients: Clients, targets: seq<Target>, others: seq<Target>,
                    updated: seq<string>, attention: seq<Attention>, updated': seq<string>, attention': seq<Attention>)
    requires Steady(clients) && DistinctTargets(targets) && DistinctTargets(others)
    requires forall target :: target in targets <==> target in others
    requires Outcome(clients, targets, updated, attention) && Outcome(clients, others, updated', attention')
    requires Elements(updated) == Elements(updated')
    ensures forall item | item in attention :: item in attention'
  {
    forall item | item in attention
      ensures item in attention'
    {
      var target := ReportedTarget(clients, targets, updated, attention, item);
      var counterpart := Counterpart(targets, others, updated, attention, updated', attention', item, target);
      var target' := ReportedTarget(clients, others, updated', attention', counterpart);
      SameTarget(others, target, target');
      if clients.stage(target).Ok? {
        ReportIsCurrent(clients, targets, updated, attention, item, target);
        ReportIsCurrent(clients, others, updated', attention', counterpart, target);
      }
    }
  }

  lemma Counterpart(targets: seq<Target>, others: seq<Target>, updated: seq<string>, attention: seq<Attention>,
                    updated': seq<string>, attention': seq<Attention>, item: Attention, target: Target) returns (counterpart: Attention)
    requires DistinctTargets(targets) && DistinctTargets(others)
    requires Accounted(targets, updated, attention)
    requires Accounted(others, updated', attention')
    requires Elements(updated) == Elements(updated') && item in attention && target in others && target.addonId == item.addonId
    ensures counterpart in attention' && counterpart.addonId == item.addonId
  {
    InOneList(targets, updated, attention, item.addonId);
    InOneList(others, updated', attention', item.addonId);
    assert item.addonId !in Elements(updated) && item.addonId !in Elements(updated');
    counterpart :| counterpart in attention' && counterpart.addonId == item.addonId;
  }

  // ----- updatePlan -----

  function Available(candidates: seq<Candidate>): (r: seq<Candidate>)
    ensures forall candidate :: candidate in r <==> candidate in candidates && !candidate.active
    ensures |r| <= |candidates|
  {
    if candidates == [] then []
    else (if candidates[0].active then [] else [candidates[0]]) + Available(candidates[1..])
  }

  ghost predicate HasUpdate(check: Check) {
    check.Found? && exists candidate <- check.candidates :: !candidate.active
  }

  /** Splits the last checks: an add-on with an update or a failed check is a target or is reported, never
      skipped, and only a single package that is not active becomes a target. */
  method UpdatePlan(results: seq<(string, Check)>) returns (targets: seq<Target>, attention: seq<Attention>)
    ensures forall target :: target in targets <==> exists result <- results :: IsTargetOf(target, result)
    ensures forall item :: item in attention <==> exists result <- results :: IsReportOf(item, result)
    ensures DistinctNames(results) ==> DistinctTargets(targets)
  {
    targets, attention := [], [];
    for k := 0 to |results|
      invariant forall target :: target in targets <==> exists result <- results[..k] :: IsTargetOf(target, result)
      invariant forall item :: item in attention <==> exists result <- results[..k] :: IsReportOf(item, result)
      invariant DistinctNames(results) ==> DistinctTargets(targets)
    {
      var (addonId, check) := results[k];
      assert results[..k + 1] == results[..k] + [results[k]];
      ghost var knownTargets, knownItems := targets, attention;
      match check {
        case CheckFailed(message) =>
          attention := attention + [Attention(addonId, Unchecked(message), None)];
        case Found(candidates) =>
          var available := Available(candidates);
          NoneAvailable(candidates);
          if available != [] {
            assert available[0] in available;
            if |candidates| == 1 {
              targets := targets + [Target(addonId, candidates, available[0].id)];
            } else {
              attention := attention + [Attention(addonId, Choose, None)];
            }
          }
      }
      assert forall target :: target in targets <==> target in knownTargets || IsTargetOf(target, results[k]);
      assert forall item :: item in attention <==> item in knownItems || IsReportOf(item, results[k]);
      if DistinctNames(results) {
        NewName(results, k, knownTargets);
      }
    }
    assert results[..|results|] == results;
  }

  lemma NoneAvailable(candidates: seq<Candidate>)
    ensures Available(candidates) == [] <==> !HasUpdate(Found(candidates))
  {
    if Available(candidates) != [] {
      assert Available(candidates)[0] in Available(candidates);
    }
  }

  ghost predicate DistinctNames(results: seq<(string, Check)>) {
    forall i, j | 0 <= i < j < |results| :: results[i].0 != results[j].0
  }

  ghost predicate IsTargetOf(target: Target, result: (string, Check)) {
    && result.1 == Found(target.candidates) && |target.candidates| == 1 && !target.candidates[0].active
    && target.addonId == result.0 && target.candidateId == target.candidates[0].id
  }

  ghost predicate IsReportOf(item: Attention, result: (string, Check)) {
    || (result.1.CheckFailed? && item == Attention(result.0, Unchecked(result.1.message), None))
    || (HasUpdate(result.1) && |result.1.candidates| != 1 && item == Attention(result.0, Choose, None))
  }

  lemma NewName(results: seq<(string, Check)>, k: nat, targets: seq<Target>)
    requires k < |results| && DistinctNames(results)
    requires forall target :: target in targets <==> exists result <- results[..k] :: IsTargetOf(target, result)
    ensures forall target <- targets :: target.addonId != results[k].0
  {
    forall target <- targets
      ensures target.addonId != results[k].0
    {
      var result :| result in results[..k] && IsTargetOf(target, result);
      var i :| 0 <= i < k && results[..k][i] == result;
      assert results[i] == result;
    }
  }

  /** Two add-ons, each of which the other's update blocks. */
  function RivalReview(active: set<string>): Review {
    if active == {} then Review([], [], "1", [], []) else Review([], [], "1", [], ["CONFLICT"])
  }

  function Rivals(): Clients {
    Clients(
      (target: Target) => Ok(target.addonId),
      (addonId: string, generationId: string, active: set<string>) => Ok(RivalReview(active)),
      (addonId: string, generationId: string, grants: seq<string>, active: set<string>) => None)
  }

  lemma RivalsBlock(addonId: string, generationId: string, active: set<string>)
    ensures Attempt(Rivals(), addonId, generationId, active) == if active == {} then None else Some(Blocked(["CONFLICT"]))
  {
    var review := RivalReview(active);
    assert Rivals().review(addonId, generationId, active) == Ok(review);
    if active == {} {
      ApprovedAsksForNothingNew(review);
      assert Rivals().activate(addonId, generationId, review.suggested, active) == None;
    } else {
      assert "CONFLICT" !in DATA_BLOCKERS by { assert |"CONFLICT"| == 8; }
      assert review.blockers == ["CONFLICT"] && ["CONFLICT"][1..] == [];
      assert Excluding(review.blockers, DATA_BLOCKERS) == ["CONFLICT"];
    }
  }

  /** Without that steadiness the order can matter: the batch updates whichever of the two comes first. */
  lemma UnsteadyOrderMatters(a: Target, b: Target)
    requires a.addonId != b.addonId
    ensures !Steady(Rivals())
    ensures Run(Rivals(), [a, b]) == ([a.addonId], [Attention(b.addonId, Blocked(["CONFLICT"]), Some(b.addonId))])
    ensures Run(Rivals(), [b, a]) == ([b.addonId], [Attention(a.addonId, Blocked(["CONFLICT"]), Some(a.addonId))])
    ensures Elements(Run(Rivals(), [a, b]).0) != Elements(Run(Rivals(), [b, a]).0)
  {
    hide Attempt, Run;
    RivalsBlock(a.addonId, a.addonId, {});
    RivalsBlock(a.addonId, a.addonId, {b.addonId});
    RivalsBlock(b.addonId, b.addonId, {});
    RivalsBlock(b.addonId, b.addonId, {a.addonId});
    FirstOfTwo(Rivals(), a, b);
    FirstOfTwo(Rivals(), b, a);
    assert a.addonId in Elements([a.addonId]) && a.addonId !in Elements([b.addonId]);
    assert !KeepsAnswer(Rivals(), a.addonId, a.addonId, {}, {b.addonId});
  }

  lemma FirstOfTwo(clients: Clients, a: Target, b: Target)
    requires clients.stage(a) == Ok(a.addonId) && clients.stage(b) == Ok(b.addonId)
    requires Attempt(clients, a.addonId, a.addonId, {}).None?
    requires Attempt(clients, b.addonId, b.addonId, {a.addonId}) == Some(Blocked(["CONFLICT"]))
    ensures Run(clients, [a, b]) == ([a.addonId], [Attention(b.addonId, Blocked(["CONFLICT"]), Some(b.addonId))])
  {
    hide Attempt;
    var item := Attention(b.addonId, Blocked(["CONFLICT"]), Some(b.addonId));
    assert [a, b][..1] == [a] && [a][..0] == [] && [item][..0] == [];
    assert Elements([a.addonId]) == {a.addonId} && Elements<string>([]) == {};
    assert Stages(clients, [a]) == Batch([a.addonId], [], []);
    assert Stages(clients, [a, b]) == Batch([a.addonId], [item], []);
    assert Round(clients, [a.addonId], []) == ([a.addonId], []);
    assert Again(clients, item, {a.addonId}) == Some(item.issue);
    assert Round(clients, [a.addonId], [item]) == ([a.addonId], [item]);
    assert Rounds(clients, [a.addonId], [item], true) == ([a.addonId], [item]);
    assert [item] + [] == [item];
  }
}
