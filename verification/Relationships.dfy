/** The relationship editor: rows of one character become a plan of deletes and puts. */
module Relationships {
  import opened Results
  import opened Collections
  import opened CampaignRecords
  import opened RelationshipKeys
  import opened RecordRules

  datatype Direction = From | To | Both

  /** One edited row; `originalKey` is absent for a new one. */
  datatype Edit = Edit(
    originalKey: Option<string>, expectedRevision: int, direction: Direction, target: string, kind: string, title: string,
    visibility: Option<string>)

  datatype TypeOption = TypeOption(locations: bool, directions: set<Direction>)

  /** The campaign as the editor of one character sees it. */
  datatype Context = Context(
    records: seq<Record>, characters: set<string>, locations: set<string>, types: map<string, TypeOption>,
    characterKey: string, canManageVisibility: bool)

  /** A relationship the character should have, and the record it was edited from. */
  datatype Desired = Desired(key: string, value: Fields, originalKey: Option<string>)

  const MAXIMUM_PLAN := 499
  const MAXIMUM_TITLE := 500

  // ----- what belongs to the character -----

  /** White space as JavaScript trims it. */
  predicate IsSpace(c: char) {
    var code := c as int;
    0x09 <= code <= 0x0D || code in {0x20, 0xA0, 0x1680, 0x2028, 0x2029, 0x202F, 0x205F, 0x3000, 0xFEFF} || 0x2000 <= code <= 0x200A
  }

  function TrimStart(text: string): (r: string)
    ensures r == "" || !IsSpace(r[0])
    ensures r == "" || (text != "" && r[|r| - 1] == text[|text| - 1])
  {
    if text != "" && IsSpace(text[0]) then TrimStart(text[1..]) else text
  }

  function TrimEnd(text: string): (r: string)
    ensures r == "" || !IsSpace(r[|r| - 1])
    ensures r == "" || (text != "" && r[0] == text[0])
  {
    if text != "" && IsSpace(text[|text| - 1]) then TrimEnd(text[..|text| - 1]) else text
  }

  function Trim(text: string): string {
    TrimEnd(TrimStart(text))
  }

  lemma TrimTwice(text: string)
    ensures Trim(Trim(text)) == Trim(text)
  {
    var trimmed := Trim(text);
    assert TrimStart(trimmed) == trimmed;
  }

  function Line(value: Option<Json>): string {
    match value
    case Some(Text(text)) => Trim(text)
    case _ => ""
  }

  predicate Involves(value: Json, characterKey: string) {
    value.Object? && (Line(Field(value.fields, "source")) == characterKey || Line(Field(value.fields, "target")) == characterKey)
  }

  /** `relationshipRecordsFor`. */
  function Involving(records: seq<Record>, characterKey: string): (r: seq<Record>)
    ensures forall record :: record in r <==> record in records && Involves(record.value, characterKey)
  {
    if records == [] then []
    else
      var front, last := records[..|records| - 1], records[|records| - 1];
      assert records == front + [last];
      Involving(front, characterKey) + (if Involves(last.value, characterKey) then [last] else [])
  }

  function Current(ctx: Context): seq<Record> {
    Involving(ctx.records, ctx.characterKey)
  }

  // ----- what one row asks for -----

  function Original(ctx: Context, edit: Edit): Option<Record> {
    if edit.originalKey.None? then None else Find(Current(ctx), edit.originalKey.value)
  }

  function OriginalValue(ctx: Context, edit: Edit): Fields {
    if Original(ctx, edit).Some? then RecordValue(Original(ctx, edit).value) else map[]
  }

  /** The row names a record the character has, at its revision, or none. */
  predicate NamesItsRecord(ctx: Context, edit: Edit) {
    && 0 <= edit.expectedRevision <= MAX_SAFE_INTEGER
    && if edit.originalKey.None? then edit.expectedRevision == 0
       else Original(ctx, edit).Some? && Original(ctx, edit).value.revision == edit.expectedRevision
  }

  predicate AtLocation(ctx: Context, kind: string) {
    if kind in ctx.types then ctx.types[kind].locations else kind == "mission"
  }

  function Directions(ctx: Context, edit: Edit): set<Direction> {
    var kind := Trim(edit.kind);
    if kind in ctx.types then ctx.types[kind].directions
    else if kind == Line(Field(OriginalValue(ctx, edit), "type")) then {From, To}
    else {}
  }

  predicate Allowed(ctx: Context, edit: Edit) {
    var target, kind := Trim(edit.target), Trim(edit.kind);
    && ValidIdentityPart(target) && ValidIdentityPart(kind) && |UnitsOf(Trim(edit.title))| <= MAXIMUM_TITLE
    && edit.direction in Directions(ctx, edit)
    && (AtLocation(ctx, kind) ==> edit.direction == From)
    && (if AtLocation(ctx, kind) then target in ctx.locations else target in ctx.characters && target != ctx.characterKey)
    && (edit.visibility.Some? ==> ctx.canManageVisibility && edit.visibility.value in {"public", "dm"})
  }

  function Value(ctx: Context, edit: Edit, source: string, target: string, first: bool): Fields {
    var original := OriginalValue(ctx, edit);
    var title := Trim(edit.title);
    var named := (if first then original else map[])["source" := Text(source)]["target" := Text(target)]["type" := Text(Trim(edit.kind))];
    var titled := if title != "" || "label" in original then named["label" := Text(title)] else named;
    if edit.visibility.Some? then titled["visibility" := Text(edit.visibility.value)]
    else if Original(ctx, edit).None? then titled["visibility" := Text("public")]
    else titled
  }

  /** One direction of a row, unless its key cannot be made. */
  function Entry(ctx: Context, edit: Edit, outgoing: bool, first: bool): Option<Desired> {
    var other := Trim(edit.target);
    var source, target := if outgoing then ctx.characterKey else other, if outgoing then other else ctx.characterKey;
    match CreateRelationshipRecordKey(source, target, Trim(edit.kind))
    case None => None
    case Some(key) => Some(Desired(key, Value(ctx, edit, source, target, first), if first then edit.originalKey else None))
  }

  predicate Names(desired: seq<Desired>, key: string) {
    exists d <- desired :: d.key == key
  }

  function AddEntry(desired: Option<seq<Desired>>, entry: Option<Desired>): Option<seq<Desired>> {
    if desired.None? || entry.None? || Names(desired.value, entry.value.key) then None else Some(desired.value + [entry.value])
  }

  predicate Repeats(edits: seq<Edit>, edit: Edit) {
    edit.originalKey.Some? && exists other <- edits :: other.originalKey == edit.originalKey
  }

  function AddEdit(ctx: Context, before: seq<Edit>, desired: Option<seq<Desired>>, edit: Edit): Option<seq<Desired>> {
    if !NamesItsRecord(ctx, edit) || Repeats(before, edit) || !Allowed(ctx, edit) then None
    else
      match edit.direction
      case From => AddEntry(desired, Entry(ctx, edit, true, true))
      case To => AddEntry(desired, Entry(ctx, edit, false, true))
      case Both => AddEntry(AddEntry(desired, Entry(ctx, edit, true, true)), Entry(ctx, edit, false, false))
  }

  /** The relationships the rows ask for; none when a row is refused. */
  function Wanted(ctx: Context, edits: seq<Edit>): Option<seq<Desired>> {
    if edits == [] then Some([])
    else
      var front := edits[..|edits| - 1];
      AddEdit(ctx, front, Wanted(ctx, front), edits[|edits| - 1])
  }

  // ----- the plan -----

  predicate Retained(desired: seq<Desired>, record: Record) {
    exists d <- desired :: d.key == record.key && d.originalKey == Some(record.key)
  }

  function Deletes(current: seq<Record>, desired: seq<Desired>): seq<Mutation> {
    if current == [] then []
    else
      var last := current[|current| - 1];
      Deletes(current[..|current| - 1], desired) + (if Retained(desired, last) then [] else [Delete(last.key, last.revision)])
  }

  /** A key that belongs to another of the character's records cannot be taken over. */
  predicate TakesOver(ctx: Context, d: Desired) {
    d.key in Keys(Current(ctx)) && d.originalKey != Some(d.key)
  }

  function PutOf(ctx: Context, d: Desired): seq<Mutation> {
    match Find(Current(ctx), d.key)
    case None => [Put(d.key, 0, Object(d.value))]
    case Some(existing) => if existing.value == Object(d.value) then [] else [Put(d.key, existing.revision, Object(d.value))]
  }

  function Puts(ctx: Context, desired: seq<Desired>): seq<Mutation> {
    if desired == [] then [] else Puts(ctx, desired[..|desired| - 1]) + PutOf(ctx, desired[|desired| - 1])
  }

  function Prepare(ctx: Context, edits: seq<Edit>): Option<seq<Mutation>> {
    match Wanted(ctx, edits)
    case None => None
    case Some(desired) =>
      var mutations := Deletes(Current(ctx), desired) + Puts(ctx, desired);
      if (exists d <- desired :: TakesOver(ctx, d)) || |mutations| > MAXIMUM_PLAN then None else Some(mutations)
  }

  method PrepareRelationshipMutations(ctx: Context, edits: seq<Edit>) returns (result: Option<seq<Mutation>>)
    ensures result == Prepare(ctx, edits)
  {
    var desired := CollectDesired(ctx, edits);
    if desired.None? { return None; }
    var current := Current(ctx);
    var mutations: seq<Mutation> := [];
    for k := 0 to |current|
      invariant mutations == Deletes(current[..k], desired.value)
    {
      assert current[..k + 1][..k] == current[..k];
      if !Retained(desired.value, current[k]) {
        mutations := mutations + [Delete(current[k].key, current[k].revision)];
      }
    }
    assert current[..|current|] == current;
    var puts := PlanPuts(ctx, desired.value);
    if puts.None? || |mutations + puts.value| > MAXIMUM_PLAN { return None; }
    result := Some(mutations + puts.value);
  }

  method CollectDesired(ctx: Context, edits: seq<Edit>) returns (desired: Option<seq<Desired>>)
    ensures desired == Wanted(ctx, edits)
  {
    desired := Some([]);
    for k := 0 to |edits|
      invariant desired == Wanted(ctx, edits[..k])
    {
      assert edits[..k + 1][..k] == edits[..k];
      desired := AddEdit(ctx, edits[..k], desired, edits[k]);
    }
    assert edits[..|edits|] == edits;
  }

  method PlanPuts(ctx: Context, desired: seq<Desired>) returns (puts: Option<seq<Mutation>>)
    ensures puts == if exists d <- desired :: TakesOver(ctx, d) then None else Some(Puts(ctx, desired))
  {
    hide PutOf, TakesOver;
    var planned := [];
    for k := 0 to |desired|
      invariant planned == Puts(ctx, desired[..k])
      invariant forall d <- desired[..k] :: !TakesOver(ctx, d)
    {
      assert desired[..k + 1][..k] == desired[..k];
      if TakesOver(ctx, desired[k]) { return None; }
      planned := planned + PutOf(ctx, desired[k]);
    }
    assert desired[..|desired|] == desired;
    puts := Some(planned);
  }

  // ----- what the plan contains -----

  ghost predicate DistinctDesired(desired: seq<Desired>) {
    forall i, j | 0 <= i < j < |desired| :: desired[i].key != desired[j].key
  }

  lemma EntryKeepsDistinct(desired: Option<seq<Desired>>, entry: Option<Desired>)
    requires desired.Some? ==> DistinctDesired(desired.value)
    ensures AddEntry(desired, entry).Some? ==> DistinctDesired(AddEntry(desired, entry).value)
  {
    if AddEntry(desired, entry).Some? {
      assert forall i | 0 <= i < |desired.value| :: desired.value[i] in desired.value;
    }
  }

  lemma {:induction false} WantedIsDistinct(ctx: Context, edits: seq<Edit>)
    ensures Wanted(ctx, edits).Some? ==> DistinctDesired(Wanted(ctx, edits).value)
  {
    if edits != [] {
      var front, edit := edits[..|edits| - 1], edits[|edits| - 1];
      WantedIsDistinct(ctx, front);
      EntryKeepsDistinct(Wanted(ctx, front), Entry(ctx, edit, true, true));
      EntryKeepsDistinct(Wanted(ctx, front), Entry(ctx, edit, false, true));
      EntryKeepsDistinct(AddEntry(Wanted(ctx, front), Entry(ctx, edit, true, true)), Entry(ctx, edit, false, false));
    }
  }

  lemma {:induction false} DeletesContain(current: seq<Record>, desired: seq<Desired>, m: Mutation)
    ensures m in Deletes(current, desired) <==>
      exists record <- current :: !Retained(desired, record) && m == Delete(record.key, record.revision)
  {
    if current != [] {
      assert current == current[..|current| - 1] + [current[|current| - 1]];
      DeletesContain(current[..|current| - 1], desired, m);
    }
  }

  lemma {:induction false} PutsContain(ctx: Context, desired: seq<Desired>, m: Mutation)
    ensures m in Puts(ctx, desired) <==> exists d <- desired :: m in PutOf(ctx, d)
  {
    if desired != [] {
      assert desired == desired[..|desired| - 1] + [desired[|desired| - 1]];
      PutsContain(ctx, desired[..|desired| - 1], m);
    }
  }

  lemma {:induction false} DeletesAreDistinct(current: seq<Record>, desired: seq<Desired>)
    requires UniqueKeys(current)
    ensures DistinctKeys(Deletes(current, desired))
  {
    if current != [] {
      var front, last := current[..|current| - 1], current[|current| - 1];
      DeletesAreDistinct(front, desired);
      forall m <- Deletes(front, desired)
        ensures m.key != last.key
      {
        DeletesContain(front, desired, m);
        var record :| record in front && m == Delete(record.key, record.revision);
        var i :| 0 <= i < |front| && front[i] == record;
        assert current[i].key != current[|front|].key;
      }
    }
  }

  lemma PutNames(ctx: Context, desired: seq<Desired>, m: Mutation) returns (i: nat)
    requires m in Puts(ctx, desired)
    ensures i < |desired| && desired[i].key == m.key && m in PutOf(ctx, desired[i])
  {
    PutsContain(ctx, desired, m);
    var d :| d in desired && m in PutOf(ctx, d);
    i :| 0 <= i < |desired| && desired[i] == d;
  }

  lemma {:induction false} PutsAreDistinct(ctx: Context, desired: seq<Desired>)
    requires DistinctDesired(desired)
    ensures DistinctKeys(Puts(ctx, desired))
  {
    if desired != [] {
      var front, last := desired[..|desired| - 1], desired[|desired| - 1];
      PutsAreDistinct(ctx, front);
      var before := Puts(ctx, front);
      forall a | 0 <= a < |before|
        ensures before[a].key != last.key
      {
        var i := PutNames(ctx, front, before[a]);
        assert desired[i].key != desired[|front|].key;
      }
    }
  }

  lemma {:induction false} InvolvingIsUnique(records: seq<Record>, characterKey: string)
    requires UniqueKeys(records)
    ensures UniqueKeys(Involving(records, characterKey))
  {
    if records != [] {
      var front, last := records[..|records| - 1], records[|records| - 1];
      InvolvingIsUnique(front, characterKey);
      var kept := Involving(front, characterKey);
      forall i | 0 <= i < |kept|
        ensures kept[i].key != last.key
      {
        assert kept[i] in kept && kept[i] in front;
        var j :| 0 <= j < |front| && front[j] == kept[i];
        assert records[j].key != records[|front|].key;
      }
    }
  }

  /** A plan: the rows were accepted and nothing is taken over. */
  ghost predicate IsPlan(ctx: Context, edits: seq<Edit>, desired: seq<Desired>, mutations: seq<Mutation>) {
    && UniqueKeys(ctx.records)
    && Wanted(ctx, edits) == Some(desired) && Prepare(ctx, edits) == Some(mutations)
  }

  /** What a plan is made of, whatever rows it came from. */
  ghost predicate Planned(ctx: Context, desired: seq<Desired>, mutations: seq<Mutation>) {
    && UniqueKeys(ctx.records) && DistinctDesired(desired)
    && (forall d <- desired :: !TakesOver(ctx, d))
    && mutations == Deletes(Current(ctx), desired) + Puts(ctx, desired)
  }

  lemma PlanIsPlanned(ctx: Context, edits: seq<Edit>, desired: seq<Desired>, mutations: seq<Mutation>)
    requires IsPlan(ctx, edits, desired, mutations)
    ensures Planned(ctx, desired, mutations)
  {
    WantedIsDistinct(ctx, edits);
  }

  /** No record is mutated twice. */
  lemma PlanIsDistinct(ctx: Context, desired: seq<Desired>, mutations: seq<Mutation>)
    requires Planned(ctx, desired, mutations)
    ensures DistinctKeys(mutations)
  {
    var current := Current(ctx);
    var deletes, puts := Deletes(current, desired), Puts(ctx, desired);
    InvolvingIsUnique(ctx.records, ctx.characterKey);
    DeletesAreDistinct(current, desired);
    PutsAreDistinct(ctx, desired);
    forall a, b | 0 <= a < |deletes| && 0 <= b < |puts|
      ensures deletes[a].key != puts[b].key
    {
      DeleteIsNotPut(ctx, desired, deletes[a], puts[b]);
    }
  }

  lemma DeleteIsNotPut(ctx: Context, desired: seq<Desired>, delete: Mutation, put: Mutation)
    requires forall d <- desired :: !TakesOver(ctx, d)
    requires delete in Deletes(Current(ctx), desired) && put in Puts(ctx, desired)
    ensures delete.key != put.key
  {
    DeletesContain(Current(ctx), desired, delete);
    PutsContain(ctx, desired, put);
    var record :| record in Current(ctx) && !Retained(desired, record) && delete == Delete(record.key, record.revision);
    var d :| d in desired && put in PutOf(ctx, d);
    assert record.key in Keys(Current(ctx));
    assert !TakesOver(ctx, d);
  }

  // ----- what saving the plan does -----

  lemma PlanContains(ctx: Context, desired: seq<Desired>, mutations: seq<Mutation>, m: Mutation)
    requires Planned(ctx, desired, mutations)
    ensures m in mutations <==>
      || (exists record <- Current(ctx) :: !Retained(desired, record) && m == Delete(record.key, record.revision))
      || (exists d <- desired :: m in PutOf(ctx, d))
  {
    DeletesContain(Current(ctx), desired, m);
    PutsContain(ctx, desired, m);
  }

  lemma StoredRevisionOf(stored: Stored, records: seq<Record>, record: Record)
    requires Represents(stored, records) && record in records
    ensures Live(stored, record.key) && StoredRevision(stored, record.key) == record.revision && stored[record.key] == Version(record.revision, Some(record.value))
  {
    var i :| 0 <= i < |records| && records[i] == record;
    assert records[i].key in stored;
  }

  lemma StoredKeys(stored: Stored, records: seq<Record>, key: string)
    requires Represents(stored, records)
    ensures Live(stored, key) <==> key in Keys(records)
  {
    if Live(stored, key) {
      var i :| 0 <= i < |records| && records[i].key == key;
      assert records[i] in records;
    }
    if key in Keys(records) {
      var record :| record in records && record.key == key;
      StoredRevisionOf(stored, records, record);
    }
  }

  lemma CurrentKey(ctx: Context, key: string) returns (record: Record)
    requires UniqueKeys(ctx.records) && key in Keys(Current(ctx))
    ensures record in Current(ctx) && record in ctx.records && record.key == key && Find(Current(ctx), key) == Some(record)
    ensures forall other <- ctx.records :: other.key == key ==> other == record
  {
    record := Find(Current(ctx), key).value;
    forall other <- ctx.records | other.key == key
      ensures other == record
    {
      var i :| 0 <= i < |ctx.records| && ctx.records[i] == record;
      var j :| 0 <= j < |ctx.records| && ctx.records[j] == other;
    }
  }

  /** The keys that the plan creates have never been stored: no relationship of other characters has one, and
      none belonged to a relationship that was deleted. */
  ghost predicate KeysAreNew(stored: Stored, ctx: Context, desired: seq<Desired>) {
    forall d <- desired | d.key !in Keys(Current(ctx)) :: d.key !in stored
  }

  // ----- the request that saves a plan -----

  /** What the activity summaries of the server look at. */
  function ActivityFields(value: Option<Json>): Fields {
    match value
    case Some(Object(fields)) =>
      map name | name in fields && name !in {"id", "updatedAt", "lastChange", "linkedTwinId"}
                 && fields[name] !in {Null, Text(""), Bool(false), List([]), Object(map[])} :: fields[name]
    case _ => map[]
  }

  function SourceOf(value: Option<Json>): set<string> {
    match Field(ActivityFields(value), "source")
    case Some(Text(source)) => {source}
    case _ => {}
  }

  /** The characters whose summary of relationships a mutation changes. */
  function SourcesOf(stored: Stored, m: Mutation): set<string> {
    var before := if Live(stored, m.key) then stored[m.key].live else None;
    var after := if m.Put? then Some(m.value) else None;
    if ActivityFields(before) == ActivityFields(after) then {} else SourceOf(before) + SourceOf(after)
  }

  /** The server writes these characters, too: the sources of the relationships that change. */
  function Touched(ctx: Context, stored: Stored, mutations: seq<Mutation>): set<string> {
    set m <- mutations, source <- SourcesOf(stored, m) | source in ctx.characters && source != ctx.characterKey :: source
  }

  /** The relationships after the plan was sent together with its character. */
  ghost function Save(rules: Rules, stored: Stored, ctx: Context, mutations: seq<Mutation>): Option<Stored> {
    Transact(rules, stored, mutations, 1 + |Touched(ctx, stored, mutations)|)
  }

  /** Everything the plan and the characters it touches need is within the limits of one transaction. */
  predicate WithinLimits(rules: Rules, stored: Stored, ctx: Context, mutations: seq<Mutation>) {
    && |mutations| + 1 + |Touched(ctx, stored, mutations)| <= RecordRules.MAXIMUM_MUTATIONS
    && forall m <- mutations | m.Put? :: rules.fits(m.value)
  }

  function PartOf(d: Desired, name: string): string {
    match TextField(d.value, name)
    case Some(text) => text
    case None => ""
  }

  /** The server gives the relationship the key that the browser gave it, and takes it. */
  predicate NamedAlike(d: Desired) {
    && Plain(UnitsOf(PartOf(d, "source"))) && Plain(UnitsOf(PartOf(d, "target"))) && Plain(UnitsOf(PartOf(d, "type")))
    && |d.key| <= MAXIMUM_KEY_BYTES
  }

  /** The plan is saved exactly when the keys it creates have never been stored, browser and server agree on every
      key, and it is within the limits. */
  lemma PlanCommits(rules: Rules, stored: Stored, ctx: Context, edits: seq<Edit>, desired: seq<Desired>, mutations: seq<Mutation>)
    requires IsPlan(ctx, edits, desired, mutations) && Represents(stored, ctx.records) && Sound(rules, stored) && rules.shape.Links?
    ensures Save(rules, stored, ctx, mutations).Some? <==>
      KeysAreNew(stored, ctx, desired) && (forall d <- desired :: NamedAlike(d)) && WithinLimits(rules, stored, ctx, mutations)
  {
    hide IsPlan, Planned, Represents, Sound, DistinctKeys, Touched, NamedAlike, Preparable, KeysAreNew, Wanted;
    PlanIsPlanned(ctx, edits, desired, mutations);
    PlanIsDistinct(ctx, desired, mutations);
    TransactsWhenCurrent(rules, stored, mutations, 1 + |Touched(ctx, stored, mutations)|);
    PlanIsCurrent(rules, stored, ctx, desired, mutations);
    assert Wanted(ctx, edits) == Some(desired) by { PlanWants(ctx, edits, desired, mutations); }
    if (forall d <- desired :: NamedAlike(d)) && WithinLimits(rules, stored, ctx, mutations) {
      forall m <- mutations
        ensures Preparable(rules, m)
      {
        MutationIsPreparable(rules, stored, ctx, edits, desired, mutations, m);
      }
    }
    if Prepared(rules, mutations, 1 + |Touched(ctx, stored, mutations)|) {
      PreparedFits(rules, mutations);
      forall d <- desired
        ensures NamedAlike(d)
      {
        PreparedIsAlike(rules, stored, ctx, edits, desired, mutations, d);
      }
    }
  }

  lemma PlanWants(ctx: Context, edits: seq<Edit>, desired: seq<Desired>, mutations: seq<Mutation>)
    requires IsPlan(ctx, edits, desired, mutations)
    ensures Wanted(ctx, edits) == Some(desired)
  {
  }

  lemma PreparedFits(rules: Rules, mutations: seq<Mutation>)
    requires forall m <- mutations :: Preparable(rules, m)
    ensures forall m <- mutations | m.Put? :: rules.fits(m.value)
  {
    forall m <- mutations | m.Put?
      ensures rules.fits(m.value)
    {
      assert Preparable(rules, m);
    }
  }

  /** Every mutation of the plan is current exactly when no key it creates was ever stored. */
  lemma PlanIsCurrent(rules: Rules, stored: Stored, ctx: Context, desired: seq<Desired>, mutations: seq<Mutation>)
    requires Planned(ctx, desired, mutations) && Represents(stored, ctx.records) && Sound(rules, stored)
    ensures AllApply(stored, mutations) <==> KeysAreNew(stored, ctx, desired)
  {
    hide Planned, Represents, DistinctKeys, Storable;
    if KeysAreNew(stored, ctx, desired) {
      forall m <- mutations
        ensures Applies(stored, m)
      {
        MutationApplies(stored, ctx, desired, mutations, m);
      }
    } else {
      var d :| d in desired && d.key !in Keys(Current(ctx)) && d.key in stored;
      UsedKeyIsRefused(stored, ctx, desired, mutations, d);
    }
  }

  lemma UsedKeyIsRefused(stored: Stored, ctx: Context, desired: seq<Desired>, mutations: seq<Mutation>, d: Desired)
    requires Planned(ctx, desired, mutations)
    requires d in desired && d.key !in Keys(Current(ctx)) && d.key in stored && stored[d.key].revision > 0
    ensures !AllApply(stored, mutations)
  {
    var put := Put(d.key, 0, Object(d.value));
    PlanContains(ctx, desired, mutations, put);
    assert put in mutations && !Applies(stored, put);
  }

  lemma MutationApplies(stored: Stored, ctx: Context, desired: seq<Desired>, mutations: seq<Mutation>, m: Mutation)
    requires Planned(ctx, desired, mutations) && Represents(stored, ctx.records) && KeysAreNew(stored, ctx, desired) && m in mutations
    ensures Applies(stored, m)
  {
    hide Planned, Retained, PutOf, KeysAreNew, Represents, Involves;
    PlanContains(ctx, desired, mutations, m);
    if record :| record in Current(ctx) && !Retained(desired, record) && m == Delete(record.key, record.revision) {
      StoredRevisionOf(stored, ctx.records, record);
    } else {
      var d :| d in desired && m in PutOf(ctx, d);
      PutApplies(stored, ctx, desired, d, m);
    }
  }

  lemma PutApplies(stored: Stored, ctx: Context, desired: seq<Desired>, d: Desired, m: Mutation)
    requires Represents(stored, ctx.records) && KeysAreNew(stored, ctx, desired) && d in desired && m in PutOf(ctx, d)
    ensures Applies(stored, m)
  {
    hide Current, Involves;
    if d.key in Keys(Current(ctx)) {
      var record := CurrentKey(ctx, d.key);
      StoredRevisionOf(stored, ctx.records, record);
    }
  }

  /** What a saved plan leaves: the desired relationships, none of the character's others, and everything else
      as it was. */
  ghost predicate Saved(stored: Stored, committed: Stored, ctx: Context, desired: seq<Desired>) {
    && (forall d <- desired :: d.key in committed && committed[d.key].live == Some(Object(d.value)))
    && (forall key | key in Keys(Current(ctx)) && !Names(desired, key) :: key in committed && committed[key].live.None?)
    && (forall key | key !in Keys(Current(ctx)) && !Names(desired, key) ::
          (key in committed <==> key in stored) && (key in stored ==> committed[key] == stored[key]))
  }

  lemma DesiredIsStored(stored: Stored, ctx: Context, desired: seq<Desired>, mutations: seq<Mutation>, d: Desired)
    requires Planned(ctx, desired, mutations) && Represents(stored, ctx.records)
    requires Commit(stored, mutations).Some? && d in desired
    ensures d.key in Commit(stored, mutations).value && Commit(stored, mutations).value[d.key].live == Some(Object(d.value))
  {
    hide Represents, Involves, Commit, DistinctKeys, DistinctDesired, Current, Deletes, Puts, TakesOver, Retained;
    PlanIsDistinct(ctx, desired, mutations);
    CommitEffect(stored, mutations, d.key);
    if PutOf(ctx, d) != [] {
      var put := PutOf(ctx, d)[0];
      PlanContains(ctx, desired, mutations, put);
      MutationIs(mutations, put);
    } else {
      var record := CurrentKey(ctx, d.key);
      StoredRevisionOf(stored, ctx.records, record);
      KeptIsUntouched(ctx, desired, mutations, d, record);
    }
  }

  lemma KeptIsUntouched(ctx: Context, desired: seq<Desired>, mutations: seq<Mutation>, d: Desired, record: Record)
    requires Planned(ctx, desired, mutations) && d in desired && PutOf(ctx, d) == []
    requires record in Current(ctx) && record.key == d.key
    ensures MutationOf(mutations, d.key).None?
  {
    hide Planned, PutOf, Current;
    if MutationOf(mutations, d.key).Some? {
      KeptIsNotMutated(ctx, desired, mutations, d, record, MutationOf(mutations, d.key).value);
    }
  }

  lemma KeptIsNotMutated(ctx: Context, desired: seq<Desired>, mutations: seq<Mutation>, d: Desired, record: Record, m: Mutation)
    requires Planned(ctx, desired, mutations) && d in desired && PutOf(ctx, d) == []
    requires record in Current(ctx) && record.key == d.key && m in mutations
    ensures m.key != d.key
  {
    hide Planned, PutOf, Current, Retained;
    PlanContains(ctx, desired, mutations, m);
    if other :| other in Current(ctx) && !Retained(desired, other) && m == Delete(other.key, other.revision) {
      if other.key == d.key {
        OwnIsRetained(ctx, desired, mutations, d, other);
      }
    } else {
      var other :| other in desired && m in PutOf(ctx, other);
      PutKey(ctx, other, m);
      if other.key == d.key {
        SameDesired(ctx, desired, mutations, d, other);
      }
    }
  }

  lemma PutKey(ctx: Context, d: Desired, m: Mutation)
    requires m in PutOf(ctx, d)
    ensures m.Put? && m.key == d.key
  {
  }

  lemma OwnIsRetained(ctx: Context, desired: seq<Desired>, mutations: seq<Mutation>, d: Desired, record: Record)
    requires Planned(ctx, desired, mutations) && d in desired && record in Current(ctx) && record.key == d.key
    ensures Retained(desired, record)
  {
    hide Wanted, Deletes, Puts, Current;
    assert record.key in Keys(Current(ctx)) && !TakesOver(ctx, d);
  }

  lemma SameDesired(ctx: Context, desired: seq<Desired>, mutations: seq<Mutation>, a: Desired, b: Desired)
    requires Planned(ctx, desired, mutations) && a in desired && b in desired && a.key == b.key
    ensures a == b
  {
    var i :| 0 <= i < |desired| && desired[i] == a;
    var j :| 0 <= j < |desired| && desired[j] == b;
  }

  lemma DroppedIsDeleted(stored: Stored, ctx: Context, desired: seq<Desired>, mutations: seq<Mutation>, key: string)
    requires Planned(ctx, desired, mutations) && Commit(stored, mutations).Some?
    requires key in Keys(Current(ctx)) && !Names(desired, key)
    ensures key in Commit(stored, mutations).value && Commit(stored, mutations).value[key].live.None?
  {
    var record := CurrentKey(ctx, key);
    var delete := Delete(key, record.revision);
    PlanIsDistinct(ctx, desired, mutations);
    PlanContains(ctx, desired, mutations, delete);
    MutationIs(mutations, delete);
    CommitEffect(stored, mutations, key);
  }

  lemma OthersAreUntouched(stored: Stored, ctx: Context, desired: seq<Desired>, mutations: seq<Mutation>, key: string)
    requires Planned(ctx, desired, mutations) && Commit(stored, mutations).Some?
    requires key !in Keys(Current(ctx)) && !Names(desired, key)
    ensures
      var committed := Commit(stored, mutations).value;
      (key in committed <==> key in stored) && (key in stored ==> committed[key] == stored[key])
  {
    PlanIsDistinct(ctx, desired, mutations);
    CommitEffect(stored, mutations, key);
    if MutationOf(mutations, key).Some? {
      PlanContains(ctx, desired, mutations, MutationOf(mutations, key).value);
    }
  }

  lemma SavedPlan(stored: Stored, ctx: Context, edits: seq<Edit>, desired: seq<Desired>, mutations: seq<Mutation>)
    requires IsPlan(ctx, edits, desired, mutations) && Represents(stored, ctx.records) && Commit(stored, mutations).Some?
    ensures Saved(stored, Commit(stored, mutations).value, ctx, desired)
  {
    hide IsPlan, Planned, Represents, Commit;
    PlanIsPlanned(ctx, edits, desired, mutations);
    forall d <- desired
      ensures d.key in Commit(stored, mutations).value && Commit(stored, mutations).value[d.key].live == Some(Object(d.value))
    {
      DesiredIsStored(stored, ctx, desired, mutations, d);
    }
    forall key | key in Keys(Current(ctx)) && !Names(desired, key)
      ensures key in Commit(stored, mutations).value && Commit(stored, mutations).value[key].live.None?
    {
      DroppedIsDeleted(stored, ctx, desired, mutations, key);
    }
    forall key | key !in Keys(Current(ctx)) && !Names(desired, key)
      ensures
        var committed := Commit(stored, mutations).value;
        (key in committed <==> key in stored) && (key in stored ==> committed[key] == stored[key])
    {
      OthersAreUntouched(stored, ctx, desired, mutations, key);
    }
  }

  // ----- canonical keys -----

  /** The record is stored under the key of its own source, target and type. */
  predicate Canonical(record: Record) {
    record.value.Object?
    && var fields := record.value.fields;
       CreateRelationshipRecordKey(Line(Field(fields, "source")), Line(Field(fields, "target")), Line(Field(fields, "type"))) == Some(record.key)
  }

  /** A desired relationship links the character to the other side of an accepted row. */
  ghost predicate LinksCharacter(ctx: Context, d: Desired) {
    exists other, kind, source, target :: IsLink(ctx, d, other, kind, source, target)
  }

  ghost predicate IsLink(ctx: Context, d: Desired, other: string, kind: string, source: string, target: string) {
    && Trim(other) == other && Trim(kind) == kind
    && ((source == ctx.characterKey && target == other) || (source == other && target == ctx.characterKey))
    && CreateRelationshipRecordKey(source, target, kind) == Some(d.key)
    && Field(d.value, "source") == Some(Text(source)) && Field(d.value, "target") == Some(Text(target))
    && Field(d.value, "type") == Some(Text(kind))
  }

  /** What a desired relationship needs for the server to take it. */
  lemma LinkIsStorable(rules: Rules, ctx: Context, d: Desired)
    requires rules.shape.Links? && LinksCharacter(ctx, d) && ValidVisibility(Object(d.value))
    ensures Storable(rules, d.key, Object(d.value)) <==> NamedAlike(d) && rules.fits(Object(d.value))
    ensures ListRecordKey(Links, Object(d.value)) == KeyOf(Server, PartOf(d, "source"), PartOf(d, "target"), PartOf(d, "type"))
    ensures KeyOf(Browser, PartOf(d, "source"), PartOf(d, "target"), PartOf(d, "type")) == Some(d.key)
  {
    hide RecordKeyOf, ValidText, Plain, Trim;
    var other, kind, source, target :| IsLink(ctx, d, other, kind, source, target);
    KeysAgree(UnitsOf(source), UnitsOf(target), UnitsOf(kind));
    KeyIsValidText(Browser, UnitsOf(source), UnitsOf(target), UnitsOf(kind), MAXIMUM_KEY_BYTES);
  }

  /** What is stored under the key of a desired relationship has its ends and type, and the server agrees on the key. */
  lemma StoredIsAlike(rules: Rules, ctx: Context, d: Desired, key: string, value: Json)
    requires rules.shape.Links? && LinksCharacter(ctx, d) && Storable(rules, key, value) && key == d.key
    ensures NamedAlike(d)
    ensures value.Object? && forall name <- {"source", "target", "type"} :: TextField(value.fields, name) == Some(PartOf(d, name))
  {
    hide RecordKeyOf, ValidText, Plain, Trim;
    var other, kind, source, target :| IsLink(ctx, d, other, kind, source, target);
    var fields := value.fields;
    KeysAreInjective(Server, TextField(fields, "source").value, TextField(fields, "target").value, TextField(fields, "type").value,
                     Browser, source, target, kind);
    KeysAgree(UnitsOf(source), UnitsOf(target), UnitsOf(kind));
    KeyIsValidText(Browser, UnitsOf(source), UnitsOf(target), UnitsOf(kind), MAXIMUM_KEY_BYTES);
  }

  lemma StoredOf(rules: Rules, stored: Stored, records: seq<Record>, record: Record)
    requires Represents(stored, records) && Sound(rules, stored) && record in records
    ensures Storable(rules, record.key, record.value) && record.revision > 0
  {
    hide Storable;
    StoredRevisionOf(stored, records, record);
  }

  lemma MutationIsPreparable(rules: Rules, stored: Stored, ctx: Context, edits: seq<Edit>, desired: seq<Desired>, mutations: seq<Mutation>, m: Mutation)
    requires Planned(ctx, desired, mutations) && Wanted(ctx, edits) == Some(desired)
    requires Represents(stored, ctx.records) && Sound(rules, stored) && rules.shape.Links?
    requires m in mutations && (forall d <- desired :: NamedAlike(d)) && (m.Put? ==> rules.fits(m.value))
    ensures Preparable(rules, m)
  {
    hide Planned, Represents, Sound, Storable, NamedAlike, Wanted, Involves, Retained, ValidText, LinksCharacter;
    hide Preparable;
    PlanContains(ctx, desired, mutations, m);
    if record :| record in Current(ctx) && !Retained(desired, record) && m == Delete(record.key, record.revision) {
      DeleteIsPreparable(rules, stored, ctx, record);
    } else {
      var d :| d in desired && m in PutOf(ctx, d);
      PutExpects(rules, stored, ctx, d, m);
      PutIsPreparable(rules, stored, ctx, edits, d, m);
    }
  }

  lemma DeleteIsPreparable(rules: Rules, stored: Stored, ctx: Context, record: Record)
    requires Represents(stored, ctx.records) && Sound(rules, stored) && record in ctx.records
    ensures Preparable(rules, Delete(record.key, record.revision))
  {
    hide Represents, Sound, Storable, ValidText;
    StoredOf(rules, stored, ctx.records, record);
    StorableKey(rules, record.key, record.value);
  }

  lemma PutIsPreparable(rules: Rules, stored: Stored, ctx: Context, edits: seq<Edit>, d: Desired, m: Mutation)
    requires Represents(stored, ctx.records) && Sound(rules, stored) && rules.shape.Links?
    requires Wanted(ctx, edits).Some? && d in Wanted(ctx, edits).value && NamedAlike(d)
    requires m.Put? && m.key == d.key && m.value == Object(d.value) && 0 <= m.expectedRevision && rules.fits(m.value)
    ensures Preparable(rules, m)
  {
    hide Represents, Sound, Storable, NamedAlike, Wanted, ValidText, LinksCharacter, ValidVisibility;
    WantedLinks(ctx, edits, d);
    WantedIsVisible(rules, stored, ctx, edits, d);
    LinkIsStorable(rules, ctx, d);
    StorableKey(rules, d.key, Object(d.value));
  }

  lemma StorableKey(rules: Rules, key: string, value: Json)
    ensures Storable(rules, key, value) ==> ValidText(key, MAXIMUM_KEY_BYTES)
  {
  }

  lemma PutExpects(rules: Rules, stored: Stored, ctx: Context, d: Desired, m: Mutation)
    requires Represents(stored, ctx.records) && Sound(rules, stored) && m in PutOf(ctx, d)
    ensures m.Put? && m.key == d.key && m.value == Object(d.value) && 0 <= m.expectedRevision
  {
    hide Storable, Involves, Sound;
    if d.key in Keys(Current(ctx)) {
      var record := CurrentKey(ctx, d.key);
      StoredOf(rules, stored, ctx.records, record);
    }
  }

  lemma PreparedIsAlike(rules: Rules, stored: Stored, ctx: Context, edits: seq<Edit>, desired: seq<Desired>, mutations: seq<Mutation>, d: Desired)
    requires Planned(ctx, desired, mutations) && Wanted(ctx, edits) == Some(desired) && d in desired
    requires Represents(stored, ctx.records) && Sound(rules, stored) && rules.shape.Links?
    requires forall m <- mutations :: Preparable(rules, m)
    ensures NamedAlike(d)
  {
    hide Represents, Sound, Storable, NamedAlike, Wanted, Involves, Retained, ValidText, LinksCharacter, DistinctDesired;
    WantedLinks(ctx, edits, d);
    if d.key in Keys(Current(ctx)) {
      var record := CurrentKey(ctx, d.key);
      StoredOf(rules, stored, ctx.records, record);
      StoredIsAlike(rules, ctx, d, record.key, record.value);
    } else {
      var put := Put(d.key, 0, Object(d.value));
      PlanContains(ctx, desired, mutations, put);
      assert put in PutOf(ctx, d) && Preparable(rules, put);
      WantedIsVisible(rules, stored, ctx, edits, d);
      LinkIsStorable(rules, ctx, d);
    }
  }

  /** A desired relationship has a visibility that the server takes. */
  lemma {:induction false} WantedIsVisible(rules: Rules, stored: Stored, ctx: Context, edits: seq<Edit>, d: Desired)
    requires Represents(stored, ctx.records) && Sound(rules, stored)
    requires Wanted(ctx, edits).Some? && d in Wanted(ctx, edits).value
    ensures ValidVisibility(Object(d.value))
  {
    hide Represents, Sound, Storable, Entry, Allowed, NamesItsRecord, Repeats;
    var front, edit := edits[..|edits| - 1], edits[|edits| - 1];
    EditAdds(ctx, front, Wanted(ctx, front), edit, d);
    if d in Wanted(ctx, front).value {
      WantedIsVisible(rules, stored, ctx, front, d);
    } else {
      var outgoing, first :| Entry(ctx, edit, outgoing, first) == Some(d);
      AddedIsAllowed(ctx, front, Wanted(ctx, front), edit);
      EntryIsVisible(rules, stored, ctx, edit, outgoing, first);
    }
  }

  lemma AddedIsAllowed(ctx: Context, before: seq<Edit>, desired: Option<seq<Desired>>, edit: Edit)
    requires AddEdit(ctx, before, desired, edit).Some?
    ensures edit.visibility.Some? ==> edit.visibility.value in {"public", "dm"}
  {
  }

  lemma EntryIsVisible(rules: Rules, stored: Stored, ctx: Context, edit: Edit, outgoing: bool, first: bool)
    requires Represents(stored, ctx.records) && Sound(rules, stored)
    requires Entry(ctx, edit, outgoing, first).Some? && (edit.visibility.Some? ==> edit.visibility.value in {"public", "dm"})
    ensures ValidVisibility(Object(Entry(ctx, edit, outgoing, first).value.value))
  {
    hide Represents, Sound, Trim, CreateRelationshipRecordKey, ValidText, ListRecordKey;
    var original := Original(ctx, edit);
    if original.Some? {
      StoredOf(rules, stored, ctx.records, original.value);
    }
  }

  lemma ValueFields(ctx: Context, edit: Edit, source: string, target: string, first: bool)
    ensures
      var value := Value(ctx, edit, source, target, first);
      && Field(value, "source") == Some(Text(source)) && Field(value, "target") == Some(Text(target))
      && Field(value, "type") == Some(Text(Trim(edit.kind)))
  {
  }

  lemma EntryLinks(ctx: Context, edit: Edit, outgoing: bool, first: bool)
    requires Entry(ctx, edit, outgoing, first).Some?
    ensures LinksCharacter(ctx, Entry(ctx, edit, outgoing, first).value)
  {
    var other := Trim(edit.target);
    var source, target := if outgoing then ctx.characterKey else other, if outgoing then other else ctx.characterKey;
    ValueFields(ctx, edit, source, target, first);
    TrimTwice(edit.target);
    TrimTwice(edit.kind);
    assert IsLink(ctx, Entry(ctx, edit, outgoing, first).value, other, Trim(edit.kind), source, target);
  }

  lemma EntryAdds(desired: Option<seq<Desired>>, entry: Option<Desired>, d: Desired)
    requires AddEntry(desired, entry).Some? && d in AddEntry(desired, entry).value
    ensures desired.Some? && (d in desired.value || entry == Some(d))
  {
  }

  lemma EditAdds(ctx: Context, before: seq<Edit>, desired: Option<seq<Desired>>, edit: Edit, d: Desired)
    requires AddEdit(ctx, before, desired, edit).Some? && d in AddEdit(ctx, before, desired, edit).value
    ensures desired.Some?
    ensures d in desired.value || exists outgoing, first :: Entry(ctx, edit, outgoing, first) == Some(d)
  {
    match edit.direction
    case From => EntryAdds(desired, Entry(ctx, edit, true, true), d);
    case To => EntryAdds(desired, Entry(ctx, edit, false, true), d);
    case Both =>
      var once := AddEntry(desired, Entry(ctx, edit, true, true));
      EntryAdds(once, Entry(ctx, edit, false, false), d);
      if d in once.value {
        EntryAdds(desired, Entry(ctx, edit, true, true), d);
      }
  }

  lemma {:induction false} WantedLinks(ctx: Context, edits: seq<Edit>, d: Desired)
    requires Wanted(ctx, edits).Some? && d in Wanted(ctx, edits).value
    ensures LinksCharacter(ctx, d)
  {
    var front, edit := edits[..|edits| - 1], edits[|edits| - 1];
    EditAdds(ctx, front, Wanted(ctx, front), edit, d);
    if d in Wanted(ctx, front).value {
      WantedLinks(ctx, front, d);
    } else {
      var outgoing, first :| Entry(ctx, edit, outgoing, first) == Some(d);
      EntryLinks(ctx, edit, outgoing, first);
    }
  }

  /** What is saved counts as the character's exactly when the character's key has no white space around it. */
  lemma DesiredInvolves(ctx: Context, d: Desired)
    requires LinksCharacter(ctx, d)
    ensures Involves(Object(d.value), ctx.characterKey) <==> Trim(ctx.characterKey) == ctx.characterKey
  {
    hide Trim, CreateRelationshipRecordKey;
    var other, kind, source, target :| IsLink(ctx, d, other, kind, source, target);
    assert Line(Field(d.value, "source")) == Trim(source) && Line(Field(d.value, "target")) == Trim(target);
  }

  /** No other character's relationship is in the way of a desired one: what is stored under its key has its ends and
      type, so it is the character's, unless white space around the character's key hides it. */
  lemma StoredKeysAreFree(rules: Rules, stored: Stored, ctx: Context, edits: seq<Edit>, d: Desired)
    requires Represents(stored, ctx.records) && Sound(rules, stored) && rules.shape.Links?
    requires Wanted(ctx, edits).Some? && d in Wanted(ctx, edits).value && d.key in Keys(ctx.records)
    ensures d.key in Keys(Current(ctx)) <==> Trim(ctx.characterKey) == ctx.characterKey
  {
    hide Represents, Sound, Storable, Wanted, Trim, NamedAlike, CreateRelationshipRecordKey;
    var record :| record in ctx.records && record.key == d.key;
    WantedLinks(ctx, edits, d);
    StoredOf(rules, stored, ctx.records, record);
    StoredIsAlike(rules, ctx, d, record.key, record.value);
    DesiredInvolves(ctx, d);
    SameEndsInvolve(ctx, d, record.value);
    if d.key in Keys(Current(ctx)) {
      var current :| current in Current(ctx) && current.key == d.key;
      SameRecord(stored, ctx.records, current, record);
    } else {
      assert record !in Current(ctx);
    }
  }

  lemma SameRecord(stored: Stored, records: seq<Record>, a: Record, b: Record)
    requires Represents(stored, records) && a in records && b in records && a.key == b.key
    ensures a == b
  {
    StoredRevisionOf(stored, records, a);
    StoredRevisionOf(stored, records, b);
  }

  lemma SameEndsInvolve(ctx: Context, d: Desired, value: Json)
    requires LinksCharacter(ctx, d) && value.Object?
    requires forall name <- {"source", "target", "type"} :: TextField(value.fields, name) == Some(PartOf(d, name))
    ensures Involves(value, ctx.characterKey) <==> Involves(Object(d.value), ctx.characterKey)
  {
    hide CreateRelationshipRecordKey, Trim;
    assert Trim("") == "" by { NoTitle(); }
    SameLine(value.fields, d.value, "source");
    SameLine(value.fields, d.value, "target");
  }

  lemma SameLine(a: Fields, b: Fields, name: string)
    requires TextField(a, name).Some? && TextField(a, name) == TextField(b, name)
    ensures Line(Field(a, name)) == Line(Field(b, name))
  {
    NoTitle();
  }

  /** A relationship of this key was deleted once. */
  predicate WasDeleted(stored: Stored, key: string) {
    key in stored && stored[key].live.None?
  }

  /** Saving succeeds exactly when it asks for no relationship that was deleted before, browser and server agree on
      every key and the plan is within the limits, and then makes the character's relationships exactly the desired
      ones. */
  lemma CharacterHasWhatWasAsked(rules: Rules, stored: Stored, ctx: Context, edits: seq<Edit>, desired: seq<Desired>, mutations: seq<Mutation>)
    requires IsPlan(ctx, edits, desired, mutations) && Represents(stored, ctx.records) && Sound(rules, stored) && rules.shape.Links?
    requires Trim(ctx.characterKey) == ctx.characterKey
    ensures Save(rules, stored, ctx, mutations).Some? <==>
      (forall d <- desired :: !WasDeleted(stored, d.key) && NamedAlike(d)) && WithinLimits(rules, stored, ctx, mutations)
    ensures Save(rules, stored, ctx, mutations).Some? ==>
      var saved := Save(rules, stored, ctx, mutations).value;
      && Saved(stored, saved, ctx, desired)
      && forall key | Live(saved, key) :: Involves(saved[key].live.value, ctx.characterKey) <==> Names(desired, key)
  {
    hide Saved, Involves, Commit, Sound, Represents, Current, WithinLimits, NamedAlike, Touched, Prepared, IsPlan, KeysAreNew, WasDeleted, Trim;
    KeysAreNotDeleted(rules, stored, ctx, edits, desired, mutations);
    PlanCommits(rules, stored, ctx, edits, desired, mutations);
    if Save(rules, stored, ctx, mutations).Some? {
      SavedPlan(stored, ctx, edits, desired, mutations);
      PlanWants(ctx, edits, desired, mutations);
      var saved := Commit(stored, mutations).value;
      forall key | Live(saved, key)
        ensures Involves(saved[key].live.value, ctx.characterKey) <==> Names(desired, key)
      {
        SavedInvolves(stored, saved, ctx, edits, desired, key);
      }
    }
  }

  lemma KeysAreNotDeleted(rules: Rules, stored: Stored, ctx: Context, edits: seq<Edit>, desired: seq<Desired>, mutations: seq<Mutation>)
    requires IsPlan(ctx, edits, desired, mutations) && Represents(stored, ctx.records) && Sound(rules, stored) && rules.shape.Links?
    requires Trim(ctx.characterKey) == ctx.characterKey
    ensures KeysAreNew(stored, ctx, desired) <==> forall d <- desired :: !WasDeleted(stored, d.key)
  {
    hide Represents, Prepare, Wanted, Involves, Sound, Trim;
    forall d <- desired
      ensures WasDeleted(stored, d.key) <==> d.key !in Keys(Current(ctx)) && d.key in stored
    {
      StoredKeys(stored, ctx.records, d.key);
      if d.key in Keys(ctx.records) {
        StoredKeysAreFree(rules, stored, ctx, edits, d);
      } else {
        assert forall record <- Current(ctx) :: record in ctx.records && record.key in Keys(ctx.records);
      }
    }
  }

  lemma SavedInvolves(stored: Stored, committed: Stored, ctx: Context, edits: seq<Edit>, desired: seq<Desired>, key: string)
    requires Represents(stored, ctx.records) && Wanted(ctx, edits) == Some(desired) && Saved(stored, committed, ctx, desired)
    requires Trim(ctx.characterKey) == ctx.characterKey && Live(committed, key)
    ensures Involves(committed[key].live.value, ctx.characterKey) <==> Names(desired, key)
  {
    hide Represents, Involves, Current, Wanted, Trim;
    if d :| d in desired && d.key == key {
      WantedLinks(ctx, edits, d);
      DesiredInvolves(ctx, d);
    } else {
      OtherDoesNotInvolve(stored, ctx, key);
    }
  }

  lemma OtherDoesNotInvolve(stored: Stored, ctx: Context, key: string)
    requires Represents(stored, ctx.records) && Live(stored, key) && key !in Keys(Current(ctx))
    ensures !Involves(stored[key].live.value, ctx.characterKey)
  {
    var i :| 0 <= i < |ctx.records| && ctx.records[i].key == key;
    assert ctx.records[i] in ctx.records && stored[key].live == Some(ctx.records[i].value);
    assert forall record <- Current(ctx) :: record.key != key;
  }

  /** A relationship that the editor removes cannot be added again: the new plan takes its key for one that never
      existed, and the deletion has left its revision behind. */
  lemma RemovedCannotReturn(rules: Rules, stored: Stored, ctx: Context, edits: seq<Edit>, desired: seq<Desired>, mutations: seq<Mutation>,
                            later: Context, edits': seq<Edit>, desired': seq<Desired>, mutations': seq<Mutation>, key: string)
    requires Sound(rules, stored) && rules.shape.Links?
    requires IsPlan(ctx, edits, desired, mutations) && Save(rules, stored, ctx, mutations).Some?
    requires key in Keys(Current(ctx)) && !Names(desired, key)
    requires IsPlan(later, edits', desired', mutations') && Represents(Save(rules, stored, ctx, mutations).value, later.records)
    requires Names(desired', key)
    ensures Save(rules, Save(rules, stored, ctx, mutations).value, later, mutations').None?
  {
    hide IsPlan, Planned, Sound, Names, Represents, NamedAlike, Prepared, Touched, WithinLimits;
    PlanIsPlanned(ctx, edits, desired, mutations);
    var saved := Save(rules, stored, ctx, mutations).value;
    TransactKeepsSound(rules, stored, mutations, 1 + |Touched(ctx, stored, mutations)|);
    DroppedIsDeleted(stored, ctx, desired, mutations, key);
    PlanCommits(rules, saved, later, edits', desired', mutations');
    StoredKeys(saved, later.records, key);
    DeletedKeyIsNotNew(saved, later, desired', key);
  }

  lemma DeletedKeyIsNotNew(stored: Stored, ctx: Context, desired: seq<Desired>, key: string)
    requires key in stored && key !in Keys(ctx.records) && Names(desired, key)
    ensures !KeysAreNew(stored, ctx, desired)
  {
    var d :| d in desired && d.key == key;
    assert forall record <- Current(ctx) :: record in ctx.records && record.key in Keys(ctx.records);
  }

  // ----- plans of the editor that fail -----

  /** A campaign with another character `b` and one type, as the editor of a character sees it. */
  function Small(characterKey: string, kind: string, records: seq<Record>): Context {
    Context(records, {"b"}, {}, map[kind := TypeOption(false, {From})], characterKey, false)
  }

  /** A new row that links the character to `b`. */
  function NewLink(kind: string): Edit {
    Edit(None, 0, From, "b", kind, "", None)
  }

  function LinkKey(coder: Coder, characterKey: string, kind: string): string {
    RecordKeyOf(coder, UnitsOf(characterKey), UnitsOf("b"), UnitsOf(kind))
  }

  function LinkValue(characterKey: string, kind: string): Fields {
    map["source" := Text(characterKey)]["target" := Text("b")]["type" := Text(kind)]["visibility" := Text("public")]
  }

  function LinkPut(characterKey: string, kind: string): Mutation {
    Put(LinkKey(Browser, characterKey, kind), 0, Object(LinkValue(characterKey, kind)))
  }

  function LinkDesired(characterKey: string, kind: string, originalKey: Option<string>): Desired {
    Desired(LinkKey(Browser, characterKey, kind), LinkValue(characterKey, kind), originalKey)
  }

  predicate Part(text: string) {
    ValidIdentityPart(text) && Trim(text) == text
  }

  lemma LetterIsPart(letter: char)
    requires 'a' <= letter <= 'z'
    ensures Part([letter])
  {
    assert [letter][1..] == [] && UnitsOf("") == [];
    var units := UnitsOf([letter]);
    assert units == [letter as int] && units[1..] == [];
    assert Utf8Length(units[1..]) == 0 && !HasControl(units[1..]);
    assert Utf8Length(units) == 1 && !HasControl(units);
    assert ValidIdentityPart([letter]);
  }

  lemma NoTitle()
    ensures Trim("") == "" && UnitsOf("") == []
  {
  }

  lemma NewLinkIsAllowed(characterKey: string, kind: string, records: seq<Record>)
    requires characterKey != "b" && Part(kind)
    ensures
      var ctx := Small(characterKey, kind, records);
      NamesItsRecord(ctx, NewLink(kind)) && Allowed(ctx, NewLink(kind)) && Value(ctx, NewLink(kind), characterKey, "b", true) == LinkValue(characterKey, kind)
  {
    hide UnitsOf, ValidIdentityPart, Trim;
    LetterIsPart('b');
    NoTitle();
  }

  lemma NewLinkEntry(characterKey: string, kind: string, records: seq<Record>)
    requires characterKey != "b" && ValidIdentityPart(characterKey) && Part(kind)
    ensures Entry(Small(characterKey, kind, records), NewLink(kind), true, true) == Some(LinkDesired(characterKey, kind, None))
  {
    hide ValidIdentityPart, Trim, Value, RecordKeyOf;
    LetterIsPart('b');
    NewLinkIsAllowed(characterKey, kind, records);
  }

  /** When none of the character's relationships is in the way, the plan is to create one. */
  lemma NewLinkIsPlanned(characterKey: string, kind: string, records: seq<Record>)
    requires characterKey != "b" && ValidIdentityPart(characterKey) && Part(kind) && Current(Small(characterKey, kind, records)) == []
    ensures Prepare(Small(characterKey, kind, records), [NewLink(kind)]) == Some([LinkPut(characterKey, kind)])
  {
    hide Allowed, NamesItsRecord, Entry, Current, RecordKeyOf, Part, ValidIdentityPart;
    var ctx := Small(characterKey, kind, records);
    NewLinkIsAllowed(characterKey, kind, records);
    var d := LinkDesired(characterKey, kind, None);
    NewLinkEntry(characterKey, kind, records);
    assert [NewLink(kind)][..0] == [] && Wanted(ctx, []) == Some([]);
    assert AddEntry(Some([]), Some(d)) == Some([] + [d]) && [] + [d] == [d];
    assert Wanted(ctx, [NewLink(kind)]) == Some([d]);
    assert [d][..0] == [] && PutOf(ctx, d) == [LinkPut(characterKey, kind)] && Puts(ctx, [d]) == [] + [LinkPut(characterKey, kind)];
    assert Deletes([], [d]) == [];
    assert [] + ([] + [LinkPut(characterKey, kind)]) == [LinkPut(characterKey, kind)];
  }

  lemma OneCommits(stored: Stored, m: Mutation)
    ensures Commit(stored, [m]) == if Applies(stored, m) then Some(Applied(stored, m)) else None
  {
    assert [m][1..] == [];
  }

  /** Sending one mutation: at most one other character is touched. */
  lemma OneIsSaved(rules: Rules, stored: Stored, characterKey: string, kind: string, records: seq<Record>, m: Mutation)
    ensures Save(rules, stored, Small(characterKey, kind, records), [m])
      == if Preparable(rules, m) && Applies(stored, m) then Some(Applied(stored, m)) else None
  {
    hide Preparable, SourcesOf, Applies;
    var touched := Touched(Small(characterKey, kind, records), stored, [m]);
    SubsetIsSmaller(touched, {"b"});
    OneCommits(stored, m);
    assert Prepared(rules, [m], 1 + |touched|) <==> Preparable(rules, m);
  }

  lemma LinkIsLink(characterKey: string, kind: string, records: seq<Record>, originalKey: Option<string>)
    requires ValidIdentityPart(characterKey) && Part(kind)
    ensures
      var d := LinkDesired(characterKey, kind, originalKey);
      && LinksCharacter(Small(characterKey, kind, records), d) && ValidVisibility(Object(d.value))
      && PartOf(d, "source") == characterKey && PartOf(d, "target") == "b" && PartOf(d, "type") == kind
  {
    hide ValidIdentityPart, Trim, RecordKeyOf;
    LetterIsPart('b');
    assert IsLink(Small(characterKey, kind, records), LinkDesired(characterKey, kind, originalKey), "b", kind, characterKey, "b");
  }

  /** The server takes a new link exactly when its key has no markup and its value fits. */
  lemma LinkPutIsPreparable(rules: Rules, characterKey: string, kind: string)
    requires rules.shape.Links? && ValidIdentityPart(characterKey) && Part(kind) && |UnitsOf(characterKey)| + |UnitsOf(kind)| <= 20
    ensures Preparable(rules, LinkPut(characterKey, kind)) <==>
      Plain(UnitsOf(characterKey)) && Plain(UnitsOf(kind)) && rules.fits(Object(LinkValue(characterKey, kind)))
  {
    hide ValidIdentityPart, Part, RecordKeyOf, Plain, ValidText, UnitsOf, LinksCharacter;
    var d := LinkDesired(characterKey, kind, None);
    LinkIsLink(characterKey, kind, [], None);
    LinkIsStorable(rules, Small(characterKey, kind, []), d);
    LetterIsPlain('b');
    KeyIsShort(Browser, UnitsOf(characterKey), UnitsOf("b"), UnitsOf(kind));
    StorableKey(rules, d.key, Object(d.value));
  }

  lemma LetterIsPlain(letter: char)
    requires 'a' <= letter <= 'z'
    ensures UnitsOf([letter]) == [letter as int] && Plain(UnitsOf([letter]))
  {
    assert [letter][1..] == [] && UnitsOf("") == [];
  }

  /** The key " a" has white space around it: its new relationship is planned and stored, is not shown as its own,
      and asking for it again is planned and refused. */
  lemma PaddedKeyLosesItsLink(rules: Rules)
    requires rules.shape.Links? && rules.fits(Object(LinkValue(" a", "x")))
    ensures
      var put, link := LinkPut(" a", "x"), Record(LinkKey(Browser, " a", "x"), 1, Object(LinkValue(" a", "x")));
      var stored := map[link.key := Version(1, Some(link.value))];
      && Prepare(Small(" a", "x", []), [NewLink("x")]) == Some([put]) && Save(rules, map[], Small(" a", "x", []), [put]) == Some(stored)
      && Represents(stored, [link]) && Current(Small(" a", "x", [link])) == []
      && Prepare(Small(" a", "x", [link]), [NewLink("x")]) == Some([put]) && Save(rules, stored, Small(" a", "x", [link]), [put]).None?
  {
    hide RecordKeyOf, Prepare, Save, Current, Involves, ValidIdentityPart, Preparable, Plain, UnitsOf;
    var put, link := LinkPut(" a", "x"), Record(LinkKey(Browser, " a", "x"), 1, Object(LinkValue(" a", "x")));
    var stored := map[link.key := Version(1, Some(link.value))];
    PaddedKey();
    LetterIsPart('x');
    LetterIsPlain('x');
    LinkPutIsPreparable(rules, " a", "x");
    NothingInvolved(" a", "x", []);
    NewLinkIsPlanned(" a", "x", []);
    OneIsSaved(rules, map[], " a", "x", [], put);
    PaddedLinkIsNotInvolved();
    NothingInvolved(" a", "x", [link]);
    NewLinkIsPlanned(" a", "x", [link]);
    OneIsSaved(rules, stored, " a", "x", [link], put);
    assert [link][0].key == link.key;
  }

  lemma PaddedLinkIsNotInvolved()
    ensures !Involves(Object(LinkValue(" a", "x")), " a")
  {
    hide Trim;
    PaddedKey();
    LetterIsPart('b');
  }

  lemma PaddedKey()
    ensures ValidIdentityPart(" a") && Trim(" a") == "a" && Plain(UnitsOf(" a")) && |UnitsOf(" a")| == 2
  {
    assert " a"[1..] == "a" && "a"[1..] == [];
    assert UnitsOf("") == [] && UnitsOf("a") == [0x61];
    assert UnitsOf(" a") == [0x20, 0x61];
    assert [0x20, 0x61][1..] == [0x61] && [0x61][1..] == [];
  }

  lemma NothingInvolved(characterKey: string, kind: string, records: seq<Record>)
    requires forall record <- records :: !Involves(record.value, characterKey)
    ensures Current(Small(characterKey, kind, records)) == []
  {
    EmptyOrInhabited(Current(Small(characterKey, kind, records)));
  }

  /** A stored relationship of `a` and `b` is removed by a plan without rows; the plan that asks for it again is
      made and refused. */
  lemma RemovedLinkIsRefused(rules: Rules)
    requires rules.shape.Links?
    ensures
      var put, link := LinkPut("a", "x"), Record(LinkKey(Browser, "a", "x"), 1, Object(LinkValue("a", "x")));
      var stored, removed := map[link.key := Version(1, Some(link.value))], map[link.key := Version(2, None)];
      && Represents(stored, [link])
      && Prepare(Small("a", "x", [link]), []) == Some([Delete(link.key, 1)])
      && Save(rules, stored, Small("a", "x", [link]), [Delete(link.key, 1)]) == Some(removed)
      && Represents(removed, [])
      && Prepare(Small("a", "x", []), [NewLink("x")]) == Some([put]) && Save(rules, removed, Small("a", "x", []), [put]).None?
  {
    hide RecordKeyOf, Save, ValidIdentityPart, Trim, Prepare, Current, UnitsOf, ValidText;
    var put, link := LinkPut("a", "x"), Record(LinkKey(Browser, "a", "x"), 1, Object(LinkValue("a", "x")));
    var stored, removed := map[link.key := Version(1, Some(link.value))], map[link.key := Version(2, None)];
    LetterIsPart('a');
    LetterIsPart('x');
    LetterIsPlain('a');
    LetterIsPlain('b');
    LetterIsPlain('x');
    assert Involves(link.value, "a");
    RemovalIsPlanned("a", "x", link);
    KeyIsShort(Browser, UnitsOf("a"), UnitsOf("b"), UnitsOf("x"));
    KeyIsValidText(Browser, UnitsOf("a"), UnitsOf("b"), UnitsOf("x"), MAXIMUM_KEY_BYTES);
    OneIsSaved(rules, stored, "a", "x", [link], Delete(link.key, 1));
    assert stored[link.key := Version(2, None)] == removed;
    NothingInvolved("a", "x", []);
    NewLinkIsPlanned("a", "x", []);
    OneIsSaved(rules, removed, "a", "x", [], put);
    assert [link][0].key == link.key;
  }

  lemma RemovalIsPlanned(characterKey: string, kind: string, link: Record)
    requires Involves(link.value, characterKey)
    ensures Prepare(Small(characterKey, kind, [link]), []) == Some([Delete(link.key, link.revision)])
  {
    hide Involves;
    var ctx := Small(characterKey, kind, [link]);
    OneInvolved(characterKey, kind, link);
    assert !Retained([], link) && [link][..0] == [] && Deletes([], []) == [];
    assert Deletes([link][..|[link]| - 1], []) == [];
    assert Deletes([link], []) == [] + [Delete(link.key, link.revision)];
    assert Puts(ctx, []) == [];
    assert [] + [Delete(link.key, link.revision)] + [] == [Delete(link.key, link.revision)];
  }

  lemma OneInvolved(characterKey: string, kind: string, link: Record)
    requires Involves(link.value, characterKey)
    ensures Current(Small(characterKey, kind, [link])) == [link]
  {
    hide Involves;
    assert [link][..0] == [] && Involving([], characterKey) == [] && [] + [link] == [link];
  }

  lemma MarkupKind()
    ensures Part("x&y") && !Plain(UnitsOf("x&y")) && |UnitsOf("x&y")| == 3
  {
    assert "x&y"[1..] == "&y" && "&y"[1..] == "y" && "y"[1..] == [];
    assert UnitsOf("") == [] && UnitsOf("y") == [0x79] && UnitsOf("&y") == [0x26, 0x79];
    assert UnitsOf("x&y") == [0x78, 0x26, 0x79];
    assert [0x78, 0x26, 0x79][1..] == [0x26, 0x79] && [0x26, 0x79][1..] == [0x79] && [0x79][1..] == [];
    assert UnitsOf("x&y")[1] == 0x26 && IsMarkup(0x26);
    assert 0x26 in UnitsOf("x&y");
    assert Utf8Length(UnitsOf("x&y")) == 3 && !HasControl(UnitsOf("x&y"));
  }

  /** A relationship of the type "x&y" that never existed: the editor plans it, and no server stores it. */
  lemma MarkupLinkIsRefused(rules: Rules)
    requires rules.shape.Links?
    ensures Prepare(Small("a", "x&y", []), [NewLink("x&y")]) == Some([LinkPut("a", "x&y")])
    ensures Save(rules, map[], Small("a", "x&y", []), [LinkPut("a", "x&y")]).None?
  {
    hide RecordKeyOf, Save, Prepare, Preparable, Current, Plain, UnitsOf, ValidIdentityPart, Trim;
    LetterIsPart('a');
    LetterIsPlain('a');
    MarkupKind();
    NothingInvolved("a", "x&y", []);
    NewLinkIsPlanned("a", "x&y", []);
    LinkPutIsPreparable(rules, "a", "x&y");
    OneIsSaved(rules, map[], "a", "x&y", [], LinkPut("a", "x&y"));
  }

  /** One that an import has stored is in the way of its character's other relationships: the rows as they were opened
      ask for it under the browser's key, and the plan is refused as a whole. */
  lemma MarkupLinkBlocksItsCharacter(rules: Rules)
    requires rules.shape.Links? && rules.fits(Object(LinkValue("a", "x&y")))
    ensures
      var link := Record(LinkKey(Server, "a", "x&y"), 1, Object(LinkValue("a", "x&y")));
      var stored, ctx := map[link.key := Version(1, Some(link.value))], Small("a", "x&y", [link]);
      var mutations := [Delete(link.key, 1), LinkPut("a", "x&y")];
      && Sound(rules, stored) && Represents(stored, [link])
      && Prepare(ctx, Rows(ctx, Current(ctx))) == Some(mutations) && Save(rules, stored, ctx, mutations).None?
  {
    hide RecordKeyOf, Prepare, Preparable, Current, Plain, UnitsOf, ValidIdentityPart, Trim, Rows, Storable;
    var link := Record(LinkKey(Server, "a", "x&y"), 1, Object(LinkValue("a", "x&y")));
    LetterIsPart('a');
    LetterIsPlain('a');
    MarkupKind();
    ImportedLinkIsStorable(rules, "a", "x&y");
    OneInvolved("a", "x&y", link);
    KeysAgree(UnitsOf("a"), UnitsOf("b"), UnitsOf("x&y"));
    ImportedRowIsPlanned("a", "x&y");
    LinkPutIsPreparable(rules, "a", "x&y");
    var mutations := [Delete(link.key, 1), LinkPut("a", "x&y")];
    assert mutations[1] in mutations;
    assert [link][0].key == link.key;
  }

  lemma ImportedLinkIsStorable(rules: Rules, characterKey: string, kind: string)
    requires rules.shape.Links? && ValidIdentityPart(characterKey) && Part(kind) && |UnitsOf(characterKey)| + |UnitsOf(kind)| <= 20
    requires rules.fits(Object(LinkValue(characterKey, kind)))
    ensures Storable(rules, LinkKey(Server, characterKey, kind), Object(LinkValue(characterKey, kind)))
    ensures Involves(Object(LinkValue(characterKey, kind)), characterKey) <== Trim(characterKey) == characterKey
  {
    hide RecordKeyOf, UnitsOf, ValidText, Trim;
    LetterIsPart('b');
    LetterIsPlain('b');
    KeyIsShort(Server, UnitsOf(characterKey), UnitsOf("b"), UnitsOf(kind));
    KeyIsValidText(Server, UnitsOf(characterKey), UnitsOf("b"), UnitsOf(kind), MAXIMUM_KEY_BYTES);
  }

  lemma ImportedRowIsPlanned(characterKey: string, kind: string)
    requires Part(characterKey) && characterKey != "b" && Part(kind) && LinkKey(Server, characterKey, kind) != LinkKey(Browser, characterKey, kind)
    ensures
      var link := Record(LinkKey(Server, characterKey, kind), 1, Object(LinkValue(characterKey, kind)));
      var ctx := Small(characterKey, kind, [link]);
      Prepare(ctx, Rows(ctx, [link])) == Some([Delete(link.key, 1), LinkPut(characterKey, kind)])
  {
    hide RecordKeyOf, ValidIdentityPart, Trim, Current, AddEdit, RowOf, UnitsOf, LinkKey, TextField, Original, Small;
    var link := Record(LinkKey(Server, characterKey, kind), 1, Object(LinkValue(characterKey, kind)));
    var ctx := Small(characterKey, kind, [link]);
    var row, d := RowOf(ctx, link), LinkDesired(characterKey, kind, Some(link.key));
    ImportedRowIsWanted(characterKey, kind);
    assert Involves(link.value, characterKey);
    OneInvolved(characterKey, kind, link);
    assert [link][..0] == [] && [] + [row] == [row] && [row][..0] == [];
    assert Rows(ctx, [link]) == [row] && Wanted(ctx, [row]) == Some([d]);
    assert !Retained([d], link) && Deletes([link], [d]) == [] + [Delete(link.key, 1)];
    assert [d][..0] == [] && Puts(ctx, [d]) == [] + PutOf(ctx, d);
    assert Keys(Current(ctx)) == {link.key};
    assert PutOf(ctx, d) == [LinkPut(characterKey, kind)];
    assert [] + [Delete(link.key, 1)] + ([] + [LinkPut(characterKey, kind)]) == [Delete(link.key, 1), LinkPut(characterKey, kind)];
  }

  lemma ImportedRowIsWanted(characterKey: string, kind: string)
    requires Part(characterKey) && characterKey != "b" && Part(kind)
    ensures
      var link := Record(LinkKey(Server, characterKey, kind), 1, Object(LinkValue(characterKey, kind)));
      var ctx := Small(characterKey, kind, [link]);
      AddEdit(ctx, [], Some([]), RowOf(ctx, link)) == Some([LinkDesired(characterKey, kind, Some(link.key))])
  {
    hide RecordKeyOf, ValidIdentityPart, Trim, Current, UnitsOf;
    var link := Record(LinkKey(Server, characterKey, kind), 1, Object(LinkValue(characterKey, kind)));
    var ctx := Small(characterKey, kind, [link]);
    var d := LinkDesired(characterKey, kind, Some(link.key));
    LetterIsPart('b');
    NoTitle();
    assert Involves(link.value, characterKey);
    OneInvolved(characterKey, kind, link);
    assert link in [link] && link.key in Keys([link]);
    var row := RowOf(ctx, link);
    assert row == Edit(Some(link.key), 1, From, "b", kind, "", None);
    assert Find(Current(ctx), link.key) == Some(link);
    assert Value(ctx, row, characterKey, "b", true) == LinkValue(characterKey, kind);
    assert [] + [d] == [d];
  }

  // ----- the editor's own limit -----

  /** Rows in which each of the named characters links to this one. */
  function IncomingRows(names: seq<string>): seq<Edit> {
    if names == [] then [] else IncomingRows(names[..|names| - 1]) + [Edit(None, 0, To, names[|names| - 1], "x", "", None)]
  }

  function IncomingValue(characterKey: string, name: string): Fields {
    map["source" := Text(name)]["target" := Text(characterKey)]["type" := Text("x")]["visibility" := Text("public")]
  }

  function IncomingDesired(characterKey: string, name: string): Desired {
    Desired(RecordKeyOf(Browser, UnitsOf(name), UnitsOf(characterKey), UnitsOf("x")), IncomingValue(characterKey, name), None)
  }

  function IncomingPut(characterKey: string, name: string): Mutation {
    Put(IncomingDesired(characterKey, name).key, 0, Object(IncomingDesired(characterKey, name).value))
  }

  function AllIncoming(characterKey: string, names: seq<string>): seq<Desired> {
    if names == [] then [] else AllIncoming(characterKey, names[..|names| - 1]) + [IncomingDesired(characterKey, names[|names| - 1])]
  }

  lemma {:induction false} AllIncomingAre(characterKey: string, names: seq<string>)
    ensures |AllIncoming(characterKey, names)| == |names|
    ensures forall i | 0 <= i < |names| :: AllIncoming(characterKey, names)[i] == IncomingDesired(characterKey, names[i])
  {
    hide IncomingDesired;
    if names != [] {
      AllIncomingAre(characterKey, names[..|names| - 1]);
    }
  }

  function Crowd(characterKey: string, names: set<string>): Context {
    Context([], names, {}, map["x" := TypeOption(false, {To})], characterKey, false)
  }

  ghost predicate Callers(characterKey: string, names: seq<string>) {
    Part(characterKey) && NoRepeats(names) && forall name <- names :: Part(name) && name != characterKey
  }

  lemma IncomingEntry(characterKey: string, all: set<string>, name: string)
    requires Part(characterKey) && Part(name) && name != characterKey && name in all
    ensures
      var ctx, row := Crowd(characterKey, all), Edit(None, 0, To, name, "x", "", None);
      NamesItsRecord(ctx, row) && Allowed(ctx, row) && Entry(ctx, row, false, true) == Some(IncomingDesired(characterKey, name))
  {
    hide ValidIdentityPart, Trim, RecordKeyOf, UnitsOf;
    LetterIsPart('x');
    NoTitle();
  }

  lemma IncomingKeysDiffer(characterKey: string, a: string, b: string)
    requires Part(characterKey) && Part(a) && Part(b) && a != b
    ensures IncomingDesired(characterKey, a).key != IncomingDesired(characterKey, b).key
  {
    hide ValidIdentityPart, Trim, RecordKeyOf, UnitsOf;
    LetterIsPart('x');
    if IncomingDesired(characterKey, a).key == IncomingDesired(characterKey, b).key {
      KeysAreInjective(Browser, a, characterKey, "x", Browser, b, characterKey, "x");
    }
  }

  lemma {:induction false} IncomingIsWanted(characterKey: string, all: set<string>, names: seq<string>)
    requires Callers(characterKey, names) && Elements(names) <= all
    ensures Wanted(Crowd(characterKey, all), IncomingRows(names)) == Some(AllIncoming(characterKey, names))
  {
    hide Part, Entry, Allowed, NamesItsRecord, IncomingDesired, AddEdit, Crowd;
    if names != [] {
      var front, name := names[..|names| - 1], names[|names| - 1];
      assert name in names && forall other <- front :: other in names;
      IncomingIsWanted(characterKey, all, front);
      IncomingEntry(characterKey, all, name);
      AllIncomingAre(characterKey, front);
      forall d <- AllIncoming(characterKey, front)
        ensures d.key != IncomingDesired(characterKey, name).key
      {
        var i :| 0 <= i < |front| && AllIncoming(characterKey, front)[i] == d;
        assert names[i] != names[|front|];
        IncomingKeysDiffer(characterKey, front[i], name);
      }
      IncomingAdded(characterKey, all, IncomingRows(front), AllIncoming(characterKey, front), name);
      assert IncomingRows(names)[..|IncomingRows(front)|] == IncomingRows(front);
    }
  }

  /** One more caller is one more desired link. */
  lemma IncomingAdded(characterKey: string, all: set<string>, before: seq<Edit>, desired: seq<Desired>, name: string)
    requires
      var ctx, row := Crowd(characterKey, all), Edit(None, 0, To, name, "x", "", None);
      NamesItsRecord(ctx, row) && Allowed(ctx, row) && Entry(ctx, row, false, true) == Some(IncomingDesired(characterKey, name))
    requires forall d <- desired :: d.key != IncomingDesired(characterKey, name).key
    ensures AddEdit(Crowd(characterKey, all), before, Some(desired), Edit(None, 0, To, name, "x", "", None))
      == Some(desired + [IncomingDesired(characterKey, name)])
  {
    hide Entry, Allowed, NamesItsRecord, IncomingDesired;
  }

  lemma {:induction false} IncomingPuts(characterKey: string, all: set<string>, names: seq<string>)
    ensures |Puts(Crowd(characterKey, all), AllIncoming(characterKey, names))| == |names|
    ensures forall i | 0 <= i < |names| :: Puts(Crowd(characterKey, all), AllIncoming(characterKey, names))[i] == IncomingPut(characterKey, names[i])
  {
    hide IncomingDesired, Find;
    if names != [] {
      var front := names[..|names| - 1];
      IncomingPuts(characterKey, all, front);
      AllIncomingAre(characterKey, front);
      assert AllIncoming(characterKey, names)[..|front|] == AllIncoming(characterKey, front);
    }
  }

  lemma IncomingTouches(characterKey: string, name: string)
    requires name != "" && characterKey != ""
    ensures SourcesOf(map[], IncomingPut(characterKey, name)) == {name}
  {
    hide RecordKeyOf, UnitsOf;
    var fields := ActivityFields(Some(Object(IncomingValue(characterKey, name))));
    assert "source" in fields && fields["source"] == Text(name);
  }

  lemma {:induction false} ManyElements(names: seq<string>)
    requires NoRepeats(names)
    ensures |Elements(names)| == |names|
  {
    if names != [] {
      var front, last := names[..|names| - 1], names[|names| - 1];
      ManyElements(front);
      assert names == front + [last];
      assert Elements(names) == Elements(front) + {last} && last !in Elements(front);
    }
  }

  /** The editor accepts up to 499 changes to keep a request within the server's limit of 500. It is not enough: the
      server writes the other end of each incoming link, too, so 250 new ones are planned and refused. */
  lemma ManyIncomingLinksAreRefused(rules: Rules, characterKey: string, names: seq<string>)
    requires Callers(characterKey, names) && 250 <= |names| <= MAXIMUM_PLAN
    ensures
      var ctx, mutations := Crowd(characterKey, Elements(names)), Puts(Crowd(characterKey, Elements(names)), AllIncoming(characterKey, names));
      Prepare(ctx, IncomingRows(names)) == Some(mutations) && |mutations| == |names| && Save(rules, map[], ctx, mutations).None?
  {
    hide Part, IncomingDesired, IncomingPut, Touched, Commit, Wanted, Preparable, Puts, AllIncoming, IncomingRows, DistinctKeys;
    var all := Elements(names);
    var ctx := Crowd(characterKey, all);
    var mutations := Puts(ctx, AllIncoming(characterKey, names));
    IncomingIsWanted(characterKey, all, names);
    IncomingPuts(characterKey, all, names);
    assert Current(ctx) == [] && Deletes([], AllIncoming(characterKey, names)) == [] && [] + mutations == mutations;
    IncomingTouched(characterKey, names, mutations);
    SubsetIsSmaller(all, Touched(ctx, map[], mutations));
    ManyElements(names);
  }

  lemma IncomingTouched(characterKey: string, names: seq<string>, mutations: seq<Mutation>)
    requires Callers(characterKey, names) && |mutations| == |names|
    requires forall i | 0 <= i < |names| :: mutations[i] == IncomingPut(characterKey, names[i])
    ensures Elements(names) <= Touched(Crowd(characterKey, Elements(names)), map[], mutations)
  {
    hide Part, IncomingPut, SourcesOf;
    forall name <- names
      ensures name in Touched(Crowd(characterKey, Elements(names)), map[], mutations)
    {
      var i :| 0 <= i < |names| && names[i] == name;
      PartIsNotEmpty(name);
      PartIsNotEmpty(characterKey);
      IncomingTouches(characterKey, names[i]);
      TouchesSource(Crowd(characterKey, Elements(names)), map[], mutations, mutations[i], name);
    }
  }

  lemma TouchesSource(ctx: Context, stored: Stored, mutations: seq<Mutation>, m: Mutation, source: string)
    requires m in mutations && source in SourcesOf(stored, m) && source in ctx.characters && source != ctx.characterKey
    ensures source in Touched(ctx, stored, mutations)
  {
    hide SourcesOf;
  }

  lemma PartIsNotEmpty(text: string)
    requires Part(text)
    ensures text != ""
  {
  }

  // ----- rows nobody edited -----

  /** `relationshipEditorRowsFor`. */
  function RowOf(ctx: Context, record: Record): Edit {
    var fields := RecordValue(record);
    var source, target := Line(Field(fields, "source")), Line(Field(fields, "target"));
    var visibility := Field(fields, "visibility");
    Edit(
      Some(record.key), record.revision,
      if source == ctx.characterKey then From else To, if source == ctx.characterKey then target else source,
      Line(Field(fields, "type")), Line(Field(fields, "label")),
      if ctx.canManageVisibility && visibility == Some(Text("dm")) then Some("dm")
      else if ctx.canManageVisibility && visibility == Some(Text("public")) then Some("public")
      else None)
  }

  function Rows(ctx: Context, records: seq<Record>): seq<Edit> {
    if records == [] then [] else Rows(ctx, records[..|records| - 1]) + [RowOf(ctx, records[|records| - 1])]
  }

  predicate IsLine(value: Option<Json>) {
    value.Some? && value.value.Text? && Trim(value.value.text) == value.value.text
  }

  /** A relationship as the editor itself saves it, whose type and other side still exist. */
  predicate WellFormed(ctx: Context, record: Record) {
    && Canonical(record) && 0 <= record.revision <= MAX_SAFE_INTEGER
    && var fields := record.value.fields;
       var source, target, kind := Line(Field(fields, "source")), Line(Field(fields, "target")), Line(Field(fields, "type"));
       var outgoing := source == ctx.characterKey;
       var other := if outgoing then target else source;
       && IsLine(Field(fields, "source")) && IsLine(Field(fields, "target")) && IsLine(Field(fields, "type"))
       && ("label" in fields ==> IsLine(Field(fields, "label"))) && |UnitsOf(Line(Field(fields, "label")))| <= MAXIMUM_TITLE
       && (kind in ctx.types ==> (if outgoing then From else To) in ctx.types[kind].directions)
       && (AtLocation(ctx, kind) ==> outgoing)
       && (if AtLocation(ctx, kind) then other in ctx.locations else other in ctx.characters && other != ctx.characterKey)
  }

  function Unedited(records: seq<Record>): seq<Desired>
    requires forall record <- records :: record.value.Object?
  {
    if records == [] then []
    else
      var last := records[|records| - 1];
      Unedited(records[..|records| - 1]) + [Desired(last.key, last.value.fields, Some(last.key))]
  }

  lemma {:induction false} UneditedContain(records: seq<Record>)
    requires forall record <- records :: record.value.Object?
    ensures |Unedited(records)| == |records|
    ensures forall i | 0 <= i < |records| :: Unedited(records)[i] == Desired(records[i].key, records[i].value.fields, Some(records[i].key))
  {
    if records != [] {
      UneditedContain(records[..|records| - 1]);
    }
  }

  /** The row of a record asks for the record as it is. */
  lemma RowAsksForItsRecord(ctx: Context, record: Record)
    requires UniqueKeys(ctx.records) && record in Current(ctx) && WellFormed(ctx, record)
    ensures
      var row := RowOf(ctx, record);
      && NamesItsRecord(ctx, row) && Allowed(ctx, row) && !row.direction.Both?
      && Entry(ctx, row, row.direction.From?, true) == Some(Desired(record.key, record.value.fields, Some(record.key)))
  {
    var row := RowOf(ctx, record);
    assert record.key in Keys(Current(ctx));
    var same := CurrentKey(ctx, record.key);
    assert Original(ctx, row) == Some(record);
    RowValue(ctx, record);
  }

  lemma RowValue(ctx: Context, record: Record)
    requires WellFormed(ctx, record) && Involves(record.value, ctx.characterKey) && Original(ctx, RowOf(ctx, record)) == Some(record)
    ensures
      var fields := record.value.fields;
      Value(ctx, RowOf(ctx, record), Line(Field(fields, "source")), Line(Field(fields, "target")), true) == fields
  {
    var row := RowOf(ctx, record);
    var fields := record.value.fields;
    var value := Value(ctx, row, Line(Field(fields, "source")), Line(Field(fields, "target")), true);
    TrimTwice(row.kind);
    forall key
      ensures Field(value, key) == Field(fields, key)
    {
      ValueField(ctx, row, Line(Field(fields, "source")), Line(Field(fields, "target")), key);
    }
    SameFields(value, fields);
  }

  lemma SameFields(a: Fields, b: Fields)
    requires forall key :: Field(a, key) == Field(b, key)
    ensures a == b
  {
    assert forall key :: key in a <==> Field(a, key).Some?;
    assert forall key :: key in b <==> Field(b, key).Some?;
    assert forall key | key in a :: a[key] == Field(a, key).value;
  }

  /** The fields an edit of a stored relationship writes. */
  lemma ValueField(ctx: Context, edit: Edit, source: string, target: string, key: string)
    requires Original(ctx, edit).Some?
    ensures
      var original, title := OriginalValue(ctx, edit), Trim(edit.title);
      Field(Value(ctx, edit, source, target, true), key) ==
        if key == "source" then Some(Text(source))
        else if key == "target" then Some(Text(target))
        else if key == "type" then Some(Text(Trim(edit.kind)))
        else if key == "label" && (title != "" || "label" in original) then Some(Text(title))
        else if key == "visibility" && edit.visibility.Some? then Some(Text(edit.visibility.value))
        else Field(original, key)
  {
    hide Trim, Original, RecordValue;
  }

  ghost predicate Rowable(ctx: Context, records: seq<Record>) {
    && UniqueKeys(ctx.records) && UniqueKeys(records)
    && forall record <- records :: record in Current(ctx) && WellFormed(ctx, record)
  }

  lemma {:induction false} RowsWanted(ctx: Context, records: seq<Record>)
    requires Rowable(ctx, records)
    ensures forall record <- records :: record.value.Object?
    ensures Wanted(ctx, Rows(ctx, records)) == Some(Unedited(records))
  {
    if records != [] {
      var front, record := records[..|records| - 1], records[|records| - 1];
      hide Rowable, RowOf, AddEdit;
      RowsWanted(ctx, front);
      RowsName(ctx, front);
      UneditedContain(front);
      assert Rows(ctx, records)[..|records| - 1] == Rows(ctx, front);
      AddRow(ctx, front, record);
    }
  }

  lemma {:induction false} RowsName(ctx: Context, records: seq<Record>)
    ensures |Rows(ctx, records)| == |records|
    ensures forall i | 0 <= i < |records| :: Rows(ctx, records)[i].originalKey == Some(records[i].key)
  {
    hide Line, Field, RecordValue;
    if records != [] {
      RowsName(ctx, records[..|records| - 1]);
    }
  }

  lemma AcceptedEdit(ctx: Context, before: seq<Edit>, desired: seq<Desired>, edit: Edit, d: Desired)
    requires NamesItsRecord(ctx, edit) && !Repeats(before, edit) && Allowed(ctx, edit) && !edit.direction.Both?
    requires Entry(ctx, edit, edit.direction.From?, true) == Some(d) && !Names(desired, d.key)
    ensures AddEdit(ctx, before, Some(desired), edit) == Some(desired + [d])
  {
  }

  lemma AddRow(ctx: Context, front: seq<Record>, record: Record)
    requires Rowable(ctx, front + [record])
    requires forall other <- front :: other.value.Object?
    requires |Rows(ctx, front)| == |Unedited(front)| == |front|
    requires forall i | 0 <= i < |front| :: Rows(ctx, front)[i].originalKey == Some(front[i].key) && Unedited(front)[i].key == front[i].key
    ensures record.value.Object?
    ensures AddEdit(ctx, Rows(ctx, front), Some(Unedited(front)), RowOf(ctx, record))
      == Some(Unedited(front) + [Desired(record.key, record.value.fields, Some(record.key))])
  {
    NewRow(ctx, front, record);
    RowAsksForItsRecord(ctx, record);
    AcceptedEdit(ctx, Rows(ctx, front), Unedited(front), RowOf(ctx, record), Desired(record.key, record.value.fields, Some(record.key)));
  }

  lemma NewRow(ctx: Context, front: seq<Record>, record: Record)
    requires Rowable(ctx, front + [record])
    requires forall other <- front :: other.value.Object?
    requires |Rows(ctx, front)| == |Unedited(front)| == |front|
    requires forall i | 0 <= i < |front| :: Rows(ctx, front)[i].originalKey == Some(front[i].key) && Unedited(front)[i].key == front[i].key
    ensures record in Current(ctx) && WellFormed(ctx, record)
    ensures !Repeats(Rows(ctx, front), RowOf(ctx, record)) && !Names(Unedited(front), record.key)
  {
    var records := front + [record];
    assert record in records;
    forall i | 0 <= i < |front|
      ensures front[i].key != record.key
    {
      assert records[i].key != records[|front|].key;
    }
  }

  /** Saving the rows as they were opened writes nothing. */
  lemma UneditedRowsSaveNothing(ctx: Context)
    requires UniqueKeys(ctx.records) && forall record <- Current(ctx) :: WellFormed(ctx, record)
    ensures Prepare(ctx, Rows(ctx, Current(ctx))) == Some([])
  {
    var current := Current(ctx);
    InvolvingIsUnique(ctx.records, ctx.characterKey);
    RowsWanted(ctx, current);
    var desired := Unedited(current);
    UneditedAreKept(ctx, current);
    NothingDeleted(current, desired);
    NothingPut(ctx, desired);
  }

  lemma UneditedAreKept(ctx: Context, records: seq<Record>)
    requires UniqueKeys(ctx.records) && forall record <- records :: record in Current(ctx) && record.value.Object?
    ensures forall d <- Unedited(records) :: !TakesOver(ctx, d) && PutOf(ctx, d) == []
    ensures forall record <- records :: Retained(Unedited(records), record)
  {
    var desired := Unedited(records);
    UneditedContain(records);
    forall d <- desired
      ensures !TakesOver(ctx, d) && PutOf(ctx, d) == []
    {
      var i :| 0 <= i < |records| && desired[i] == d;
      UneditedIsKept(ctx, records[i]);
    }
    forall record <- records
      ensures Retained(desired, record)
    {
      var i :| 0 <= i < |records| && records[i] == record;
      assert desired[i] in desired;
    }
  }

  lemma UneditedIsKept(ctx: Context, record: Record)
    requires UniqueKeys(ctx.records) && record in Current(ctx) && record.value.Object?
    ensures
      var d := Desired(record.key, record.value.fields, Some(record.key));
      !TakesOver(ctx, d) && PutOf(ctx, d) == []
  {
    assert record.key in Keys(Current(ctx));
    var same := CurrentKey(ctx, record.key);
  }

  lemma {:induction false} NothingDeleted(current: seq<Record>, desired: seq<Desired>)
    requires forall record <- current :: Retained(desired, record)
    ensures Deletes(current, desired) == []
  {
    if current != [] {
      assert current[|current| - 1] in current;
      NothingDeleted(current[..|current| - 1], desired);
    }
  }

  lemma {:induction false} NothingPut(ctx: Context, desired: seq<Desired>)
    requires forall d <- desired :: PutOf(ctx, d) == []
    ensures Puts(ctx, desired) == []
  {
    if desired != [] {
      assert desired[|desired| - 1] in desired;
      NothingPut(ctx, desired[..|desired| - 1]);
    }
  }
}
