/** Saving some fields of a character over whatever others have saved meanwhile: a three-way rebase. */
module RecordPatches {
  import opened Results
  import opened CampaignRecords
  import opened RelationshipKeys
  import opened Relationships

  datatype PatchError = Stale | InvalidEdit | PortraitVisibility

  datatype Portrait = Removed | Replaced(valid: bool)

  /** A draft: the record it was opened from, the fields that changed as the form holds them, and the rest. */
  datatype Patch = Patch(base: Record, fields: Fields, visibility: Option<string>, portrait: Option<Portrait>)

  /** What the rest of the campaign offers: the options of each list, the ranks of each faction, how location
      roles and questions are normalised, and how strings are compared without case. */
  datatype Catalog = Catalog(
    genders: set<string>, statuses: set<string>, factions: set<string>, locations: set<string>, attitudes: set<string>,
    ranks: set<(string, string, string)>, structured: (string, Json, Option<Json>) -> Option<Json>, lower: string -> string)

  datatype Kind = SingleLine(maximum: nat, required: bool) | Markdown(maximum: nat) | Enum | Reference | Strings(maximum: nat, items: nat) | Attitudes
    | RankAssignment | Structured

  /** The fields of the character form, in order. */
  const CHARACTER_FIELDS := [
    "name", "title", "species", "gender", "age", "status", "circumstances", "faction", "rankAssignment", "location", "locationRoles",
    "attitudes", "tags", "description", "known", "unknown"]

  function KindOf(key: string): Option<Kind> {
    if key == "name" then Some(SingleLine(200, true))
    else if key in {"title", "species", "age"} then Some(SingleLine(500, false))
    else if key == "circumstances" then Some(SingleLine(1000, false))
    else if key == "description" then Some(Markdown(200000))
    else if key in {"gender", "status"} then Some(Enum)
    else if key in {"faction", "location"} then Some(Reference)
    else if key == "tags" then Some(Strings(100, 100))
    else if key == "known" then Some(Strings(10000, 500))
    else if key == "attitudes" then Some(Attitudes)
    else if key == "rankAssignment" then Some(RankAssignment)
    else if key in {"locationRoles", "unknown"} then Some(Structured)
    else None
  }

  function OptionsOf(catalog: Catalog, key: string): set<string> {
    if key == "gender" then catalog.genders
    else if key == "status" then catalog.statuses
    else if key == "faction" then catalog.factions + {"neutral", "party"}
    else catalog.locations
  }

  function Length(text: string): nat {
    |UnitsOf(text)|
  }

  /** `boundedLine`. */
  function Bounded(raw: Option<Json>, maximum: nat): Option<string> {
    match raw
    case Some(Text(text)) => if Length(text) > maximum then None else Some(Trim(text))
    case _ => None
  }

  /** Trimmed strings without blanks, and without repetitions that differ in case only. */
  function Normalized(catalog: Catalog, items: seq<Json>, maximum: nat): Option<seq<string>> {
    if items == [] then Some([])
    else
      match (Normalized(catalog, items[..|items| - 1], maximum), items[|items| - 1])
      case (Some(before), Text(text)) =>
        var item := Trim(text);
        if item == "" then Some(before)
        else if Length(item) > maximum then None
        else if exists other <- before :: catalog.lower(other) == catalog.lower(item) then Some(before)
        else Some(before + [item])
      case _ => None
  }

  function StringArray(catalog: Catalog, raw: Json, maximum: nat, most: nat): Option<seq<string>> {
    if raw.List? && |raw.items| <= most then Normalized(catalog, raw.items, maximum) else None
  }

  function Texts(items: seq<string>): seq<Json> {
    if items == [] then [] else Texts(items[..|items| - 1]) + [Text(items[|items| - 1])]
  }

  /** The last stored attitude of an ID, whose other fields are kept. */
  function Existing(stored: seq<Json>, id: string): Fields {
    if stored == [] then map[]
    else
      var last := stored[|stored| - 1];
      if last.Object? && Line(Field(last.fields, "id")) == id && id != "" then last.fields else Existing(stored[..|stored| - 1], id)
  }

  function AttitudeValues(current: Option<Json>, ids: seq<string>): seq<Json> {
    if ids == [] then []
    else
      var id := ids[|ids| - 1];
      var stored := if current.Some? && current.value.List? then current.value.items else [];
      AttitudeValues(current, ids[..|ids| - 1]) + [Object(Existing(stored, id)["id" := Text(id)])]
  }

  // ----- one field -----

  /** What a field of the form makes of its stored value: a new value, the old one, or a refusal. */
  datatype Outcome = Store(value: Json) | Keep | Refuse

  /** Blank text is stored only over a value that was there. */
  function TextOutcome(stored: Option<Json>, text: string): Outcome {
    if text != "" || stored.Some? then Store(Text(text)) else Keep
  }

  function FieldOutcome(catalog: Catalog, stored: Option<Json>, key: string, raw: Json): Outcome {
    match KindOf(key)
    case Some(SingleLine(maximum, required)) =>
      if !raw.Text? || Length(raw.text) > maximum || (required && Trim(raw.text) == "") then Refuse else TextOutcome(stored, Trim(raw.text))
    case Some(Markdown(maximum)) =>
      if !raw.Text? || Length(raw.text) > maximum then Refuse else TextOutcome(stored, raw.text)
    case Some(Strings(maximum, items)) =>
      (match StringArray(catalog, raw, maximum, items)
       case None => Refuse
       case Some(strings) => Store(List(Texts(strings))))
    case Some(Reference) =>
      if !raw.Text? || (Trim(raw.text) != "" && Trim(raw.text) !in OptionsOf(catalog, key)) then Refuse else Store(Text(Trim(raw.text)))
    case Some(Enum) =>
      (match Bounded(Some(raw), 500)
       case None => Refuse
       case Some(selected) =>
         if selected != "" && selected !in OptionsOf(catalog, key) && selected != Line(stored) then Refuse else Store(Text(selected)))
    case Some(Attitudes) =>
      (match StringArray(catalog, raw, 500, 32)
       case None => Refuse
       case Some(ids) => if exists id <- ids :: id !in catalog.attitudes then Refuse else Store(List(AttitudeValues(stored, ids))))
    case Some(Structured) =>
      (match catalog.structured(key, raw, stored)
       case None => Refuse
       case Some(normalized) => Store(normalized))
    case _ => Refuse
  }

  /** A rank must be one of the faction's, or the one that is stored. */
  function RankOf(catalog: Catalog, faction: Option<Json>, storedChain: Option<Json>, storedRank: Option<Json>, raw: Json): Option<(string, string)> {
    if !raw.Object? then None
    else
      match (Bounded(Field(raw.fields, "chainId"), 200), Bounded(Field(raw.fields, "rank"), 200))
      case (Some(chain), Some(rank)) =>
        if (chain == "") != (rank == "") then None
        else if chain != "" && (Line(faction), chain, rank) !in catalog.ranks && (chain != Line(storedChain) || rank != Line(storedRank)) then None
        else Some((chain, rank))
      case _ => None
  }

  /** `applyEditorField`. */
  function ApplyField(catalog: Catalog, value: Fields, current: Fields, key: string, raw: Json): Option<Fields> {
    if key == "rankAssignment" then
      match RankOf(catalog, Field(value, "faction"), Field(current, "rankChain"), Field(current, "rank"), raw)
      case None => None
      case Some((chain, rank)) => Some(value["rankChain" := Text(chain)]["rank" := Text(rank)])
    else
      match FieldOutcome(catalog, Field(current, key), key, raw)
      case Store(json) => Some(value[key := json])
      case Keep => Some(value)
      case Refuse => None
  }

  // ----- the whole patch -----

  /** The stored keys that a field of the form reads or writes, with the ones it resets. */
  function FieldKeys(key: string): set<string> {
    if key == "rankAssignment" then {"rankChain", "rank", "faction"}
    else if key == "faction" then {"faction", "rankChain", "rank", "attitudes"}
    else {key}
  }

  /** `patchKeys`. */
  function PatchKeys(patch: Patch): set<string> {
    (set field, key | field in patch.fields && key in FieldKeys(field) :: key)
    + (if patch.visibility.Some? then {"visibility"} else {})
    + (if patch.portrait.Some? then {"portrait", "visibility"} else {})
  }

  predicate Agree(a: Fields, b: Fields, keys: set<string>) {
    forall key <- keys :: Field(a, key) == Field(b, key)
  }

  function ApplyFields(catalog: Catalog, value: Fields, current: Fields, patch: Patch, fields: seq<string>): Option<Fields> {
    if fields == [] then Some(value)
    else
      var key := fields[|fields| - 1];
      match ApplyFields(catalog, value, current, patch, fields[..|fields| - 1])
      case None => None
      case Some(before) => if key in patch.fields then ApplyField(catalog, before, current, key, patch.fields[key]) else Some(before)
  }

  /** A new faction drops the rank unless the patch assigns one, and party members have no attitudes. */
  function Coupled(value: Fields, baseline: Fields, patch: Patch): Fields {
    if "faction" !in patch.fields || Field(value, "faction") == Field(baseline, "faction") then value
    else
      var unranked := if "rankAssignment" in patch.fields then value else value["rankChain" := Text("")]["rank" := Text("")];
      if Field(value, "faction") == Some(Text("party")) then unranked["attitudes" := List([])] else unranked
  }

  predicate ValidVisibility(visibility: Option<string>, canManage: bool) {
    visibility.Some? ==> canManage && visibility.value in {"public", "dm"}
  }

  function Visible(value: Fields, visibility: Option<string>): Fields {
    if visibility.Some? then value["visibility" := Text(visibility.value)] else value
  }

  function SavedVisibility(baseline: Fields): string {
    if Field(baseline, "visibility") == Some(Text("dm")) then "dm" else "public"
  }

  function PortraitError(patch: Patch, baseline: Fields): Option<PatchError> {
    match patch.portrait
    case Some(Replaced(valid)) =>
      if !valid then Some(InvalidEdit)
      else if patch.visibility.Some? && patch.visibility.value != SavedVisibility(baseline) then Some(PortraitVisibility)
      else None
    case _ => None
  }

  predicate BaseIsPast(current: Record, base: Record) {
    1 <= base.revision <= MAX_SAFE_INTEGER && base.revision <= current.revision && base.value.Object?
  }

  /** What saving the patch over the current record stores. */
  function Prepare(catalog: Catalog, current: Record, patch: Patch, canManage: bool): Result<Fields, PatchError> {
    if !BaseIsPast(current, patch.base) then Err(Stale)
    else if exists key <- patch.fields.Keys :: KindOf(key).None? then Err(InvalidEdit)
    else
      var stored, baseline := RecordValue(current), RecordValue(patch.base);
      if !Agree(baseline, stored, PatchKeys(patch)) then Err(Stale)
      else
        match ApplyFields(catalog, stored, stored, patch, CHARACTER_FIELDS)
        case None => Err(InvalidEdit)
        case Some(value) =>
          if !ValidVisibility(patch.visibility, canManage) then Err(InvalidEdit)
          else if PortraitError(patch, baseline).Some? then Err(PortraitError(patch, baseline).value)
          else Ok(Visible(Coupled(value, baseline, patch), patch.visibility))
  }

  method PrepareCharacterPatch(catalog: Catalog, records: seq<Record>, patch: Patch, canManage: bool) returns (result: Result<Mutation, PatchError>)
    requires UniqueKeys(records)
    ensures patch.base.key !in Keys(records) ==> result == Err(Stale)
    ensures patch.base.key in Keys(records) ==>
      var current := records[Position(records, patch.base.key)];
      match Prepare(catalog, current, patch, canManage)
      case Err(error) => result == Err(error)
      case Ok(fields) => result == Ok(Put(current.key, current.revision, Object(fields)))
  {
    hide ApplyField, PatchKeys, Coupled, Visible, KindOf, PortraitError, BaseIsPast;
    if patch.base.key !in Keys(records) { return Err(Stale); }
    var current := records[Position(records, patch.base.key)];
    if !BaseIsPast(current, patch.base) { return Err(Stale); }
    if exists key <- patch.fields.Keys :: KindOf(key).None? { return Err(InvalidEdit); }
    var stored, baseline := RecordValue(current), RecordValue(patch.base);
    if !Agree(baseline, stored, PatchKeys(patch)) { return Err(Stale); }
    var value := stored;
    for k := 0 to |CHARACTER_FIELDS|
      invariant ApplyFields(catalog, stored, stored, patch, CHARACTER_FIELDS[..k]) == Some(value)
    {
      var key := CHARACTER_FIELDS[k];
      assert CHARACTER_FIELDS[..k + 1][..k] == CHARACTER_FIELDS[..k];
      if key in patch.fields {
        var applied := ApplyField(catalog, value, stored, key, patch.fields[key]);
        if applied.None? {
          FailureStays(catalog, stored, stored, patch, CHARACTER_FIELDS, k + 1);
          return Err(InvalidEdit);
        }
        value := applied.value;
      }
    }
    assert CHARACTER_FIELDS[..|CHARACTER_FIELDS|] == CHARACTER_FIELDS;
    if !ValidVisibility(patch.visibility, canManage) { return Err(InvalidEdit); }
    if PortraitError(patch, baseline).Some? { return Err(PortraitError(patch, baseline).value); }
    result := Ok(Put(current.key, current.revision, Object(Visible(Coupled(value, baseline, patch), patch.visibility))));
  }

  lemma {:induction false} FailureStays(catalog: Catalog, value: Fields, current: Fields, patch: Patch, fields: seq<string>, k: nat)
    requires k <= |fields| && ApplyFields(catalog, value, current, patch, fields[..k]).None?
    ensures ApplyFields(catalog, value, current, patch, fields).None?
  {
    if k < |fields| {
      var front := fields[..|fields| - 1];
      assert front[..k] == fields[..k];
      FailureStays(catalog, value, current, patch, front, k);
    } else {
      assert fields[..k] == fields;
    }
  }

  // ----- a field touches only its keys -----

  lemma FieldIsLocal(catalog: Catalog, value: Fields, current: Fields, key: string, raw: Json, other: string)
    requires other !in FieldKeys(key) && ApplyField(catalog, value, current, key, raw).Some?
    ensures Field(ApplyField(catalog, value, current, key, raw).value, other) == Field(value, other)
  {
  }

  /** What a field does depends only on what its keys hold. */
  lemma FieldReadsItsKeys(catalog: Catalog, value: Fields, current: Fields, value': Fields, current': Fields, key: string, raw: Json)
    requires Agree(value, value', FieldKeys(key)) && Agree(current, current', FieldKeys(key))
    ensures ApplyField(catalog, value, current, key, raw).Some? <==> ApplyField(catalog, value', current', key, raw).Some?
    ensures ApplyField(catalog, value, current, key, raw).Some? ==>
      Agree(ApplyField(catalog, value, current, key, raw).value, ApplyField(catalog, value', current', key, raw).value, FieldKeys(key))
  {
    hide RankOf, FieldOutcome;
    if key == "rankAssignment" {
      assert Field(value, "faction") == Field(value', "faction");
      assert Field(current, "rankChain") == Field(current', "rankChain") && Field(current, "rank") == Field(current', "rank");
    } else {
      assert key in FieldKeys(key) && Field(current, key) == Field(current', key) && Field(value, key) == Field(value', key);
    }
  }

  // ----- the whole patch touches only its keys -----

  lemma FieldKeysAreThePatchs(patch: Patch, field: string)
    requires field in patch.fields
    ensures FieldKeys(field) <= PatchKeys(patch)
  {
  }

  lemma {:induction false} FieldsAreLocal(catalog: Catalog, value: Fields, current: Fields, patch: Patch, fields: seq<string>, other: string)
    requires other !in PatchKeys(patch) && ApplyFields(catalog, value, current, patch, fields).Some?
    ensures Field(ApplyFields(catalog, value, current, patch, fields).value, other) == Field(value, other)
  {
    if fields != [] {
      var front, key := fields[..|fields| - 1], fields[|fields| - 1];
      FieldsAreLocal(catalog, value, current, patch, front, other);
      if key in patch.fields {
        FieldKeysAreThePatchs(patch, key);
        FieldIsLocal(catalog, ApplyFields(catalog, value, current, patch, front).value, current, key, patch.fields[key], other);
      }
    }
  }

  lemma {:induction false} FieldsReadTheirKeys(catalog: Catalog, value: Fields, value': Fields, patch: Patch, fields: seq<string>)
    requires Agree(value, value', PatchKeys(patch))
    ensures ApplyFields(catalog, value, value, patch, fields).Some? <==> ApplyFields(catalog, value', value', patch, fields).Some?
    ensures ApplyFields(catalog, value, value, patch, fields).Some? ==>
      Agree(ApplyFields(catalog, value, value, patch, fields).value, ApplyFields(catalog, value', value', patch, fields).value, PatchKeys(patch))
  {
    if fields != [] {
      var front, key := fields[..|fields| - 1], fields[|fields| - 1];
      FieldsReadTheirKeys(catalog, value, value', patch, front);
      if key in patch.fields && ApplyFields(catalog, value, value, patch, front).Some? {
        NextFieldReadsItsKeys(catalog, ApplyFields(catalog, value, value, patch, front).value, value,
                              ApplyFields(catalog, value', value', patch, front).value, value', patch, key);
      }
    }
  }

  lemma NextFieldReadsItsKeys(catalog: Catalog, before: Fields, value: Fields, before': Fields, value': Fields, patch: Patch, key: string)
    requires Agree(before, before', PatchKeys(patch)) && Agree(value, value', PatchKeys(patch)) && key in patch.fields
    ensures
      var result, result' := ApplyField(catalog, before, value, key, patch.fields[key]), ApplyField(catalog, before', value', key, patch.fields[key]);
      (result.Some? <==> result'.Some?) && (result.Some? ==> Agree(result.value, result'.value, PatchKeys(patch)))
  {
    var raw := patch.fields[key];
    FieldKeysAreThePatchs(patch, key);
    FieldReadsItsKeys(catalog, before, value, before', value', key, raw);
    if ApplyField(catalog, before, value, key, raw).Some? {
      forall other <- PatchKeys(patch) | other !in FieldKeys(key)
        ensures Field(ApplyField(catalog, before, value, key, raw).value, other) == Field(ApplyField(catalog, before', value', key, raw).value, other)
      {
        FieldIsLocal(catalog, before, value, key, raw, other);
        FieldIsLocal(catalog, before', value', key, raw, other);
      }
    }
  }

  lemma CoupledIsLocal(value: Fields, baseline: Fields, patch: Patch, other: string)
    requires other !in PatchKeys(patch)
    ensures Field(Visible(Coupled(value, baseline, patch), patch.visibility), other) == Field(value, other)
  {
    if "faction" in patch.fields {
      FieldKeysAreThePatchs(patch, "faction");
    }
  }

  /** What a patch leaves at a key depends on the faction and on what was there. */
  function CoupledField(faction: Option<Json>, before: Option<Json>, baseline: Fields, patch: Patch, key: string): Option<Json> {
    if key == "visibility" && patch.visibility.Some? then Some(Text(patch.visibility.value))
    else if "faction" !in patch.fields || faction == Field(baseline, "faction") then before
    else if key == "attitudes" && faction == Some(Text("party")) then Some(List([]))
    else if key in {"rank", "rankChain"} && "rankAssignment" !in patch.fields then Some(Text(""))
    else before
  }

  lemma CoupledFieldIs(value: Fields, baseline: Fields, patch: Patch, key: string)
    ensures Field(Visible(Coupled(value, baseline, patch), patch.visibility), key)
      == CoupledField(Field(value, "faction"), Field(value, key), baseline, patch, key)
  {
  }

  lemma CoupledReadsItsKeys(value: Fields, value': Fields, baseline: Fields, patch: Patch)
    requires Agree(value, value', PatchKeys(patch))
    ensures Agree(Visible(Coupled(value, baseline, patch), patch.visibility), Visible(Coupled(value', baseline, patch), patch.visibility), PatchKeys(patch))
  {
    hide Coupled, Visible, Field;
    if "faction" in patch.fields {
      FieldKeysAreThePatchs(patch, "faction");
      assert Field(value, "faction") == Field(value', "faction");
    }
    forall key <- PatchKeys(patch)
      ensures Field(Visible(Coupled(value, baseline, patch), patch.visibility), key)
        == Field(Visible(Coupled(value', baseline, patch), patch.visibility), key)
    {
      CoupledFieldIs(value, baseline, patch, key);
      CoupledFieldIs(value', baseline, patch, key);
    }
  }

  /** A patch changes only keys of its own, the resets that come with a faction included. */
  lemma PatchChangesOnlyItsKeys(catalog: Catalog, current: Record, patch: Patch, canManage: bool, other: string)
    requires Prepare(catalog, current, patch, canManage).Ok? && other !in PatchKeys(patch)
    ensures Field(Prepare(catalog, current, patch, canManage).value, other) == Field(RecordValue(current), other)
  {
    var stored := RecordValue(current);
    FieldsAreLocal(catalog, stored, stored, patch, CHARACTER_FIELDS, other);
    CoupledIsLocal(ApplyFields(catalog, stored, stored, patch, CHARACTER_FIELDS).value, RecordValue(patch.base), patch, other);
  }

  /** Whether a patch can be saved, and what it then writes, depends only on what is stored at its keys. */
  lemma PatchReadsOnlyItsKeys(catalog: Catalog, current: Record, current': Record, patch: Patch, canManage: bool)
    requires Agree(RecordValue(current), RecordValue(current'), PatchKeys(patch)) && current.revision <= current'.revision
    requires Prepare(catalog, current, patch, canManage).Ok?
    ensures Prepare(catalog, current', patch, canManage).Ok?
    ensures Agree(Prepare(catalog, current, patch, canManage).value, Prepare(catalog, current', patch, canManage).value, PatchKeys(patch))
  {
    var stored, stored', baseline := RecordValue(current), RecordValue(current'), RecordValue(patch.base);
    FieldsReadTheirKeys(catalog, stored, stored', patch, CHARACTER_FIELDS);
    assert Agree(baseline, stored', PatchKeys(patch));
    CoupledReadsItsKeys(ApplyFields(catalog, stored, stored, patch, CHARACTER_FIELDS).value,
                        ApplyFields(catalog, stored', stored', patch, CHARACTER_FIELDS).value, baseline, patch);
  }

  /** The record after a patch was saved. */
  function Patched(catalog: Catalog, current: Record, patch: Patch, canManage: bool): Record
    requires Prepare(catalog, current, patch, canManage).Ok?
  {
    Record(current.key, current.revision + 1, Object(Prepare(catalog, current, patch, canManage).value))
  }

  lemma OtherPatchStillApplies(catalog: Catalog, current: Record, first: Patch, second: Patch, canManage: bool, canManage': bool)
    requires Prepare(catalog, current, first, canManage).Ok? && Prepare(catalog, current, second, canManage').Ok?
    requires PatchKeys(first) !! PatchKeys(second)
    ensures Prepare(catalog, Patched(catalog, current, first, canManage), second, canManage').Ok?
    ensures
      var both := Prepare(catalog, Patched(catalog, current, first, canManage), second, canManage').value;
      forall key :: Field(both, key) ==
        (if key in PatchKeys(second) then Field(Prepare(catalog, current, second, canManage').value, key)
         else Field(Prepare(catalog, current, first, canManage).value, key))
  {
    var patched := Patched(catalog, current, first, canManage);
    forall key <- PatchKeys(second)
      ensures Field(RecordValue(current), key) == Field(RecordValue(patched), key)
    {
      PatchChangesOnlyItsKeys(catalog, current, first, canManage, key);
    }
    PatchReadsOnlyItsKeys(catalog, current, patched, second, canManage');
    forall key | key !in PatchKeys(second)
      ensures Field(Prepare(catalog, patched, second, canManage').value, key) == Field(Prepare(catalog, current, first, canManage).value, key)
    {
      PatchChangesOnlyItsKeys(catalog, patched, second, canManage', key);
    }
  }

  /** Two authors who changed different keys of one character do not disturb each other: each patch that can be
      saved can also be saved after the other, and both orders store the same record. */
  lemma DisjointPatchesCommute(catalog: Catalog, current: Record, first: Patch, second: Patch, canManage: bool, canManage': bool)
    requires Prepare(catalog, current, first, canManage).Ok? && Prepare(catalog, current, second, canManage').Ok?
    requires PatchKeys(first) !! PatchKeys(second)
    ensures
      var afterFirst, afterSecond := Patched(catalog, current, first, canManage), Patched(catalog, current, second, canManage');
      && Prepare(catalog, afterFirst, second, canManage').Ok? && Prepare(catalog, afterSecond, first, canManage).Ok?
      && Patched(catalog, afterFirst, second, canManage') == Patched(catalog, afterSecond, first, canManage)
  {
    OtherPatchStillApplies(catalog, current, first, second, canManage, canManage');
    OtherPatchStillApplies(catalog, current, second, first, canManage', canManage);
    var a := Prepare(catalog, Patched(catalog, current, first, canManage), second, canManage').value;
    var b := Prepare(catalog, Patched(catalog, current, second, canManage'), first, canManage).value;
    forall key
      ensures Field(a, key) == Field(b, key)
    {
      if key !in PatchKeys(first) && key !in PatchKeys(second) {
        PatchChangesOnlyItsKeys(catalog, current, first, canManage, key);
        PatchChangesOnlyItsKeys(catalog, current, second, canManage', key);
      }
    }
    SameFields(a, b);
  }
}
