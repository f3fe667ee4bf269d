/** What a saved patch of a character holds at each key it names, and exactly when it is refused, said of the values the
    form gave and of the stored record. */
module PatchedFields {
  import opened Results
  import opened CampaignRecords
  import opened RelationshipKeys
  import opened Relationships
  import opened RecordPatches

  // ----- lists of strings -----

  predicate Blank(item: Json) {
    item.Text? && Trim(item.text) == ""
  }

  /** The item is a string that is not too long. */
  predicate Fits(item: Json, maximum: nat) {
    item.Text? && Length(Trim(item.text)) <= maximum
  }

  predicate Named(items: seq<Json>, i: nat) {
    i < |items| && items[i].Text? && Trim(items[i].text) != ""
  }

  /** The item is not blank, and none before it differs from it in case only. */
  ghost predicate IsFirst(catalog: Catalog, items: seq<Json>, i: nat) {
    Named(items, i) && forall j | 0 <= j < i && Named(items, j) :: !SameName(catalog, items, j, i)
  }

  ghost predicate SameName(catalog: Catalog, items: seq<Json>, j: nat, i: nat)
    requires Named(items, i) && Named(items, j)
  {
    catalog.lower(Trim(items[j].text)) == catalog.lower(Trim(items[i].text))
  }

  /** `strings` are the trimmed first items, in their order; `at` are their positions. */
  ghost predicate Firsts(catalog: Catalog, items: seq<Json>, strings: seq<string>, at: seq<nat>) {
    && |at| == |strings| && (forall j, k | 0 <= j < k < |at| :: at[j] < at[k])
    && (forall k | 0 <= k < |at| :: IsFirst(catalog, items, at[k]) && strings[k] == Trim(items[at[k]].text))
    && forall i | IsFirst(catalog, items, i) :: i in at
  }

  lemma BlankFits(item: Json, maximum: nat)
    requires Blank(item)
    ensures Fits(item, maximum)
  {
    assert UnitsOf("") == [];
  }

  /** The list is accepted exactly when every item is a string that is not too long. */
  lemma {:induction false} NormalizedIsExact(catalog: Catalog, items: seq<Json>, maximum: nat)
    ensures Normalized(catalog, items, maximum).Some? <==> forall item <- items :: Fits(item, maximum)
  {
    hide Trim, Length;
    if items != [] {
      var front, last := items[..|items| - 1], items[|items| - 1];
      assert items == front + [last];
      NormalizedIsExact(catalog, front, maximum);
      NormalizedNext(catalog, items, maximum);
      assert (forall item <- items :: Fits(item, maximum)) <==> (forall item <- front :: Fits(item, maximum)) && Fits(last, maximum);
    }
  }

  lemma NormalizedNext(catalog: Catalog, items: seq<Json>, maximum: nat)
    requires items != []
    ensures
      var front, last := Normalized(catalog, items[..|items| - 1], maximum), items[|items| - 1];
      Normalized(catalog, items, maximum).Some? <==> front.Some? && Fits(last, maximum)
  {
    hide Trim, Length;
    var last := items[|items| - 1];
    if Blank(last) { BlankFits(last, maximum); }
  }

  lemma {:induction false} NormalizedKeepsFirsts(catalog: Catalog, items: seq<Json>, maximum: nat) returns (at: seq<nat>)
    requires Normalized(catalog, items, maximum).Some?
    ensures Firsts(catalog, items, Normalized(catalog, items, maximum).value, at)
  {
    hide Trim, Length, Firsts;
    at := [];
    if items == [] {
      assert Firsts(catalog, [], [], []) by { NoFirsts(catalog); }
    } else {
      var front, last := items[..|items| - 1], items[|items| - 1];
      assert items == front + [last];
      at := NormalizedKeepsFirsts(catalog, front, maximum);
      var before, item := Normalized(catalog, front, maximum).value, Trim(last.text);
      if item == "" || exists other <- before :: catalog.lower(other) == catalog.lower(item) {
        KnownIsSkipped(catalog, front, last, before, at);
      } else {
        NewIsAdded(catalog, front, last, before, at);
        at := at + [|front|];
      }
    }
  }

  lemma NoFirsts(catalog: Catalog)
    ensures Firsts(catalog, [], [], [])
  {
  }

  lemma SameFirsts(catalog: Catalog, front: seq<Json>, last: Json, i: nat)
    requires i < |front|
    ensures IsFirst(catalog, front + [last], i) <==> IsFirst(catalog, front, i)
  {
    hide Trim;
    var items := front + [last];
    assert forall j: nat | j < |front| :: Named(items, j) <==> Named(front, j);
    if Named(front, i) {
      assert forall j: nat | j < |front| && Named(front, j) :: SameName(catalog, items, j, i) <==> SameName(catalog, front, j, i);
    }
  }

  lemma {:induction false} FirstOf(catalog: Catalog, items: seq<Json>, i: nat) returns (first: nat)
    requires Named(items, i)
    ensures first <= i && IsFirst(catalog, items, first) && SameName(catalog, items, first, i)
  {
    first := i;
    if !IsFirst(catalog, items, i) {
      var j :| 0 <= j < i && Named(items, j) && SameName(catalog, items, j, i);
      first := FirstOf(catalog, items, j);
    }
  }

  lemma KnownIsSkipped(catalog: Catalog, front: seq<Json>, last: Json, strings: seq<string>, at: seq<nat>)
    requires Firsts(catalog, front, strings, at) && last.Text?
    requires Trim(last.text) == "" || exists other <- strings :: catalog.lower(other) == catalog.lower(Trim(last.text))
    ensures Firsts(catalog, front + [last], strings, at)
  {
    hide Trim;
    var items, n := front + [last], |front|;
    forall i: nat | i < n
      ensures IsFirst(catalog, items, i) <==> IsFirst(catalog, front, i)
    {
      SameFirsts(catalog, front, last, i);
    }
    if Trim(last.text) != "" {
      var other :| other in strings && catalog.lower(other) == catalog.lower(Trim(last.text));
      var k :| 0 <= k < |strings| && strings[k] == other;
      assert IsFirst(catalog, items, at[k]) && SameName(catalog, items, at[k], n);
    }
    assert !IsFirst(catalog, items, n);
  }

  lemma NewIsAdded(catalog: Catalog, front: seq<Json>, last: Json, strings: seq<string>, at: seq<nat>)
    requires Firsts(catalog, front, strings, at) && last.Text? && Trim(last.text) != ""
    requires forall other <- strings :: catalog.lower(other) != catalog.lower(Trim(last.text))
    ensures Firsts(catalog, front + [last], strings + [Trim(last.text)], at + [|front|])
  {
    hide Trim;
    var items, n := front + [last], |front|;
    forall i: nat | i < n
      ensures IsFirst(catalog, items, i) <==> IsFirst(catalog, front, i)
    {
      SameFirsts(catalog, front, last, i);
    }
    assert Named(items, n);
    forall j | 0 <= j < n && Named(items, j)
      ensures !SameName(catalog, items, j, n)
    {
      var first := FirstOf(catalog, items, j);
      var k :| 0 <= k < |at| && at[k] == first;
      assert strings[k] in strings;
    }
    assert IsFirst(catalog, items, n);
  }

  /** A stored list of these strings. */
  ghost predicate IsTexts(saved: Option<Json>, strings: seq<string>) {
    && saved.Some? && saved.value.List? && |saved.value.items| == |strings|
    && forall k | 0 <= k < |strings| :: saved.value.items[k] == Text(strings[k])
  }

  lemma {:induction false} TextsAre(strings: seq<string>)
    ensures IsTexts(Some(List(Texts(strings))), strings)
  {
    if strings != [] {
      TextsAre(strings[..|strings| - 1]);
    }
  }

  // ----- attitudes -----

  predicate HasId(item: Json, id: string) {
    item.Object? && id != "" && Line(Field(item.fields, "id")) == id
  }

  ghost predicate IsLastOf(stored: seq<Json>, id: string, i: nat) {
    i < |stored| && HasId(stored[i], id) && forall j | i < j < |stored| :: !HasId(stored[j], id)
  }

  /** The attitude with this ID, keeping the other fields of the last stored one that had it. */
  ghost predicate KeepsAttitude(stored: seq<Json>, id: string, item: Json) {
    && item.Object? && Field(item.fields, "id") == Some(Text(id))
    && (forall i: nat, name | IsLastOf(stored, id, i) && name != "id" :: Field(item.fields, name) == Field(stored[i].fields, name))
    && ((forall i | 0 <= i < |stored| :: !HasId(stored[i], id)) ==> item == Object(map["id" := Text(id)]))
  }

  lemma {:induction false} ExistingIsLast(stored: seq<Json>, id: string)
    ensures forall i: nat | IsLastOf(stored, id, i) :: Existing(stored, id) == stored[i].fields
    ensures (forall i | 0 <= i < |stored| :: !HasId(stored[i], id)) ==> Existing(stored, id) == map[]
  {
    hide Line;
    if stored != [] {
      var front, last := stored[..|stored| - 1], stored[|stored| - 1];
      ExistingIsLast(front, id);
      if !HasId(last, id) {
        assert forall i | 0 <= i < |front| :: stored[i] == front[i];
        forall i: nat | IsLastOf(stored, id, i)
          ensures IsLastOf(front, id, i)
        {
        }
      }
    }
  }

  function ItemsOf(stored: Option<Json>): seq<Json> {
    if stored.Some? && stored.value.List? then stored.value.items else []
  }

  lemma {:induction false} AttitudesAreKept(stored: Option<Json>, ids: seq<string>)
    ensures |AttitudeValues(stored, ids)| == |ids|
    ensures forall k | 0 <= k < |ids| :: KeepsAttitude(ItemsOf(stored), ids[k], AttitudeValues(stored, ids)[k])
  {
    hide KeepsAttitude;
    if ids != [] {
      AttitudesAreKept(stored, ids[..|ids| - 1]);
      AttitudeIsKept(ItemsOf(stored), ids[|ids| - 1]);
    }
  }

  lemma AttitudeIsKept(stored: seq<Json>, id: string)
    ensures KeepsAttitude(stored, id, Object(Existing(stored, id)["id" := Text(id)]))
  {
    hide Line;
    ExistingIsLast(stored, id);
  }

  // ----- what a field of the form stores -----

  /** The value is accepted for a field of this kind. */
  ghost predicate Accepts(catalog: Catalog, stored: Option<Json>, key: string, raw: Json) {
    match KindOf(key)
    case None => false
    case Some(SingleLine(maximum, required)) => raw.Text? && Length(raw.text) <= maximum && (required ==> Trim(raw.text) != "")
    case Some(Markdown(maximum)) => raw.Text? && Length(raw.text) <= maximum
    case Some(Reference) => raw.Text? && Trim(raw.text) in OptionsOf(catalog, key) + {""}
    case Some(Enum) => raw.Text? && Length(raw.text) <= 500 && Trim(raw.text) in OptionsOf(catalog, key) + {"", Line(stored)}
    case Some(Strings(maximum, most)) => raw.List? && |raw.items| <= most && forall item <- raw.items :: Fits(item, maximum)
    case Some(Attitudes) =>
      && raw.List? && |raw.items| <= 32 && (forall item <- raw.items :: Fits(item, 500))
      && forall i: nat | IsFirst(catalog, raw.items, i) :: Trim(raw.items[i].text) in catalog.attitudes
    case Some(Structured) => catalog.structured(key, raw, stored).Some?
    case Some(RankAssignment) => false
  }

  ghost predicate StoresStrings(catalog: Catalog, items: seq<Json>, saved: Option<Json>) {
    exists strings, at :: Firsts(catalog, items, strings, at) && IsTexts(saved, strings)
  }

  ghost predicate StoresAttitudes(catalog: Catalog, stored: seq<Json>, items: seq<Json>, saved: Option<Json>) {
    && saved.Some? && saved.value.List?
    && exists ids, at :: Firsts(catalog, items, ids, at) && AreAttitudes(stored, ids, saved.value.items)
  }

  ghost predicate AreAttitudes(stored: seq<Json>, ids: seq<string>, saved: seq<Json>) {
    |saved| == |ids| && forall k | 0 <= k < |ids| :: KeepsAttitude(stored, ids[k], saved[k])
  }

  /** What is stored for an accepted value: trimmed text, text as it was written, the option, the first strings, or the
      attitudes. A blank text is stored only over something. */
  ghost predicate Stores(catalog: Catalog, stored: Option<Json>, key: string, raw: Json, saved: Option<Json>) {
    match KindOf(key)
    case Some(SingleLine(_, _)) =>
      raw.Text? && saved == if Trim(raw.text) == "" && stored.None? then None else Some(Text(Trim(raw.text)))
    case Some(Markdown(_)) => raw.Text? && saved == if raw.text == "" && stored.None? then None else Some(Text(raw.text))
    case Some(Reference) => raw.Text? && saved == Some(Text(Trim(raw.text)))
    case Some(Enum) => raw.Text? && saved == Some(Text(Trim(raw.text)))
    case Some(Strings(_, _)) => raw.List? && StoresStrings(catalog, raw.items, saved)
    case Some(Attitudes) => raw.List? && StoresAttitudes(catalog, ItemsOf(stored), raw.items, saved)
    case Some(Structured) => saved == catalog.structured(key, raw, stored)
    case _ => false
  }

  /** The field after an outcome. */
  function After(outcome: Outcome, stored: Option<Json>): Option<Json> {
    if outcome.Store? then Some(outcome.value) else stored
  }

  lemma StringsOutcome(catalog: Catalog, raw: Json, maximum: nat, most: nat)
    ensures
      var strings := StringArray(catalog, raw, maximum, most);
      && (strings.Some? <==> raw.List? && |raw.items| <= most && forall item <- raw.items :: Fits(item, maximum))
      && (strings.Some? ==> exists at :: Firsts(catalog, raw.items, strings.value, at))
  {
    if raw.List? {
      NormalizedIsExact(catalog, raw.items, maximum);
      if StringArray(catalog, raw, maximum, most).Some? {
        var at := NormalizedKeepsFirsts(catalog, raw.items, maximum);
      }
    }
  }

  lemma FirstsAreIn(catalog: Catalog, items: seq<Json>, strings: seq<string>, at: seq<nat>, names: set<string>)
    requires Firsts(catalog, items, strings, at)
    ensures (exists text <- strings :: text !in names) <==> exists i: nat :: IsFirst(catalog, items, i) && Trim(items[i].text) !in names
  {
    hide Trim;
    if text :| text in strings && text !in names {
      var k :| 0 <= k < |strings| && strings[k] == text;
      assert IsFirst(catalog, items, at[k]);
    }
    if i: nat :| IsFirst(catalog, items, i) && Trim(items[i].text) !in names {
      var k :| 0 <= k < |at| && at[k] == i;
      assert strings[k] in strings;
    }
  }

  lemma AttitudesOutcome(catalog: Catalog, stored: Option<Json>, key: string, raw: Json)
    requires KindOf(key) == Some(Attitudes)
    ensures FieldOutcome(catalog, stored, key, raw) != Refuse <==> Accepts(catalog, stored, key, raw)
    ensures FieldOutcome(catalog, stored, key, raw) != Refuse ==>
      Stores(catalog, stored, key, raw, After(FieldOutcome(catalog, stored, key, raw), stored))
  {
    hide KindOf, Firsts, IsFirst, KeepsAttitude, Fits, Trim, StringArray;
    StringsOutcome(catalog, raw, 500, 32);
    var strings := StringArray(catalog, raw, 500, 32);
    if strings.Some? {
      var at :| Firsts(catalog, raw.items, strings.value, at);
      FirstsAreIn(catalog, raw.items, strings.value, at, catalog.attitudes);
      AttitudesAreKept(stored, strings.value);
      assert AreAttitudes(ItemsOf(stored), strings.value, AttitudeValues(stored, strings.value));
    }
  }

  lemma OutcomeIsExact(catalog: Catalog, stored: Option<Json>, key: string, raw: Json)
    ensures FieldOutcome(catalog, stored, key, raw) != Refuse <==> Accepts(catalog, stored, key, raw)
    ensures FieldOutcome(catalog, stored, key, raw) != Refuse ==>
      Stores(catalog, stored, key, raw, After(FieldOutcome(catalog, stored, key, raw), stored))
  {
    hide KindOf, Firsts, IsFirst, StoresAttitudes, Fits, Trim, StringArray, OptionsOf;
    match KindOf(key)
    case Some(Strings(maximum, most)) =>
      StringsOutcome(catalog, raw, maximum, most);
      var strings := StringArray(catalog, raw, maximum, most);
      if strings.Some? { TextsAre(strings.value); }
    case Some(Attitudes) => AttitudesOutcome(catalog, stored, key, raw);
    case _ =>
  }

  // ----- rank and faction -----

  /** A rank is one of the faction's, the stored one, or none. */
  ghost predicate AcceptsRank(catalog: Catalog, faction: Option<Json>, stored: Fields, raw: Json) {
    && raw.Object?
    && match (Field(raw.fields, "chainId"), Field(raw.fields, "rank"))
       case (Some(Text(chain)), Some(Text(rank))) =>
         && Length(chain) <= 200 && Length(rank) <= 200 && (Trim(chain) == "" <==> Trim(rank) == "")
         && (|| Trim(chain) == "" || (Line(faction), Trim(chain), Trim(rank)) in catalog.ranks
             || (Trim(chain) == Line(Field(stored, "rankChain")) && Trim(rank) == Line(Field(stored, "rank"))))
       case _ => false
  }

  ghost predicate StoresRank(raw: Json, chain: Option<Json>, rank: Option<Json>) {
    && raw.Object?
    && match (Field(raw.fields, "chainId"), Field(raw.fields, "rank"))
       case (Some(Text(newChain)), Some(Text(newRank))) => chain == Some(Text(Trim(newChain))) && rank == Some(Text(Trim(newRank)))
       case _ => false
  }

  lemma RankIsExact(catalog: Catalog, value: Fields, stored: Fields, raw: Json)
    ensures
      var applied := ApplyField(catalog, value, stored, "rankAssignment", raw);
      && (applied.Some? <==> AcceptsRank(catalog, Field(value, "faction"), stored, raw))
      && (applied.Some? ==> StoresRank(raw, Field(applied.value, "rankChain"), Field(applied.value, "rank")))
  {
    hide Trim, Length, FieldOutcome;
  }

  /** The faction after the patch. */
  function NewFaction(stored: Fields, patch: Patch): Option<Json> {
    if "faction" in patch.fields && patch.fields["faction"].Text? then Some(Text(Trim(patch.fields["faction"].text)))
    else Field(stored, "faction")
  }

  /** What the names of the fields stand for. */
  lemma NamesOfFields()
    ensures KindOf("faction") == Some(Reference)
    ensures forall key <- {"visibility", "rank", "rankChain", "portrait"} :: KindOf(key).None?
    ensures forall key | KindOf(key) == Some(RankAssignment) :: key == "rankAssignment"
    ensures KindOf("rankAssignment") == Some(RankAssignment)
  {
    assert "name"[0] == 'n' && "title"[0] == 't' && "species"[0] == 's' && "age"[0] == 'a' && "circumstances"[0] == 'c' && "description"[0] == 'd';
    assert "gender"[0] == 'g' && "status"[0] == 's' && "faction"[0] == 'f' && "location"[0] == 'l' && "tags"[0] == 't' && "known"[0] == 'k';
    assert "attitudes"[0] == 'a' && "locationRoles"[0] == 'l' && "unknown"[0] == 'u' && "visibility"[0] == 'v' && "portrait"[0] == 'p';
    assert "rank"[0] == 'r' && "rankChain"[0] == 'r' && "rankAssignment"[0] == 'r' && |"rank"| == 4 && |"rankChain"| == 9 && |"rankAssignment"| == 14;
  }

  // ----- all fields -----

  predicate IsRank(key: string) {
    key in {"rankAssignment", "rankChain", "rank"}
  }

  /** Each field is applied to the stored record, whatever the others do. */
  lemma {:induction false} FieldsApplied(catalog: Catalog, value: Fields, stored: Fields, patch: Patch, fields: seq<string>, key: string)
    requires ApplyFields(catalog, value, stored, patch, fields).Some? && !IsRank(key)
    ensures
      var result := Field(ApplyFields(catalog, value, stored, patch, fields).value, key);
      if key in fields && key in patch.fields then
        var outcome := FieldOutcome(catalog, Field(stored, key), key, patch.fields[key]);
        outcome != Refuse && result == After(outcome, Field(value, key))
      else result == Field(value, key)
  {
    hide FieldOutcome, ApplyField, After, Field;
    if fields != [] {
      var front, last := fields[..|fields| - 1], fields[|fields| - 1];
      assert fields == front + [last];
      FieldsApplied(catalog, value, stored, patch, front, key);
      if last in patch.fields {
        FieldApplied(catalog, ApplyFields(catalog, value, stored, patch, front).value, stored, last, patch.fields[last], key);
        AfterTwice(FieldOutcome(catalog, Field(stored, last), last, patch.fields[last]), Field(value, key));
      }
    }
  }

  lemma FieldApplied(catalog: Catalog, before: Fields, stored: Fields, last: string, raw: Json, key: string)
    requires ApplyField(catalog, before, stored, last, raw).Some? && !IsRank(key)
    ensures
      var result, outcome := Field(ApplyField(catalog, before, stored, last, raw).value, key), FieldOutcome(catalog, Field(stored, last), last, raw);
      if last == key then outcome != Refuse && result == After(outcome, Field(before, key)) else result == Field(before, key)
  {
    hide FieldOutcome, RankOf;
  }

  lemma AfterTwice(outcome: Outcome, before: Option<Json>)
    ensures After(outcome, After(outcome, before)) == After(outcome, before)
  {
  }

  /** The form applies the rank after the faction, and each once. */
  predicate Ordered(fields: seq<string>) {
    forall i | 0 <= i < |fields| && fields[i] == "rankAssignment" ::
      "faction" in fields[..i] && "rankAssignment" !in fields[i + 1..] && "faction" !in fields[i + 1..]
  }

  lemma FormIsOrdered()
    ensures Ordered(CHARACTER_FIELDS) && "faction" in CHARACTER_FIELDS && "rankAssignment" in CHARACTER_FIELDS
  {
    var f := CHARACTER_FIELDS;
    assert f[0][0] == 'n' && f[1][0] == 't' && f[2][0] == 's' && f[3][0] == 'g' && f[4][0] == 'a' && f[5][0] == 's' && f[6][0] == 'c' && f[7][0] == 'f';
    assert f[8][0] == 'r' && f[9][0] == 'l' && f[10][0] == 'l' && f[11][0] == 'a' && f[12][0] == 't' && f[13][0] == 'd' && f[14][0] == 'k' && f[15][0] == 'u';
    assert "rankAssignment"[0] == 'r' && "faction"[0] == 'f' && f[7] == "faction" && f[8] == "rankAssignment";
    forall i | 0 <= i < |f| && f[i] == "rankAssignment"
      ensures "faction" in f[..i] && "rankAssignment" !in f[i + 1..] && "faction" !in f[i + 1..]
    {
      assert i == 8 && f[..i][7] == "faction";
    }
  }

  lemma OrderedFront(fields: seq<string>)
    requires fields != [] && Ordered(fields)
    ensures Ordered(fields[..|fields| - 1])
    ensures fields[|fields| - 1] == "rankAssignment" ==> "faction" in fields[..|fields| - 1]
    ensures fields[|fields| - 1] in {"rankAssignment", "faction"} ==> "rankAssignment" !in fields[..|fields| - 1]
  {
    var front := fields[..|fields| - 1];
    forall i | 0 <= i < |front| && front[i] == "rankAssignment"
      ensures "faction" in front[..i] && "rankAssignment" !in front[i + 1..] && "faction" !in front[i + 1..]
      ensures fields[|fields| - 1] !in {"rankAssignment", "faction"}
    {
      assert fields[i] == "rankAssignment" && front[..i] == fields[..i];
      assert fields[i + 1..] == front[i + 1..] + [fields[|fields| - 1]];
    }
  }

  ghost predicate AcceptsField(catalog: Catalog, stored: Fields, patch: Patch, key: string)
    requires key in patch.fields
  {
    if key == "rankAssignment" then AcceptsRank(catalog, NewFaction(stored, patch), stored, patch.fields[key])
    else Accepts(catalog, Field(stored, key), key, patch.fields[key])
  }

  lemma FactionApplied(catalog: Catalog, stored: Fields, patch: Patch, fields: seq<string>)
    requires ApplyFields(catalog, stored, stored, patch, fields).Some? && "faction" in fields
    ensures Field(ApplyFields(catalog, stored, stored, patch, fields).value, "faction") == NewFaction(stored, patch)
  {
    hide ApplyFields, KindOf, Trim;
    assert |"faction"| == 7 && |"rankAssignment"| == 14 && |"rankChain"| == 9 && |"rank"| == 4;
    FieldsApplied(catalog, stored, stored, patch, fields, "faction");
    NamesOfFields();
    if "faction" in patch.fields {
      OutcomeIsExact(catalog, Field(stored, "faction"), "faction", patch.fields["faction"]);
    }
  }

  lemma AppliedNext(catalog: Catalog, stored: Fields, before: Fields, patch: Patch, key: string)
    requires key in patch.fields && (key == "rankAssignment" ==> Field(before, "faction") == NewFaction(stored, patch))
    ensures ApplyField(catalog, before, stored, key, patch.fields[key]).Some? <==> AcceptsField(catalog, stored, patch, key)
  {
    hide Accepts, AcceptsRank, FieldOutcome, RankOf, NewFaction;
    if key == "rankAssignment" {
      RankIsExact(catalog, before, stored, patch.fields[key]);
    } else {
      OutcomeIsExact(catalog, Field(stored, key), key, patch.fields[key]);
    }
  }

  /** The fields are accepted exactly when each of them is. */
  lemma {:induction false} FieldsAccepted(catalog: Catalog, stored: Fields, patch: Patch, fields: seq<string>)
    requires Ordered(fields)
    ensures ApplyFields(catalog, stored, stored, patch, fields).Some? <==>
      forall key <- fields | key in patch.fields :: AcceptsField(catalog, stored, patch, key)
  {
    hide Ordered, AcceptsField, ApplyField;
    if fields != [] {
      var front, last := fields[..|fields| - 1], fields[|fields| - 1];
      assert fields == front + [last];
      OrderedFront(fields);
      FieldsAccepted(catalog, stored, patch, front);
      var before := ApplyFields(catalog, stored, stored, patch, front);
      if before.Some? && last in patch.fields {
        if last == "rankAssignment" { FactionApplied(catalog, stored, patch, front); }
        AppliedNext(catalog, stored, before.value, patch, last);
      }
    }
  }

  lemma OthersKeepRank(catalog: Catalog, before: Fields, stored: Fields, key: string, raw: Json)
    requires key != "rankAssignment" && ApplyField(catalog, before, stored, key, raw).Some?
    ensures
      var after := ApplyField(catalog, before, stored, key, raw).value;
      Field(after, "rankChain") == Field(before, "rankChain") && Field(after, "rank") == Field(before, "rank")
  {
    hide KindOf;
    NamesOfFields();
    assert key in {"rankChain", "rank"} ==> KindOf(key).None?;
  }

  ghost predicate HoldsRank(stored: Fields, patch: Patch, given: bool, result: Fields) {
    if given && "rankAssignment" in patch.fields then
      StoresRank(patch.fields["rankAssignment"], Field(result, "rankChain"), Field(result, "rank"))
    else Field(result, "rankChain") == Field(stored, "rankChain") && Field(result, "rank") == Field(stored, "rank")
  }

  lemma {:induction false} RankApplied(catalog: Catalog, stored: Fields, patch: Patch, fields: seq<string>)
    requires Ordered(fields) && ApplyFields(catalog, stored, stored, patch, fields).Some?
    ensures HoldsRank(stored, patch, "rankAssignment" in fields, ApplyFields(catalog, stored, stored, patch, fields).value)
  {
    hide Ordered, ApplyField, StoresRank, Field;
    if fields != [] {
      var front, last := fields[..|fields| - 1], fields[|fields| - 1];
      assert fields == front + [last];
      OrderedFront(fields);
      RankApplied(catalog, stored, patch, front);
      var before := ApplyFields(catalog, stored, stored, patch, front).value;
      if last in patch.fields {
        if last == "rankAssignment" {
          RankIsExact(catalog, before, stored, patch.fields[last]);
        } else {
          OthersKeepRank(catalog, before, stored, last, patch.fields[last]);
        }
      }
    }
  }

  // ----- the whole patch -----

  lemma KnownIsListed(key: string)
    requires KindOf(key).Some?
    ensures key in CHARACTER_FIELDS
  {
    var f := CHARACTER_FIELDS;
    assert f[0] == "name" && f[1] == "title" && f[2] == "species" && f[3] == "gender" && f[4] == "age" && f[5] == "status" && f[6] == "circumstances";
    assert f[7] == "faction" && f[8] == "rankAssignment" && f[9] == "location" && f[10] == "locationRoles" && f[11] == "attitudes" && f[12] == "tags";
    assert f[13] == "description" && f[14] == "known" && f[15] == "unknown";
  }

  ghost predicate AllKnown(patch: Patch) {
    forall key <- patch.fields.Keys :: KindOf(key).Some?
  }

  /** The patch reads or writes the key: its own fields, rank and attitudes with a faction, the faction with a rank, the
      visibility with a portrait. */
  predicate Touches(patch: Patch, key: string) {
    || (key in patch.fields && key != "rankAssignment")
    || (key in {"rankChain", "rank"} && ("rankAssignment" in patch.fields || "faction" in patch.fields))
    || (key == "faction" && "rankAssignment" in patch.fields)
    || (key == "attitudes" && "faction" in patch.fields)
    || (key == "visibility" && (patch.visibility.Some? || patch.portrait.Some?))
    || (key == "portrait" && patch.portrait.Some?)
  }

  lemma TouchedAreThePatchs(patch: Patch, key: string)
    ensures key in PatchKeys(patch) <==> Touches(patch, key)
  {
    if key in PatchKeys(patch) && !(key in {"visibility", "portrait"} && (patch.visibility.Some? || patch.portrait.Some?)) {
      var field :| field in patch.fields && key in FieldKeys(field);
    }
    if key in patch.fields && key != "rankAssignment" { assert key in FieldKeys(key); }
    if "faction" in patch.fields && key in {"rankChain", "rank", "attitudes"} { assert key in FieldKeys("faction"); }
    if "rankAssignment" in patch.fields && key in {"rankChain", "rank", "faction"} { assert key in FieldKeys("rankAssignment"); }
  }

  /** Something the patch touches was changed by others since it was opened. */
  ghost predicate Conflicts(current: Record, patch: Patch) {
    exists key :: Touches(patch, key) && Field(RecordValue(patch.base), key) != Field(RecordValue(current), key)
  }

  ghost predicate PortraitFits(patch: Patch, baseline: Fields) {
    match patch.portrait
    case Some(Replaced(valid)) =>
      valid && (patch.visibility.Some? ==> (patch.visibility.value == "dm" <==> Field(baseline, "visibility") == Some(Text("dm"))))
    case _ => true
  }

  lemma AgreeMeans(current: Record, patch: Patch)
    ensures Agree(RecordValue(patch.base), RecordValue(current), PatchKeys(patch)) <==> !Conflicts(current, patch)
  {
    hide PatchKeys, Touches, Field;
    forall key
      ensures key in PatchKeys(patch) <==> Touches(patch, key)
    {
      TouchedAreThePatchs(patch, key);
    }
  }

  lemma AllFieldsAccepted(catalog: Catalog, stored: Fields, patch: Patch)
    requires AllKnown(patch)
    ensures ApplyFields(catalog, stored, stored, patch, CHARACTER_FIELDS).Some? <==>
      forall key <- patch.fields.Keys :: AcceptsField(catalog, stored, patch, key)
  {
    hide ApplyFields, KindOf, AcceptsField, Ordered;
    FormIsOrdered();
    FieldsAccepted(catalog, stored, patch, CHARACTER_FIELDS);
    forall key <- patch.fields.Keys
      ensures key in CHARACTER_FIELDS
    {
      KnownIsListed(key);
    }
  }

  /** A patch is stale exactly when its base is no past revision of the record or no object, or when a key it touches was
      changed meanwhile while it names known fields only. */
  lemma StaleIsExact(catalog: Catalog, current: Record, patch: Patch, canManage: bool)
    ensures RecordPatches.Prepare(catalog, current, patch, canManage) == Err(Stale) <==>
      || !(1 <= patch.base.revision <= current.revision && patch.base.revision <= MAX_SAFE_INTEGER && patch.base.value.Object?)
      || (AllKnown(patch) && Conflicts(current, patch))
  {
    hide ApplyFields, KindOf, Agree, PatchKeys, Touches, Coupled, Conflicts;
    AgreeMeans(current, patch);
  }

  /** Otherwise it is saved exactly when every value it gives is accepted, its visibility may be set, and its portrait
      fits the visibility it was opened with. */
  lemma AcceptedIsExact(catalog: Catalog, current: Record, patch: Patch, canManage: bool)
    requires RecordPatches.Prepare(catalog, current, patch, canManage) != Err(Stale)
    ensures RecordPatches.Prepare(catalog, current, patch, canManage).Ok? <==>
      && AllKnown(patch) && (forall key <- patch.fields.Keys :: AcceptsField(catalog, RecordValue(current), patch, key))
      && (patch.visibility.Some? ==> canManage && patch.visibility.value in {"public", "dm"})
      && PortraitFits(patch, RecordValue(patch.base))
  {
    hide ApplyFields, KindOf, Agree, PatchKeys, Coupled, AcceptsField;
    if AllKnown(patch) { AllFieldsAccepted(catalog, RecordValue(current), patch); }
  }

  /** The patch moves the character to another faction. */
  ghost predicate Moves(baseline: Fields, patch: Patch, saved: Fields) {
    "faction" in patch.fields && Field(saved, "faction") != Field(baseline, "faction")
  }

  ghost predicate JoinsParty(baseline: Fields, patch: Patch, saved: Fields) {
    Moves(baseline, patch, saved) && Field(saved, "faction") == Some(Text("party"))
  }

  /** What is stored under the key. */
  ghost predicate Holds(catalog: Catalog, stored: Fields, baseline: Fields, patch: Patch, saved: Fields, key: string) {
    if key == "visibility" && patch.visibility.Some? then Field(saved, key) == Some(Text(patch.visibility.value))
    else if key == "attitudes" && JoinsParty(baseline, patch, saved) then Field(saved, key) == Some(List([]))
    else if key in {"rankChain", "rank"} then
      if "rankAssignment" in patch.fields then StoresRank(patch.fields["rankAssignment"], Field(saved, "rankChain"), Field(saved, "rank"))
      else if Moves(baseline, patch, saved) then Field(saved, key) == Some(Text(""))
      else Field(saved, key) == Field(stored, key)
    else if key in patch.fields && key != "rankAssignment" then Stores(catalog, Field(stored, key), key, patch.fields[key], Field(saved, key))
    else Field(saved, key) == Field(stored, key)
  }

  lemma SavedField(catalog: Catalog, current: Record, patch: Patch, canManage: bool, key: string) returns (value: Fields)
    requires RecordPatches.Prepare(catalog, current, patch, canManage).Ok?
    ensures AllKnown(patch) && ApplyFields(catalog, RecordValue(current), RecordValue(current), patch, CHARACTER_FIELDS) == Some(value)
    ensures
      var saved := RecordPatches.Prepare(catalog, current, patch, canManage).value;
      && Field(saved, "faction") == Field(value, "faction")
      && Field(saved, key) == CoupledField(Field(value, "faction"), Field(value, key), RecordValue(patch.base), patch, key)
  {
    hide ApplyFields, KindOf, Agree, PatchKeys, Coupled, Visible, Field, PortraitError, BaseIsPast;
    value := ApplyFields(catalog, RecordValue(current), RecordValue(current), patch, CHARACTER_FIELDS).value;
    assert |"faction"| == 7 && |"visibility"| == 10 && |"attitudes"| == 9 && |"rank"| == 4 && |"rankChain"| == 9;
    CoupledFieldIs(value, RecordValue(patch.base), patch, "faction");
    CoupledFieldIs(value, RecordValue(patch.base), patch, key);
  }

  lemma RankIsStored(catalog: Catalog, current: Record, patch: Patch, canManage: bool, key: string)
    requires RecordPatches.Prepare(catalog, current, patch, canManage).Ok? && key in {"rankChain", "rank"}
    ensures Holds(catalog, RecordValue(current), RecordValue(patch.base), patch, RecordPatches.Prepare(catalog, current, patch, canManage).value, key)
  {
    hide ApplyFields, KindOf, Stores, StoresRank, Ordered, Field, RecordPatches.Prepare;
    assert |"visibility"| == 10 && "attitudes"[0] == 'a' && "rank"[0] == 'r' && "rankChain"[0] == 'r' && |"rank"| == 4 && |"rankChain"| == 9;
    FormIsOrdered();
    var value := SavedField(catalog, current, patch, canManage, "rankChain");
    var same := SavedField(catalog, current, patch, canManage, "rank");
    RankApplied(catalog, RecordValue(current), patch, CHARACTER_FIELDS);
  }

  /** Every key of the saved record: what the patch says there, the resets that come with another faction, and otherwise
      what was stored. */
  lemma PatchIsStored(catalog: Catalog, current: Record, patch: Patch, canManage: bool, key: string)
    requires RecordPatches.Prepare(catalog, current, patch, canManage).Ok?
    ensures Holds(catalog, RecordValue(current), RecordValue(patch.base), patch, RecordPatches.Prepare(catalog, current, patch, canManage).value, key)
  {
    hide ApplyFields, KindOf, Stores, StoresRank, FieldOutcome, Field, RecordPatches.Prepare, PatchKeys;
    var stored := RecordValue(current);
    NamesOfFields();
    if key in {"rankChain", "rank"} {
      RankIsStored(catalog, current, patch, canManage, key);
    } else if key == "rankAssignment" {
      TouchedAreThePatchs(patch, key);
      assert |"visibility"| == 10 && |"attitudes"| == 9 && |"rankAssignment"| == 14 && |"faction"| == 7 && |"portrait"| == 8;
      PatchChangesOnlyItsKeys(catalog, current, patch, canManage, key);
    } else {
      var value := SavedField(catalog, current, patch, canManage, key);
      FieldsApplied(catalog, stored, stored, patch, CHARACTER_FIELDS, key);
      if key in patch.fields {
        KnownIsListed(key);
        OutcomeIsExact(catalog, Field(stored, key), key, patch.fields[key]);
      }
    }
  }
}
