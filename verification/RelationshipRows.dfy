/** What the rows of the relationship editor become, said of the rows themselves: which relationships they ask for, and
    what each of them holds once the plan is saved. */
module RelationshipRows {
  import opened Results
  import opened CampaignRecords
  import opened RelationshipKeys
  import opened RecordRules
  import opened Relationships

  /** A relationship by its ends and its type. */
  datatype Link = Link(source: string, target: string, kind: string)

  ghost predicate AsksOutgoing(ctx: Context, edit: Edit, link: Link) {
    (edit.direction.From? || edit.direction.Both?) && link == Link(ctx.characterKey, Trim(edit.target), Trim(edit.kind))
  }

  ghost predicate AsksIncoming(ctx: Context, edit: Edit, link: Link) {
    (edit.direction.To? || edit.direction.Both?) && link == Link(Trim(edit.target), ctx.characterKey, Trim(edit.kind))
  }

  /** The row asks for the link; a row of both directions asks for two. */
  ghost predicate Asks(ctx: Context, edit: Edit, link: Link) {
    AsksOutgoing(ctx, edit, link) || AsksIncoming(ctx, edit, link)
  }

  /** The link carries on the record the row was opened from. The incoming link of a row of both directions is new. */
  ghost predicate CarriesOn(ctx: Context, edit: Edit, link: Link) {
    if edit.direction.To? then AsksIncoming(ctx, edit, link) else AsksOutgoing(ctx, edit, link)
  }

  /** What the row was opened from: a relationship of the character, or nothing. */
  ghost predicate OpenedFrom(ctx: Context, edit: Edit, original: Fields) {
    match edit.originalKey
    case None => original == map[]
    case Some(key) =>
      exists record <- ctx.records ::
        && record.key == key && record.revision == edit.expectedRevision
        && Involves(record.value, ctx.characterKey) && record.value == Object(original)
  }

  /** The row's ends, type, label and visibility; anything else is kept from what it carries on. */
  ghost predicate Describes(edit: Edit, link: Link, original: Fields, carriesOn: bool, value: Fields) {
    var title := Trim(edit.title);
    && Field(value, "source") == Some(Text(link.source)) && Field(value, "target") == Some(Text(link.target))
    && Field(value, "type") == Some(Text(link.kind))
    && Field(value, "label") == (if title != "" || "label" in original then Some(Text(title)) else None)
    && Field(value, "visibility") ==
       (match edit.visibility
        case Some(visibility) => Some(Text(visibility))
        case None => if edit.originalKey.None? then Some(Text("public")) else if carriesOn then Field(original, "visibility") else None)
    && forall name | name !in {"source", "target", "type", "label", "visibility"} ::
         Field(value, name) == if carriesOn then Field(original, name) else None
  }

  /** The relationship that the row asks for with this link is the value under the key. */
  ghost predicate Fulfils(ctx: Context, edit: Edit, link: Link, key: string, value: Json) {
    && value.Object? && CreateRelationshipRecordKey(link.source, link.target, link.kind) == Some(key)
    && exists original :: OpenedFrom(ctx, edit, original) && Describes(edit, link, original, CarriesOn(ctx, edit, link), value.fields)
  }

  // ----- one row -----

  lemma ValueDescribes(ctx: Context, edit: Edit, link: Link, first: bool)
    requires link.kind == Trim(edit.kind) && (Original(ctx, edit).None? <==> edit.originalKey.None?)
    ensures Describes(edit, link, OriginalValue(ctx, edit), first, Relationships.Value(ctx, edit, link.source, link.target, first))
  {
    hide Trim, Original, RecordValue;
  }

  lemma OriginalIsOpened(ctx: Context, edit: Edit)
    requires NamesItsRecord(ctx, edit)
    ensures Original(ctx, edit).None? <==> edit.originalKey.None?
    ensures OpenedFrom(ctx, edit, OriginalValue(ctx, edit))
  {
    if edit.originalKey.Some? {
      var record := Original(ctx, edit).value;
      assert record in Current(ctx) && record in ctx.records;
    }
  }

  /** Each direction of an accepted row is what the row asks for. */
  lemma EntryFulfils(ctx: Context, edit: Edit, outgoing: bool, first: bool)
    requires NamesItsRecord(ctx, edit) && Allowed(ctx, edit) && Entry(ctx, edit, outgoing, first).Some?
    requires if outgoing then first && !edit.direction.To? else !edit.direction.From? && (first <==> edit.direction.To?)
    ensures
      var other, d := Trim(edit.target), Entry(ctx, edit, outgoing, first).value;
      var link := if outgoing then Link(ctx.characterKey, other, Trim(edit.kind)) else Link(other, ctx.characterKey, Trim(edit.kind));
      && Asks(ctx, edit, link) && Fulfils(ctx, edit, link, d.key, Object(d.value))
      && d.originalKey == if CarriesOn(ctx, edit, link) then edit.originalKey else None
  {
    hide Trim, Describes, OpenedFrom, Relationships.Value, CreateRelationshipRecordKey, ValidIdentityPart, OriginalValue, NamesItsRecord;
    var other, d := Trim(edit.target), Entry(ctx, edit, outgoing, first).value;
    var link := if outgoing then Link(ctx.characterKey, other, Trim(edit.kind)) else Link(other, ctx.characterKey, Trim(edit.kind));
    OriginalIsOpened(ctx, edit);
    ValueDescribes(ctx, edit, link, first);
    assert CarriesOn(ctx, edit, link) <==> first;
  }

  /** The directions that a row adds: the first carries on its record. */
  predicate Adds(edit: Edit, outgoing: bool, first: bool) {
    if outgoing then first && !edit.direction.To? else !edit.direction.From? && (first <==> edit.direction.To?)
  }

  lemma AddedEdit(ctx: Context, before: seq<Edit>, desired: Option<seq<Desired>>, edit: Edit)
    requires AddEdit(ctx, before, desired, edit).Some?
    ensures desired.Some? && NamesItsRecord(ctx, edit) && Allowed(ctx, edit)
    ensures forall d :: d in AddEdit(ctx, before, desired, edit).value <==>
      d in desired.value || exists outgoing, first | Adds(edit, outgoing, first) :: Entry(ctx, edit, outgoing, first) == Some(d)
    ensures forall outgoing, first | Adds(edit, outgoing, first) :: Entry(ctx, edit, outgoing, first).Some?
  {
    hide Entry, NamesItsRecord, Allowed, Repeats, Names;
    match edit.direction
    case From => assert Adds(edit, true, true);
    case To => assert Adds(edit, false, true);
    case Both => assert Adds(edit, true, true) && Adds(edit, false, false);
  }

  // ----- all rows -----

  /** Every desired relationship is asked for by a row. */
  lemma {:induction false} DesiredWasAsked(ctx: Context, edits: seq<Edit>, d: Desired) returns (edit: Edit, link: Link)
    requires Wanted(ctx, edits).Some? && d in Wanted(ctx, edits).value
    ensures edit in edits && Asks(ctx, edit, link) && Fulfils(ctx, edit, link, d.key, Object(d.value))
    ensures d.originalKey == if CarriesOn(ctx, edit, link) then edit.originalKey else None
  {
    hide Fulfils, Entry, AddEdit, Allowed, NamesItsRecord, Asks, CarriesOn;
    var front := edits[..|edits| - 1];
    edit := edits[|edits| - 1];
    AddedEdit(ctx, front, Wanted(ctx, front), edit);
    if d in Wanted(ctx, front).value {
      edit, link := DesiredWasAsked(ctx, front, d);
    } else {
      var outgoing, first :| Adds(edit, outgoing, first) && Entry(ctx, edit, outgoing, first) == Some(d);
      EntryFulfils(ctx, edit, outgoing, first);
      var other := Trim(edit.target);
      link := if outgoing then Link(ctx.characterKey, other, Trim(edit.kind)) else Link(other, ctx.characterKey, Trim(edit.kind));
    }
  }

  /** Every link that a row asks for is desired. */
  lemma {:induction false} AskedIsDesired(ctx: Context, edits: seq<Edit>, edit: Edit, link: Link) returns (d: Desired)
    requires Wanted(ctx, edits).Some? && edit in edits && Asks(ctx, edit, link)
    ensures d in Wanted(ctx, edits).value && Fulfils(ctx, edit, link, d.key, Object(d.value))
    ensures d.originalKey == if CarriesOn(ctx, edit, link) then edit.originalKey else None
  {
    hide Fulfils, Entry, AddEdit, Allowed, NamesItsRecord, CarriesOn, Trim;
    var front, last := edits[..|edits| - 1], edits[|edits| - 1];
    AddedEdit(ctx, front, Wanted(ctx, front), last);
    if edit == last {
      var outgoing := AsksOutgoing(ctx, edit, link);
      var first := outgoing || edit.direction.To?;
      EntryFulfils(ctx, edit, outgoing, first);
      d := Entry(ctx, edit, outgoing, first).value;
    } else {
      d := AskedIsDesired(ctx, front, edit, link);
    }
  }

  /** The links that the rows ask for, and no others, are desired. */
  lemma DesiredIsAsked(ctx: Context, edits: seq<Edit>, link: Link, key: string)
    requires Wanted(ctx, edits).Some? && CreateRelationshipRecordKey(link.source, link.target, link.kind) == Some(key)
    ensures Names(Wanted(ctx, edits).value, key) <==> exists edit <- edits :: Asks(ctx, edit, link)
  {
    hide CreateRelationshipRecordKey, Asks, Wanted, OpenedFrom, Describes, CarriesOn;
    if Names(Wanted(ctx, edits).value, key) {
      var d :| d in Wanted(ctx, edits).value && d.key == key;
      var edit, other := DesiredWasAsked(ctx, edits, d);
      SameKey(link, other, key);
    }
    if edit :| edit in edits && Asks(ctx, edit, link) {
      var d := AskedIsDesired(ctx, edits, edit, link);
    }
  }

  lemma SameKey(a: Link, b: Link, key: string)
    requires CreateRelationshipRecordKey(a.source, a.target, a.kind) == Some(key)
    requires CreateRelationshipRecordKey(b.source, b.target, b.kind) == Some(key)
    ensures a == b
  {
    KeysAreInjective(Browser, a.source, a.target, a.kind, Browser, b.source, b.target, b.kind);
  }

  // ----- which rows are accepted -----

  /** No two rows ask for the same link. */
  ghost predicate Disjoint(ctx: Context, a: Edit, b: Edit) {
    forall link :: !(Asks(ctx, a, link) && Asks(ctx, b, link))
  }

  /** Each row is permitted, no record is edited twice, and no link is asked for twice. */
  ghost predicate Acceptable(ctx: Context, edits: seq<Edit>) {
    && (edits != [] ==> ValidIdentityPart(ctx.characterKey))
    && (forall edit <- edits :: NamesItsRecord(ctx, edit) && Allowed(ctx, edit))
    && (forall i, j | 0 <= i < j < |edits| :: edits[j].originalKey.Some? ==> edits[i].originalKey != edits[j].originalKey)
    && (forall i, j | 0 <= i < j < |edits| :: Disjoint(ctx, edits[i], edits[j]))
  }

  lemma EntryKeys(ctx: Context, edit: Edit)
    requires Allowed(ctx, edit)
    ensures forall outgoing, first :: Entry(ctx, edit, outgoing, first).Some? <==> ValidIdentityPart(ctx.characterKey)
    ensures edit.direction.Both? && ValidIdentityPart(ctx.characterKey) ==>
      Entry(ctx, edit, true, true).value.key != Entry(ctx, edit, false, false).value.key
  {
    hide Trim, RecordKeyOf, ValidIdentityPart;
    var other, kind := Trim(edit.target), Trim(edit.kind);
    if edit.direction.Both? && ValidIdentityPart(ctx.characterKey) {
      if Entry(ctx, edit, true, true).value.key == Entry(ctx, edit, false, false).value.key {
        KeysAreInjective(Browser, ctx.characterKey, other, kind, Browser, other, ctx.characterKey, kind);
      }
    }
  }

  /** What a further row must not do. */
  lemma NextIsAccepted(ctx: Context, front: seq<Edit>, edit: Edit)
    requires Wanted(ctx, front).Some?
    ensures AddEdit(ctx, front, Wanted(ctx, front), edit).Some? <==>
      && NamesItsRecord(ctx, edit) && Allowed(ctx, edit) && !Repeats(front, edit) && ValidIdentityPart(ctx.characterKey)
      && forall other <- front :: Disjoint(ctx, other, edit)
  {
    hide NamesItsRecord, Allowed, Repeats, Entry, Wanted, ValidIdentityPart, Asks;
    if NamesItsRecord(ctx, edit) && Allowed(ctx, edit) && !Repeats(front, edit) {
      EntryKeys(ctx, edit);
      if ValidIdentityPart(ctx.characterKey) {
        forall outgoing, first | Adds(edit, outgoing, first)
          ensures Names(Wanted(ctx, front).value, Entry(ctx, edit, outgoing, first).value.key) <==>
                  exists other <- front :: Asks(ctx, other, LinkOf(ctx, edit, outgoing))
        {
          EntryIsNamed(ctx, front, edit, outgoing, first);
        }
        DisjointMeans(ctx, front, edit);
        AddsMeans(edit);
      }
    }
  }

  function LinkOf(ctx: Context, edit: Edit, outgoing: bool): Link {
    if outgoing then Link(ctx.characterKey, Trim(edit.target), Trim(edit.kind)) else Link(Trim(edit.target), ctx.characterKey, Trim(edit.kind))
  }

  lemma AddsMeans(edit: Edit)
    ensures Adds(edit, true, true) <==> !edit.direction.To?
    ensures Adds(edit, false, true) <==> edit.direction.To?
    ensures Adds(edit, false, false) <==> edit.direction.Both?
    ensures !Adds(edit, true, false)
  {
  }

  lemma EntryIsNamed(ctx: Context, front: seq<Edit>, edit: Edit, outgoing: bool, first: bool)
    requires Wanted(ctx, front).Some? && Entry(ctx, edit, outgoing, first).Some?
    ensures Names(Wanted(ctx, front).value, Entry(ctx, edit, outgoing, first).value.key) <==>
      exists other <- front :: Asks(ctx, other, LinkOf(ctx, edit, outgoing))
  {
    hide Wanted, Asks, Names, Trim, Relationships.Value;
    DesiredIsAsked(ctx, front, LinkOf(ctx, edit, outgoing), Entry(ctx, edit, outgoing, first).value.key);
  }

  lemma DisjointMeans(ctx: Context, front: seq<Edit>, edit: Edit)
    ensures (forall other <- front :: Disjoint(ctx, other, edit)) <==>
      forall outgoing, first | Adds(edit, outgoing, first) :: !exists other <- front :: Asks(ctx, other, LinkOf(ctx, edit, outgoing))
  {
    hide Trim;
    AddsMeans(edit);
    forall link
      ensures Asks(ctx, edit, link) <==> exists outgoing, first | Adds(edit, outgoing, first) :: link == LinkOf(ctx, edit, outgoing)
    {
    }
  }

  lemma AcceptableNext(ctx: Context, front: seq<Edit>, edit: Edit)
    ensures Acceptable(ctx, front + [edit]) <==>
      && Acceptable(ctx, front) && NamesItsRecord(ctx, edit) && Allowed(ctx, edit) && !Repeats(front, edit)
      && ValidIdentityPart(ctx.characterKey) && forall other <- front :: Disjoint(ctx, other, edit)
  {
    hide NamesItsRecord, Allowed, Disjoint, ValidIdentityPart;
    var edits := front + [edit];
    forall other <- front
      ensures exists i :: 0 <= i < |front| && edits[i] == other
    {
      var i :| 0 <= i < |front| && front[i] == other;
      assert edits[i] == other;
    }
    if Acceptable(ctx, edits) {
      assert forall i, j | 0 <= i < j < |front| :: edits[i] == front[i] && edits[j] == front[j];
      assert forall other <- front :: other in edits;
      assert edits[|front|] == edit;
    } else if Acceptable(ctx, front) {
      assert forall i | 0 <= i < |front| :: edits[i] == front[i] && front[i] in front;
    }
  }

  /** The rows are accepted exactly when each is permitted and no two of them share a record or a link. */
  lemma {:induction false} AcceptedIsExact(ctx: Context, edits: seq<Edit>)
    ensures Wanted(ctx, edits).Some? <==> Acceptable(ctx, edits)
  {
    hide NamesItsRecord, Allowed, AddEdit, Disjoint, ValidIdentityPart, Repeats;
    if edits != [] {
      var front, edit := edits[..|edits| - 1], edits[|edits| - 1];
      assert edits == front + [edit];
      AcceptedIsExact(ctx, front);
      if Wanted(ctx, front).Some? {
        NextIsAccepted(ctx, front, edit);
      } else if Wanted(ctx, edits).Some? {
        AddedEdit(ctx, front, Wanted(ctx, front), edit);
        assert false;
      }
      AcceptableNext(ctx, front, edit);
    }
  }

  // ----- after saving -----

  /** The record that is stored for a link of a row. */
  ghost predicate Shown(ctx: Context, stored: Stored, edit: Edit, link: Link, key: string) {
    Live(stored, key) && Fulfils(ctx, edit, link, key, stored[key].live.value)
  }

  /** After a plan of accepted rows is saved: what each row asks for is stored, with the row's label and visibility and
      the kept fields, and every relationship of the character is one that a row asks for. */
  lemma SavedRowsAreTheLinks(rules: Rules, stored: Stored, ctx: Context, edits: seq<Edit>, mutations: seq<Mutation>)
    requires UniqueKeys(ctx.records) && Prepare(ctx, edits) == Some(mutations)
    requires Represents(stored, ctx.records) && Sound(rules, stored) && rules.shape.Links?
    requires Trim(ctx.characterKey) == ctx.characterKey && Save(rules, stored, ctx, mutations).Some?
    ensures
      var saved := Save(rules, stored, ctx, mutations).value;
      && (forall edit, link | edit in edits && Asks(ctx, edit, link) :: exists key :: Shown(ctx, saved, edit, link, key))
      && (forall key | Live(saved, key) && Involves(saved[key].live.value, ctx.characterKey) ::
            exists edit, link :: edit in edits && Asks(ctx, edit, link) && Shown(ctx, saved, edit, link, key))
  {
    hide Asks, Fulfils, Sound, Represents, Save, Involves, Wanted, Trim, WithinLimits, WasDeleted, NamedAlike, UniqueKeys;
    var desired := PreparedIsWanted(ctx, edits, mutations);
    CharacterHasWhatWasAsked(rules, stored, ctx, edits, desired, mutations);
    var saved := Save(rules, stored, ctx, mutations).value;
    forall edit, link | edit in edits && Asks(ctx, edit, link)
      ensures exists key :: Shown(ctx, saved, edit, link, key)
    {
      var d := AskedIsDesired(ctx, edits, edit, link);
      assert Shown(ctx, saved, edit, link, d.key);
    }
    forall key | Live(saved, key) && Involves(saved[key].live.value, ctx.characterKey)
      ensures exists edit, link :: edit in edits && Asks(ctx, edit, link) && Shown(ctx, saved, edit, link, key)
    {
      var d :| d in desired && d.key == key;
      var edit, link := DesiredWasAsked(ctx, edits, d);
      assert Shown(ctx, saved, edit, link, key);
    }
  }

  lemma PreparedIsWanted(ctx: Context, edits: seq<Edit>, mutations: seq<Mutation>) returns (desired: seq<Desired>)
    requires UniqueKeys(ctx.records) && Prepare(ctx, edits) == Some(mutations)
    ensures IsPlan(ctx, edits, desired, mutations) && Wanted(ctx, edits) == Some(desired)
  {
    desired := Wanted(ctx, edits).value;
  }
}
