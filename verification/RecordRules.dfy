/** What the server's store asks of mutations before it opens a transaction: the key of a listed record is the one
    that its JSON value names. */
module RecordRules {
  import opened Results
  import opened CampaignRecords
  import opened RelationshipKeys

  const MAXIMUM_KEY_BYTES := 1024
  const MAXIMUM_ID_BYTES := 512
  const MAXIMUM_MUTATIONS := 500

  /** Relationships are named by their ends and type, the records of the other lists by their id. */
  datatype Shape = Links | Listed

  /** One list of the store; `fits` says whether a record, once the server has stamped it, is within the size limit. */
  datatype Rules = Rules(shape: Shape, fits: Json -> bool)

  /** A string field as Go decodes it: what is missing or null is empty, and nothing else but text is a string. */
  function TextField(fields: Fields, name: string): Option<string> {
    match Field(fields, name)
    case None => Some("")
    case Some(Null) => Some("")
    case Some(Text(text)) => Some(text)
    case Some(_) => None
  }

  /** `ListRecordKey`. */
  function ListRecordKey(shape: Shape, value: Json): Option<string> {
    if !value.Object? then None
    else
      match shape
      case Links =>
        var source, target, kind := TextField(value.fields, "source"), TextField(value.fields, "target"), TextField(value.fields, "type");
        if source.Some? && target.Some? && kind.Some? then KeyOf(Server, source.value, target.value, kind.value) else None
      case Listed =>
        var id := TextField(value.fields, "id");
        if id.Some? && ValidText(id.value, MAXIMUM_ID_BYTES) then id else None
  }

  predicate ValidVisibility(value: Json) {
    value.Object? && TextField(value.fields, "visibility") in {Some(""), Some("public"), Some("dm")}
  }

  /** `NormalizeRecord`. */
  predicate Storable(rules: Rules, key: string, value: Json) {
    && ValidText(key, MAXIMUM_KEY_BYTES) && rules.fits(value)
    && ListRecordKey(rules.shape, value) == Some(key) && ValidVisibility(value)
  }

  predicate Preparable(rules: Rules, m: Mutation) {
    && ValidText(m.key, MAXIMUM_KEY_BYTES)
    && match m
       case Put(key, expectedRevision, value) => 0 <= expectedRevision && Storable(rules, key, value)
       case Delete(_, expectedRevision) => 0 < expectedRevision
  }

  /** `prepareTransaction`: `others` counts the mutations of other collections in the same transaction. */
  ghost predicate Prepared(rules: Rules, mutations: seq<Mutation>, others: nat) {
    1 <= |mutations| + others <= MAXIMUM_MUTATIONS && DistinctKeys(mutations) && forall m <- mutations :: Preparable(rules, m)
  }

  /** `Store.Transact`, as far as one list is concerned: what is prepared is applied in order, as a whole or not at all. */
  ghost function Transact(rules: Rules, stored: Stored, mutations: seq<Mutation>, others: nat): Option<Stored> {
    if Prepared(rules, mutations, others) then Commit(stored, mutations) else None
  }

  /** What a list holds that only transactions have written: revisions count from one, and every record could be
      stored again. */
  ghost predicate Sound(rules: Rules, stored: Stored) {
    && (forall key | key in stored :: stored[key].revision > 0)
    && (forall key | Live(stored, key) :: Storable(rules, key, stored[key].live.value))
  }

  /** Every run of transactions keeps it; the empty list has it. */
  lemma TransactKeepsSound(rules: Rules, stored: Stored, mutations: seq<Mutation>, others: nat)
    requires Sound(rules, stored) && Transact(rules, stored, mutations, others).Some?
    ensures Sound(rules, Transact(rules, stored, mutations, others).value) && Sound(rules, map[])
  {
    hide Storable, ValidText, Commit;
    var committed := Transact(rules, stored, mutations, others).value;
    forall key | key in committed
      ensures committed[key].revision > 0
      ensures Live(committed, key) ==> Storable(rules, key, committed[key].live.value)
    {
      CommitEffect(stored, mutations, key);
      if MutationOf(mutations, key).Some? {
        assert Preparable(rules, MutationOf(mutations, key).value);
      }
    }
  }

  /** A transaction of distinct keys succeeds exactly when everything is prepared and current. */
  lemma TransactsWhenCurrent(rules: Rules, stored: Stored, mutations: seq<Mutation>, others: nat)
    requires DistinctKeys(mutations)
    ensures Transact(rules, stored, mutations, others).Some? <==> Prepared(rules, mutations, others) && AllApply(stored, mutations)
  {
    hide Preparable, AllApply, Commit, DistinctKeys;
    CommitsWhenCurrent(stored, mutations);
  }
}
