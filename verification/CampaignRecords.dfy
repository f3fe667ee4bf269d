/** Campaign collections: records with unique keys, revisions and JSON values. */
module CampaignRecords {
  import opened Results

  /** Numbers are reals; the order of an object's keys is not modelled. */
  datatype Json = Null | Bool(truth: bool) | Number(number: real) | Text(text: string) | List(items: seq<Json>) | Object(fields: Fields)

  type Fields = map<string, Json>

  datatype Record = Record(key: string, revision: int, value: Json)

  const MAX_SAFE_INTEGER: int := 9007199254740991

  predicate SafeInteger(n: int) {
    -MAX_SAFE_INTEGER <= n <= MAX_SAFE_INTEGER
  }

  /** A value that is not an object reads as an empty one. */
  function RecordValue(record: Record): Fields {
    if record.value.Object? then record.value.fields else map[]
  }

  function Field(fields: Fields, key: string): Option<Json> {
    if key in fields then Some(fields[key]) else None
  }

  predicate UniqueKeys(records: seq<Record>) {
    forall i, j | 0 <= i < j < |records| :: records[i].key != records[j].key
  }

  function Keys(records: seq<Record>): set<string> {
    set record <- records :: record.key
  }

  /** The position of the record with this key; keys are unique. */
  function Position(records: seq<Record>, key: string): (i: nat)
    requires key in Keys(records)
    ensures i < |records| && records[i].key == key
  {
    if records[0].key == key then 0 else 1 + Position(records[1..], key)
  }

  lemma PositionIsUnique(records: seq<Record>, i: nat)
    requires UniqueKeys(records) && i < |records|
    ensures records[i].key in Keys(records) && Position(records, records[i].key) == i
  {
    assert records[i] in records;
    var p := Position(records, records[i].key);
  }

  function Find(records: seq<Record>, key: string): (found: Option<Record>)
    ensures found.Some? <==> key in Keys(records)
    ensures found.Some? ==> found.value in records && found.value.key == key
  {
    if key in Keys(records) then Some(records[Position(records, key)]) else None
  }

  /** One optimistic write: it applies only to the revision the author saw, where 0 means no record. */
  datatype Mutation = Put(key: string, expectedRevision: int, value: Json) | Delete(key: string, expectedRevision: int)

  /** A key as the server keeps it: a record that is deleted leaves its revision behind. */
  datatype Version = Version(revision: int, live: Option<Json>)

  /** A stored collection; a key that is not in it has never existed. */
  type Stored = map<string, Version>

  predicate Live(stored: Stored, key: string) {
    key in stored && stored[key].live.Some?
  }

  /** The revision a write has to expect; 0 for a key that has never existed. */
  function StoredRevision(stored: Stored, key: string): int {
    if key in stored then stored[key].revision else 0
  }

  predicate Applies(stored: Stored, m: Mutation) {
    m.expectedRevision == StoredRevision(stored, m.key) && (m.Delete? ==> Live(stored, m.key))
  }

  function Applied(stored: Stored, m: Mutation): Stored {
    stored[m.key := Version(m.expectedRevision + 1, if m.Put? then Some(m.value) else None)]
  }

  /** Applies the mutations in order; any stale revision, and any deletion of what is not there, refuses the
      whole commit. */
  function Commit(stored: Stored, mutations: seq<Mutation>): Option<Stored>
    decreases |mutations|
  {
    if mutations == [] then Some(stored)
    else if !Applies(stored, mutations[0]) then None
    else Commit(Applied(stored, mutations[0]), mutations[1..])
  }

  /** The records a client reads are the live ones. */
  ghost predicate Represents(stored: Stored, records: seq<Record>) {
    && UniqueKeys(records)
    && (forall key | Live(stored, key) :: exists i | 0 <= i < |records| :: records[i].key == key)
    && (forall i | 0 <= i < |records| ::
          records[i].key in stored && stored[records[i].key] == Version(records[i].revision, Some(records[i].value)))
  }

  ghost predicate DistinctKeys(mutations: seq<Mutation>) {
    forall a, b | 0 <= a < b < |mutations| :: mutations[a].key != mutations[b].key
  }

  /** What a list of mutations with distinct keys does to one key. */
  function MutationOf(mutations: seq<Mutation>, key: string): (r: Option<Mutation>)
    ensures r.Some? ==> r.value in mutations && r.value.key == key
    ensures r.None? ==> forall m <- mutations :: m.key != key
  {
    if mutations == [] then None
    else if mutations[0].key == key then Some(mutations[0])
    else MutationOf(mutations[1..], key)
  }

  lemma MutationIs(mutations: seq<Mutation>, m: Mutation)
    requires DistinctKeys(mutations) && m in mutations
    ensures MutationOf(mutations, m.key) == Some(m)
  {
    var i :| 0 <= i < |mutations| && mutations[i] == m;
    var found := MutationOf(mutations, m.key).value;
    var j :| 0 <= j < |mutations| && mutations[j] == found;
  }

  ghost predicate AllApply(stored: Stored, mutations: seq<Mutation>) {
    forall m <- mutations :: Applies(stored, m)
  }

  lemma NothingToApply(stored: Stored)
    ensures AllApply(stored, [])
  {
  }

  lemma FirstThenRest(stored: Stored, mutations: seq<Mutation>)
    requires DistinctKeys(mutations) && mutations != []
    ensures DistinctKeys(mutations[1..])
    ensures AllApply(stored, mutations) <==> Applies(stored, mutations[0]) && AllApply(Applied(stored, mutations[0]), mutations[1..])
  {
    var first, rest := mutations[0], mutations[1..];
    assert mutations == [first] + rest;
    assert forall m <- rest :: Applies(Applied(stored, first), m) <==> Applies(stored, m);
  }

  /** Mutations of distinct keys commit exactly when every one expects the stored revision and deletes only what
      is there. */
  lemma {:induction false} CommitsWhenCurrent(stored: Stored, mutations: seq<Mutation>)
    requires DistinctKeys(mutations)
    ensures Commit(stored, mutations).Some? <==> AllApply(stored, mutations)
    decreases |mutations|
  {
    hide AllApply, DistinctKeys;
    if mutations == [] {
      NothingToApply(stored);
    } else {
      FirstThenRest(stored, mutations);
      CommitsWhenCurrent(Applied(stored, mutations[0]), mutations[1..]);
    }
  }

  /** What they leave at a key. */
  lemma {:induction false} CommitEffect(stored: Stored, mutations: seq<Mutation>, key: string)
    requires DistinctKeys(mutations) && Commit(stored, mutations).Some?
    ensures
      var committed := Commit(stored, mutations).value;
      match MutationOf(mutations, key)
      case None => (key in committed <==> key in stored) && (key in stored ==> committed[key] == stored[key])
      case Some(m) => key in committed && committed[key] == Version(m.expectedRevision + 1, if m.Put? then Some(m.value) else None)
    decreases |mutations|
  {
    if mutations != [] {
      var first, rest := mutations[0], mutations[1..];
      CommitEffect(Applied(stored, first), rest, key);
      assert forall m <- rest :: m.key != first.key;
    }
  }

  /** The value the last put of a key writes. */
  function Written(mutations: seq<Mutation>, key: string): Option<Json> {
    if mutations == [] then None
    else if Written(mutations[1..], key).Some? then Written(mutations[1..], key)
    else if mutations[0].Put? && mutations[0].key == key then Some(mutations[0].value)
    else None
  }

  lemma {:induction false} WrittenFrom(mutations: seq<Mutation>, key: string) returns (m: Mutation)
    requires Written(mutations, key).Some?
    ensures m in mutations && m.Put? && m.key == key && Written(mutations, key) == Some(m.value)
  {
    if Written(mutations[1..], key).Some? { m := WrittenFrom(mutations[1..], key); } else { m := mutations[0]; }
  }

  lemma {:induction false} WrittenIs(mutations: seq<Mutation>, m: Mutation)
    requires DistinctKeys(mutations) && m in mutations && m.Put?
    ensures Written(mutations, m.key) == Some(m.value)
  {
    if m in mutations[1..] {
      WrittenIs(mutations[1..], m);
    } else {
      NotWrittenAgain(mutations);
    }
  }

  lemma NotWrittenAgain(mutations: seq<Mutation>)
    requires mutations != [] && DistinctKeys(mutations)
    ensures Written(mutations[1..], mutations[0].key).None?
  {
    if Written(mutations[1..], mutations[0].key).Some? {
      var m := WrittenFrom(mutations[1..], mutations[0].key);
    }
  }

  /** The collection after existing records were overwritten in place. */
  function Updated(records: seq<Record>, mutations: seq<Mutation>): (r: seq<Record>)
    ensures |r| == |records|
    ensures forall i | 0 <= i < |records| :: r[i].key == records[i].key
  {
    seq(|records|, i requires 0 <= i < |records| =>
      match Written(mutations, records[i].key)
      case Some(value) => Record(records[i].key, records[i].revision + 1, value)
      case None => records[i])
  }

  lemma {:induction false} SamePositions(left: seq<Record>, right: seq<Record>, key: string)
    requires |left| == |right| && forall i | 0 <= i < |left| :: left[i].key == right[i].key
    ensures key in Keys(left) <==> key in Keys(right)
    ensures key in Keys(left) ==> Position(left, key) == Position(right, key)
  {
    if left != [] {
      SamePositions(left[1..], right[1..], key);
      assert key in Keys(left) <==> key == left[0].key || key in Keys(left[1..]);
      assert key in Keys(right) <==> key == right[0].key || key in Keys(right[1..]);
    }
  }

  /** Puts with distinct keys and current revisions commit, whatever their order. */
  lemma {:induction false} PutsCommit(stored: Stored, mutations: seq<Mutation>, key: string)
    requires DistinctKeys(mutations)
    requires forall m <- mutations :: m.Put? && m.expectedRevision == StoredRevision(stored, m.key)
    ensures Commit(stored, mutations).Some?
    ensures
      var committed := Commit(stored, mutations).value;
      match Written(mutations, key)
      case Some(value) => key in committed && committed[key] == Version(StoredRevision(stored, key) + 1, Some(value))
      case None => (key in committed <==> key in stored) && (key in stored ==> committed[key] == stored[key])
    decreases |mutations|
  {
    if mutations != [] {
      var first := mutations[0];
      var next := Applied(stored, first);
      NotWrittenAgain(mutations);
      assert forall m <- mutations[1..] :: m in mutations && m.key != first.key;
      PutsCommit(next, mutations[1..], key);
    }
  }

  /** Each write names a record that exists, at the revision it has. */
  ghost predicate OverwritesCurrent(records: seq<Record>, mutations: seq<Mutation>) {
    forall m <- mutations :: m.Put? && exists i | 0 <= i < |records| :: records[i].key == m.key && records[i].revision == m.expectedRevision
  }

  lemma ExpectsStored(stored: Stored, records: seq<Record>, mutations: seq<Mutation>)
    requires Represents(stored, records) && OverwritesCurrent(records, mutations)
    ensures forall m <- mutations :: m.Put? && m.expectedRevision == StoredRevision(stored, m.key)
  {
    forall m <- mutations
      ensures m.expectedRevision == StoredRevision(stored, m.key)
    {
      var i :| 0 <= i < |records| && records[i].key == m.key && records[i].revision == m.expectedRevision;
      assert stored[records[i].key].revision == m.expectedRevision;
    }
  }

  lemma CommittedKeyIsKnown(stored: Stored, records: seq<Record>, mutations: seq<Mutation>, key: string) returns (i: nat)
    requires Represents(stored, records) && DistinctKeys(mutations) && OverwritesCurrent(records, mutations)
    requires Commit(stored, mutations).Some? && Live(Commit(stored, mutations).value, key)
    ensures i < |records| && records[i].key == key
  {
    ExpectsStored(stored, records, mutations);
    PutsCommit(stored, mutations, key);
    if Written(mutations, key).Some? {
      var m := WrittenFrom(mutations, key);
      i :| 0 <= i < |records| && records[i].key == m.key && records[i].revision == m.expectedRevision;
    } else {
      assert Live(stored, key);
      i :| 0 <= i < |records| && records[i].key == key;
    }
  }

  /** Overwriting existing records with distinct keys and current revisions commits. */
  lemma OverwritesCommit(stored: Stored, records: seq<Record>, mutations: seq<Mutation>)
    requires Represents(stored, records) && DistinctKeys(mutations) && OverwritesCurrent(records, mutations)
    ensures Commit(stored, mutations).Some? && Represents(Commit(stored, mutations).value, Updated(records, mutations))
  {
    assert Commit(stored, mutations).Some? by {
      ExpectsStored(stored, records, mutations);
      PutsCommit(stored, mutations, "");
    }
    var committed, after := Commit(stored, mutations).value, Updated(records, mutations);
    forall key | Live(committed, key)
      ensures exists i | 0 <= i < |after| :: after[i].key == key
    {
      var i := CommittedKeyIsKnown(stored, records, mutations, key);
      assert after[i].key == key;
    }
    forall i | 0 <= i < |after|
      ensures after[i].key in committed && committed[after[i].key] == Version(after[i].revision, Some(after[i].value))
    {
      OverwrittenEntry(stored, records, mutations, i);
    }
  }

  lemma OverwrittenEntry(stored: Stored, records: seq<Record>, mutations: seq<Mutation>, i: nat)
    requires Represents(stored, records) && DistinctKeys(mutations) && OverwritesCurrent(records, mutations)
    requires i < |records| && Commit(stored, mutations).Some?
    ensures
      var committed, after := Commit(stored, mutations).value, Updated(records, mutations)[i];
      after.key in committed && committed[after.key] == Version(after.revision, Some(after.value))
  {
    ExpectsStored(stored, records, mutations);
    PutsCommit(stored, mutations, records[i].key);
  }
}
