/** The campaign timeline: a lens between event records and columns of event keys, one column a session. */
module Timeline {
  import opened Results
  import opened Collections
  import opened CampaignRecords
  import RecordRules
  import opened Twins

  datatype Column = Column(sitting: int, ids: seq<string>)

  datatype BaseItem = BaseItem(key: string, revision: int)

  datatype Draft = Draft(base: seq<BaseItem>, columns: seq<Column>)

  datatype TimelineError = Invalid | Stale | Limit

  const MAXIMUM_MUTATIONS := 500

  predicate ValidSitting(n: int) {
    1 <= n <= MAX_SAFE_INTEGER
  }

  /** The session a stored value names; anything but a positive safe integer means the first one. */
  function Sitting(value: Option<Json>): (sitting: nat)
    ensures ValidSitting(sitting)
  {
    match value
    case Some(Number(n)) => if n == n.Floor as real && ValidSitting(n.Floor) then n.Floor else 1
    case _ => 1
  }

  function SittingOf(record: Record): nat {
    Sitting(Field(RecordValue(record), "sitting"))
  }

  function OrderOf(record: Record): real {
    match Field(RecordValue(record), "order")
    case Some(Number(n)) => n
    case _ => 0.0
  }

  // ----- what the columns of a campaign are -----

  ghost predicate IsShown(records: seq<Record>, key: string) {
    key in Keys(records) && Shown(records, records[Position(records, key)])
  }

  /** The stable order of the timeline: by stored order, then by place in the collection. */
  ghost predicate Before(records: seq<Record>, a: string, b: string) {
    && a in Keys(records) && b in Keys(records)
    && var i := Position(records, a); var j := Position(records, b);
       OrderOf(records[i]) < OrderOf(records[j]) || (OrderOf(records[i]) == OrderOf(records[j]) && i < j)
  }

  ghost predicate InOrder(records: seq<Record>, ids: seq<string>) {
    forall i, j | 0 <= i < j < |ids| :: Before(records, ids[i], ids[j])
  }

  /** Columns run through the sessions that have events, in order. */
  ghost predicate StrictColumns(columns: seq<Column>) {
    && (forall i, j | 0 <= i < j < |columns| :: columns[i].sitting < columns[j].sitting)
    && (forall i | 0 <= i < |columns| :: columns[i].ids != [])
  }

  ghost predicate Lists(records: seq<Record>, column: Column) {
    && InOrder(records, column.ids)
    && forall id :: id in column.ids <==> IsShown(records, id) && SittingOf(records[Position(records, id)]) == column.sitting
  }

  ghost predicate IsProjection(records: seq<Record>, columns: seq<Column>) {
    && StrictColumns(columns)
    && (forall i | 0 <= i < |columns| :: Lists(records, columns[i]))
    && (forall id | IsShown(records, id) :: exists i | 0 <= i < |columns| :: id in columns[i].ids)
  }

  ghost predicate StrictlySorted<T(!new)>(s: seq<T>, less: (T, T) -> bool) {
    forall i, j | 0 <= i < j < |s| :: less(s[i], s[j])
  }

  ghost predicate StrictOrder<T(!new)>(less: (T, T) -> bool) {
    && (forall x :: !less(x, x))
    && (forall x, y, z :: less(x, y) && less(y, z) ==> less(x, z))
  }

  /** A strict order leaves only one way to list a set. */
  lemma {:induction false} SortedListIsUnique<T(!new)>(a: seq<T>, b: seq<T>, less: (T, T) -> bool)
    requires StrictOrder(less) && StrictlySorted(a, less) && StrictlySorted(b, less)
    requires forall x :: x in a <==> x in b
    ensures a == b
  {
    if a != [] && b != [] {
      FirstIsLeast(a, b, less);
      forall x
        ensures x in a[1..] <==> x in b[1..]
      {
        assert x in a <==> x == a[0] || x in a[1..];
        assert x in b <==> x == b[0] || x in b[1..];
        assert x in a[1..] ==> less(a[0], x);
        assert x in b[1..] ==> less(b[0], x);
      }
      SortedListIsUnique(a[1..], b[1..], less);
    } else {
      EmptyOrInhabited(a);
      EmptyOrInhabited(b);
    }
  }

  lemma FirstIsLeast<T(!new)>(a: seq<T>, b: seq<T>, less: (T, T) -> bool)
    requires StrictOrder(less) && StrictlySorted(a, less) && StrictlySorted(b, less)
    requires forall x :: x in a <==> x in b
    requires a != [] && b != []
    ensures a[0] == b[0]
  {
    assert a[0] in b && b[0] in a;
    var i :| 0 <= i < |b| && b[i] == a[0];
    var j :| 0 <= j < |a| && a[j] == b[0];
  }

  /** A campaign has exactly one projection. */
  lemma ProjectionIsUnique(records: seq<Record>, left: seq<Column>, right: seq<Column>)
    requires IsProjection(records, left) && IsProjection(records, right)
    ensures left == right
  {
    var a, b := seq(|left|, i requires 0 <= i < |left| => left[i].sitting), seq(|right|, i requires 0 <= i < |right| => right[i].sitting);
    SameSittings(records, left, right, a, b);
    SameSittings(records, right, left, b, a);
    SortedListIsUnique(a, b, (x, y) => x < y);
    forall i | 0 <= i < |left|
      ensures left[i] == right[i]
    {
      assert left[i].sitting == a[i] == b[i] == right[i].sitting;
      SortedListIsUnique(left[i].ids, right[i].ids, (x, y) => Before(records, x, y));
    }
  }

  lemma SameSittings(records: seq<Record>, left: seq<Column>, right: seq<Column>, a: seq<int>, b: seq<int>)
    requires IsProjection(records, left) && IsProjection(records, right)
    requires |a| == |left| && |b| == |right|
    requires forall i | 0 <= i < |a| :: a[i] == left[i].sitting
    requires forall i | 0 <= i < |b| :: b[i] == right[i].sitting
    ensures forall x :: x in a ==> x in b
  {
    forall x | x in a
      ensures x in b
    {
      var i :| 0 <= i < |a| && a[i] == x;
      var id := left[i].ids[0];
      assert id in left[i].ids && Lists(records, left[i]);
      var j :| 0 <= j < |right| && id in right[j].ids;
      assert Lists(records, right[j]);
      assert b[j] == x;
    }
  }

  // ----- timelineColumns -----

  /** JavaScript's stable sort, by stored order. */
  function InsertByOrder(sorted: seq<Record>, record: Record): seq<Record> {
    if sorted == [] then [record]
    else
      var last := sorted[|sorted| - 1];
      if OrderOf(record) < OrderOf(last) then InsertByOrder(sorted[..|sorted| - 1], record) + [last] else sorted + [record]
  }

  function StableSort(records: seq<Record>): seq<Record> {
    if records == [] then []
    else InsertByOrder(StableSort(records[..|records| - 1]), records[|records| - 1])
  }

  ghost predicate RecordsInOrder(all: seq<Record>, records: seq<Record>) {
    forall i, j | 0 <= i < j < |records| :: Before(all, records[i].key, records[j].key)
  }

  lemma {:induction false} InsertContains(sorted: seq<Record>, record: Record)
    ensures forall other :: other in InsertByOrder(sorted, record) <==> other == record || other in sorted
  {
    if sorted != [] {
      var last := sorted[|sorted| - 1];
      assert sorted == sorted[..|sorted| - 1] + [last];
      if OrderOf(record) < OrderOf(last) {
        InsertContains(sorted[..|sorted| - 1], record);
      }
    }
  }

  lemma OrderExtends(all: seq<Record>, front: seq<Record>, last: Record)
    requires RecordsInOrder(all, front) && forall other <- front :: Before(all, other.key, last.key)
    ensures RecordsInOrder(all, front + [last])
  {
  }

  lemma LastComesAfter(all: seq<Record>, front: seq<Record>, last: Record)
    requires RecordsInOrder(all, front + [last])
    ensures RecordsInOrder(all, front) && forall other <- front :: Before(all, other.key, last.key)
  {
    var sorted := front + [last];
    assert forall i | 0 <= i < |front| :: sorted[i] == front[i];
    forall other <- front
      ensures Before(all, other.key, last.key)
    {
      var i :| 0 <= i < |front| && front[i] == other;
      assert Before(all, sorted[i].key, sorted[|front|].key);
    }
  }

  /** A record that comes later in the collection goes behind the records it does not order before. */
  lemma EverythingBefore(all: seq<Record>, front: seq<Record>, last: Record, record: Record)
    requires UniqueKeys(all) && last in all && record in all && forall other <- front :: other in all && Before(all, other.key, last.key)
    requires Position(all, last.key) < Position(all, record.key) && OrderOf(last) <= OrderOf(record)
    ensures forall other <- front + [last] :: Before(all, other.key, record.key)
  {
    RecordAtPosition(all, record);
    RecordAtPosition(all, last);
    forall other <- front
      ensures Before(all, other.key, record.key)
    {
      RecordAtPosition(all, other);
    }
  }

  lemma {:induction false} InsertKeepsOrder(all: seq<Record>, sorted: seq<Record>, record: Record)
    requires UniqueKeys(all) && RecordsInOrder(all, sorted) && record in all
    requires forall other <- sorted :: other in all && Position(all, other.key) < Position(all, record.key)
    ensures RecordsInOrder(all, InsertByOrder(sorted, record))
  {
    hide RecordsInOrder, Before, OrderOf, Position;
    if sorted == [] {
      OrderExtends(all, sorted, record);
      assert sorted + [record] == [record];
    } else {
      var front, last := sorted[..|sorted| - 1], sorted[|sorted| - 1];
      assert sorted == front + [last];
      LastComesAfter(all, front, last);
      if OrderOf(record) < OrderOf(last) {
        InsertKeepsOrder(all, front, record);
        InsertContains(front, record);
        EarlierComesBefore(all, record, last);
        OrderExtends(all, InsertByOrder(front, record), last);
      } else {
        EverythingBefore(all, front, last, record);
        OrderExtends(all, sorted, record);
      }
    }
  }

  lemma EarlierComesBefore(all: seq<Record>, a: Record, b: Record)
    requires UniqueKeys(all) && a in all && b in all && OrderOf(a) < OrderOf(b)
    ensures Before(all, a.key, b.key)
  {
    RecordAtPosition(all, a);
    RecordAtPosition(all, b);
  }

  lemma RecordAtPosition(all: seq<Record>, record: Record)
    requires UniqueKeys(all) && record in all
    ensures record.key in Keys(all) && all[Position(all, record.key)] == record
  {
    var i :| 0 <= i < |all| && all[i] == record;
    PositionIsUnique(all, i);
  }

  ghost predicate Ascending(all: seq<Record>, records: seq<Record>) {
    && (forall record <- records :: record in all)
    && (forall i, j | 0 <= i < j < |records| ::
          records[i].key in Keys(all) && records[j].key in Keys(all) && Position(all, records[i].key) < Position(all, records[j].key))
  }

  lemma {:induction false} SortPutsInOrder(all: seq<Record>, records: seq<Record>)
    requires UniqueKeys(all) && Ascending(all, records)
    ensures RecordsInOrder(all, StableSort(records))
    ensures forall record :: record in StableSort(records) <==> record in records
  {
    if records != [] {
      var front, last := records[..|records| - 1], records[|records| - 1];
      assert records == front + [last];
      hide RecordsInOrder, InsertByOrder, Position;
      SortPutsInOrder(all, front);
      forall other <- StableSort(front)
        ensures other in all && Position(all, other.key) < Position(all, last.key)
      {
        assert other in front;
        var i :| 0 <= i < |front| && front[i] == other;
        assert records[i] == other && records[|front|] == last;
      }
      InsertKeepsOrder(all, StableSort(front), last);
      InsertContains(StableSort(front), last);
    }
  }

  lemma {:induction false} FilterAscends(all: seq<Record>, from: nat)
    requires UniqueKeys(all) && from <= |all|
    ensures Ascending(all, Filter(all[from..], all))
    ensures forall record <- Filter(all[from..], all) :: record.key in Keys(all) && from <= Position(all, record.key)
    decreases |all| - from
  {
    if from < |all| {
      FilterAscends(all, from + 1);
      PositionIsUnique(all, from);
      assert all[from..][1..] == all[from + 1..];
      var rest := Filter(all[from + 1..], all);
      forall i | 0 <= i < |rest|
        ensures rest[i].key in Keys(all) && from < Position(all, rest[i].key)
      {
        assert rest[i] in rest;
      }
    }
  }

  lemma ShownRecords(records: seq<Record>)
    requires UniqueKeys(records)
    ensures RecordsInOrder(records, StableSort(GroupTwins(records)))
    ensures forall record <- StableSort(GroupTwins(records)) :: record in records && IsShown(records, record.key)
    ensures forall id | IsShown(records, id) :: records[Position(records, id)] in StableSort(GroupTwins(records))
  {
    FilterAscends(records, 0);
    assert records[0..] == records;
    SortPutsInOrder(records, GroupTwins(records));
    forall record <- StableSort(GroupTwins(records))
      ensures record in records && IsShown(records, record.key)
    {
      RecordAtPosition(records, record);
    }
  }

  /** The keys of one session, in list order. */
  function Session(sorted: seq<Record>, sitting: int): seq<string> {
    if sorted == [] then []
    else
      var before := Session(sorted[..|sorted| - 1], sitting);
      var last := sorted[|sorted| - 1];
      if SittingOf(last) == sitting then before + [last.key] else before
  }

  method GroupBySession(sorted: seq<Record>) returns (groups: map<nat, seq<string>>)
    ensures forall s: nat :: s in groups <==> Session(sorted, s) != []
    ensures forall s: nat | s in groups :: groups[s] == Session(sorted, s)
  {
    groups := map[];
    for k := 0 to |sorted|
      invariant forall s: nat :: s in groups <==> Session(sorted[..k], s) != []
      invariant forall s | s in groups :: groups[s] == Session(sorted[..k], s)
    {
      assert sorted[..k + 1] == sorted[..k] + [sorted[k]];
      var sitting := SittingOf(sorted[k]);
      var ids := if sitting in groups then groups[sitting] else [];
      groups := groups[sitting := ids + [sorted[k].key]];
    }
    assert sorted[..|sorted|] == sorted;
  }

  lemma {:induction false} SessionListsKeys(sorted: seq<Record>, sitting: int)
    ensures forall id :: id in Session(sorted, sitting) <==> exists record <- sorted :: record.key == id && SittingOf(record) == sitting
  {
    if sorted != [] {
      var front, last := sorted[..|sorted| - 1], sorted[|sorted| - 1];
      assert sorted == front + [last];
      SessionListsKeys(front, sitting);
      forall id
        ensures id in Session(sorted, sitting) <==> exists record <- sorted :: record.key == id && SittingOf(record) == sitting
      {
        assert id in Session(sorted, sitting) <==> id in Session(front, sitting) || (SittingOf(last) == sitting && id == last.key);
      }
    }
  }

  lemma {:induction false} SessionIsInOrder(records: seq<Record>, sorted: seq<Record>, sitting: int)
    requires RecordsInOrder(records, sorted)
    ensures InOrder(records, Session(sorted, sitting))
  {
    if sorted != [] {
      var front, last := sorted[..|sorted| - 1], sorted[|sorted| - 1];
      assert sorted == front + [last];
      SessionIsInOrder(records, front, sitting);
      SessionListsKeys(front, sitting);
      var ids := Session(front, sitting);
      forall i | 0 <= i < |ids|
        ensures Before(records, ids[i], last.key)
      {
        assert ids[i] in ids;
        var record :| record in front && record.key == ids[i];
        var m :| 0 <= m < |front| && front[m] == record;
        assert Before(records, sorted[m].key, sorted[|front|].key);
      }
    }
  }

  lemma SessionIsColumn(records: seq<Record>, sitting: int)
    requires UniqueKeys(records)
    ensures Lists(records, Column(sitting, Session(StableSort(GroupTwins(records)), sitting)))
  {
    var sorted := StableSort(GroupTwins(records));
    ShownRecords(records);
    SessionIsInOrder(records, sorted, sitting);
    SessionListsKeys(sorted, sitting);
    forall id
      ensures id in Session(sorted, sitting) <==> IsShown(records, id) && SittingOf(records[Position(records, id)]) == sitting
    {
      if id in Session(sorted, sitting) {
        var record :| record in sorted && record.key == id && SittingOf(record) == sitting;
        RecordAtPosition(records, record);
      }
    }
  }

  method ColumnsOf(groups: map<nat, seq<string>>) returns (columns: seq<Column>)
    requires forall s | s in groups :: groups[s] != []
    ensures StrictColumns(columns)
    ensures forall column :: column in columns <==> column.sitting in groups && column.ids == groups[column.sitting]
  {
    columns := [];
    var sittings := groups.Keys;
    while sittings != {}
      invariant sittings <= groups.Keys
      invariant StrictColumns(columns)
      invariant forall column :: column in columns <==>
        column.sitting in groups && column.sitting !in sittings && column.ids == groups[column.sitting]
      decreases sittings
    {
      var s: nat :| s in sittings;
      assert forall i | 0 <= i < |columns| :: columns[i] in columns;
      InsertColumnKeeps(columns, Column(s, groups[s]));
      columns := InsertColumn(columns, Column(s, groups[s]));
      sittings := sittings - {s};
    }
  }

  method TimelineColumns(records: seq<Record>) returns (columns: seq<Column>)
    requires UniqueKeys(records)
    ensures IsProjection(records, columns)
  {
    var sorted := StableSort(GroupTwins(records));
    var groups := GroupBySession(sorted);
    columns := ColumnsOf(groups);
    GroupsProject(records, groups, columns);
  }

  lemma GroupsProject(records: seq<Record>, groups: map<nat, seq<string>>, columns: seq<Column>)
    requires UniqueKeys(records) && StrictColumns(columns)
    requires forall s: nat :: s in groups <==> Session(StableSort(GroupTwins(records)), s) != []
    requires forall s | s in groups :: groups[s] == Session(StableSort(GroupTwins(records)), s)
    requires forall column :: column in columns <==> column.sitting in groups && column.ids == groups[column.sitting]
    ensures IsProjection(records, columns)
  {
    forall i | 0 <= i < |columns|
      ensures Lists(records, columns[i])
    {
      assert columns[i] in columns;
      SessionIsColumn(records, columns[i].sitting);
    }
    forall id | IsShown(records, id)
      ensures exists i | 0 <= i < |columns| :: id in columns[i].ids
    {
      var s := SittingOf(records[Position(records, id)]);
      SessionIsColumn(records, s);
      assert id in Session(StableSort(GroupTwins(records)), s);
      assert Column(s, groups[s]) in columns;
    }
  }

  /** Keeps columns sorted by session; used wherever the source sorts columns. */
  function InsertColumn(columns: seq<Column>, column: Column): seq<Column> {
    if columns == [] || column.sitting < columns[0].sitting then [column] + columns
    else [columns[0]] + InsertColumn(columns[1..], column)
  }

  lemma {:induction false} InsertColumnKeeps(columns: seq<Column>, column: Column)
    requires StrictColumns(columns) && column.ids != []
    requires forall i | 0 <= i < |columns| :: columns[i].sitting != column.sitting
    ensures StrictColumns(InsertColumn(columns, column))
    ensures forall other :: other in InsertColumn(columns, column) <==> other == column || other in columns
  {
    if columns != [] && columns[0].sitting < column.sitting {
      InsertColumnKeeps(columns[1..], column);
      var inserted := InsertColumn(columns[1..], column);
      forall i | 0 <= i < |inserted|
        ensures columns[0].sitting < inserted[i].sitting
      {
        assert inserted[i] in inserted;
        if inserted[i] != column {
          assert inserted[i] in columns[1..];
        }
      }
    }
  }

  function SortColumns(columns: seq<Column>): seq<Column> {
    if columns == [] then [] else InsertColumn(SortColumns(columns[1..]), columns[0])
  }

  lemma {:induction false} SortColumnsSorts(columns: seq<Column>)
    requires forall i, j | 0 <= i < j < |columns| :: columns[i].sitting != columns[j].sitting
    requires forall i | 0 <= i < |columns| :: columns[i].ids != []
    ensures StrictColumns(SortColumns(columns))
    ensures forall column :: column in SortColumns(columns) <==> column in columns
  {
    if columns != [] {
      SortColumnsSorts(columns[1..]);
      var rest := SortColumns(columns[1..]);
      forall i | 0 <= i < |rest|
        ensures rest[i].sitting != columns[0].sitting
      {
        assert rest[i] in rest && rest[i] in columns[1..];
      }
      InsertColumnKeeps(rest, columns[0]);
    }
  }

  // ----- prepareTimelineReorder -----

  predicate ValidBase(base: seq<BaseItem>) {
    && (forall item <- base :: 1 <= item.revision <= MAX_SAFE_INTEGER)
    && (forall i, j | 0 <= i < j < |base| :: base[i].key != base[j].key)
  }

  predicate IsCurrent(records: seq<Record>, base: seq<BaseItem>) {
    && |base| == |records|
    && (forall item <- base :: item.key in Keys(records) && records[Position(records, item.key)].revision == item.revision)
  }

  /** The columns name every event that `original` shows, each once, in sessions that differ. */
  predicate ValidColumns(original: seq<Column>, columns: seq<Column>) {
    && (forall column <- columns :: ValidSitting(column.sitting) && column.ids != [])
    && (forall i, j | 0 <= i < j < |columns| :: columns[i].sitting != columns[j].sitting)
    && DistinctIds(columns)
    && (forall column <- columns, id <- column.ids :: Mentions(original, id))
    && (forall column <- original, id <- column.ids :: Mentions(columns, id))
  }

  predicate Mentions(columns: seq<Column>, id: string) {
    exists column <- columns :: id in column.ids
  }

  predicate DistinctIds(columns: seq<Column>) {
    && (forall i, p, q | 0 <= i < |columns| && 0 <= p < q < |columns[i].ids| :: columns[i].ids[p] != columns[i].ids[q])
    && (forall i, j | 0 <= i < j < |columns| :: forall id <- columns[i].ids :: id !in columns[j].ids)
  }

  function Placed(value: Fields, sitting: int, order: int, moved: bool): Fields {
    var ordered := value["order" := Number(order as real)];
    if moved then ordered["sitting" := Number(sitting as real)] else ordered
  }

  /** The write that puts one event at its place in a column, unless it is already there. */
  function Place(records: seq<Record>, sitting: int, key: string, order: int): seq<Mutation>
    requires key in Keys(records)
  {
    var record := records[Position(records, key)];
    var value := RecordValue(record);
    var moved := SittingOf(record) != sitting;
    if !moved && Field(value, "order") == Some(Number(order as real)) then []
    else [Put(key, record.revision, Object(Placed(value, sitting, order, moved)))]
  }

  function PlaceColumn(records: seq<Record>, sitting: int, ids: seq<string>): seq<Mutation>
    requires forall id <- ids :: id in Keys(records)
  {
    if ids == [] then []
    else PlaceColumn(records, sitting, ids[..|ids| - 1]) + Place(records, sitting, ids[|ids| - 1], |ids|)
  }

  /** Columns that have not changed are skipped. */
  function PlaceAll(records: seq<Record>, original: seq<Column>, columns: seq<Column>): seq<Mutation>
    requires forall column <- columns, id <- column.ids :: id in Keys(records)
  {
    if columns == [] then []
    else
      var last := columns[|columns| - 1];
      PlaceAll(records, original, columns[..|columns| - 1])
      + (if last in original then [] else PlaceColumn(records, last.sitting, last.ids))
  }

  function Reorder(records: seq<Record>, draft: Draft, original: seq<Column>): Result<seq<Mutation>, TimelineError>
    requires forall column <- original, id <- column.ids :: id in Keys(records)
  {
    if !ValidBase(draft.base) then Err(Invalid)
    else if !IsCurrent(records, draft.base) then Err(Stale)
    else if !ValidColumns(original, draft.columns) then Err(Invalid)
    else
      MentionedAreKnown(records, original, draft.columns);
      var mutations := PlaceAll(records, original, draft.columns);
      if |mutations| > MAXIMUM_MUTATIONS then Err(Limit) else Ok(mutations)
  }

  lemma MentionedAreKnown(records: seq<Record>, original: seq<Column>, columns: seq<Column>)
    requires ValidColumns(original, columns)
    requires forall column <- original, id <- column.ids :: id in Keys(records)
    ensures forall column <- columns, id <- column.ids :: id in Keys(records)
  {
    forall column <- columns, id <- column.ids
      ensures id in Keys(records)
    {
      assert Mentions(original, id);
    }
  }

  lemma ProjectedAreKnown(records: seq<Record>, original: seq<Column>)
    requires IsProjection(records, original)
    ensures forall column <- original, id <- column.ids :: IsShown(records, id) && id in Keys(records)
  {
    forall column <- original, id <- column.ids
      ensures IsShown(records, id)
    {
      var i :| 0 <= i < |original| && original[i] == column;
      assert Lists(records, original[i]);
    }
  }

  // ----- what the mutations are -----

  lemma {:induction false} PlacedFrom(records: seq<Record>, sitting: int, ids: seq<string>, m: Mutation) returns (p: nat)
    requires forall id <- ids :: id in Keys(records)
    requires m in PlaceColumn(records, sitting, ids)
    ensures p < |ids| && m.key == ids[p] && Place(records, sitting, ids[p], p + 1) == [m]
  {
    var front := ids[..|ids| - 1];
    if m in PlaceColumn(records, sitting, front) {
      p := PlacedFrom(records, sitting, front, m);
    } else {
      p := |front|;
    }
  }

  lemma {:induction false} PlacedIn(records: seq<Record>, sitting: int, ids: seq<string>, p: nat, m: Mutation)
    requires forall id <- ids :: id in Keys(records)
    requires p < |ids| && m in Place(records, sitting, ids[p], p + 1)
    ensures m in PlaceColumn(records, sitting, ids)
  {
    if p < |ids| - 1 {
      PlacedIn(records, sitting, ids[..|ids| - 1], p, m);
    }
  }

  /** Where a mutation of the plan comes from: a changed column and a place in it. */
  ghost predicate ComesFrom(records: seq<Record>, original: seq<Column>, columns: seq<Column>, m: Mutation, i: nat, p: nat) {
    && i < |columns| && columns[i] !in original && p < |columns[i].ids|
    && columns[i].ids[p] in Keys(records) && m.key == columns[i].ids[p]
    && Place(records, columns[i].sitting, columns[i].ids[p], p + 1) == [m]
  }

  lemma {:induction false} PlannedFrom(records: seq<Record>, original: seq<Column>, columns: seq<Column>, m: Mutation) returns (i: nat, p: nat)
    requires forall column <- columns, id <- column.ids :: id in Keys(records)
    requires m in PlaceAll(records, original, columns)
    ensures ComesFrom(records, original, columns, m, i, p)
  {
    var front, last := columns[..|columns| - 1], columns[|columns| - 1];
    if m in PlaceAll(records, original, front) {
      i, p := PlannedFrom(records, original, front, m);
    } else {
      i := |front|;
      p := PlacedFrom(records, last.sitting, last.ids, m);
    }
  }

  lemma {:induction false} PlannedIn(records: seq<Record>, original: seq<Column>, columns: seq<Column>, i: nat, p: nat, m: Mutation)
    requires forall column <- columns, id <- column.ids :: id in Keys(records)
    requires ComesFrom(records, original, columns, m, i, p)
    ensures m in PlaceAll(records, original, columns)
  {
    if i < |columns| - 1 {
      PlannedIn(records, original, columns[..|columns| - 1], i, p, m);
    } else {
      PlacedIn(records, columns[i].sitting, columns[i].ids, p, m);
    }
  }

  lemma {:induction false} PlaceColumnDistinct(records: seq<Record>, sitting: int, ids: seq<string>)
    requires forall id <- ids :: id in Keys(records)
    requires forall p, q | 0 <= p < q < |ids| :: ids[p] != ids[q]
    ensures DistinctKeys(PlaceColumn(records, sitting, ids))
  {
    if ids != [] {
      var front := ids[..|ids| - 1];
      PlaceColumnDistinct(records, sitting, front);
      var before := PlaceColumn(records, sitting, front);
      forall a | 0 <= a < |before|
        ensures before[a].key != ids[|ids| - 1]
      {
        var p := PlacedFrom(records, sitting, front, before[a]);
        assert ids[p] == before[a].key;
      }
    }
  }

  lemma {:induction false} PlaceAllDistinct(records: seq<Record>, original: seq<Column>, columns: seq<Column>)
    requires forall column <- columns, id <- column.ids :: id in Keys(records)
    requires DistinctIds(columns)
    ensures DistinctKeys(PlaceAll(records, original, columns))
  {
    if columns != [] {
      var front, last := columns[..|columns| - 1], columns[|columns| - 1];
      PlaceAllDistinct(records, original, front);
      PlaceColumnDistinct(records, last.sitting, last.ids);
      var before, added := PlaceAll(records, original, front), PlaceColumn(records, last.sitting, last.ids);
      forall a, b | 0 <= a < |before| && 0 <= b < |added|
        ensures before[a].key != added[b].key
      {
        var i, p := PlannedFrom(records, original, front, before[a]);
        var q := PlacedFrom(records, last.sitting, last.ids, added[b]);
        assert columns[i].ids[p] in columns[i].ids && columns[|front|] == last;
      }
    }
  }

  // ----- the lens laws -----

  /** The fields that decide which twin is shown. */
  ghost predicate SameTwinFields(a: Record, b: Record) {
    && Field(RecordValue(a), "linkedTwinId") == Field(RecordValue(b), "linkedTwinId")
    && Field(RecordValue(a), "visibility") == Field(RecordValue(b), "visibility")
  }

  lemma ShownFrame(left: seq<Record>, right: seq<Record>, key: string)
    requires |left| == |right| && forall i | 0 <= i < |left| :: left[i].key == right[i].key && SameTwinFields(left[i], right[i])
    ensures IsShown(left, key) <==> IsShown(right, key)
  {
    SamePositions(left, right, key);
    if key in Keys(left) {
      match Field(RecordValue(left[Position(left, key)]), "linkedTwinId")
      case Some(Text(link)) => SamePositions(left, right, link);
      case _ =>
    }
  }

  /** A plan that passed validation, with the names its columns mention resolved. */
  ghost predicate IsPlan(records: seq<Record>, original: seq<Column>, columns: seq<Column>, mutations: seq<Mutation>) {
    && UniqueKeys(records) && IsProjection(records, original) && ValidColumns(original, columns)
    && (forall column <- columns, id <- column.ids :: id in Keys(records))
    && mutations == PlaceAll(records, original, columns)
  }

  /** A key stands at one place only, so its write comes from there. */
  lemma WrittenAtItsPlace(records: seq<Record>, original: seq<Column>, columns: seq<Column>, mutations: seq<Mutation>, i: nat, p: nat)
    requires IsPlan(records, original, columns, mutations)
    requires i < |columns| && columns[i] !in original && p < |columns[i].ids| && columns[i].ids[p] in Keys(records)
    ensures
      var place := Place(records, columns[i].sitting, columns[i].ids[p], p + 1);
      Written(mutations, columns[i].ids[p]) == if place == [] then None else Some(place[0].value)
  {
    var key := columns[i].ids[p];
    var place := Place(records, columns[i].sitting, key, p + 1);
    if place != [] {
      PlaceAllDistinct(records, original, columns);
      assert ComesFrom(records, original, columns, place[0], i, p);
      PlannedIn(records, original, columns, i, p, place[0]);
      WrittenIs(mutations, place[0]);
    } else if Written(mutations, key).Some? {
      var m := WrittenFrom(mutations, key);
      var j, q := PlannedFrom(records, original, columns, m);
      SamePlace(columns, i, p, j, q);
    }
  }

  lemma SamePlace(columns: seq<Column>, i: nat, p: nat, j: nat, q: nat)
    requires DistinctIds(columns) && i < |columns| && j < |columns| && p < |columns[i].ids| && q < |columns[j].ids|
    requires columns[i].ids[p] == columns[j].ids[q]
    ensures i == j && p == q
  {
    assert columns[i].ids[p] in columns[i].ids && columns[j].ids[q] in columns[j].ids;
  }

  lemma PlacedFields(value: Fields, sitting: int, order: int, moved: bool)
    requires ValidSitting(sitting)
    ensures
      var placed := Placed(value, sitting, order, moved);
      && Field(placed, "order") == Some(Number(order as real))
      && Sitting(Field(placed, "sitting")) == (if moved then sitting else Sitting(Field(value, "sitting")))
      && Field(placed, "linkedTwinId") == Field(value, "linkedTwinId") && Field(placed, "visibility") == Field(value, "visibility")
      && (forall key | key != "order" && key != "sitting" :: Field(placed, key) == Field(value, key))
  {
    assert (sitting as real).Floor == sitting;
  }

  /** An event of a changed column ends up in that session, numbered by its place, and is otherwise unchanged. */
  lemma EventIsPlaced(records: seq<Record>, original: seq<Column>, columns: seq<Column>, mutations: seq<Mutation>, i: nat, p: nat)
    requires IsPlan(records, original, columns, mutations)
    requires i < |columns| && columns[i] !in original && p < |columns[i].ids| && columns[i].ids[p] in Keys(records)
    ensures
      var k := Position(records, columns[i].ids[p]);
      var after := Updated(records, mutations)[k];
      && OrderOf(after) == (p + 1) as real && SittingOf(after) == columns[i].sitting && SameTwinFields(records[k], after)
      && (forall key | key != "order" && key != "sitting" :: Field(RecordValue(after), key) == Field(RecordValue(records[k]), key))
  {
    WrittenAtItsPlace(records, original, columns, mutations, i, p);
    var record := records[Position(records, columns[i].ids[p])];
    assert columns[i] in columns;
    PlacedFields(RecordValue(record), columns[i].sitting, p + 1, SittingOf(record) != columns[i].sitting);
  }

  /** Every other record is left as it is. */
  lemma OtherRecordsAreKept(records: seq<Record>, original: seq<Column>, columns: seq<Column>, mutations: seq<Mutation>, k: nat)
    requires IsPlan(records, original, columns, mutations) && k < |records|
    requires forall i | 0 <= i < |columns| && columns[i] !in original :: records[k].key !in columns[i].ids
    ensures Updated(records, mutations)[k] == records[k]
  {
    if Written(mutations, records[k].key).Some? {
      var m := WrittenFrom(mutations, records[k].key);
      var i, p := PlannedFrom(records, original, columns, m);
    }
  }

  lemma TwinFieldsAreKept(records: seq<Record>, original: seq<Column>, columns: seq<Column>, mutations: seq<Mutation>, k: nat)
    requires IsPlan(records, original, columns, mutations) && k < |records|
    ensures SameTwinFields(records[k], Updated(records, mutations)[k])
  {
    PositionIsUnique(records, k);
    if i :| 0 <= i < |columns| && columns[i] !in original && records[k].key in columns[i].ids {
      var p :| 0 <= p < |columns[i].ids| && columns[i].ids[p] == records[k].key;
      EventIsPlaced(records, original, columns, mutations, i, p);
    } else {
      OtherRecordsAreKept(records, original, columns, mutations, k);
    }
  }

  /** Every column of the draft is what its session shows afterwards. */
  lemma ColumnIsListed(records: seq<Record>, original: seq<Column>, columns: seq<Column>, mutations: seq<Mutation>, i: nat)
    requires IsPlan(records, original, columns, mutations) && i < |columns|
    ensures InOrder(Updated(records, mutations), columns[i].ids)
    ensures forall p | 0 <= p < |columns[i].ids| :: AtHome(Updated(records, mutations), columns[i].ids[p], columns[i].sitting)
  {
    var after := Updated(records, mutations);
    var ids := columns[i].ids;
    assert columns[i] in columns;
    ProjectedAreKnown(records, original);
    forall p | 0 <= p < |ids|
      ensures AtHome(after, ids[p], columns[i].sitting)
      ensures Position(after, ids[p]) == Position(records, ids[p])
      ensures columns[i] !in original ==> OrderOf(after[Position(after, ids[p])]) == (p + 1) as real
      ensures columns[i] in original ==> after[Position(after, ids[p])] == records[Position(records, ids[p])]
    {
      assert Mentions(original, ids[p]);
      ShownAfterwards(records, original, columns, mutations, ids[p]);
      SamePositions(records, after, ids[p]);
      if columns[i] !in original {
        EventIsPlaced(records, original, columns, mutations, i, p);
      } else {
        KeptColumn(records, original, columns, mutations, i, p);
      }
    }
    if columns[i] in original {
      var c :| 0 <= c < |original| && original[c] == columns[i];
      assert Lists(records, original[c]);
      forall p, q | 0 <= p < q < |ids|
        ensures Before(after, ids[p], ids[q])
      {
        assert Before(records, ids[p], ids[q]);
      }
    }
  }

  ghost predicate AtHome(records: seq<Record>, id: string, sitting: int) {
    IsShown(records, id) && SittingOf(records[Position(records, id)]) == sitting
  }

  lemma ShownAfterwards(records: seq<Record>, original: seq<Column>, columns: seq<Column>, mutations: seq<Mutation>, id: string)
    requires IsPlan(records, original, columns, mutations)
    ensures IsShown(Updated(records, mutations), id) <==> IsShown(records, id)
  {
    forall k | 0 <= k < |records|
      ensures SameTwinFields(records[k], Updated(records, mutations)[k])
    {
      TwinFieldsAreKept(records, original, columns, mutations, k);
    }
    ShownFrame(records, Updated(records, mutations), id);
  }

  lemma KeptColumn(records: seq<Record>, original: seq<Column>, columns: seq<Column>, mutations: seq<Mutation>, i: nat, p: nat)
    requires IsPlan(records, original, columns, mutations)
    requires i < |columns| && columns[i] in original && p < |columns[i].ids| && columns[i].ids[p] in Keys(records)
    ensures
      var k := Position(records, columns[i].ids[p]);
      Updated(records, mutations)[k] == records[k] && SittingOf(records[k]) == columns[i].sitting
  {
    var k := Position(records, columns[i].ids[p]);
    forall j | 0 <= j < |columns| && columns[j] !in original
      ensures records[k].key !in columns[j].ids
    {
      if records[k].key in columns[j].ids {
        var q :| 0 <= q < |columns[j].ids| && columns[j].ids[q] == records[k].key;
        SamePlace(columns, i, p, j, q);
      }
    }
    OtherRecordsAreKept(records, original, columns, mutations, k);
    var c :| 0 <= c < |original| && original[c] == columns[i];
    assert Lists(records, original[c]);
  }

  /** Saving a draft and projecting the campaign again shows exactly the draft's columns, by session: moved and
      unmoved events, columns that were skipped because nothing in them changed, and twins that stay hidden. */
  lemma PutGet(records: seq<Record>, original: seq<Column>, columns: seq<Column>, mutations: seq<Mutation>)
    requires IsPlan(records, original, columns, mutations)
    ensures IsProjection(Updated(records, mutations), SortColumns(columns))
  {
    hide Updated, Sitting, OrderOf, Representative;
    var after := Updated(records, mutations);
    var sorted := SortColumns(columns);
    assert forall i | 0 <= i < |columns| :: columns[i] in columns;
    SortColumnsSorts(columns);
    forall i | 0 <= i < |sorted|
      ensures Lists(after, sorted[i])
    {
      assert sorted[i] in sorted;
      var c :| 0 <= c < |columns| && columns[c] == sorted[i];
      ColumnIsListed(records, original, columns, mutations, c);
      forall id
        ensures id in columns[c].ids <==> AtHome(after, id, columns[c].sitting)
      {
        if AtHome(after, id, columns[c].sitting) {
          var d := ColumnShowing(records, original, columns, mutations, id);
          ColumnIsListed(records, original, columns, mutations, d);
        }
      }
    }
    forall id | IsShown(after, id)
      ensures exists i | 0 <= i < |sorted| :: id in sorted[i].ids
    {
      var d := ColumnShowing(records, original, columns, mutations, id);
      assert columns[d] in sorted;
    }
  }

  lemma ColumnShowing(records: seq<Record>, original: seq<Column>, columns: seq<Column>, mutations: seq<Mutation>, id: string) returns (d: nat)
    requires IsPlan(records, original, columns, mutations) && IsShown(Updated(records, mutations), id)
    ensures d < |columns| && id in columns[d].ids
  {
    ShownAfterwards(records, original, columns, mutations, id);
    var c :| 0 <= c < |original| && id in original[c].ids;
    assert original[c] in original && Mentions(columns, id);
    var column :| column in columns && id in column.ids;
    d :| 0 <= d < |columns| && columns[d] == column;
  }

  /** An unchanged draft saves nothing. */
  lemma {:induction false} GetPut(records: seq<Record>, original: seq<Column>, columns: seq<Column>)
    requires forall column <- columns :: column in original
    requires forall column <- columns, id <- column.ids :: id in Keys(records)
    ensures PlaceAll(records, original, columns) == []
  {
    if columns != [] {
      var front, last := columns[..|columns| - 1], columns[|columns| - 1];
      assert last in columns;
      GetPut(records, original, front);
    }
  }

  /** The plan is stored if and only if there is one, its size is within the limit and every event still fits: its
      keys differ, it expects the revisions that are stored, and no event's id or visibility changes. What is then
      read back is the updated campaign. */
  lemma PlanCommits(rules: RecordRules.Rules, stored: Stored, records: seq<Record>, original: seq<Column>, columns: seq<Column>, mutations: seq<Mutation>)
    requires IsPlan(records, original, columns, mutations) && Represents(stored, records)
    requires RecordRules.Sound(rules, stored) && rules.shape.Listed?
    ensures RecordRules.Transact(rules, stored, mutations, 0).Some? <==>
      1 <= |mutations| <= MAXIMUM_MUTATIONS && forall m <- mutations :: m.Put? && rules.fits(m.value)
    ensures RecordRules.Transact(rules, stored, mutations, 0).Some? ==>
      Represents(RecordRules.Transact(rules, stored, mutations, 0).value, Updated(records, mutations))
  {
    hide Represents, RecordRules.Sound, Commit, DistinctKeys;
    PlanOverwrites(stored, records, original, columns, mutations);
    forall m <- mutations
      ensures m.Put? && (RecordRules.Preparable(rules, m) <==> rules.fits(m.value))
    {
      EventIsStorable(rules, stored, records, original, columns, mutations, m);
    }
  }

  lemma PlanOverwrites(stored: Stored, records: seq<Record>, original: seq<Column>, columns: seq<Column>, mutations: seq<Mutation>)
    requires IsPlan(records, original, columns, mutations) && Represents(stored, records)
    ensures DistinctKeys(mutations) && Commit(stored, mutations).Some?
    ensures Represents(Commit(stored, mutations).value, Updated(records, mutations))
  {
    PlaceAllDistinct(records, original, columns);
    forall m <- mutations
      ensures m.Put? && exists k | 0 <= k < |records| :: records[k].key == m.key && records[k].revision == m.expectedRevision
    {
      var i, p := PlannedFrom(records, original, columns, m);
      assert records[Position(records, m.key)].revision == m.expectedRevision;
    }
    OverwritesCommit(stored, records, mutations);
  }

  /** The server takes each event of the plan that fits: its id and visibility are the stored ones. */
  lemma EventIsStorable(rules: RecordRules.Rules, stored: Stored, records: seq<Record>, original: seq<Column>, columns: seq<Column>,
                        mutations: seq<Mutation>, m: Mutation)
    requires IsPlan(records, original, columns, mutations) && Represents(stored, records) && m in mutations
    requires RecordRules.Sound(rules, stored) && rules.shape.Listed?
    ensures m.Put? && (RecordRules.Preparable(rules, m) <==> rules.fits(m.value))
  {
    hide Represents, RecordRules.Storable;
    var i, p := PlannedFrom(records, original, columns, m);
    var record := records[Position(records, m.key)];
    StoredRecord(rules, stored, records, Position(records, m.key));
    PlacedIsStorable(rules, record.key, record.value, columns[i].sitting, p + 1, SittingOf(record) != columns[i].sitting, record.revision);
  }

  lemma StoredRecord(rules: RecordRules.Rules, stored: Stored, records: seq<Record>, i: nat)
    requires Represents(stored, records) && RecordRules.Sound(rules, stored) && i < |records|
    ensures RecordRules.Storable(rules, records[i].key, records[i].value) && records[i].revision > 0
  {
    hide RecordRules.Storable;
    assert Live(stored, records[i].key);
  }

  lemma PlacedIsStorable(rules: RecordRules.Rules, key: string, value: Json, sitting: int, order: int, moved: bool, revision: int)
    requires RecordRules.Storable(rules, key, value) && rules.shape.Listed? && revision > 0
    ensures
      var placed := Object(Placed(if value.Object? then value.fields else map[], sitting, order, moved));
      RecordRules.Preparable(rules, Put(key, revision, placed)) <==> rules.fits(placed)
  {
  }

  // ----- prepareTimelineReorder, step by step -----

  function IdsOf(columns: seq<Column>): set<string> {
    set column <- columns, id <- column.ids :: id
  }

  /** What the checks of the columns so far have established. */
  ghost predicate CheckedColumns(visible: set<string>, columns: seq<Column>) {
    && (forall column <- columns :: ValidSitting(column.sitting) && column.ids != [] && forall id <- column.ids :: id in visible)
    && (forall i, j | 0 <= i < j < |columns| :: columns[i].sitting != columns[j].sitting)
    && DistinctIds(columns)
  }

  ghost predicate CheckedIds(visible: set<string>, ids: seq<string>) {
    && (forall id <- ids :: id in visible)
    && (forall p, q | 0 <= p < q < |ids| :: ids[p] != ids[q])
  }

  /** One column's keys: each visible and not seen before. */
  method CheckIds(visible: set<string>, seen: set<string>, ids: seq<string>) returns (ok: bool, seen': set<string>)
    ensures ok <==> CheckedIds(visible, ids) && forall id <- ids :: id !in seen
    ensures ok ==> seen' == seen + (set id <- ids)
  {
    ok, seen' := true, seen;
    for p := 0 to |ids|
      invariant ok && CheckedIds(visible, ids[..p]) && forall id <- ids[..p] :: id !in seen
      invariant seen' == seen + (set id <- ids[..p])
    {
      assert ids[..p + 1] == ids[..p] + [ids[p]];
      if ids[p] !in visible || ids[p] in seen' {
        assert ids[p] in ids;
        if ids[p] in seen' && ids[p] !in seen {
          var q :| 0 <= q < p && ids[..p][q] == ids[p];
          assert ids[q] == ids[p];
        }
        return false, seen';
      }
      seen' := seen' + {ids[p]};
    }
    assert ids[..|ids|] == ids;
  }

  method CheckColumns(visible: set<string>, columns: seq<Column>) returns (ok: bool)
    ensures ok <==> CheckedColumns(visible, columns) && IdsOf(columns) == visible
  {
    var seen: set<string>, sessions: set<int> := {}, {};
    for k := 0 to |columns|
      invariant CheckedColumns(visible, columns[..k])
      invariant seen == IdsOf(columns[..k])
      invariant sessions == set column <- columns[..k] :: column.sitting
    {
      var column := columns[k];
      assert columns[..k + 1] == columns[..k] + [column];
      if !ValidSitting(column.sitting) || column.sitting in sessions || column.ids == [] {
        assert column in columns;
        if column.sitting in sessions {
          var j :| 0 <= j < k && columns[..k][j].sitting == column.sitting;
          assert columns[j].sitting == columns[k].sitting;
        }
        return false;
      }
      sessions := sessions + {column.sitting};
      var fine, more := CheckIds(visible, seen, column.ids);
      if !fine {
        BadIdsFail(visible, columns, k);
        return false;
      }
      ColumnExtends(visible, columns[..k], column);
      seen := more;
    }
    assert columns[..|columns|] == columns;
    ok := |visible| == |seen|;
    if ok {
      assert seen <= visible;
      SubsetOfSameSize(seen, visible);
    }
  }

  lemma BadIdsFail(visible: set<string>, columns: seq<Column>, k: nat)
    requires k < |columns|
    requires !(CheckedIds(visible, columns[k].ids) && forall id <- columns[k].ids :: id !in IdsOf(columns[..k]))
    ensures !CheckedColumns(visible, columns)
  {
    assert columns[k] in columns;
    if id :| id in columns[k].ids && id in IdsOf(columns[..k]) {
      var column :| column in columns[..k] && id in column.ids;
      var j :| 0 <= j < k && columns[j] == column;
    }
  }

  lemma ColumnExtends(visible: set<string>, columns: seq<Column>, column: Column)
    requires CheckedColumns(visible, columns) && ValidSitting(column.sitting) && column.ids != []
    requires forall other <- columns :: other.sitting != column.sitting
    requires CheckedIds(visible, column.ids) && forall id <- column.ids :: id !in IdsOf(columns)
    ensures CheckedColumns(visible, columns + [column])
    ensures IdsOf(columns + [column]) == IdsOf(columns) + (set id <- column.ids)
  {
    var more := columns + [column];
    forall i | 0 <= i < |columns|
      ensures forall id <- columns[i].ids :: id !in column.ids
    {
      assert columns[i] in columns;
    }
    forall id
      ensures id in IdsOf(more) <==> id in IdsOf(columns) || id in column.ids
    {
      assert column in more;
      assert forall other <- columns :: other in more;
    }
  }

  lemma ChecksDecideValidity(original: seq<Column>, columns: seq<Column>)
    ensures ValidColumns(original, columns) <==> CheckedColumns(IdsOf(original), columns) && IdsOf(columns) == IdsOf(original)
  {
    assert forall id :: Mentions(original, id) <==> id in IdsOf(original);
    assert forall id :: Mentions(columns, id) <==> id in IdsOf(columns);
  }

  /** The answer to a draft, against the one projection of the campaign. */
  ghost predicate Answers(records: seq<Record>, detail: Draft, original: seq<Column>, result: Result<seq<Mutation>, TimelineError>) {
    && IsProjection(records, original) && (forall column <- original, id <- column.ids :: id in Keys(records))
    && result == Reorder(records, detail, original)
    && (result.Ok? ==> IsPlan(records, original, detail.columns, result.value))
  }

  /** The plan for a draft, against the columns the campaign shows now. */
  method PrepareTimelineReorder(records: seq<Record>, detail: Draft) returns (result: Result<seq<Mutation>, TimelineError>)
    requires UniqueKeys(records)
    ensures exists original :: Answers(records, detail, original, result)
  {
    var shown := TimelineColumns(records);
    ProjectedAreKnown(records, shown);
    result := ReorderShown(records, detail, shown);
    assert Answers(records, detail, shown, result);
  }

  method ReorderShown(records: seq<Record>, detail: Draft, shown: seq<Column>) returns (result: Result<seq<Mutation>, TimelineError>)
    requires UniqueKeys(records) && IsProjection(records, shown) && forall column <- shown, id <- column.ids :: id in Keys(records)
    ensures Answers(records, detail, shown, result)
  {
    if !ValidBase(detail.base) { return Err(Invalid); }
    if !IsCurrent(records, detail.base) { return Err(Stale); }
    var valid := CheckColumns(IdsOf(shown), detail.columns);
    ChecksDecideValidity(shown, detail.columns);
    if !valid { return Err(Invalid); }
    MentionedAreKnown(records, shown, detail.columns);
    var mutations := PlanColumns(records, shown, detail.columns);
    if |mutations| > MAXIMUM_MUTATIONS { return Err(Limit); }
    result := Ok(mutations);
  }

  method PlanColumns(records: seq<Record>, shown: seq<Column>, columns: seq<Column>) returns (mutations: seq<Mutation>)
    requires forall column <- columns, id <- column.ids :: id in Keys(records)
    ensures mutations == PlaceAll(records, shown, columns)
  {
    hide PlaceColumn;
    mutations := [];
    for k := 0 to |columns|
      invariant mutations == PlaceAll(records, shown, columns[..k])
    {
      var column := columns[k];
      assert columns[..k + 1][..k] == columns[..k] && columns[..k + 1][k] == column;
      if column !in shown {
        mutations := PlanColumn(records, mutations, column.sitting, column.ids);
      }
    }
    assert columns[..|columns|] == columns;
  }

  method PlanColumn(records: seq<Record>, planned: seq<Mutation>, sitting: int, ids: seq<string>) returns (mutations: seq<Mutation>)
    requires forall id <- ids :: id in Keys(records)
    ensures mutations == planned + PlaceColumn(records, sitting, ids)
  {
    hide Place;
    mutations := planned;
    for index := 0 to |ids|
      invariant mutations == planned + PlaceColumn(records, sitting, ids[..index])
    {
      assert ids[..index + 1][..index] == ids[..index];
      mutations := mutations + Place(records, sitting, ids[index], index + 1);
    }
    assert ids[..|ids|] == ids;
  }

  /** `timelineDraft`: what an editor starts from. */
  function StartDraft(records: seq<Record>, shown: seq<Column>): Draft {
    Draft(seq(|records|, i requires 0 <= i < |records| => BaseItem(records[i].key, records[i].revision)), shown)
  }

  lemma ProjectionIsChecked(records: seq<Record>, shown: seq<Column>)
    requires IsProjection(records, shown)
    ensures CheckedColumns(IdsOf(shown), shown)
  {
    forall column <- shown
      ensures ValidSitting(column.sitting) && column.ids != [] && forall id <- column.ids :: id in IdsOf(shown)
    {
      var i :| 0 <= i < |shown| && shown[i] == column;
      assert Lists(records, shown[i]) && column.ids[0] in column.ids;
    }
    forall i, p, q | 0 <= i < |shown| && 0 <= p < q < |shown[i].ids|
      ensures shown[i].ids[p] != shown[i].ids[q]
    {
      assert Lists(records, shown[i]);
      assert Before(records, shown[i].ids[p], shown[i].ids[q]);
    }
    forall i, j | 0 <= i < j < |shown|
      ensures forall id <- shown[i].ids :: id !in shown[j].ids
    {
      assert Lists(records, shown[i]) && Lists(records, shown[j]);
    }
  }

  lemma StartIsCurrent(records: seq<Record>, shown: seq<Column>)
    requires UniqueKeys(records)
    requires forall record <- records :: 1 <= record.revision <= MAX_SAFE_INTEGER
    ensures ValidBase(StartDraft(records, shown).base) && IsCurrent(records, StartDraft(records, shown).base)
  {
    var base := StartDraft(records, shown).base;
    forall item <- base
      ensures item.key in Keys(records) && records[Position(records, item.key)].revision == item.revision
      ensures 1 <= item.revision <= MAX_SAFE_INTEGER
    {
      var i :| 0 <= i < |base| && base[i] == item;
      PositionIsUnique(records, i);
      assert records[i] in records;
    }
  }

  /** Saving a draft nobody touched is accepted and writes nothing. */
  lemma UntouchedDraftSavesNothing(records: seq<Record>, shown: seq<Column>)
    requires UniqueKeys(records) && IsProjection(records, shown)
    requires forall record <- records :: 1 <= record.revision <= MAX_SAFE_INTEGER
    requires forall column <- shown, id <- column.ids :: id in Keys(records)
    ensures Reorder(records, StartDraft(records, shown), shown) == Ok([])
  {
    StartIsCurrent(records, shown);
    ProjectionIsChecked(records, shown);
    ChecksDecideValidity(shown, shown);
    GetPut(records, shown, shown);
  }

  /** The draft was made from exactly these events at exactly these revisions. */
  ghost predicate SameRevisions(records: seq<Record>, base: seq<BaseItem>) {
    && (forall record <- records :: BaseItem(record.key, record.revision) in base)
    && (forall item <- base :: Holds(records, item))
  }

  ghost predicate Holds(records: seq<Record>, item: BaseItem) {
    exists record <- records :: record.key == item.key && record.revision == item.revision
  }

  function BaseKeys(base: seq<BaseItem>): set<string> {
    set item <- base :: item.key
  }

  lemma {:induction false} BaseKeysCount(base: seq<BaseItem>)
    requires forall i, j | 0 <= i < j < |base| :: base[i].key != base[j].key
    ensures |BaseKeys(base)| == |base|
  {
    if base != [] {
      var front, last := base[..|base| - 1], base[|base| - 1];
      BaseKeysCount(front);
      assert base == front + [last];
      assert BaseKeys(base) == BaseKeys(front) + {last.key};
    }
  }

  lemma {:induction false} KeysCount(records: seq<Record>)
    requires UniqueKeys(records)
    ensures |Keys(records)| == |records|
  {
    if records != [] {
      var front, last := records[..|records| - 1], records[|records| - 1];
      KeysCount(front);
      assert records == front + [last];
      assert Keys(records) == Keys(front) + {last.key};
    }
  }

  lemma HeldAtItsPosition(records: seq<Record>, item: BaseItem)
    requires UniqueKeys(records)
    ensures Holds(records, item) <==> item.key in Keys(records) && records[Position(records, item.key)].revision == item.revision
  {
    if Holds(records, item) {
      var record :| record in records && record.key == item.key && record.revision == item.revision;
      var i :| 0 <= i < |records| && records[i] == record;
      PositionIsUnique(records, i);
    }
  }

  /** Counting decides: as many items as records, each at its record's revision, leave no record out. */
  lemma CurrentIsExact(records: seq<Record>, base: seq<BaseItem>)
    requires UniqueKeys(records) && forall i, j | 0 <= i < j < |base| :: base[i].key != base[j].key
    ensures IsCurrent(records, base) <==> SameRevisions(records, base)
  {
    hide Holds;
    BaseKeysCount(base);
    KeysCount(records);
    forall item <- base
      ensures Holds(records, item) <==> item.key in Keys(records) && records[Position(records, item.key)].revision == item.revision
    {
      HeldAtItsPosition(records, item);
    }
    if IsCurrent(records, base) {
      SubsetOfSameSize(BaseKeys(base), Keys(records));
      forall record <- records
        ensures BaseItem(record.key, record.revision) in base
      {
        assert record.key in BaseKeys(base);
        var item :| item in base && item.key == record.key;
        var i :| 0 <= i < |records| && records[i] == record;
        PositionIsUnique(records, i);
      }
    }
    if SameRevisions(records, base) {
      assert BaseKeys(base) <= Keys(records);
      forall key <- Keys(records)
        ensures key in BaseKeys(base)
      {
        var record :| record in records && record.key == key;
        assert BaseItem(record.key, record.revision) in base;
      }
      assert BaseKeys(base) == Keys(records);
    }
  }

  /** A draft is refused as stale exactly when an event was added, removed or changed since it was made. */
  lemma StaleIsExact(records: seq<Record>, draft: Draft, original: seq<Column>)
    requires UniqueKeys(records) && forall column <- original, id <- column.ids :: id in Keys(records)
    ensures Reorder(records, draft, original) == Err(Stale) <==> ValidBase(draft.base) && !SameRevisions(records, draft.base)
  {
    hide IsCurrent, SameRevisions, ValidColumns, PlaceAll;
    if ValidBase(draft.base) { CurrentIsExact(records, draft.base); }
  }

  // ----- moveTimelineEvent -----

  /** The keys listed for a session. */
  function IdsAt(columns: seq<Column>, sitting: int): seq<string> {
    if columns == [] then []
    else if columns[0].sitting == sitting then columns[0].ids
    else IdsAt(columns[1..], sitting)
  }

  function Remove(ids: seq<string>, key: string): (r: seq<string>)
    ensures forall id :: id in r <==> id in ids && id != key
    ensures key !in ids ==> r == ids
  {
    if ids == [] then []
    else if ids[0] == key then Remove(ids[1..], key)
    else [ids[0]] + Remove(ids[1..], key)
  }

  function RemoveEverywhere(columns: seq<Column>, key: string): seq<Column> {
    if columns == [] then [] else [columns[0].(ids := Remove(columns[0].ids, key))] + RemoveEverywhere(columns[1..], key)
  }

  /** Splices the key into the session's column, which is added when there is none. */
  function Splice(columns: seq<Column>, sitting: int, index: nat, key: string): seq<Column> {
    if columns == [] then [Column(sitting, [key])]
    else if columns[0].sitting == sitting then [columns[0].(ids := InsertAt(columns[0].ids, index, key))] + columns[1..]
    else [columns[0]] + Splice(columns[1..], sitting, index, key)
  }

  function InsertAt(ids: seq<string>, index: nat, key: string): seq<string> {
    var at := if index < |ids| then index else |ids|;
    ids[..at] + [key] + ids[at..]
  }

  function NonEmpty(columns: seq<Column>): seq<Column> {
    if columns == [] then []
    else if columns[0].ids == [] then NonEmpty(columns[1..])
    else [columns[0]] + NonEmpty(columns[1..])
  }

  function MoveTimelineEvent(draft: Draft, key: string, sitting: int, index: int): Result<Draft, TimelineError> {
    if !ValidSitting(sitting) || !SafeInteger(index) || index < 0 || !Mentions(draft.columns, key) then Err(Invalid)
    else Ok(draft.(columns := SortColumns(NonEmpty(Splice(RemoveEverywhere(draft.columns, key), sitting, index, key)))))
  }

  ghost predicate DistinctSittings(columns: seq<Column>) {
    forall i, j | 0 <= i < j < |columns| :: columns[i].sitting != columns[j].sitting
  }

  ghost predicate HasSitting(columns: seq<Column>, sitting: int) {
    exists column <- columns :: column.sitting == sitting
  }

  lemma {:induction false} IdsAtAbsent(columns: seq<Column>, sitting: int)
    requires !HasSitting(columns, sitting)
    ensures IdsAt(columns, sitting) == []
  {
    if columns != [] {
      assert columns[0] in columns;
      IdsAtAbsent(columns[1..], sitting);
    }
  }

  lemma {:induction false} IdsAtColumn(columns: seq<Column>, column: Column)
    requires DistinctSittings(columns) && column in columns
    ensures IdsAt(columns, column.sitting) == column.ids
  {
    if columns[0] != column {
      assert columns == [columns[0]] + columns[1..];
      IdsAtColumn(columns[1..], column);
    }
  }

  lemma {:induction false} RemovedColumns(columns: seq<Column>, key: string)
    ensures forall s :: IdsAt(RemoveEverywhere(columns, key), s) == Remove(IdsAt(columns, s), key)
    ensures forall s :: HasSitting(RemoveEverywhere(columns, key), s) <==> HasSitting(columns, s)
    ensures DistinctSittings(columns) ==> DistinctSittings(RemoveEverywhere(columns, key))
  {
    if columns != [] {
      RemovedColumns(columns[1..], key);
      SittingsSplit(columns);
      SittingsSplit(RemoveEverywhere(columns, key));
    }
  }

  /** The sessions of a list are those of its head and of its tail. */
  lemma SittingsSplit(columns: seq<Column>)
    requires columns != []
    ensures forall s :: HasSitting(columns, s) <==> columns[0].sitting == s || HasSitting(columns[1..], s)
    ensures DistinctSittings(columns) <==> DistinctSittings(columns[1..]) && !HasSitting(columns[1..], columns[0].sitting)
  {
    var rest := columns[1..];
    assert columns == [columns[0]] + rest;
    if DistinctSittings(columns) {
      DistinctTail(columns);
    }
    if DistinctSittings(rest) && !HasSitting(rest, columns[0].sitting) {
      forall i, j | 0 <= i < j < |columns|
        ensures columns[i].sitting != columns[j].sitting
      {
        var c := j - 1;
        assert rest[c] in rest && rest[c] == columns[j];
      }
    }
  }

  lemma DistinctTail(columns: seq<Column>)
    requires columns != [] && DistinctSittings(columns)
    ensures DistinctSittings(columns[1..]) && !HasSitting(columns[1..], columns[0].sitting)
  {
    var rest := columns[1..];
    assert forall j | 0 <= j < |rest| :: rest[j] == columns[j + 1];
  }

  lemma {:induction false} SplicedColumns(columns: seq<Column>, sitting: int, index: nat, key: string)
    requires DistinctSittings(columns)
    ensures forall s :: (
      IdsAt(Splice(columns, sitting, index, key), s)
      == (if s == sitting then InsertAt(IdsAt(columns, s), index, key) else IdsAt(columns, s)))
    ensures forall s :: HasSitting(Splice(columns, sitting, index, key), s) <==> s == sitting || HasSitting(columns, s)
    ensures DistinctSittings(Splice(columns, sitting, index, key))
  {
    SittingsSplit(Splice(columns, sitting, index, key));
    if columns != [] {
      SittingsSplit(columns);
      SplicedColumns(columns[1..], sitting, index, key);
    }
  }

  lemma {:induction false} NonEmptyColumns(columns: seq<Column>)
    requires DistinctSittings(columns)
    ensures forall s :: IdsAt(NonEmpty(columns), s) == IdsAt(columns, s)
    ensures forall s :: HasSitting(NonEmpty(columns), s) ==> HasSitting(columns, s)
    ensures DistinctSittings(NonEmpty(columns))
    ensures forall i | 0 <= i < |NonEmpty(columns)| :: NonEmpty(columns)[i].ids != []
  {
    if columns != [] {
      SittingsSplit(columns);
      NonEmptyColumns(columns[1..]);
      if columns[0].ids == [] {
        IdsAtAbsent(columns[1..], columns[0].sitting);
      } else {
        SittingsSplit(NonEmpty(columns));
      }
    }
  }

  lemma SortedColumnsKeepIds(columns: seq<Column>)
    requires DistinctSittings(columns) && forall i | 0 <= i < |columns| :: columns[i].ids != []
    ensures StrictColumns(SortColumns(columns))
    ensures forall s :: IdsAt(SortColumns(columns), s) == IdsAt(columns, s)
    ensures forall s :: HasSitting(SortColumns(columns), s) <==> HasSitting(columns, s)
  {
    SortColumnsSorts(columns);
    forall s
      ensures IdsAt(SortColumns(columns), s) == IdsAt(columns, s)
    {
      if column :| column in columns && column.sitting == s {
        IdsAtColumn(columns, column);
        IdsAtColumn(SortColumns(columns), column);
      } else {
        IdsAtAbsent(columns, s);
        IdsAtAbsent(SortColumns(columns), s);
      }
    }
  }

  /** A move takes the key out of its session and puts it at the index asked for, at most at the end; every
      other key keeps its session and its place among the others. */
  lemma MoveIsExact(draft: Draft, key: string, sitting: int, index: int)
    requires DistinctSittings(draft.columns) && MoveTimelineEvent(draft, key, sitting, index).Ok?
    ensures
      var moved := MoveTimelineEvent(draft, key, sitting, index).value;
      && moved.base == draft.base && StrictColumns(moved.columns)
      && (forall s :: IdsAt(moved.columns, s) ==
            var others := Remove(IdsAt(draft.columns, s), key);
            if s == sitting then InsertAt(others, index, key) else others)
      && (forall s :: HasSitting(moved.columns, s) ==> s == sitting || HasSitting(draft.columns, s))
  {
    var removed := RemoveEverywhere(draft.columns, key);
    RemovedColumns(draft.columns, key);
    SplicedColumns(removed, sitting, index, key);
    NonEmptyColumns(Splice(removed, sitting, index, key));
    SortedColumnsKeepIds(NonEmpty(Splice(removed, sitting, index, key)));
  }

  /** The columns list exactly these keys, each at one place, in sessions that are valid. */
  ghost predicate Arranges(columns: seq<Column>, keys: set<string>) {
    && StrictColumns(columns)
    && (forall s | HasSitting(columns, s) :: ValidSitting(s))
    && (forall s, id | id in IdsAt(columns, s) :: id in keys)
    && (forall id <- keys :: Listed(columns, id))
    && (forall s, t, id | id in IdsAt(columns, s) && id in IdsAt(columns, t) :: s == t)
    && (forall s :: NoRepeats(IdsAt(columns, s)))
  }

  ghost predicate Listed(columns: seq<Column>, id: string) {
    exists s :: id in IdsAt(columns, s)
  }

  lemma {:induction false} RemoveKeepsNoRepeats(ids: seq<string>, key: string)
    requires NoRepeats(ids)
    ensures NoRepeats(Remove(ids, key))
  {
    if ids != [] {
      var rest := Remove(ids[1..], key);
      RemoveKeepsNoRepeats(ids[1..], key);
      forall q | 0 <= q < |rest|
        ensures rest[q] != ids[0]
      {
        assert rest[q] in rest && rest[q] in ids[1..];
      }
    }
  }

  lemma InsertedIds(ids: seq<string>, index: nat, key: string)
    ensures forall id :: id in InsertAt(ids, index, key) <==> id == key || id in ids
    ensures NoRepeats(ids) && key !in ids ==> NoRepeats(InsertAt(ids, index, key))
  {
    var at := if index < |ids| then index else |ids|;
    assert ids == ids[..at] + ids[at..];
  }

  lemma {:induction false} IdsAtIsListed(columns: seq<Column>, sitting: int, id: string)
    requires id in IdsAt(columns, sitting)
    ensures exists column <- columns :: column.sitting == sitting && id in column.ids
  {
    if columns[0].sitting == sitting {
      assert columns[0] in columns;
    } else {
      IdsAtIsListed(columns[1..], sitting, id);
    }
  }

  /** One move keeps an arrangement: no event is lost, doubled or left in an empty column. */
  lemma MoveArranges(draft: Draft, keys: set<string>, key: string, sitting: int, index: int)
    requires Arranges(draft.columns, keys) && MoveTimelineEvent(draft, key, sitting, index).Ok?
    ensures Arranges(MoveTimelineEvent(draft, key, sitting, index).value.columns, keys)
  {
    var columns := draft.columns;
    var moved := MoveTimelineEvent(draft, key, sitting, index).value.columns;
    MoveIsExact(draft, key, sitting, index);
    var source :| source in columns && key in source.ids;
    IdsAtColumn(columns, source);
    forall s
      ensures NoRepeats(IdsAt(moved, s))
      ensures forall id :: id in IdsAt(moved, s) <==> (if id == key then s == sitting else id in IdsAt(columns, s))
    {
      var others := Remove(IdsAt(columns, s), key);
      RemoveKeepsNoRepeats(IdsAt(columns, s), key);
      InsertedIds(others, index, key);
    }
    forall id <- keys
      ensures Listed(moved, id)
    {
      if id == key {
        assert id in IdsAt(moved, sitting);
      } else {
        var s :| id in IdsAt(columns, s);
        assert id in IdsAt(moved, s);
      }
    }
  }

  datatype Move = Move(key: string, sitting: int, index: int)

  function MoveAll(draft: Draft, moves: seq<Move>): Result<Draft, TimelineError>
    decreases |moves|
  {
    if moves == [] then Ok(draft)
    else
      var moved := MoveTimelineEvent(draft, moves[0].key, moves[0].sitting, moves[0].index);
      if moved.Err? then moved else MoveAll(moved.value, moves[1..])
  }

  lemma {:induction false} MovesArrange(draft: Draft, keys: set<string>, moves: seq<Move>)
    requires Arranges(draft.columns, keys) && MoveAll(draft, moves).Ok?
    ensures Arranges(MoveAll(draft, moves).value.columns, keys)
    ensures MoveAll(draft, moves).value.base == draft.base
    decreases |moves|
  {
    if moves != [] {
      MoveArranges(draft, keys, moves[0].key, moves[0].sitting, moves[0].index);
      MovesArrange(MoveTimelineEvent(draft, moves[0].key, moves[0].sitting, moves[0].index).value, keys, moves[1..]);
    }
  }

  /** An arrangement of the events a campaign shows is what a reorder asks of a draft. */
  lemma ArrangementIsValid(original: seq<Column>, columns: seq<Column>)
    requires Arranges(columns, IdsOf(original))
    ensures ValidColumns(original, columns)
  {
    forall i | 0 <= i < |columns|
      ensures ValidSitting(columns[i].sitting) && IdsAt(columns, columns[i].sitting) == columns[i].ids
    {
      assert columns[i] in columns && HasSitting(columns, columns[i].sitting);
      IdsAtColumn(columns, columns[i]);
    }
    forall i, j, id | 0 <= i < j < |columns| && id in columns[i].ids
      ensures id !in columns[j].ids
    {
      assert id in IdsAt(columns, columns[i].sitting);
    }
    forall id <- IdsOf(original)
      ensures id in IdsOf(columns)
    {
      assert Listed(columns, id);
      var s :| id in IdsAt(columns, s);
      IdsAtIsListed(columns, s, id);
    }
    forall i, p, q | 0 <= i < |columns| && 0 <= p < q < |columns[i].ids|
      ensures columns[i].ids[p] != columns[i].ids[q]
    {
      assert NoRepeats(IdsAt(columns, columns[i].sitting));
    }
    ChecksDecideValidity(original, columns);
  }

  lemma ProjectionArranges(records: seq<Record>, shown: seq<Column>)
    requires IsProjection(records, shown)
    ensures Arranges(shown, IdsOf(shown))
  {
    ProjectionIsChecked(records, shown);
    forall s, id | id in IdsAt(shown, s)
      ensures exists i | 0 <= i < |shown| :: shown[i].sitting == s && id in shown[i].ids
    {
      IdsAtIsListed(shown, s, id);
    }
    forall id <- IdsOf(shown)
      ensures Listed(shown, id)
    {
      var column :| column in shown && id in column.ids;
      IdsAtColumn(shown, column);
      assert id in IdsAt(shown, column.sitting);
    }
    forall s
      ensures NoRepeats(IdsAt(shown, s))
    {
      if column :| column in shown && column.sitting == s {
        IdsAtColumn(shown, column);
        var i :| 0 <= i < |shown| && shown[i] == column;
      } else {
        IdsAtAbsent(shown, s);
      }
    }
  }

  /** However often events are dragged, the draft can be saved as long as the campaign has not changed: it is
      refused only for its size, and once saved the campaign shows what the draft showed. */
  lemma DraggedDraftIsSaved(records: seq<Record>, shown: seq<Column>, moves: seq<Move>)
    requires UniqueKeys(records) && IsProjection(records, shown)
    requires forall record <- records :: 1 <= record.revision <= MAX_SAFE_INTEGER
    requires forall column <- shown, id <- column.ids :: id in Keys(records)
    requires MoveAll(StartDraft(records, shown), moves).Ok?
    ensures
      var draft := MoveAll(StartDraft(records, shown), moves).value;
      var saved := Reorder(records, draft, shown);
      && (saved.Ok? || saved == Err(Limit))
      && (saved.Ok? ==> IsPlan(records, shown, draft.columns, saved.value)
                        && IsProjection(Updated(records, saved.value), draft.columns))
  {
    var start := StartDraft(records, shown);
    var draft := MoveAll(start, moves).value;
    StartIsCurrent(records, shown);
    ProjectionArranges(records, shown);
    MovesArrange(start, IdsOf(shown), moves);
    ArrangementIsValid(shown, draft.columns);
    MentionedAreKnown(records, shown, draft.columns);
    var saved := Reorder(records, draft, shown);
    if saved.Ok? {
      PutGet(records, shown, draft.columns, saved.value);
      SortedStay(draft.columns);
    }
  }

  lemma {:induction false} SortedStay(columns: seq<Column>)
    requires StrictColumns(columns)
    ensures SortColumns(columns) == columns
  {
    if columns != [] {
      SortedStay(columns[1..]);
    }
  }

  // ----- placeTimelineEvent -----

  function LastOrder(records: seq<Record>, ids: seq<string>): (last: real)
    requires forall id <- ids :: id in Keys(records)
    ensures last >= 0.0
    ensures forall id <- ids :: OrderOf(records[Position(records, id)]) <= last
  {
    if ids == [] then 0.0
    else
      var before := LastOrder(records, ids[..|ids| - 1]);
      var order := OrderOf(records[Position(records, ids[|ids| - 1])]);
      assert forall id <- ids :: id in ids[..|ids| - 1] || id == ids[|ids| - 1];
      if order > before then order else before
  }

  /** The fields of a new or edited event: its order is set when it enters a session. */
  function PlaceTimelineEvent(records: seq<Record>, shown: seq<Column>, key: string, value: Fields, previous: Option<Fields>): Fields
    requires forall column <- shown, id <- column.ids :: id in Keys(records)
  {
    var sitting := Sitting(Field(value, "sitting"));
    if previous.Some? && Sitting(Field(previous.value, "sitting")) == sitting then value
    else
      KnownAt(records, shown, sitting);
      value["order" := Number((LastOrder(records, Remove(IdsAt(shown, sitting), key)).Floor + 1) as real)]
  }

  lemma {:induction false} KnownAt(records: seq<Record>, shown: seq<Column>, sitting: int)
    requires forall column <- shown, id <- column.ids :: id in Keys(records)
    ensures forall id <- IdsAt(shown, sitting) :: id in Keys(records)
  {
    if shown != [] {
      assert shown[0] in shown;
      KnownAt(records, shown[1..], sitting);
    }
  }

  /** The campaign after one event was written, when the write reveals no other event. */
  ghost predicate OnlyWrites(records: seq<Record>, after: seq<Record>, key: string) {
    && UniqueKeys(records) && UniqueKeys(after) && key in Keys(after)
    && forall id | id != key && IsShown(after, id) ::
         IsShown(records, id) && RecordValue(records[Position(records, id)]) == RecordValue(after[Position(after, id)])
  }

  lemma EntersSession(value: Fields, order: int)
    ensures Field(value["order" := Number(order as real)], "order") == Some(Number(order as real))
    ensures Field(value["order" := Number(order as real)], "sitting") == Field(value, "sitting")
  {
  }

  /** Another event of the session was listed there before the write, with the same order. */
  lemma WasListed(records: seq<Record>, shown: seq<Column>, key: string, after: seq<Record>, id: string)
    requires IsProjection(records, shown) && forall column <- shown, id <- column.ids :: id in Keys(records)
    requires OnlyWrites(records, after, key) && id != key && IsShown(after, id)
    ensures
      var now := after[Position(after, id)];
      && id in Remove(IdsAt(shown, SittingOf(now)), key)
      && id in Keys(records) && OrderOf(records[Position(records, id)]) == OrderOf(now)
  {
    var c :| 0 <= c < |shown| && id in shown[c].ids;
    assert Lists(records, shown[c]);
    IdsAtColumn(shown, shown[c]);
  }

  ghost predicate Enters(records: seq<Record>, shown: seq<Column>, key: string, value: Fields, previous: Option<Fields>, after: seq<Record>) {
    && IsProjection(records, shown) && (forall column <- shown, id <- column.ids :: id in Keys(records))
    && OnlyWrites(records, after, key)
    && RecordValue(after[Position(after, key)]) == PlaceTimelineEvent(records, shown, key, value, previous)
    && (previous.None? || Sitting(Field(previous.value, "sitting")) != Sitting(Field(value, "sitting")))
  }

  lemma EnteredBehind(records: seq<Record>, shown: seq<Column>, key: string, value: Fields, previous: Option<Fields>, after: seq<Record>)
    requires Enters(records, shown, key, value, previous, after)
    ensures SittingOf(after[Position(after, key)]) == Sitting(Field(value, "sitting"))
    ensures forall id | id != key && AtHome(after, id, Sitting(Field(value, "sitting"))) ::
      OrderOf(after[Position(after, id)]) < OrderOf(after[Position(after, key)])
  {
    var sitting := Sitting(Field(value, "sitting"));
    KnownAt(records, shown, sitting);
    var others := Remove(IdsAt(shown, sitting), key);
    var order := LastOrder(records, others).Floor + 1;
    EntersSession(value, order);
    forall id | id != key && AtHome(after, id, sitting)
      ensures OrderOf(after[Position(after, id)]) < OrderOf(after[Position(after, key)])
    {
      WasListed(records, shown, key, after, id);
    }
  }

  /** An event that enters a session is listed last in it. */
  lemma EnteringEventIsLast(records: seq<Record>, shown: seq<Column>, key: string, value: Fields, previous: Option<Fields>,
                            after: seq<Record>, columns: seq<Column>, i: nat)
    requires Enters(records, shown, key, value, previous, after)
    requires IsProjection(after, columns) && i < |columns| && key in columns[i].ids
    ensures columns[i].sitting == Sitting(Field(value, "sitting"))
    ensures columns[i].ids[|columns[i].ids| - 1] == key
  {
    EnteredBehind(records, shown, key, value, previous, after);
    NothingBehind(after, columns[i], key);
  }

  lemma LaterIsNotLess(records: seq<Record>, column: Column, p: nat)
    requires Lists(records, column) && p < |column.ids| - 1
    ensures
      var id, last := column.ids[p], column.ids[|column.ids| - 1];
      && AtHome(records, last, column.sitting) && id in Keys(records)
      && !(OrderOf(records[Position(records, last)]) < OrderOf(records[Position(records, id)]))
  {
    var last := column.ids[|column.ids| - 1];
    assert last in column.ids && Before(records, column.ids[p], last);
  }

  lemma NothingBehind(records: seq<Record>, column: Column, key: string)
    requires Lists(records, column) && key in column.ids
    requires forall id | id != key && AtHome(records, id, column.sitting) ::
      OrderOf(records[Position(records, id)]) < OrderOf(records[Position(records, key)])
    ensures column.ids[|column.ids| - 1] == key
  {
    hide Keys, Position, OrderOf, AtHome;
    var last := column.ids[|column.ids| - 1];
    var p :| 0 <= p < |column.ids| && column.ids[p] == key;
    if last != key {
      LaterIsNotLess(records, column, p);
      assert false;
    }
  }
}
