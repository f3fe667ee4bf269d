/** Twin records: a public and a DM-only version of one record that link to each other. */
module Twins {
  import opened Results
  import opened CampaignRecords

  predicate IsSecret(fields: Fields) {
    Field(fields, "visibility") == Some(Text("dm"))
  }

  /** The record that stands for this one: its DM twin when both are present and link to each other. */
  function Representative(records: seq<Record>, record: Record): string {
    var value := RecordValue(record);
    match Field(value, "linkedTwinId")
    case Some(Text(link)) =>
      var other := Find(records, link);
      if other.None? then record.key
      else
        var twin := RecordValue(other.value);
        if other.value.key != record.key && Field(twin, "linkedTwinId") == Some(Text(record.key))
           && IsSecret(value) != IsSecret(twin) && IsSecret(twin)
        then other.value.key else record.key
    case _ => record.key
  }

  predicate Shown(records: seq<Record>, record: Record) {
    Representative(records, record) == record.key
  }

  function Filter(records: seq<Record>, all: seq<Record>): (r: seq<Record>)
    ensures forall record :: record in r <==> record in records && Shown(all, record)
  {
    if records == [] then []
    else if Shown(all, records[0]) then [records[0]] + Filter(records[1..], all)
    else Filter(records[1..], all)
  }

  function GroupTwins(records: seq<Record>): (shown: seq<Record>)
    ensures forall record :: record in shown <==> record in records && Shown(records, record)
  {
    Filter(records, records)
  }
}
