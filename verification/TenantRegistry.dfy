/** The registry of tenant records: one record per instance identity, replaced only
    by a writer that names the revision it read. */
module TenantRegistry {
  import opened Facts
  import opened InstanceIdentity
  import opened Lifecycle

  type Records = map<JsString, TenantRecord>

  function Lookup(records: Records, identity: Identity): Option<TenantRecord> {
    var key := CanonicalInstanceIdentity(identity);
    if key in records then Some(records[key]) else None
  }

  predicate Matches(records: Records, record: TenantRecord, expectedRevision: Option<int>) {
    var current := Lookup(records, record.identity);
    if expectedRevision.None? then current.None? else current.Some? && current.value.revision == expectedRevision.value
  }

  function Stored(records: Records, record: TenantRecord): Records {
    records[CanonicalInstanceIdentity(record.identity) := record]
  }

  /** Storing a record answers lookups of its identity, and of no other. */
  lemma StoredLookup(records: Records, record: TenantRecord, identity: Identity)
    ensures Lookup(Stored(records, record), identity)
            == if identity == record.identity then Some(record) else Lookup(records, identity)
  {
    SameKeyIffSameIdentity(identity, record.identity);
  }

  datatype Swap = Swapped(record: TenantRecord) | Conflict(expectedRevision: int, actualRevision: Option<int>)

  class InMemoryTenantRegistry {
    var records: Records

    constructor ()
      ensures forall identity :: Lookup(records, identity) == None
    {
      records := map[];
    }

    method Get(identity: Identity) returns (r: Option<TenantRecord>)
      ensures r == Lookup(records, identity)
    {
      var key := CanonicalInstanceIdentity(identity);
      if key in records {
        return Some(records[key]);
      }
      return None;
    }

    method CompareAndSet(record: TenantRecord, expectedRevision: Option<int>) returns (r: Swap)
      modifies this
      ensures r.Swapped? <==> old(Matches(records, record, expectedRevision))
      ensures r.Swapped? ==> r.record == record && records == Stored(old(records), record)
      ensures r.Swapped? ==> Lookup(records, record.identity) == Some(record)
      ensures r.Swapped? ==> forall other :: other != record.identity ==>
              Lookup(records, other) == old(Lookup(records, other))
      ensures r.Conflict? ==> records == old(records)
      ensures r.Conflict? ==>
        && r.expectedRevision == (if expectedRevision.None? then -1 else expectedRevision.value)
        && r.actualRevision
          == (var current := Lookup(records, record.identity);
              if current.None? then None else Some(current.value.revision))
    {
      var key := CanonicalInstanceIdentity(record.identity);
      var current: Option<TenantRecord> := if key in records then Some(records[key]) else None;
      var actualRevision: Option<int> := if current.None? then None else Some(current.value.revision);
      var matches := if expectedRevision.None? then current.None? else actualRevision == expectedRevision;
      if !matches {
        return Conflict(if expectedRevision.None? then -1 else expectedRevision.value, actualRevision);
      }
      ghost var before := records;
      records := records[key := record];
      forall other ensures other != record.identity ==> Lookup(records, other) == Lookup(before, other) {
        StoredLookup(before, record, other);
      }
      return Swapped(record);
    }
  }
}
