/** The store and its database file, as the objects the engine updates. */
module Store {
  import opened Base
  import opened Bytes
  import opened Ordering
  import opened Crypto
  import opened Audit
  import opened AuditTable
  import opened AuditKeys
  import opened Commitment
  import opened Checkpoint
  import opened Records
  import opened RecordTable
  import opened StoreSpec
  import opened RedbSpec

  /** The three tables of a Redb file. */
  class RedbFile {
    var present: bool
    var records: CellMap
    var audit: Table
    var checkpoint: CheckpointCell

    constructor ()
      ensures Valid() && Contents() == None
    {
      present, records, audit, checkpoint := false, map[], map[], Absent;
    }

    /** A row count is a machine word. */
    ghost predicate Valid()
      reads this
    {
      |audit| < U64_LIMIT && (!present ==> Disk() == EMPTY_DISK)
    }

    ghost function Disk(): RedbDisk
      reads this
    {
      RedbDisk(records, audit, checkpoint)
    }

    ghost function Contents(): Option<RedbDisk>
      reads this
    {
      if present then Some(Disk()) else None
    }
  }

  /** The commitment of a record map; the map may be walked in any order. */
  method CommitRecords(c: Crypto, records: RecordMap) returns (h: Hash)
    ensures h == MapCommitment(c, StampsOf(records))
  {
    var stamps := ScanKeyspace(StampsOf(records));
    h := RecordCreatedAtCommitment(c, stamps);
  }

  /** Read what a transaction found and decide whether a save may proceed. */
  method PermitSave(c: Crypto, disk: RedbDisk, secret: Option<Text>, salt: Hash)
    returns (r: Outcome<(Log, Option<AuthContext>)>)
    requires |disk.audit| < U64_LIMIT
    ensures r == Permit(c, disk, secret, salt)
  {
    hide ReadAudit, ReadRecords, Authorise, MapCommitment;
    var audit := ReadByParsing(c, disk.audit);
    if audit.Failure? {
      return Failure(audit.error);
    }
    var log := audit.value;
    if |log| >= U64_LIMIT {
      return Failure(AuditChainBroken);
    }
    var commitment := ZeroHash();
    if secret.Some? {
      var found := ReadRecordTable(AnyTier, disk.records);
      if found.Failure? {
        return Failure(AuditChainBroken);
      }
      commitment := CommitRecords(c, found.value);
    }
    var seen := Observed(log == [], disk.records == map[], |log|, Head(log), commitment);
    var verdict := Authorise(c, disk.checkpoint, seen, secret, salt);
    if verdict.Failure? {
      return Failure(verdict.error);
    }
    return Success((log, verdict.value.1));
  }

  /** Drain the record table and insert every record. */
  method RewriteRecords(cells: CellMap, records: RecordMap) returns (table: CellMap)
    ensures table == EncodeRecords(records)
  {
    table := cells;
    var keys := table.Keys;
    while keys != {}
      invariant table.Keys == keys
    {
      var key :| key in keys;
      table, keys := table - {key}, keys - {key};
    }
    var ids := records.Keys;
    while ids != {}
      invariant ids <= records.Keys && table == EncodeRecords(records - ids)
    {
      var id :| id in ids;
      table, ids := table[id := RecordRow(records[id])], ids - {id};
    }
    assert records - {} == records;
  }

  /** Drain the audit table and insert the log under its index keys. */
  method RewriteAudit(rows: Table, log: Log) returns (table: Table)
    requires |log| < U64_LIMIT
    ensures table == EncodeAudit(log)
  {
    hide Key;
    table := rows;
    var keys := table.Keys;
    while keys != {}
      invariant table.Keys == keys
    {
      var key :| key in keys;
      table, keys := table - {key}, keys - {key};
    }
    for index := 0 to |log|
      invariant table == EncodeAudit(log[..index])
    {
      EncodeAuditAppend(log[..index], log[index]);
      assert log[..index] + [log[index]] == log[..index + 1];
      table := table[Key(index) := Row(log[index])];
    }
    assert log[..|log|] == log;
  }

  class Store {
    const c: Crypto
    var records: RecordMap
    var auditLog: Log

    constructor (c: Crypto)
      ensures this.c == c && State() == EMPTY
    {
      this.c := c;
      records, auditLog := map[], [];
    }

    ghost function State(): StoreState
      reads this
    {
      StoreState(records, auditLog)
    }

    method AppendAudit(id: Text, requester: Text, action: AuditAction, now: u64)
      modifies this`auditLog
      ensures auditLog == Appended(c, old(auditLog), id, requester, action, now)
    {
      var entry := NewEntry(c, id, requester, action, now, Head(auditLog));
      auditLog := auditLog + [entry];
    }

    method Write(record: Record, now: u64) returns (r: Outcome<()>)
      modifies this
      ensures (State(), r) == WriteStep(c, old(State()), record, now)
    {
      var verdict := Validate(record);
      if verdict.Failure? {
        return verdict;
      }
      if record.id in records {
        return Failure(AlreadyExists);
      }
      AppendAudit(record.id, record.ownerId, AuditAction.Write, now);
      records := records[record.id := record];
      return Success(());
    }

    method Read(id: Text, requester: Text, now: u64) returns (r: Outcome<Record>)
      modifies this
      ensures (State(), r) == ReadStep(c, old(State()), id, requester, now)
    {
      if id !in records {
        return Failure(NotFound);
      }
      if IsReadableBy(records[id], requester) {
        AppendAudit(id, requester, ReadGranted, now);
        return Success(records[id]);
      } else {
        AppendAudit(id, requester, ReadDenied, now);
        return Failure(AccessDenied);
      }
    }

    method Delete(id: Text, requester: Text, now: u64) returns (r: Outcome<()>)
      modifies this
      ensures (State(), r) == DeleteStep(c, old(State()), id, requester, now)
    {
      if id !in records {
        return Failure(NotFound);
      }
      if records[id].ownerId != requester {
        return Failure(AccessDenied);
      }
      AppendAudit(id, requester, AuditAction.Delete, now);
      records := records - {id};
      return Success(());
    }

    /** The records of one owner, in an order of the map's choosing. */
    method ListByOwner(owner: Text) returns (r: seq<Record>)
      ensures forall x :: x in r <==> x in OwnedBy(records, owner)
      ensures WellKeyed(records) ==> Lists(r, OwnedBy(records, owner))
    {
      hide OwnedBy, WellKeyed;
      r := [];
      var rest := records.Keys;
      NothingOwned(records, owner);
      while rest != {}
        invariant rest <= records.Keys
        invariant forall x :: x in r <==> x in OwnedBy(records - rest, owner)
        invariant WellKeyed(records) ==> Lists(r, OwnedBy(records - rest, owner))
      {
        var id :| id in rest;
        OwnedByNext(records, rest, id, owner);
        if WellKeyed(records) {
          OwnedByMore(records, rest, id, owner);
        }
        if records[id].ownerId == owner {
          r := r + [records[id]];
        }
        rest := rest - {id};
      }
      assert records - {} == records;
    }

    /** The validation pass of a save. */
    method CheckRecords() returns (r: Outcome<()>)
      ensures r.Success? <==> WellKeyed(records)
      ensures r.Failure? ==> r.error in {NoOwner, EmptyRecordId, SaveFailed}
    {
      var rest := records.Keys;
      while rest != {}
        invariant rest <= records.Keys
        invariant forall id | id in records && id !in rest :: records[id].id == id && Validate(records[id]).Success?
      {
        var id :| id in rest;
        var verdict := Validate(records[id]);
        if verdict.Failure? {
          return verdict;
        }
        if id != records[id].id {
          return Failure(SaveFailed);
        }
        rest := rest - {id};
      }
      return Success(());
    }

    /** One write transaction over the file; `salt` is its random salt. */
    method SaveImpl(file: RedbFile, secret: Option<Text>, salt: Hash) returns (r: Outcome<()>)
      requires file.Valid()
      modifies file
      ensures file.Valid()
      ensures WellKeyed(records) ==> (r, file.Contents()) == SaveSpec(c, State(), old(file.Contents()), secret, salt)
      ensures !WellKeyed(records) ==>
        r.Failure? && r.error in {NoOwner, EmptyRecordId, SaveFailed} && file.Contents() == old(file.Contents())
    {
      hide Chain, ReadAudit, ReadRecords, EncodeAudit, Permit, MapCommitment, CellFor;
      r := CheckRecords();
      if r.Failure? {
        return;
      }
      r := VerifyAuditEntries(c, auditLog);
      if r.Failure? {
        return;
      }
      file.present := true;
      var permit := PermitSave(c, RedbDisk(file.records, file.audit, file.checkpoint), secret, salt);
      if permit.Failure? {
        return Failure(permit.error);
      }
      var lineage := AuditHistoryIsPrefix(permit.value.0, auditLog);
      if !lineage {
        return Failure(AuditChainBroken);
      }
      if |auditLog| >= U64_LIMIT {
        return Failure(SaveFailed);
      }
      var recordTable := RewriteRecords(file.records, records);
      var auditTable := RewriteAudit(file.audit, auditLog);
      var commitment := CommitRecords(c, records);
      var cell := CellFor(c, |auditLog|, Head(auditLog), commitment, permit.value.1);
      EncodeAuditSize(auditLog);
      file.records, file.audit, file.checkpoint := recordTable, auditTable, cell;
      return Success(());
    }

    /** One load transaction over the file. */
    static method LoadImpl(c: Crypto, file: RedbFile, secret: Option<Text>, salt: Hash) returns (r: Outcome<Store>)
      requires file.Valid()
      modifies file`checkpoint
      ensures file.Valid()
      ensures file.Contents() == LoadSpec(c, old(file.Contents()), secret, salt).1
      ensures r.Failure? ==> LoadSpec(c, old(file.Contents()), secret, salt).0 == Failure(r.error)
      ensures r.Success? ==> fresh(r.value) && r.value.c == c
      ensures r.Success? ==> LoadSpec(c, old(file.Contents()), secret, salt).0 == Success(r.value.State())
    {
      hide Chain, ReadAudit, ReadRecords, EncodeAudit, Authorise, MapCommitment, CellFor;
      if !file.present {
        return Failure(LoadFailed);
      }
      var found := ReadRecordTable(AnyTier, file.records);
      if found.Failure? {
        return Failure(found.error);
      }
      var audit := ReadByParsing(c, file.audit);
      if audit.Failure? {
        return Failure(audit.error);
      }
      var log := audit.value;
      if |log| >= U64_LIMIT {
        return Failure(AuditChainBroken);
      }
      var commitment := CommitRecords(c, found.value);
      var seen := Observed(log == [], found.value == map[], |log|, Head(log), commitment);
      var verdict := Authorise(c, file.checkpoint, seen, secret, salt);
      if verdict.Failure? {
        return Failure(verdict.error);
      }
      if verdict.value.0.Genesis? {
        file.checkpoint := CellFor(c, 0, ZeroHash(), commitment, verdict.value.1);
      }
      var store := new Store(c);
      store.records, store.auditLog := found.value, log;
      return Success(store);
    }
  }

  lemma NothingOwned(records: RecordMap, owner: Text)
    ensures OwnedBy(records - records.Keys, owner) == {}
  {
  }

  lemma OwnedByNext(records: RecordMap, rest: set<Text>, id: Text, owner: Text)
    requires id in rest && rest <= records.Keys
    ensures OwnedBy(records - (rest - {id}), owner)
         == OwnedBy(records - rest, owner) + if records[id].ownerId == owner then {records[id]} else {}
  {
    var before, after := records - rest, records - (rest - {id});
    var x := records[id];
    forall y
      ensures y in OwnedBy(after, owner) <==> y in OwnedBy(before, owner) || (y == x && x.ownerId == owner)
    {
      if y in OwnedBy(after, owner) {
        var i :| i in after && after[i].ownerId == owner && after[i] == y;
        assert i != id ==> i in before && before[i] == y;
      }
      if y in OwnedBy(before, owner) {
        var i :| i in before && before[i].ownerId == owner && before[i] == y;
        assert i in after && after[i] == y;
      }
      if y == x && x.ownerId == owner {
        assert id in after && after[id] == y;
      }
    }
  }

  lemma OwnedByMore(records: RecordMap, rest: set<Text>, id: Text, owner: Text)
    requires WellKeyed(records) && id in rest && rest <= records.Keys
    ensures multiset(OwnedBy(records - (rest - {id}), owner))
         == multiset(OwnedBy(records - rest, owner)) + if records[id].ownerId == owner then multiset{records[id]}
            else multiset{}
  {
    OwnedByNext(records, rest, id, owner);
    assert forall i | i in records - rest :: records[i].id == i;
  }
}
