/** A Redb database file as a value, and what one save or one load does to it. */
module RedbSpec {
  import opened Base
  import opened Bytes
  import opened Crypto
  import opened Audit
  import opened AuditTable
  import opened Commitment
  import opened Checkpoint
  import opened Records
  import opened RecordTable
  import opened StoreSpec

  datatype RedbDisk = RedbDisk(records: CellMap, audit: Table, checkpoint: CheckpointCell)

  const EMPTY_DISK: RedbDisk := RedbDisk(map[], map[], Absent)

  // ---- Save and load -----------------------------------------------------

  ghost function Seen(c: Crypto, records: RecordMap, log: Log): Observed
    requires |log| < U64_LIMIT
  {
    Observed(log == [], records == map[], |log|, Head(log), MapCommitment(c, StampsOf(records)))
  }

  /** The audit log of the disk and the context a save must seal with. */
  ghost function Permit(c: Crypto, disk: RedbDisk, secret: Option<Text>,
          salt: Hash): Outcome<(Log, Option<AuthContext>)>
  {
    var audit := ReadAudit(c, disk.audit);
    if audit.Failure? then Failure(audit.error)
    else if |audit.value| >= U64_LIMIT then Failure(AuditChainBroken)
    else if secret.Some? && ReadRecords(AnyTier, disk.records).Failure? then Failure(AuditChainBroken)
    else
      var log := audit.value;
      var commitment := if secret.Some? then MapCommitment(c, StampsOf(ReadRecords(AnyTier, disk.records).value))
        else ZeroHash();
      var seen := Observed(log == [], disk.records == map[], |log|, Head(log), commitment);
      var verdict := Authorise(c, disk.checkpoint, seen, secret, salt);
      if verdict.Failure? then Failure(verdict.error) else Success((log, verdict.value.1))
  }

  /** The disk that holds exactly a store, sealed under a context. */
  ghost function DiskOf(c: Crypto, s: StoreState, context: Option<AuthContext>): RedbDisk
    requires |s.log| < U64_LIMIT
  {
    RedbDisk(EncodeRecords(s.records), EncodeAudit(s.log),
             CellFor(c, |s.log|, Head(s.log), MapCommitment(c, StampsOf(s.records)), context))
  }

  /** One save: the whole write transaction, committed or dropped. */
  ghost function SaveSpec(c: Crypto, s: StoreState, file: Option<RedbDisk>, secret: Option<Text>,
          salt: Hash): (Outcome<()>, Option<RedbDisk>)
  {
    if !Chain(c, s.log) then (Failure(AuditChainBroken), file)
    else
      var disk := if file.Some? then file.value else EMPTY_DISK;
      var permit := Permit(c, disk, secret, salt);
      if permit.Failure? then (Failure(permit.error), Some(disk))
      else if !IsPrefix(permit.value.0, s.log) then (Failure(AuditChainBroken), Some(disk))
      else if |s.log| >= U64_LIMIT then (Failure(SaveFailed), Some(disk))
      else (Success(()), Some(DiskOf(c, s, permit.value.1)))
  }

  /** One load: it also writes the first checkpoint of an empty database. */
  ghost function LoadSpec(c: Crypto, file: Option<RedbDisk>, secret: Option<Text>,
          salt: Hash): (Outcome<StoreState>, Option<RedbDisk>)
  {
    if file.None? then (Failure(LoadFailed), None)
    else
      var disk := file.value;
      var records, audit := ReadRecords(AnyTier, disk.records), ReadAudit(c, disk.audit);
      if records.Failure? then (Failure(records.error), file)
      else if audit.Failure? then (Failure(audit.error), file)
      else if |audit.value| >= U64_LIMIT then (Failure(AuditChainBroken), file)
      else
        var seen := Seen(c, records.value, audit.value);
        var verdict := Authorise(c, disk.checkpoint, seen, secret, salt);
        if verdict.Failure? then (Failure(verdict.error), file)
        else
          var cell := if verdict.value.0.Genesis? then CellFor(c, 0, ZeroHash(), seen.commitment, verdict.value.1)
            else disk.checkpoint;
          (Success(StoreState(records.value, audit.value)), Some(disk.(checkpoint := cell)))
  }
}
