/** Records, their validation, and their reconstruction from storage. */
module Records {
  import opened Base
  import opened Bytes
  import opened Envelope
  import opened Commitment

  datatype Record = Record(
    id: Text,
    tier: DataTier,
    ownerId: Text,
    payload: EncryptedPayload,
    salt: Hash,
    createdAt: u64
  )

  /** The owner is checked before the id. */
  function ValidateIdentity(id: Text, ownerId: Text): Outcome<()> {
    if ownerId == [] then Failure(NoOwner)
    else if id == [] then Failure(EmptyRecordId)
    else Success(())
  }

  function Validate(r: Record): Outcome<()> {
    ValidateIdentity(r.id, r.ownerId)
  }

  function IsReadableBy(r: Record, requester: Text): bool {
    match r.tier
    case Critical => requester == r.ownerId
    case Personal => requester == r.ownerId
    case Noise => true
  }

  /** Reconstruction is stricter than construction: a zero stamp is refused. */
  function IntoValidated(persisted: Record): Outcome<Record> {
    if persisted.createdAt == 0 then Failure(InvalidCreatedAt)
    else
      var verdict := Validate(persisted);
      if verdict.Failure? then Failure(verdict.error) else Success(persisted)
  }

  /** A stored value: JSON that is no record, or a record not yet validated. */
  datatype RecordCell = BadRecord | RecordRow(persisted: Record)

  type RecordMap = map<Text, Record>
  type CellMap = map<Text, RecordCell>

  function EncodeRecords(records: RecordMap): CellMap {
    map id | id in records :: RecordRow(records[id])
  }

  function StampsOf(records: RecordMap): Stamps {
    map id | id in records :: records[id].createdAt
  }

  function OwnersOf(records: RecordMap): map<Text, Text> {
    map id | id in records :: records[id].ownerId
  }

  /** Every record sits under its own id and is valid. */
  predicate WellKeyed(records: RecordMap) {
    forall id | id in records :: records[id].id == id && Validate(records[id]).Success?
  }

  predicate NoZeroStamp(records: RecordMap) {
    forall id | id in records :: records[id].createdAt != 0
  }
}
