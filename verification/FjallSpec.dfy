/**
 The Fjall backend as a value: five keyspaces, changed one atomic batch at a
 time, behind a cached length, tail and commitment.

 The operations follow the backend on any database content, well formed or not.
 */
module FjallSpec {
  import opened Base
  import opened Bytes
  import opened Ordering
  import opened Crypto
  import opened Audit
  import opened AuditKeys
  import opened AuditTable
  import opened Commitment
  import opened Checkpoint
  import opened Envelope
  import opened Records
  import opened RecordTable
  import opened StoreSpec

  datatype FjallDb = FjallDb(critical: CellMap, personal: CellMap, noise: CellMap, audit: Table,
          checkpoint: CheckpointCell) {
    function At(tier: DataTier): CellMap {
      match tier
      case Critical => critical
      case Personal => personal
      case Noise => noise
    }

    function With(tier: DataTier, cells: CellMap): FjallDb {
      match tier
      case Critical => this.(critical := cells)
      case Personal => this.(personal := cells)
      case Noise => this.(noise := cells)
    }

    /** The first keyspace, in search order, that has the id. */
    function TierOf(id: Text): Option<DataTier> {
      if id in critical then Some(Critical)
      else if id in personal then Some(Personal)
      else if id in noise then Some(Noise)
      else None
    }
  }

  const EMPTY_DB: FjallDb := FjallDb(map[], map[], map[], map[], Absent)

  datatype FjallState = FjallState(
    db: FjallDb,
    auditLen: u64,
    auditTail: Hash,
    auth: Option<AuthContext>,
    commitment: Hash
  )

  /** Every record of the three keyspaces, or the first error met. */
  ghost function ReadTiers(db: FjallDb): Outcome<RecordMap> {
    var critical := ReadRecords(OneTier(Critical, {}), db.critical);
    if critical.Failure? then critical
    else
      var taken := db.critical.Keys;
      var personal := ReadRecords(OneTier(Personal, taken), db.personal);
      if personal.Failure? then personal
      else
        var noise := ReadRecords(OneTier(Noise, taken + db.personal.Keys), db.noise);
        if noise.Failure? then noise
        else Success(critical.value + personal.value + noise.value)
  }

  ghost function EnsureCurrent(c: Crypto, f: FjallState): Outcome<()> {
    if f.auth.None? then Success(())
    else
      var current := ReadTiers(f.db);
      if current.Failure? then Failure(current.error)
      else if MapCommitment(c, StampsOf(current.value)) != f.commitment then Failure(AuditChainBroken)
      else Success(())
  }

  /** The state after the batch of one entry, with the record keyspaces of `db`. */
  ghost function Committed(c: Crypto, f: FjallState, db: FjallDb, e: AuditEntry, commitment: Hash): FjallState
    requires f.auditLen + 1 < U64_LIMIT
  {
    var cell := CellFor(c, f.auditLen + 1, e.entryHash, commitment, f.auth);
    FjallState(db.(audit := f.db.audit[Key(f.auditLen) := Row(e)], checkpoint := cell),
               f.auditLen + 1, e.entryHash, f.auth, commitment)
  }

  ghost function AppendAudit(c: Crypto, f: FjallState, id: Text, requester: Text, action: AuditAction,
          now: u64): (FjallState, Outcome<()>)
  {
    var current := EnsureCurrent(c, f);
    if current.Failure? then (f, current)
    else if f.auditLen + 1 >= U64_LIMIT then (f, Failure(SaveFailed))
    else (Committed(c, f, f.db, NewEntry(c, id, requester, action, now, f.auditTail), f.commitment), Success(()))
  }

  ghost function FjallWrite(c: Crypto, f: FjallState, r: Record, now: u64): (FjallState, Outcome<()>) {
    var current := EnsureCurrent(c, f);
    if Validate(r).Failure? then (f, Validate(r))
    else if current.Failure? then (f, current)
    else if f.db.TierOf(r.id).Some? then (f, Failure(AlreadyExists))
    else if f.auditLen + 1 >= U64_LIMIT then (f, Failure(SaveFailed))
    else
      var records := ReadTiers(f.db);
      if records.Failure? then (f, Failure(records.error))
      else
        var db := f.db.With(r.tier, f.db.At(r.tier)[r.id := RecordRow(r)]);
        var commitment := MapCommitment(c, StampsOf(records.value)[r.id := r.createdAt]);
        (Committed(c, f, db, NewEntry(c, r.id, r.ownerId, Write, now, f.auditTail), commitment), Success(()))
  }

  function Decode(cell: RecordCell): Outcome<Record> {
    if cell.BadRecord? then Failure(LoadFailed) else IntoValidated(cell.persisted)
  }

  ghost function FjallRead(c: Crypto, f: FjallState, id: Text, requester: Text,
          now: u64): (FjallState, Outcome<Record>)
  {
    var current := EnsureCurrent(c, f);
    if current.Failure? then (f, Failure(current.error))
    else
      var tier := f.db.TierOf(id);
      if tier.None? then (f, Failure(NotFound))
      else
        var record := Decode(f.db.At(tier.value)[id]);
        if record.Failure? then (f, record)
        else if IsReadableBy(record.value, requester) then
          var (g, r) := AppendAudit(c, f, id, requester, ReadGranted, now);
          (g, if r.Failure? then Failure(r.error) else record)
        else
          var (g, r) := AppendAudit(c, f, id, requester, ReadDenied, now);
          (g, Failure(if r.Failure? then r.error else AccessDenied))
  }

  /** The records of one owner among rows, or the error of the first row that does not decode. */
  function OwnedIn(rows: seq<Keyed<RecordCell>>, owner: Text): Outcome<seq<Record>> {
    if rows == [] then Success([])
    else
      var record := Decode(rows[0].value);
      if record.Failure? then Failure(record.error)
      else
        var rest := OwnedIn(rows[1..], owner);
        if rest.Failure? || record.value.ownerId != owner then rest else Success([record.value] + rest.value)
  }

  /** The three keyspaces in turn, each in key order, up to the first error. */
  ghost function FjallList(c: Crypto, f: FjallState, owner: Text): Outcome<seq<Record>> {
    var current := EnsureCurrent(c, f);
    if current.Failure? then Failure(current.error)
    else OwnedIn(KeyRows(f.db.critical) + KeyRows(f.db.personal) + KeyRows(f.db.noise), owner)
  }

  ghost function FjallDelete(c: Crypto, f: FjallState, id: Text, requester: Text, now: u64): (FjallState, Outcome<()>) {
    var current := EnsureCurrent(c, f);
    if current.Failure? then (f, current)
    else
      var tier := f.db.TierOf(id);
      if tier.None? then (f, Failure(NotFound))
      else
        var record := Decode(f.db.At(tier.value)[id]);
        if record.Failure? then (f, Failure(record.error))
        else if record.value.ownerId != requester then (f, Failure(AccessDenied))
        else if f.auditLen + 1 >= U64_LIMIT then (f, Failure(SaveFailed))
        else
          var records := ReadTiers(f.db);
          if records.Failure? then (f, Failure(records.error))
          else
            var db := f.db.With(tier.value, f.db.At(tier.value) - {id});
            var commitment := MapCommitment(c, StampsOf(records.value) - {id});
            (Committed(c, f, db, NewEntry(c, id, requester, Delete, now, f.auditTail), commitment), Success(()))
  }

  /** Open a database; an empty one gets its first checkpoint in one batch. */
  ghost function FjallOpen(c: Crypto, db: FjallDb, secret: Option<Text>, salt: Hash): Outcome<FjallState> {
    var audit := ReadAudit(c, db.audit);
    if audit.Failure? then Failure(audit.error)
    else
      var records := ReadTiers(db);
      if records.Failure? then Failure(records.error)
      else if |audit.value| >= U64_LIMIT then Failure(AuditChainBroken)
      else
        var commitment := MapCommitment(c, StampsOf(records.value));
        var seen := Observed(audit.value == [], records.value == map[], |audit.value|, Head(audit.value), commitment);
        var verdict := Authorise(c, db.checkpoint, seen, secret, salt);
        if verdict.Failure? then Failure(verdict.error)
        else
          var cell := if verdict.value.0.Genesis? then CellFor(c, 0, ZeroHash(), commitment, verdict.value.1)
            else db.checkpoint;
          Success(FjallState(db.(checkpoint := cell), |audit.value|, Head(audit.value), verdict.value.1, commitment))
  }

  /** What an operation of either backend answers. */
  datatype Reply = Done(outcome: Outcome<()>) | Got(record: Outcome<Record>) {
    predicate Accepted() {
      if Done? then outcome.Success? else record.Success?
    }
  }

  ghost function FjallApply(c: Crypto, f: FjallState, op: StoreOp): (FjallState, Reply) {
    match op
    case OpWrite(r, now) => var (g, a) := FjallWrite(c, f, r, now); (g, Done(a))
    case OpRead(id, requester, now) => var (g, a) := FjallRead(c, f, id, requester, now); (g, Got(a))
    case OpDelete(id, requester, now) => var (g, a) := FjallDelete(c, f, id, requester, now); (g, Done(a))
  }

  function StoreReply(c: Crypto, s: StoreState, op: StoreOp): Reply {
    match op
    case OpWrite(r, now) => Done(WriteStep(c, s, r, now).1)
    case OpRead(id, requester, now) => Got(ReadStep(c, s, id, requester, now).1)
    case OpDelete(id, requester, now) => Done(DeleteStep(c, s, id, requester, now).1)
  }
}
