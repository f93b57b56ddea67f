/**
 The command executor over one Redb file, as a value: memory, disk, and what
 each statement does to both.
 */
module ExecutorSpec {
  import opened Base
  import opened Bytes
  import opened Crypto
  import opened Checkpoint
  import opened Envelope
  import opened Records
  import opened StoreSpec
  import opened RedbSpec
  import opened Protocol
  import opened Lineage

  /** Whoever the executor acts for, and the secret its backend was opened with. */
  datatype Session = Session(ownerId: Text, password: Text, secret: Option<Text>)

  /** Memory and disk. */
  datatype ExecState = ExecState(store: StoreState, file: Option<RedbDisk>)

  datatype Found = Found(tier: DataTier, payload: seq<byte>)

  /** Clock readings, nonces and salts are what the environment supplies. */
  datatype Statement =
    | Write(id: Text, tier: DataTier, payload: seq<byte>, recordSalt: Hash,
      nonce: Nonce, createdAt: u64, now: u64, salt: Hash)
    | Read(id: Text, now: u64, salt: Hash)
    | Delete(id: Text, now: u64, salt: Hash)

  datatype Answer = Done(outcome: Outcome<()>) | Got(found: Outcome<Found>)

  function DeriveKey(c: Crypto, password: Text, salt: Hash): Outcome<Hash> {
    match c.argon2(password, salt)
    case None => Failure(KeyDerivationFailed)
    case Some(key) => Success(key)
  }

  /** `Record::new`: encryption comes first, identity is checked after it. */
  function NewRecord(c: Crypto, id: Text, tier: DataTier, ownerId: Text, data: seq<byte>, key: Hash, salt: Hash,
          nonce: Nonce, createdAt: u64): Outcome<Record>
  {
    var payload := EncryptPayload(c, data, key, id, tier, nonce);
    if payload.Failure? then Failure(payload.error)
    else
      var r := Record(id, tier, ownerId, payload.value, salt, createdAt);
      if Validate(r).Failure? then Failure(Validate(r).error) else Success(r)
  }

  /** The record a write statement would store. */
  function RecordFor(c: Crypto, who: Session, id: Text, tier: DataTier, payload: seq<byte>, recordSalt: Hash,
          nonce: Nonce, createdAt: u64): Outcome<Record>
  {
    var key := DeriveKey(c, who.password, recordSalt);
    if key.Failure? then Failure(key.error)
    else NewRecord(c, id, tier, who.ownerId, payload, key.value, recordSalt, nonce, createdAt)
  }

  ghost function SaveMemory(c: Crypto, who: Session, e: ExecState, salt: Hash): (ExecState, Outcome<()>) {
    var (r, file) := SaveSpec(c, e.store, e.file, who.secret, salt);
    (e.(file := file), r)
  }

  ghost function ExecWrite(c: Crypto, who: Session, e: ExecState, record: Outcome<Record>, now: u64,
          salt: Hash): (ExecState, Outcome<()>)
  {
    if record.Failure? then (e, Failure(record.error))
    else
      var (store, written) := WriteStep(c, e.store, record.value, now);
      if written.Failure? then (e.(store := store), written)
      else SaveMemory(c, who, e.(store := store), salt)
  }

  function Decrypted(c: Crypto, who: Session, id: Text, r: Record): Outcome<Found> {
    var key := DeriveKey(c, who.password, r.salt);
    if key.Failure? then Failure(key.error)
    else
      var data := DecryptPayload(c, r.payload, key.value, id, r.tier);
      if data.Failure? then Failure(data.error)
      else if !Utf8(data.value) then Failure(DecryptionFailed)
      else Success(Found(r.tier, data.value))
  }

  /** The audit entry of a read is saved before the read may fail. */
  ghost function ExecRead(c: Crypto, who: Session, e: ExecState, id: Text, now: u64,
          salt: Hash): (ExecState, Outcome<Found>)
  {
    var (store, read) := ReadStep(c, e.store, id, who.ownerId, now);
    var (after, saved) := SaveMemory(c, who, e.(store := store), salt);
    if saved.Failure? then (after, Failure(saved.error))
    else if read.Failure? then (after, Failure(read.error))
    else (after, Decrypted(c, who, id, read.value))
  }

  ghost function ExecDelete(c: Crypto, who: Session, e: ExecState, id: Text, now: u64,
          salt: Hash): (ExecState, Outcome<()>)
  {
    var (store, deleted) := DeleteStep(c, e.store, id, who.ownerId, now);
    if deleted.Failure? then (e.(store := store), deleted)
    else SaveMemory(c, who, e.(store := store), salt)
  }

  ghost function Execute(c: Crypto, who: Session, e: ExecState, s: Statement): (ExecState, Answer) {
    match s
    case Write(id, tier, payload, recordSalt, nonce, createdAt, now, salt) =>
      var (after, r) := ExecWrite(c, who, e,
        RecordFor(c, who, id, tier, payload, recordSalt, nonce, createdAt), now, salt);
      (after, Done(r))
    case Read(id, now, salt) => var (after, r) := ExecRead(c, who, e, id, now, salt); (after, Got(r))
    case Delete(id, now, salt) => var (after, r) := ExecDelete(c, who, e, id, now, salt); (after, Done(r))
  }

  /** `RedbBackend::open`: load the file if it exists, else save a new store. */
  ghost function OpenFile(c: Crypto, file: Option<RedbDisk>, secret: Option<Text>,
          salt: Hash): (Outcome<StoreState>, Option<RedbDisk>)
  {
    if file.Some? then LoadSpec(c, file, secret, salt)
    else
      var (r, created) := SaveSpec(c, EMPTY, file, secret, salt);
      (if r.Success? then Success(EMPTY) else Failure(r.error), created)
  }

  // ---- Disk and memory ---------------------------------------------------

  /** The disk holds exactly what memory holds, under this session's mode. */
  ghost predicate Synced(c: Crypto, who: Session, e: ExecState) {
    InSync(c, e.file, e.store, who.secret)
  }

  /** The operation a statement runs, if it gets that far. */
  function OperationOf(c: Crypto, who: Session, s: Statement): Option<StoreOp> {
    match s
    case Write(id, tier, payload, recordSalt, nonce, createdAt, now, _) =>
      var record := RecordFor(c, who, id, tier, payload, recordSalt, nonce, createdAt);
      if record.Success? then Some(OpWrite(record.value, now)) else None
    case Read(id, now, _) => Some(OpRead(id, who.ownerId, now))
    case Delete(id, now, _) => Some(OpDelete(id, who.ownerId, now))
  }

  ghost function MemoryAfter(c: Crypto, who: Session, store: StoreState, s: Statement): StoreState {
    match OperationOf(c, who, s)
    case None => store
    case Some(op) => Apply(c, store, op)
  }

  /** A statement runs its operation, and then it saved or changed nothing. */
  lemma ExecuteMemory(c: Crypto, who: Session, e: ExecState, s: Statement)
    ensures var after := Execute(c, who, e, s).0;
      after.store == MemoryAfter(c, who, e.store, s)
      && (after == e
          || (OperationOf(c, who, s).Some? && after == SaveMemory(c, who, e.(store := after.store), s.salt).0))
  {
    hide SaveSpec, RecordFor, Appended, Validate, Decrypted;
  }

  lemma SyncedSave(c: Crypto, who: Session, e: ExecState, op: StoreOp, salt: Hash)
    requires Synced(c, who, e) && |e.store.log| + 1 < U64_LIMIT
    ensures var (after, r) := SaveMemory(c, who, e.(store := Apply(c, e.store, op)), salt);
      && (r.Success? <==> (who.secret.Some? ==> NoZeroStamp(e.store.records)))
      && (r.Success? ==> Synced(c, who, after))
      && (r.Failure? ==> OnDisk(c, after.file) == e.store && after.file == e.file)
  {
    hide SaveSpec, OnDisk, FileInv, MayOpen, StoreInv, Apply, NoZeroStamp;
    OperateThenSave(c, e.store, e.file, op, who.secret, salt);
    StepKeepsInv(c, e.store, op);
    SaveOn(c, Apply(c, e.store, op), e.file, who.secret, salt);
  }

  lemma SyncedFile(c: Crypto, who: Session, e: ExecState)
    requires Synced(c, who, e)
    ensures OnDisk(c, e.file) == e.store
  {
    hide OnDisk, FileInv, MayOpen, StoreInv;
  }

  /**
   After every statement, answered or refused, the disk holds what memory holds.
   The exact exception: in authenticated mode, with a zero stamp already stored,
   a statement that changes memory cannot save it.
   */
  lemma StatementKeepsSync(c: Crypto, who: Session, e: ExecState, s: Statement)
    requires Synced(c, who, e) && |e.store.log| + 1 < U64_LIMIT
    ensures var after := Execute(c, who, e, s).0;
      Synced(c, who, after) <==> who.secret.None? || NoZeroStamp(e.store.records) || after.store == e.store
  {
    hide Synced, Execute, SaveMemory, Apply, NoZeroStamp, OnDisk, OperationOf;
    ExecuteMemory(c, who, e, s);
    var after := Execute(c, who, e, s).0;
    var op := OperationOf(c, who, s);
    if op.Some? && after == SaveMemory(c, who, e.(store := after.store), s.salt).0 {
      SyncedSave(c, who, e, op.value, s.salt);
      SavedStore(c, who, e.(store := after.store), s.salt);
      if Synced(c, who, after) {
        SyncedFile(c, who, after);
      }
    }
  }

  lemma SavedStore(c: Crypto, who: Session, e: ExecState, salt: Hash)
    ensures SaveMemory(c, who, e, salt).0 == e.(file := SaveMemory(c, who, e, salt).0.file)
  {
  }

  // ---- Runs --------------------------------------------------------------

  ghost function ExecuteAll(c: Crypto, who: Session, e: ExecState, run: seq<Statement>): ExecState
    decreases |run|
  {
    if run == [] then e else Execute(c, who, ExecuteAll(c, who, e, run[..|run| - 1]), run[|run| - 1]).0
  }

  predicate ClockSet(run: seq<Statement>) {
    forall i | 0 <= i < |run| && run[i].Write? :: run[i].createdAt != 0
  }

  lemma StatementMemory(c: Crypto, who: Session, store: StoreState, s: Statement)
    requires StoreInv(c, store) && NoZeroStamp(store.records) && (s.Write? ==> s.createdAt != 0)
    ensures NoZeroStamp(MemoryAfter(c, who, store, s).records)
    ensures |MemoryAfter(c, who, store, s).log| <= |store.log| + 1
  {
    hide StoreInv, Apply, EncryptPayload, Validate;
    var op := OperationOf(c, who, s);
    if op.Some? {
      StampsKept(c, store, op.value);
      StepLength(c, store, op.value);
    }
  }

  lemma StampsKept(c: Crypto, s: StoreState, op: StoreOp)
    requires NoZeroStamp(s.records) && (op.OpWrite? ==> op.record.createdAt != 0)
    ensures NoZeroStamp(Apply(c, s, op).records)
  {
    hide Validate, Appended;
  }

  lemma SyncedInv(c: Crypto, who: Session, e: ExecState)
    requires Synced(c, who, e)
    ensures StoreInv(c, e.store) && FileInv(c, e.file)
  {
    hide OnDisk, FileInv, MayOpen, StoreInv;
  }

  /**
   With a set clock, disk and memory agree after every statement of every run,
   and an executor opened on the file in that mode finds the same memory.
   */
  lemma {:induction false} RunKeepsSync(c: Crypto, who: Session, e: ExecState, run: seq<Statement>)
    requires Synced(c, who, e) && NoZeroStamp(e.store.records) && ClockSet(run)
    requires |e.store.log| + |run| < U64_LIMIT
    ensures var after := ExecuteAll(c, who, e, run);
      Synced(c, who, after) && NoZeroStamp(after.store.records) && |after.store.log| <= |e.store.log| + |run|
    decreases |run|
  {
    hide Synced, Execute, NoZeroStamp, StoreInv, MemoryAfter, FileInv;
    if run != [] {
      var n := |run| - 1;
      RunKeepsSync(c, who, e, run[..n]);
      var v := ExecuteAll(c, who, e, run[..n]);
      SyncedInv(c, who, v);
      StatementMemory(c, who, v.store, run[n]);
      StatementKeepsSync(c, who, v, run[n]);
      ExecuteMemory(c, who, v, run[n]);
    }
  }

  lemma ReopenFinds(c: Crypto, who: Session, e: ExecState, salt: Hash)
    requires Synced(c, who, e)
    ensures OpenFile(c, e.file, who.secret, salt).1 == e.file
    ensures NoZeroStamp(e.store.records) ==> OpenFile(c, e.file, who.secret, salt).0 == Success(e.store)
    ensures OpenFile(c, e.file, who.secret, salt).0.Success? <==> NoZeroStamp(e.store.records)
  {
    hide OnDisk, FileInv, StoreInv, LoadSpec, NoZeroStamp, MayOpen, Holds;
    HeldByFile(c, e.file);
    LoadOn(c, e.file.value, e.store, who.secret, salt);
    SaltUnused(c, CellOf(e.file), e.store, who.secret, ZeroHash(), salt);
    LoadedUnchanged(c, e.file.value, e.store, who.secret, salt);
  }

  lemma LoadedUnchanged(c: Crypto, disk: RedbDisk, s: StoreState, secret: Option<Text>, salt: Hash)
    requires |s.log| < U64_LIMIT && disk.checkpoint != Absent
    ensures disk.(checkpoint := LoadedCell(c, disk.checkpoint, s, secret, salt)) == disk
  {
  }

  /** Opening a file that is not there creates one in sync with the new store. */
  lemma CreateSyncs(c: Crypto, who: Session, salt: Hash)
    requires OpenFile(c, None, who.secret, salt).0.Success?
    ensures Synced(c, who, ExecState(EMPTY, OpenFile(c, None, who.secret, salt).1))
  {
    hide SaveSpec, StoreInv, InSync;
    EmptyInv(c);
    SaveSyncs(c, EMPTY, None, who.secret, salt);
  }

  // ---- What was written is read ------------------------------------------

  lemma RecordDecrypts(c: Crypto, who: Session, id: Text, tier: DataTier, payload: seq<byte>, recordSalt: Hash,
          nonce: Nonce, createdAt: u64)
    requires AeadLaw(c) && Utf8(payload)
    requires RecordFor(c, who, id, tier, payload, recordSalt, nonce, createdAt).Success?
    ensures Decrypted(c, who, id, RecordFor(c, who, id, tier, payload, recordSalt, nonce, createdAt).value)
      == Success(Found(tier, payload))
  {
    hide EncryptPayload, DecryptPayload, Utf8, AeadLaw;
    EncryptionRoundTrip(c, payload, DeriveKey(c, who.password, recordSalt).value, id, tier, nonce);
  }

  lemma StatementKeepsRecord(c: Crypto, who: Session, store: StoreState, s: Statement, id: Text)
    requires id in store.records && !(s.Delete? && s.id == id)
    ensures var after := MemoryAfter(c, who, store, s);
      id in after.records && after.records[id] == store.records[id]
  {
    hide Validate, Appended, EncryptPayload;
  }

  lemma {:induction false} RunKeepsRecord(c: Crypto, who: Session, e: ExecState, run: seq<Statement>, id: Text)
    requires id in e.store.records
    requires forall i | 0 <= i < |run| :: !(run[i].Delete? && run[i].id == id)
    ensures var after := ExecuteAll(c, who, e, run).store;
      id in after.records && after.records[id] == e.store.records[id]
    decreases |run|
  {
    hide Execute, MemoryAfter;
    if run != [] {
      var n := |run| - 1;
      RunKeepsRecord(c, who, e, run[..n], id);
      var v := ExecuteAll(c, who, e, run[..n]);
      ExecuteMemory(c, who, v, run[n]);
      StatementKeepsRecord(c, who, v.store, run[n], id);
    }
  }

  /**
   A written payload is read back, whatever statements came between that did not
   delete it, and whether or not the executor was closed and reopened before.
   */
  lemma WrittenIsRead(c: Crypto, who: Session, e: ExecState, w: Statement, run: seq<Statement>, now: u64, salt: Hash)
    requires AeadLaw(c) && Synced(c, who, e) && NoZeroStamp(e.store.records)
    requires w.Write? && w.createdAt != 0 && Utf8(w.payload) && Execute(c, who, e, w).1.outcome.Success?
    requires ClockSet(run) && |e.store.log| + |run| + 2 < U64_LIMIT
    requires forall i | 0 <= i < |run| :: !(run[i].Delete? && run[i].id == w.id)
    ensures var after := ExecuteAll(c, who, Execute(c, who, e, w).0, run);
      && OpenFile(c, after.file, who.secret, salt) == (Success(after.store), after.file)
      && ExecRead(c, who, after, w.id, now, salt).1 == Success(Found(w.tier, w.payload))
  {
    hide Synced, NoZeroStamp, Utf8, AeadLaw, Execute, Decrypted, OpenFile, ExecuteAll;
    var first := Execute(c, who, e, w).0;
    var after := ExecuteAll(c, who, first, run);
    WriteStores(c, who, e, w);
    RunKeepsRecord(c, who, first, run, w.id);
    FirstSynced(c, who, e, w);
    RunKeepsSync(c, who, first, run);
    ReopenFinds(c, who, after, salt);
    RecordDecrypts(c, who, w.id, w.tier, w.payload, w.recordSalt, w.nonce, w.createdAt);
    OwnerReads(c, who, after, w.id, now, salt);
  }

  lemma WriteStores(c: Crypto, who: Session, e: ExecState, w: Statement)
    requires w.Write? && Execute(c, who, e, w).1.outcome.Success?
    ensures var record := RecordFor(c, who, w.id, w.tier, w.payload, w.recordSalt, w.nonce, w.createdAt);
      var records := Execute(c, who, e, w).0.store.records;
      && record.Success? && record.value.id == w.id && record.value.ownerId == who.ownerId
      && w.id in records && records[w.id] == record.value
  {
    hide SaveSpec, Validate, Appended, EncryptPayload;
  }

  lemma FirstSynced(c: Crypto, who: Session, e: ExecState, w: Statement)
    requires Synced(c, who, e) && NoZeroStamp(e.store.records) && w.Write? && w.createdAt != 0
    requires |e.store.log| + 1 < U64_LIMIT
    ensures var first := Execute(c, who, e, w).0;
      Synced(c, who, first) && NoZeroStamp(first.store.records) && |first.store.log| <= |e.store.log| + 1
  {
    hide ExecuteAll, Synced, Execute, NoZeroStamp;
    RunKeepsSync(c, who, e, [w]);
    RunOne(c, who, e, w);
  }

  lemma RunOne(c: Crypto, who: Session, e: ExecState, w: Statement)
    ensures ExecuteAll(c, who, e, [w]) == Execute(c, who, e, w).0
  {
    hide Execute;
    assert [w][..0] == [];
    assert ExecuteAll(c, who, e, []) == e;
  }

  /** The owner's read in sync is saved, and answers with the decrypted record. */
  lemma OwnerReads(c: Crypto, who: Session, e: ExecState, id: Text, now: u64, salt: Hash)
    requires Synced(c, who, e) && NoZeroStamp(e.store.records) && |e.store.log| + 1 < U64_LIMIT
    requires id in e.store.records && e.store.records[id].ownerId == who.ownerId
    ensures ExecRead(c, who, e, id, now, salt).1 == Decrypted(c, who, id, e.store.records[id])
  {
    hide Synced, NoZeroStamp, SaveMemory, Decrypted, Appended;
    SyncedSave(c, who, e, OpRead(id, who.ownerId, now), salt);
  }

  // ---- What is sealed and what is opened ---------------------------------

  /** The key the password gives under the record's salt opens the stored payload for this id and tier. */
  predicate Decrypts(c: Crypto, password: Text, r: Record) {
    var key := c.argon2(password, r.salt);
    key.Some? && c.unseal(key.value, r.payload[5..17], Aad(r.id, r.tier), r.payload[17..]).Some?
  }

  function DecryptError(c: Crypto, password: Text, r: Record): EdisonError {
    if c.argon2(password, r.salt).None? then KeyDerivationFailed else DecryptionFailed
  }

  /** What the owner of the password gets of a record: its tier and the opened text, or nothing. */
  lemma DecryptedExactly(c: Crypto, who: Session, r: Record)
    ensures Decrypted(c, who, r.id, r) ==
      if !Decrypts(c, who.password, r) then Failure(DecryptError(c, who.password, r))
      else
        var key := c.argon2(who.password, r.salt).value;
        var data := c.unseal(key, r.payload[5..17], Aad(r.id, r.tier), r.payload[17..]);
        if Utf8(data.value) then Success(Found(r.tier, data.value)) else Failure(DecryptionFailed)
  {
    hide Aad, Utf8;
  }

  /** The record a write statement stores, field by field, or what stopped it. */
  lemma RecordExactly(c: Crypto, who: Session, id: Text, tier: DataTier, payload: seq<byte>, recordSalt: Hash,
          nonce: Nonce, createdAt: u64)
    ensures RecordFor(c, who, id, tier, payload, recordSalt, nonce, createdAt) ==
      var key := c.argon2(who.password, recordSalt);
      if key.None? then Failure(KeyDerivationFailed)
      else
        var sealed := c.seal(key.value, nonce, Aad(id, tier), payload);
        if sealed.None? then Failure(EncryptionFailed)
        else if |sealed.value| < 16 then Failure(InvalidEncryptedPayload)
        else if who.ownerId == [] then Failure(NoOwner)
        else if id == [] then Failure(EmptyRecordId)
        else
          assert ValidateBytes([69, 68, 66, 49, 1] + nonce + sealed.value).Success? by {
            PackedValid(nonce, sealed.value);
          }
          Success(Record(id, tier, who.ownerId, [69, 68, 66, 49, 1] + nonce + sealed.value, recordSalt, createdAt))
  {
    hide Aad, ValidateBytes;
    var key := c.argon2(who.password, recordSalt);
    if key.Some? {
      var sealed := c.seal(key.value, nonce, Aad(id, tier), payload);
      if sealed.Some? {
        PackedParts(nonce, sealed.value);
      }
    }
  }

  lemma PackedValid(nonce: Nonce, sealed: seq<byte>)
    requires |sealed| >= 16
    ensures ValidateBytes([69, 68, 66, 49, 1] + nonce + sealed).Success?
  {
    PackedParts(nonce, sealed);
  }

  lemma PackedParts(nonce: Nonce, sealed: seq<byte>)
    ensures FromCiphertextParts(nonce, sealed).Success? <==> |sealed| >= 16
    ensures |sealed| < 16 ==> FromCiphertextParts(nonce, sealed) == Failure(InvalidEncryptedPayload)
    ensures |sealed| >= 16 ==> FromCiphertextParts(nonce, sealed).value == [69, 68, 66, 49, 1] + nonce + sealed
  {
    PartsRoundTrip(nonce, sealed);
  }

  /**
   What a read statement answers: a failed save first, then whether the record is
   there and may be read, then whether it opens.
   */
  lemma ReadAnswers(c: Crypto, who: Session, e: ExecState, id: Text, now: u64, salt: Hash)
    requires WellKeyed(e.store.records)
    ensures var saved := SaveSpec(c, Apply(c, e.store, OpRead(id, who.ownerId, now)), e.file, who.secret, salt);
      ExecRead(c, who, e, id, now, salt)
        == (ExecState(Apply(c, e.store, OpRead(id, who.ownerId, now)), saved.1),
            if saved.0.Failure? then Failure(saved.0.error)
            else if id !in e.store.records then Failure(NotFound)
            else if who.ownerId != e.store.records[id].ownerId && e.store.records[id].tier != Noise then
              Failure(AccessDenied)
            else Decrypted(c, who, id, e.store.records[id]))
  {
    hide SaveSpec, Decrypted, Appended, Validate;
  }

  /** What a write statement answers: a record that could not be made first, then a known id, then the save. */
  lemma WriteAnswers(c: Crypto, who: Session, e: ExecState, record: Outcome<Record>, now: u64, salt: Hash)
    requires record.Success? ==> record.value.id != [] && record.value.ownerId != []
    ensures ExecWrite(c, who, e, record, now, salt) ==
      if record.Failure? then (e, Failure(record.error))
      else if record.value.id in e.store.records then (e, Failure(AlreadyExists))
      else
        var store := Apply(c, e.store, OpWrite(record.value, now));
        var saved := SaveSpec(c, store, e.file, who.secret, salt);
        (ExecState(store, saved.1), saved.0)
  {
    hide SaveSpec, Appended;
  }

  /** What a delete statement answers: an unknown id or another owner first, then the save. */
  lemma DeleteAnswers(c: Crypto, who: Session, e: ExecState, id: Text, now: u64, salt: Hash)
    ensures ExecDelete(c, who, e, id, now, salt) ==
      if id !in e.store.records then (e, Failure(NotFound))
      else if who.ownerId != e.store.records[id].ownerId then (e, Failure(AccessDenied))
      else
        var store := Apply(c, e.store, OpDelete(id, who.ownerId, now));
        var saved := SaveSpec(c, store, e.file, who.secret, salt);
        (ExecState(store, saved.1), saved.0)
  {
    hide SaveSpec, Appended;
  }
}
