/**
 The Fjall backend refines the in-memory store.

 Three keyspaces stand for one record map and the cached fields stand for the
 log. The lemmas are about every run, records with a zero stamp included.
 */
module FjallRefinement {
  import opened Base
  import opened Bytes
  import opened Crypto
  import opened Audit
  import opened AuditKeys
  import opened AuditTable
  import opened Commitment
  import opened Checkpoint
  import opened Envelope
  import opened Records
  import opened RecordTable
  import opened StoreSpec
  import opened FjallSpec
  import Protocol

  // ---- The abstraction ---------------------------------------------------

  function InTier(records: RecordMap, tier: DataTier): RecordMap {
    map id | id in records && records[id].tier == tier :: records[id]
  }

  /** Each record lies in the keyspace of its tier, and nowhere else. */
  ghost predicate TiersHold(db: FjallDb, records: RecordMap) {
    forall tier :: db.At(tier) == EncodeRecords(InTier(records, tier))
  }

  /** The backend stands for the store `s`. */
  ghost predicate Refines(c: Crypto, f: FjallState, s: StoreState) {
    && StoreInv(c, s) && |s.log| < U64_LIMIT
    && TiersHold(f.db, s.records) && f.db.audit == EncodeAudit(s.log)
    && f.auditLen == |s.log| && f.auditTail == Head(s.log)
    && f.commitment == MapCommitment(c, StampsOf(s.records))
    && f.db.checkpoint == CellFor(c, f.auditLen, f.auditTail, f.commitment, f.auth)
  }

  // ---- The keyspaces -----------------------------------------------------

  /** The search order is irrelevant: an id is in the keyspace of its record. */
  lemma TierOfRecord(db: FjallDb, records: RecordMap, id: Text)
    requires TiersHold(db, records)
    ensures db.TierOf(id) == if id in records then Some(records[id].tier) else None
    ensures id in records ==> id in db.At(records[id].tier) && db.At(records[id].tier)[id] == RecordRow(records[id])
    ensures forall tier | id in db.At(tier) :: id in records && records[id].tier == tier
  {
    assert db.critical == db.At(Critical) && db.personal == db.At(Personal) && db.noise == db.At(Noise);
    if id in records {
      assert id in EncodeRecords(InTier(records, records[id].tier));
    }
  }

  lemma TableInsert(records: RecordMap, r: Record, tier: DataTier)
    requires r.id !in records
    ensures EncodeRecords(InTier(records[r.id := r], tier))
         == if tier == r.tier then EncodeRecords(InTier(records, tier))[r.id := RecordRow(r)]
            else EncodeRecords(InTier(records, tier))
  {
  }

  lemma TableRemove(records: RecordMap, id: Text, tier: DataTier)
    requires id in records
    ensures EncodeRecords(InTier(records - {id}, tier))
         == if tier == records[id].tier then EncodeRecords(InTier(records, tier)) - {id}
            else EncodeRecords(InTier(records, tier))
  {
  }

  lemma WithAt(db: FjallDb, home: DataTier, cells: CellMap, tier: DataTier)
    ensures db.With(home, cells).At(tier) == if tier == home then cells else db.At(tier)
  {
  }

  lemma TiersInsert(db: FjallDb, records: RecordMap, r: Record)
    requires TiersHold(db, records) && r.id !in records
    ensures TiersHold(db.With(r.tier, db.At(r.tier)[r.id := RecordRow(r)]), records[r.id := r])
  {
    hide EncodeRecords, InTier;
    var next := db.With(r.tier, db.At(r.tier)[r.id := RecordRow(r)]);
    forall tier: DataTier
      ensures next.At(tier) == EncodeRecords(InTier(records[r.id := r], tier))
    {
      assert db.At(tier) == EncodeRecords(InTier(records, tier));
      TableInsert(records, r, tier);
      WithAt(db, r.tier, db.At(r.tier)[r.id := RecordRow(r)], tier);
    }
  }

  lemma TiersRemove(db: FjallDb, records: RecordMap, id: Text)
    requires TiersHold(db, records) && id in records
    ensures TiersHold(db.With(records[id].tier, db.At(records[id].tier) - {id}), records - {id})
  {
    hide EncodeRecords, InTier;
    var home := records[id].tier;
    var next := db.With(home, db.At(home) - {id});
    forall tier: DataTier
      ensures next.At(tier) == EncodeRecords(InTier(records - {id}, tier))
    {
      assert db.At(tier) == EncodeRecords(InTier(records, tier));
      TableRemove(records, id, tier);
      WithAt(db, home, db.At(home) - {id}, tier);
    }
  }

  lemma TierReads(db: FjallDb, records: RecordMap, tier: DataTier, taken: set<Text>)
    requires TiersHold(db, records) && WellKeyed(records)
    requires forall id | id in taken && id in records :: records[id].tier != tier
    ensures ReadRecords(OneTier(tier, taken), db.At(tier))
         == if NoZeroStamp(InTier(records, tier)) then Success(InTier(records, tier)) else Failure(InvalidCreatedAt)
  {
    hide ReadRecords, EncodeRecords;
    assert db.At(tier) == EncodeRecords(InTier(records, tier));
    ReadBack(OneTier(tier, taken), InTier(records, tier));
  }

  lemma TierKeys(db: FjallDb, records: RecordMap, tier: DataTier)
    requires TiersHold(db, records)
    ensures db.At(tier).Keys == InTier(records, tier).Keys
  {
    assert db.At(tier) == EncodeRecords(InTier(records, tier));
  }

  /** The three keyspaces read back as the one map, unless a stamp is zero. */
  lemma TiersRead(db: FjallDb, records: RecordMap)
    requires TiersHold(db, records) && WellKeyed(records)
    ensures ReadTiers(db) == if NoZeroStamp(records) then Success(records) else Failure(InvalidCreatedAt)
  {
    hide ReadRecords, TiersHold, EncodeRecords, WellKeyed;
    assert db.critical == db.At(Critical) && db.personal == db.At(Personal) && db.noise == db.At(Noise);
    TierKeys(db, records, Critical);
    TierKeys(db, records, Personal);
    TierReads(db, records, Critical, {});
    TierReads(db, records, Personal, db.critical.Keys);
    TierReads(db, records, Noise, db.critical.Keys + db.personal.Keys);
    TiersUnion(records);
  }

  lemma TiersUnion(records: RecordMap)
    ensures InTier(records, Critical) + InTier(records, Personal) + InTier(records, Noise) == records
    ensures NoZeroStamp(records) <==>
      NoZeroStamp(InTier(records, Critical)) && NoZeroStamp(InTier(records, Personal))
        && NoZeroStamp(InTier(records, Noise))
  {
    if id: Text :| id in records && records[id].createdAt == 0 {
      assert id in InTier(records, records[id].tier);
    }
  }

  /** An authenticated backend checks the commitment before it does anything. */
  lemma EnsureOn(c: Crypto, f: FjallState, s: StoreState)
    requires Refines(c, f, s)
    ensures EnsureCurrent(c, f)
         == if f.auth.Some? && !NoZeroStamp(s.records) then Failure(InvalidCreatedAt) else Success(())
  {
    hide ReadTiers, TiersHold, EncodeAudit, Chain, Lawful, Live, CellFor, MapCommitment;
    TiersRead(f.db, s.records);
  }

  // ---- One operation -----------------------------------------------------

  /** A batch that extends the held log by one entry holds the grown store. */
  lemma CommittedRefines(c: Crypto, f: FjallState, s: StoreState, t: StoreState, db: FjallDb, e: AuditEntry,
          commitment: Hash)
    requires Refines(c, f, s) && StoreInv(c, t) && |s.log| + 1 < U64_LIMIT
    requires t.log == s.log + [e] && TiersHold(db, t.records)
    requires commitment == MapCommitment(c, StampsOf(t.records))
    ensures Refines(c, Committed(c, f, db, e, commitment), t)
  {
    hide StoreInv, Key, EncodeAudit, CellFor, MapCommitment;
    EncodeAuditAppend(s.log, e);
    var g := Committed(c, f, db, e, commitment);
    assert forall tier :: g.db.At(tier) == db.At(tier);
  }

  lemma AppendRefines(c: Crypto, f: FjallState, s: StoreState, t: StoreState, id: Text, requester: Text,
          action: AuditAction, now: u64)
    requires Refines(c, f, s) && StoreInv(c, t) && t == s.(log := Appended(c, s.log, id, requester, action, now))
    ensures var (g, r) := AppendAudit(c, f, id, requester, action, now);
      if f.auth.Some? && !NoZeroStamp(s.records) then r == Failure(InvalidCreatedAt) && g == f
      else if |s.log| + 1 >= U64_LIMIT then r == Failure(SaveFailed) && g == f
      else r.Success? && Refines(c, g, t) && g.auth == f.auth
  {
    hide StoreInv, EnsureCurrent, TiersHold, EncodeAudit, CellFor, MapCommitment, NewEntry;
    EnsureOn(c, f, s);
    if |s.log| + 1 < U64_LIMIT {
      CommittedRefines(c, f, s, t, f.db, NewEntry(c, id, requester, action, now, f.auditTail), f.commitment);
    }
  }

  lemma WriteRefines(c: Crypto, f: FjallState, s: StoreState, r: Record, now: u64)
    requires Refines(c, f, s)
    ensures var (g, a) := FjallWrite(c, f, r, now);
      var (t, b) := WriteStep(c, s, r, now);
      if Validate(r).Failure? then g == f && a == b
      else if f.auth.Some? && !NoZeroStamp(s.records) then g == f && a == Failure(InvalidCreatedAt)
      else if r.id in s.records then g == f && a == b
      else if |s.log| + 1 >= U64_LIMIT then g == f && a == Failure(SaveFailed)
      else if !NoZeroStamp(s.records) then g == f && a == Failure(InvalidCreatedAt)
      else a == b && Refines(c, g, t) && g.auth == f.auth
  {
    hide Chain, Lawful, Live, EnsureCurrent, ReadTiers, TiersHold, EncodeAudit;
    hide CellFor, MapCommitment, NewEntry, Apply, Validate, Committed;
    EnsureOn(c, f, s);
    TierOfRecord(f.db, s.records, r.id);
    TiersRead(f.db, s.records);
    var (g, a) := FjallWrite(c, f, r, now);
    if a.Success? {
      var t := WriteStep(c, s, r, now).0;
      TiersInsert(f.db, s.records, r);
      assert StampsOf(s.records)[r.id := r.createdAt] == StampsOf(t.records);
      WriteKeepsInv(c, s, r, now);
      CommittedRefines(c, f, s, t, f.db.With(r.tier, f.db.At(r.tier)[r.id := RecordRow(r)]),
                       NewEntry(c, r.id, r.ownerId, Write, now, f.auditTail), MapCommitment(c, StampsOf(t.records)));
      CommittedKeepsAuth(c, f);
    }
  }

  lemma CommittedKeepsAuth(c: Crypto, f: FjallState)
    requires f.auditLen + 1 < U64_LIMIT
    ensures forall db, e, h :: Committed(c, f, db, e, h).auth == f.auth
  {
  }

  lemma WriteKeepsInv(c: Crypto, s: StoreState, r: Record, now: u64)
    requires StoreInv(c, s)
    ensures StoreInv(c, WriteStep(c, s, r, now).0)
  {
    hide StoreInv, WriteStep;
    StepKeepsInv(c, s, OpWrite(r, now));
  }

  lemma ReadKeepsInv(c: Crypto, s: StoreState, id: Text, requester: Text, now: u64)
    requires StoreInv(c, s)
    ensures StoreInv(c, ReadStep(c, s, id, requester, now).0)
  {
    hide StoreInv, ReadStep;
    StepKeepsInv(c, s, OpRead(id, requester, now));
  }

  lemma DeleteKeepsInv(c: Crypto, s: StoreState, id: Text, requester: Text, now: u64)
    requires StoreInv(c, s)
    ensures StoreInv(c, DeleteStep(c, s, id, requester, now).0)
  {
    hide StoreInv, DeleteStep;
    StepKeepsInv(c, s, OpDelete(id, requester, now));
  }

  /** A row that lies in the database decodes unless its stamp is zero. */
  lemma DecodeOn(db: FjallDb, records: RecordMap, id: Text)
    requires TiersHold(db, records) && WellKeyed(records) && id in records
    ensures id in db.At(records[id].tier)
    ensures Decode(db.At(records[id].tier)[id])
         == if records[id].createdAt == 0 then Failure(InvalidCreatedAt) else Success(records[id])
  {
    hide TiersHold;
    TierOfRecord(db, records, id);
  }

  lemma ReadRefines(c: Crypto, f: FjallState, s: StoreState, id: Text, requester: Text, now: u64)
    requires Refines(c, f, s)
    ensures var (g, a) := FjallRead(c, f, id, requester, now);
      var (t, b) := ReadStep(c, s, id, requester, now);
      if f.auth.Some? && !NoZeroStamp(s.records) then g == f && a == Failure(InvalidCreatedAt)
      else if id !in s.records then g == f && a == b
      else if s.records[id].createdAt == 0 then g == f && a == Failure(InvalidCreatedAt)
      else if |s.log| + 1 >= U64_LIMIT then g == f && a == Failure(SaveFailed)
      else a == b && Refines(c, g, t) && g.auth == f.auth
  {
    hide Chain, Lawful, Live, EnsureCurrent, TiersHold, EncodeAudit;
    hide CellFor, MapCommitment, NewEntry, AppendAudit, Decode;
    EnsureOn(c, f, s);
    TierOfRecord(f.db, s.records, id);
    if id in s.records {
      DecodeOn(f.db, s.records, id);
      ReadKeepsInv(c, s, id, requester, now);
      var action := if IsReadableBy(s.records[id], requester) then ReadGranted else ReadDenied;
      AppendRefines(c, f, s, ReadStep(c, s, id, requester, now).0, id, requester, action, now);
    }
  }

  lemma DeleteRefines(c: Crypto, f: FjallState, s: StoreState, id: Text, requester: Text, now: u64)
    requires Refines(c, f, s)
    ensures var (g, a) := FjallDelete(c, f, id, requester, now);
      var (t, b) := DeleteStep(c, s, id, requester, now);
      if f.auth.Some? && !NoZeroStamp(s.records) then g == f && a == Failure(InvalidCreatedAt)
      else if id !in s.records then g == f && a == b
      else if s.records[id].createdAt == 0 then g == f && a == Failure(InvalidCreatedAt)
      else if s.records[id].ownerId != requester then g == f && a == b
      else if |s.log| + 1 >= U64_LIMIT then g == f && a == Failure(SaveFailed)
      else if !NoZeroStamp(s.records) then g == f && a == Failure(InvalidCreatedAt)
      else a == b && Refines(c, g, t) && g.auth == f.auth
  {
    hide Chain, Lawful, Live, EnsureCurrent, ReadTiers, TiersHold;
    hide EncodeAudit, CellFor, MapCommitment, NewEntry, Decode, Committed;
    EnsureOn(c, f, s);
    TierOfRecord(f.db, s.records, id);
    TiersRead(f.db, s.records);
    if id in s.records {
      DecodeOn(f.db, s.records, id);
    }
    var (g, a) := FjallDelete(c, f, id, requester, now);
    if a.Success? {
      var t := DeleteStep(c, s, id, requester, now).0;
      var home := s.records[id].tier;
      TiersRemove(f.db, s.records, id);
      assert StampsOf(s.records) - {id} == StampsOf(t.records);
      DeleteKeepsInv(c, s, id, requester, now);
      CommittedRefines(c, f, s, t, f.db.With(home, f.db.At(home) - {id}),
                       NewEntry(c, id, requester, Delete, now, f.auditTail), MapCommitment(c, StampsOf(t.records)));
      CommittedKeepsAuth(c, f);
    }
  }

  /**
   One operation of either kind. With no zero stamp live and room in the log the
   backend answers as the store does and goes on standing for it; in any case
   it stands for the old store or the new one, and an accepted operation is one
   the store accepts.
   */
  lemma OperationRefines(c: Crypto, f: FjallState, s: StoreState, op: StoreOp)
    requires Refines(c, f, s)
    ensures var (g, reply) := FjallApply(c, f, op);
      && g.auth == f.auth
      && (g == f || Refines(c, g, Apply(c, s, op)))
      && (reply.Accepted() ==> reply == StoreReply(c, s, op) && Refines(c, g, Apply(c, s, op)))
      && (NoZeroStamp(s.records) && |s.log| + 1 < U64_LIMIT ==>
            reply == StoreReply(c, s, op) && Refines(c, g, Apply(c, s, op)))
  {
    hide Refines, FjallWrite, FjallRead, FjallDelete, NewEntry, Validate;
    match op
    case OpWrite(r, now) => WriteRefines(c, f, s, r, now);
    case OpRead(id, requester, now) => ReadRefines(c, f, s, id, requester, now);
    case OpDelete(id, requester, now) => DeleteRefines(c, f, s, id, requester, now);
  }

  ghost function FjallRun(c: Crypto, f: FjallState, ops: seq<StoreOp>): FjallState
    decreases |ops|
  {
    if ops == [] then f else FjallApply(c, FjallRun(c, f, ops[..|ops| - 1]), ops[|ops| - 1]).0
  }

  predicate StampedWrites(ops: seq<StoreOp>) {
    forall i | 0 <= i < |ops| && ops[i].OpWrite? :: ops[i].record.createdAt != 0
  }

  lemma StampsStay(c: Crypto, s: StoreState, op: StoreOp)
    requires StoreInv(c, s) && NoZeroStamp(s.records) && (op.OpWrite? ==> op.record.createdAt != 0)
    ensures NoZeroStamp(Apply(c, s, op).records) && |Apply(c, s, op).log| <= |s.log| + 1
  {
    hide StoreInv, NewEntry, Validate;
  }

  /** On every run whose writes carry a nonzero stamp, the backend stands for the store that ran the same operations. */
  lemma {:induction false} RunRefines(c: Crypto, f: FjallState, s: StoreState, ops: seq<StoreOp>)
    requires Refines(c, f, s) && NoZeroStamp(s.records) && StampedWrites(ops)
    requires |s.log| + |ops| < U64_LIMIT
    ensures Refines(c, FjallRun(c, f, ops), Run(c, s, ops)) && NoZeroStamp(Run(c, s, ops).records)
    ensures |Run(c, s, ops).log| <= |s.log| + |ops|
    decreases |ops|
  {
    hide Refines, Apply, FjallApply, StoreReply, NoZeroStamp;
    if ops != [] {
      var n := |ops| - 1;
      RunRefines(c, f, s, ops[..n]);
      var g, t := FjallRun(c, f, ops[..n]), Run(c, s, ops[..n]);
      Standing(c, g, t);
      OperationRefines(c, g, t, ops[n]);
      StampsStay(c, t, ops[n]);
    }
  }

  /** And each operation of the run is answered as the store answers it: same results, same errors. */
  lemma RunAnswers(c: Crypto, f: FjallState, s: StoreState, ops: seq<StoreOp>, k: nat)
    requires Refines(c, f, s) && NoZeroStamp(s.records) && StampedWrites(ops)
    requires |s.log| + |ops| < U64_LIMIT && k < |ops|
    ensures FjallApply(c, FjallRun(c, f, ops[..k]), ops[k]).1 == StoreReply(c, Run(c, s, ops[..k]), ops[k])
  {
    hide Refines, FjallApply, StoreReply, NoZeroStamp, FjallRun, Run;
    RunRefines(c, f, s, ops[..k]);
    OperationRefines(c, FjallRun(c, f, ops[..k]), Run(c, s, ops[..k]), ops[k]);
  }

  lemma Standing(c: Crypto, f: FjallState, s: StoreState)
    requires Refines(c, f, s)
    ensures StoreInv(c, s) && |s.log| < U64_LIMIT
  {
    hide StoreInv;
  }

  // ---- Reopening ---------------------------------------------------------

  /** The database holds exactly the store `s`. */
  ghost predicate DbHolds(c: Crypto, db: FjallDb, s: StoreState) {
    && StoreInv(c, s) && |s.log| < U64_LIMIT
    && TiersHold(db, s.records) && db.audit == EncodeAudit(s.log)
    && Protocol.AnchoredCell(c, db.checkpoint, s)
  }

  lemma RefinesHolds(c: Crypto, f: FjallState, s: StoreState)
    requires Refines(c, f, s)
    ensures DbHolds(c, f.db, s)
  {
    hide StoreInv, TiersHold, EncodeAudit, MapCommitment, MacInput;
    Protocol.CellIsPresent(c, f.auditLen, f.auditTail, f.commitment, f.auth);
    assert f.db.checkpoint == CellFor(c, |s.log|, Head(s.log), MapCommitment(c, StampsOf(s.records)), f.auth);
  }

  /**
   An open succeeds exactly for the mode and secret that wrote the checkpoint,
   when no stamp is zero; it recovers the length, tail, commitment and context.
   */
  lemma OpenOn(c: Crypto, db: FjallDb, s: StoreState, secret: Option<Text>, salt: Hash)
    requires DbHolds(c, db, s)
    ensures FjallOpen(c, db, secret, salt).Success? <==>
      NoZeroStamp(s.records) && Protocol.MayOpen(c, db.checkpoint, s, secret, salt)
    ensures !NoZeroStamp(s.records) ==> FjallOpen(c, db, secret, salt) == Failure(InvalidCreatedAt)
    ensures FjallOpen(c, db, secret, salt).Success? ==>
      var f := FjallOpen(c, db, secret, salt).value;
      Refines(c, f, s) && f.auth == Protocol.ContextFor(c, db.checkpoint, secret, salt).value
      && f.db == db.(checkpoint := Protocol.LoadedCell(c, db.checkpoint, s, secret, salt))
  {
    hide Chain, Lawful, Live, TiersHold, ReadAudit, EncodeAudit, ReadTiers, MapCommitment, Authorise, CellFor,
         Protocol.AnchoredCell, Protocol.ContextFor;
    ReadAuditIs(c, db.audit, s.log);
    TiersRead(db, s.records);
    if NoZeroStamp(s.records) {
      var commitment := MapCommitment(c, StampsOf(s.records));
      var seen := Observed(s.log == [], s.records == map[], |s.log|, Head(s.log), commitment);
      Protocol.AuthoriseOn(c, db.checkpoint, s, seen, secret, salt);
      if Protocol.MayOpen(c, db.checkpoint, s, secret, salt) {
        OpenedRefines(c, db, s, secret, salt);
      }
    }
  }

  lemma OpenedRefines(c: Crypto, db: FjallDb, s: StoreState, secret: Option<Text>, salt: Hash)
    requires DbHolds(c, db, s) && Protocol.MayOpen(c, db.checkpoint, s, secret, salt)
    ensures var context := Protocol.ContextFor(c, db.checkpoint, secret, salt).value;
      var cell := Protocol.LoadedCell(c, db.checkpoint, s, secret, salt);
      && cell == CellFor(c, |s.log|, Head(s.log), MapCommitment(c, StampsOf(s.records)), context)
      && (db.checkpoint == Absent ==> s == EMPTY)
      && Refines(c, FjallState(db.(checkpoint := cell), |s.log|, Head(s.log), context,
                               MapCommitment(c, StampsOf(s.records))), s)
  {
    hide StoreInv, EncodeAudit, EncodeRecords, MapCommitment, CellFor, Protocol.ContextFor;
    var cell := Protocol.LoadedCell(c, db.checkpoint, s, secret, salt);
    assert forall tier :: db.(checkpoint := cell).At(tier) == db.At(tier);
  }

  /** The backend was opened in this mode, with this secret. */
  predicate OpenedWith(c: Crypto, f: FjallState, secret: Option<Text>) {
    match secret
    case None => f.auth.None?
    case Some(text) => f.auth.Some? && MakeContext(c, text, f.auth.value.storeSalt) == Success(f.auth.value)
  }

  /**
   Crash anywhere between two batches and reopen with the same secret: the very
   same cached state comes back, unless a record carries a zero stamp; the other
   mode is always refused.
   */
  lemma ReopenRecovers(c: Crypto, f: FjallState, s: StoreState, secret: Option<Text>, salt: Hash, other: Option<Text>)
    requires Refines(c, f, s) && OpenedWith(c, f, secret)
    ensures FjallOpen(c, f.db, secret, salt) == if NoZeroStamp(s.records) then Success(f) else Failure(InvalidCreatedAt)
    ensures other.Some? != secret.Some? ==> FjallOpen(c, f.db, other, salt).Failure?
  {
    hide StoreInv, FjallOpen, TiersHold, EncodeAudit, MapCommitment, MacInput, Head;
    RefinesHolds(c, f, s);
    OpenOn(c, f.db, s, secret, salt);
    OpenOn(c, f.db, s, other, salt);
    if NoZeroStamp(s.records) {
      var g := FjallOpen(c, f.db, secret, salt).value;
      assert g.auditLen == f.auditLen && g.commitment == f.commitment;
      assert f.db.(checkpoint := f.db.checkpoint) == f.db;
    }
  }

  // ---- Every run, with crashes -------------------------------------------

  /** The database directory, and the one process that may have it open. */
  datatype FjallWorld = FjallWorld(db: FjallDb, backend: Option<FjallState>)

  datatype FjallStep =
    | Open(secret: Option<Text>, salt: Hash)
    | Crash
    | Operate(op: StoreOp)

  ghost function FjallNext(c: Crypto, w: FjallWorld, step: FjallStep): FjallWorld {
    match step
    case Open(secret, salt) =>
      if w.backend.Some? then w
      else
        var found := FjallOpen(c, w.db, secret, salt);
        if found.Success? then FjallWorld(found.value.db, Some(found.value)) else w
    case Crash => w.(backend := None)
    case Operate(op) =>
      if w.backend.None? then w
      else
        var f := FjallApply(c, w.backend.value, op).0;
        FjallWorld(f.db, Some(f))
  }

  ghost function FjallSteps(c: Crypto, w: FjallWorld, steps: seq<FjallStep>): FjallWorld
    decreases |steps|
  {
    if steps == [] then w else FjallNext(c, FjallSteps(c, w, steps[..|steps| - 1]), steps[|steps| - 1])
  }

  /** The database holds `s`, and an open backend caches exactly what it holds. */
  ghost predicate FjallInv(c: Crypto, w: FjallWorld, s: StoreState) {
    DbHolds(c, w.db, s) && (w.backend.Some? ==> w.backend.value.db == w.db && Refines(c, w.backend.value, s))
  }

  /** A step leaves the held store alone or runs one store operation on it. */
  lemma FjallStepKeeps(c: Crypto, w: FjallWorld, s: StoreState, step: FjallStep) returns (t: StoreState)
    requires FjallInv(c, w, s)
    ensures t == s || (step.Operate? && t == Apply(c, s, step.op))
    ensures FjallInv(c, FjallNext(c, w, step), t)
    ensures Protocol.ModeKept(w.db.checkpoint, FjallNext(c, w, step).db.checkpoint)
  {
    hide Refines, DbHolds, Apply, FjallApply, FjallOpen;
    hide CellFor, Protocol.MayOpen, Protocol.ContextFor, Protocol.LoadedCell;
    t := s;
    match step
    case Crash =>
    case Open(secret, salt) =>
      if w.backend.None? {
        OpenOn(c, w.db, s, secret, salt);
        var found := FjallOpen(c, w.db, secret, salt);
        if found.Success? {
          RefinesHolds(c, found.value, s);
          Standing(c, found.value, s);
          LoadedKeepsMode(c, w.db.checkpoint, s, secret, salt);
        }
      }
    case Operate(op) =>
      if w.backend.Some? {
        var f := w.backend.value;
        OperationRefines(c, f, s, op);
        var g := FjallApply(c, f, op).0;
        if g != f {
          t := Apply(c, s, op);
        }
        RefinesHolds(c, g, t);
        RefinesMode(c, f, s);
        RefinesMode(c, g, t);
      }
  }

  lemma RefinesMode(c: Crypto, f: FjallState, s: StoreState)
    requires Refines(c, f, s)
    ensures f.db.checkpoint != Absent
    ensures Mode(f.db.checkpoint) == if f.auth.Some? then Some(f.auth.value.storeSalt) else None
  {
    hide StoreInv, TiersHold, EncodeAudit, MapCommitment, MacInput;
  }

  lemma LoadedKeepsMode(c: Crypto, cell: CheckpointCell, s: StoreState, secret: Option<Text>, salt: Hash)
    requires |s.log| < U64_LIMIT
    ensures Protocol.ModeKept(cell, Protocol.LoadedCell(c, cell, s, secret, salt))
  {
  }

  /** The operations of a run, in order. */
  function OperationsOf(steps: seq<FjallStep>): seq<StoreOp> {
    if steps == [] then []
    else
      var last := steps[|steps| - 1];
      OperationsOf(steps[..|steps| - 1]) + if last.Operate? then [last.op] else []
  }

  /** `a` is `b` with some elements left out. */
  predicate Subsequence<T(==)>(a: seq<T>, b: seq<T>)
    decreases |b|
  {
    a == []
    || (b != [] && Subsequence(a, b[..|b| - 1]))
    || (b != [] && a[|a| - 1] == b[|b| - 1] && Subsequence(a[..|a| - 1], b[..|b| - 1]))
  }

  lemma SubsequenceMore<T>(a: seq<T>, b: seq<T>, x: T)
    requires Subsequence(a, b)
    ensures Subsequence(a, b + [x]) && Subsequence(a + [x], b + [x])
  {
    assert (b + [x])[..|b|] == b && (a + [x])[..|a|] == a;
  }

  /**
   Every run, crashes included: each batch boundary leaves a database that holds
   the outcome of some of the run's operations, in their order, on the store it
   held before; the log only ever grew, and the mode and salt stay.
   */
  lemma {:induction false} FjallRunKeeps(c: Crypto, w: FjallWorld, s: StoreState, steps: seq<FjallStep>)
    returns (ops: seq<StoreOp>)
    requires FjallInv(c, w, s)
    ensures Subsequence(ops, OperationsOf(steps))
    ensures FjallInv(c, FjallSteps(c, w, steps), Run(c, s, ops)) && s.log <= Run(c, s, ops).log
    ensures Protocol.ModeKept(w.db.checkpoint, FjallSteps(c, w, steps).db.checkpoint)
    decreases |steps|
  {
    hide DbHolds, Refines, Apply, FjallNext, Subsequence;
    ops := [];
    if steps == [] {
      NothingIsSubsequence(OperationsOf(steps));
    } else {
      var n := |steps| - 1;
      var before := FjallRunKeeps(c, w, s, steps[..n]);
      var u := Run(c, s, before);
      var t := FjallStepKeeps(c, FjallSteps(c, w, steps[..n]), u, steps[n]);
      HoldsInv(c, FjallSteps(c, w, steps[..n]), u);
      ops := before;
      assert OperationsOf(steps[..n]) + [] == OperationsOf(steps[..n]);
      if steps[n].Operate? {
        StepKeepsInv(c, u, steps[n].op);
        SubsequenceMore(before, OperationsOf(steps[..n]), steps[n].op);
        RunMore(c, s, before, steps[n].op);
        if t != u {
          ops := before + [steps[n].op];
        }
      }
    }
  }

  lemma NothingIsSubsequence<T>(b: seq<T>)
    ensures Subsequence([], b)
  {
  }

  lemma RunMore(c: Crypto, s: StoreState, ops: seq<StoreOp>, op: StoreOp)
    ensures Run(c, s, ops + [op]) == Apply(c, Run(c, s, ops), op)
  {
    hide Apply;
    assert (ops + [op])[..|ops|] == ops;
  }

  lemma HoldsInv(c: Crypto, w: FjallWorld, s: StoreState)
    requires FjallInv(c, w, s)
    ensures StoreInv(c, s)
  {
    hide StoreInv, Refines;
  }

  lemma EmptyDbHolds(c: Crypto)
    ensures FjallInv(c, FjallWorld(EMPTY_DB, None), EMPTY)
  {
    hide StoreInv;
    Protocol.EmptyInv(c);
    forall tier: DataTier
      ensures EMPTY_DB.At(tier) == EncodeRecords(InTier(map[], tier))
    {
    }
  }

  /**
   A live zero stamp is never got rid of: in every later run the records stay
   what they are and no open succeeds.
   */
  lemma {:induction false} ZeroStampStays(c: Crypto, w: FjallWorld, s: StoreState, steps: seq<FjallStep>)
    returns (t: StoreState)
    requires FjallInv(c, w, s) && !NoZeroStamp(s.records)
    ensures FjallInv(c, FjallSteps(c, w, steps), t) && t.records == s.records
    ensures forall secret, salt :: FjallOpen(c, FjallSteps(c, w, steps).db, secret, salt) == Failure(InvalidCreatedAt)
    decreases |steps|
  {
    hide DbHolds, Refines, Apply, FjallOpen, FjallApply, NoZeroStamp;
    t := s;
    if steps != [] {
      var n := |steps| - 1;
      var v := FjallSteps(c, w, steps[..n]);
      var u := ZeroStampStays(c, w, s, steps[..n]);
      t := u;
      match steps[n]
      case Open(secret, salt) =>
      case Crash =>
      case Operate(op) =>
        if v.backend.Some? {
          t := StuckStep(c, v.backend.value, u, op);
          RefinesHolds(c, FjallApply(c, v.backend.value, op).0, t);
        }
    }
    var after := FjallSteps(c, w, steps);
    forall secret, salt
      ensures FjallOpen(c, after.db, secret, salt) == Failure(InvalidCreatedAt)
    {
      OpenOn(c, after.db, t, secret, salt);
    }
  }

  /** Two steps from an empty database reach it: open it, and write one record stamped zero. */
  lemma ZeroStampFromStart(c: Crypto, r: Record, now: u64, secret: Option<Text>, salt: Hash)
    requires Validate(r).Success? && r.createdAt == 0 && (secret.Some? ==> MakeContext(c, secret.value, salt).Success?)
    ensures var w := FjallSteps(c, FjallWorld(EMPTY_DB, None), [Open(secret, salt), Operate(OpWrite(r, now))]);
      var s := Apply(c, EMPTY, OpWrite(r, now));
      FjallInv(c, w, s) && s.records == map[r.id := r] && !NoZeroStamp(s.records)
  {
    hide Refines, DbHolds, FjallOpen, FjallApply, Validate, MakeContext, Appended;
    var steps := [Open(secret, salt), Operate(OpWrite(r, now))];
    TwoSteps(c, FjallWorld(EMPTY_DB, None), steps);
    EmptyDbHolds(c);
    assert Protocol.MayOpen(c, Absent, EMPTY, secret, salt) by { FreshOpens(c, secret, salt); }
    OpenOn(c, EMPTY_DB, EMPTY, secret, salt);
    var f := FjallOpen(c, EMPTY_DB, secret, salt).value;
    OperationRefines(c, f, EMPTY, OpWrite(r, now));
    var s := Apply(c, EMPTY, OpWrite(r, now));
    RefinesHolds(c, FjallApply(c, f, OpWrite(r, now)).0, s);
    assert s.records == map[r.id := r];
    assert r.id in s.records;
  }

  lemma TwoSteps(c: Crypto, w: FjallWorld, steps: seq<FjallStep>)
    requires |steps| == 2
    ensures FjallSteps(c, w, steps) == FjallNext(c, FjallNext(c, w, steps[0]), steps[1])
  {
    hide FjallNext;
    var one := steps[..1];
    assert steps[..|steps| - 1] == one && one[..|one| - 1] == [];
    assert FjallSteps(c, w, one) == FjallNext(c, FjallSteps(c, w, []), one[0]);
  }

  lemma FreshOpens(c: Crypto, secret: Option<Text>, salt: Hash)
    requires secret.Some? ==> MakeContext(c, secret.value, salt).Success?
    ensures Protocol.MayOpen(c, Absent, EMPTY, secret, salt)
  {
  }

  /** With a zero stamp live, writes and deletes are refused; reads may still log. */
  lemma StuckStep(c: Crypto, f: FjallState, s: StoreState, op: StoreOp) returns (t: StoreState)
    requires Refines(c, f, s) && !NoZeroStamp(s.records)
    ensures Refines(c, FjallApply(c, f, op).0, t) && t.records == s.records
    ensures FjallApply(c, f, op).1.Accepted() ==> op.OpRead? && f.auth.None?
  {
    hide Refines, NoZeroStamp, FjallWrite, FjallRead, FjallDelete, NewEntry, Validate;
    t := s;
    match op
    case OpWrite(r, now) => WriteRefines(c, f, s, r, now);
    case OpRead(id, requester, now) =>
      ReadRefines(c, f, s, id, requester, now);
      if FjallRead(c, f, id, requester, now).0 != f {
        t := ReadStep(c, s, id, requester, now).0;
      }
    case OpDelete(id, requester, now) => DeleteRefines(c, f, s, id, requester, now);
  }

  // ---- Recovery, along every run -----------------------------------------

  /** One secret for every open, and a set clock for every write. */
  predicate SteadyStep(step: FjallStep, secret: Option<Text>) {
    match step
    case Open(other, _) => other == secret
    case Crash => true
    case Operate(op) => op.OpWrite? ==> op.record.createdAt != 0
  }

  predicate SteadySteps(steps: seq<FjallStep>, secret: Option<Text>) {
    forall i | 0 <= i < |steps| :: SteadyStep(steps[i], secret)
  }

  ghost predicate SteadyInv(c: Crypto, w: FjallWorld, s: StoreState, secret: Option<Text>) {
    FjallInv(c, w, s) && NoZeroStamp(s.records) && (w.backend.Some? ==> OpenedWith(c, w.backend.value, secret))
  }

  lemma OpensWith(c: Crypto, db: FjallDb, s: StoreState, secret: Option<Text>, salt: Hash)
    requires DbHolds(c, db, s) && FjallOpen(c, db, secret, salt).Success?
    ensures OpenedWith(c, FjallOpen(c, db, secret, salt).value, secret)
  {
    hide DbHolds, FjallOpen, Refines, CellFor;
    OpenOn(c, db, s, secret, salt);
  }

  lemma SteadyStepKeeps(c: Crypto, w: FjallWorld, s: StoreState, secret: Option<Text>, step: FjallStep)
    returns (t: StoreState)
    requires SteadyInv(c, w, s, secret) && SteadyStep(step, secret)
    ensures SteadyInv(c, FjallNext(c, w, step), t, secret) && s.log <= t.log
  {
    hide DbHolds, Refines, Apply, FjallApply, FjallOpen, NoZeroStamp;
    t := FjallStepKeeps(c, w, s, step);
    HoldsInv(c, w, s);
    match step
    case Open(_, salt) =>
      if w.backend.None? && FjallOpen(c, w.db, secret, salt).Success? {
        OpensWith(c, w.db, s, secret, salt);
      }
    case Crash =>
    case Operate(op) =>
      StampsStay(c, s, op);
      StepKeepsInv(c, s, op);
      if w.backend.Some? {
        OperationRefines(c, w.backend.value, s, op);
      }
  }

  /** After a crash nothing changes the database until it is opened again. */
  lemma {:induction false} CrashedUntilOpen(c: Crypto, w: FjallWorld, steps: seq<FjallStep>)
    requires forall i | 0 <= i < |steps| :: !steps[i].Open?
    ensures FjallSteps(c, FjallNext(c, w, Crash), steps) == FjallWorld(w.db, None)
    decreases |steps|
  {
    hide FjallApply, FjallOpen;
    if steps != [] {
      var n := |steps| - 1;
      CrashedUntilOpen(c, w, steps[..n]);
      assert !steps[n].Open?;
    }
  }

  /**
   Recovery. Along every run in one mode with one secret, with crashes between any
   two batches, crashing now and opening again gives back the very same backend:
   database, length, tail, context and commitment.
   */
  lemma {:induction false} CrashRecovers(c: Crypto, w: FjallWorld, s: StoreState, secret: Option<Text>,
          steps: seq<FjallStep>, salt: Hash)
    returns (t: StoreState)
    requires SteadyInv(c, w, s, secret) && SteadySteps(steps, secret)
    ensures var now := FjallSteps(c, w, steps);
      && SteadyInv(c, now, t, secret) && s.log <= t.log
      && (now.backend.Some? ==> FjallNext(c, FjallNext(c, now, Crash), Open(secret, salt)) == now)
    decreases |steps|
  {
    hide FjallInv, FjallOpen, FjallApply, NoZeroStamp, OpenedWith;
    t := s;
    if steps != [] {
      var n := |steps| - 1;
      var u := CrashRecovers(c, w, s, secret, steps[..n], salt);
      hide FjallNext;
      t := SteadyStepKeeps(c, FjallSteps(c, w, steps[..n]), u, secret, steps[n]);
    }
    ReopensSame(c, FjallSteps(c, w, steps), t, secret, salt);
  }

  lemma ReopensSame(c: Crypto, w: FjallWorld, s: StoreState, secret: Option<Text>, salt: Hash)
    requires SteadyInv(c, w, s, secret)
    ensures w.backend.Some? ==> FjallNext(c, FjallNext(c, w, Crash), Open(secret, salt)) == w
  {
    hide DbHolds, Refines, FjallOpen, NoZeroStamp, OpenedWith;
    if w.backend.Some? {
      ReopenRecovers(c, w.backend.value, s, secret, salt, secret);
    }
  }
}
