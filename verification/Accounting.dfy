/**
 What an audit entry says: who did what to which record, and when.

 Field by field, for every operation of either backend, and for every entry on
 every run.
 */
module Accounting {
  import opened Base
  import opened Bytes
  import opened Crypto
  import opened Audit
  import opened AuditKeys
  import opened AuditTable
  import opened Commitment
  import opened Checkpoint
  import opened Envelope
  import opened Records
  import opened StoreSpec
  import opened RedbSpec
  import opened Protocol
  import FjallSpec
  import Admission

  // ---- One operation -----------------------------------------------------

  /** The entry names the record, the one who asked, the clock reading, and what was asked. */
  predicate Tells(e: AuditEntry, op: StoreOp) {
    match op
    case OpWrite(r, now) =>
      e.recordId == r.id && e.requesterId == r.ownerId && e.timestamp == now && e.action == Write
    case OpRead(id, requester, now) =>
      e.recordId == id && e.requesterId == requester && e.timestamp == now && e.action in {ReadGranted, ReadDenied}
    case OpDelete(id, requester, now) =>
      e.recordId == id && e.requesterId == requester && e.timestamp == now && e.action == Delete
  }

  /** A read is granted to the owner, and of Noise to anybody. */
  predicate Granted(r: Record, requester: Text) {
    requester == r.ownerId || r.tier == Noise
  }

  /** The operations that change a store, and so are logged. */
  predicate Takes(s: StoreState, op: StoreOp) {
    match op
    case OpWrite(r, _) => r.ownerId != [] && r.id != [] && r.id !in s.records
    case OpRead(id, _, _) => id in s.records
    case OpDelete(id, requester, _) => id in s.records && requester == s.records[id].ownerId
  }

  /** The records an operation that takes effect leaves. */
  function RecordsAfter(records: RecordMap, op: StoreOp): RecordMap {
    match op
    case OpWrite(r, _) => records[r.id := r]
    case OpRead(_, _, _) => records
    case OpDelete(id, _, _) => map k | k in records && k != id :: records[k]
  }

  /** The hash the next entry points at. */
  function Tip(log: Log): Hash {
    if log == [] then seq(32, _ => 0) else log[|log| - 1].entryHash
  }

  /**
   An operation that takes effect adds one entry, and the entry tells of it; it points
   at the last entry and carries the digest of its own bytes. Every other operation
   changes nothing.
   */
  lemma OperationTold(c: Crypto, s: StoreState, op: StoreOp)
    ensures !Takes(s, op) ==> Apply(c, s, op) == s
    ensures Takes(s, op) ==>
      var t := Apply(c, s, op);
      t.records == RecordsAfter(s.records, op) && |t.log| == |s.log| + 1 && t.log[..|s.log|] == s.log
      && var e := t.log[|s.log|];
      Tells(e, op) && e.prevHash == Tip(s.log) && e.entryHash == c.sha256(HashInput(e))
      && (op.OpRead? ==> (e.action == ReadGranted <==> Granted(s.records[op.id], op.requester)))
  {
    hide HashInput;
    assert ZeroHash() == seq(32, _ => 0);
  }

  /** What the operations answer. */
  lemma OperationAnswers(c: Crypto, s: StoreState, op: StoreOp)
    ensures op.OpWrite? ==>
      WriteStep(c, s, op.record, op.now).1 ==
        if op.record.ownerId == [] then Failure(NoOwner)
        else if op.record.id == [] then Failure(EmptyRecordId)
        else if op.record.id in s.records then Failure(AlreadyExists)
        else Success(())
    ensures op.OpRead? ==>
      ReadStep(c, s, op.id, op.requester, op.now).1 ==
        if op.id !in s.records then Failure(NotFound)
        else if Granted(s.records[op.id], op.requester) then Success(s.records[op.id])
        else Failure(AccessDenied)
    ensures op.OpDelete? ==>
      DeleteStep(c, s, op.id, op.requester, op.now).1 ==
        if op.id !in s.records then Failure(NotFound)
        else if op.requester == s.records[op.id].ownerId then Success(())
        else Failure(AccessDenied)
  {
    hide Appended;
  }

  // ---- Every entry of every run ------------------------------------------

  /** Some operation of the list asked for the entry. */
  ghost predicate Asked(e: AuditEntry, ops: seq<StoreOp>) {
    exists op | op in ops :: Tells(e, op)
  }

  /** In every reachable store each entry tells of one operation: the one that found the log that long. */
  lemma {:induction false} EntryTold(c: Crypto, ops: seq<StoreOp>, i: nat) returns (j: nat)
    requires i < |Run(c, EMPTY, ops).log|
    ensures j < |ops| && |Run(c, EMPTY, ops[..j]).log| == i && Takes(Run(c, EMPTY, ops[..j]), ops[j])
    ensures Tells(Run(c, EMPTY, ops).log[i], ops[j])
    decreases |ops|
  {
    hide Apply, Tells, Takes, RecordsAfter;
    j := |ops| - 1;
    var s := Run(c, EMPTY, ops[..j]);
    OperationTold(c, s, ops[j]);
    if i < |s.log| {
      assert Run(c, EMPTY, ops).log[i] == s.log[i] by { EarlierEntry(s.log, Run(c, EMPTY, ops).log, i); }
      j := EntryTold(c, ops[..j], i);
      assert ops[..|ops| - 1][..j] == ops[..j];
    }
  }

  lemma EarlierEntry(log: Log, longer: Log, i: nat)
    requires i < |log| <= |longer| && longer[..|log|] == log
    ensures longer[i] == log[i]
  {
    assert longer[i] == longer[..|log|][i];
  }

  function OperationsOf(steps: seq<Step>): seq<StoreOp>
    decreases |steps|
  {
    if steps == [] then []
    else
      var n := |steps| - 1;
      OperationsOf(steps[..n]) + if steps[n].Operate? then [steps[n].op] else []
  }

  /** Every entry of the file and of every handle tells of an operation some handle was asked for. */
  ghost predicate AllAsked(c: Crypto, w: World, ops: seq<StoreOp>) {
    (forall e | e in OnDisk(c, w.file).log :: Asked(e, ops))
    && forall h | h in w.handles :: forall e | e in w.handles[h].log :: Asked(e, ops)
  }

  lemma AskedMore(e: AuditEntry, ops: seq<StoreOp>, more: seq<StoreOp>)
    requires Asked(e, ops)
    ensures Asked(e, ops + more)
  {
    var op :| op in ops && Tells(e, op);
    assert op in ops + more;
  }

  lemma AllAskedMore(c: Crypto, w: World, ops: seq<StoreOp>, more: seq<StoreOp>)
    requires AllAsked(c, w, ops)
    ensures AllAsked(c, w, ops + more)
  {
    hide Asked, OnDisk;
    forall e | Asked(e, ops)
      ensures Asked(e, ops + more)
    {
      AskedMore(e, ops, more);
    }
  }

  lemma OperatedAsked(c: Crypto, s: StoreState, op: StoreOp, ops: seq<StoreOp>)
    requires op in ops && forall e | e in s.log :: Asked(e, ops)
    ensures forall e | e in Apply(c, s, op).log :: Asked(e, ops)
  {
    hide Apply, Tells, Takes, RecordsAfter, HashInput;
    OperationTold(c, s, op);
    if Takes(s, op) {
      var t := Apply(c, s, op);
      assert t.log == t.log[..|s.log|] + [t.log[|s.log|]];
      assert Asked(t.log[|s.log|], ops);
    }
  }

  lemma StepAsked(c: Crypto, w: World, step: Step, ops: seq<StoreOp>)
    requires WorldInv(c, w) && AllAsked(c, w, ops) && (step.Operate? ==> step.op in ops)
    ensures AllAsked(c, Next(c, w, step), ops)
  {
    hide SaveSpec, LoadSpec, OnDisk, StoreInv, FileInv, Apply, Asked;
    EmptyInv(c);
    match step
    case Create(h) =>
    case Load(h, secret, salt) => LoadKeeps(c, w.file, secret, salt);
    case Save(h, secret, salt) =>
      if h in w.handles {
        SaveKeeps(c, w.handles[h], w.file, secret, salt);
      }
    case Operate(h, op) =>
      if h in w.handles {
        OperatedAsked(c, w.handles[h], op, ops);
      }
    case Open(h, secret, salt) =>
      LoadKeeps(c, w.file, secret, salt);
      SaveKeeps(c, EMPTY, w.file, secret, salt);
  }

  /**
   On every run of any number of handles, no entry is made up: each one on disk, and in
   every handle, names the record, the requester, the action and the clock reading of an
   operation of the run.
   */
  lemma {:induction false} NothingMadeUp(c: Crypto, steps: seq<Step>)
    ensures AllAsked(c, RunSteps(c, START, steps), OperationsOf(steps))
    decreases |steps|
  {
    hide WorldInv, AllAsked, Next, OnDisk;
    if steps == [] {
      NothingYet(c);
    } else {
      var n := |steps| - 1;
      NothingMadeUp(c, steps[..n]);
      StartIsWellFormed(c);
      RunKeeps(c, START, steps[..n]);
      var w := RunSteps(c, START, steps[..n]);
      var more := if steps[n].Operate? then [steps[n].op] else [];
      AllAskedMore(c, w, OperationsOf(steps[..n]), more);
      StepAsked(c, w, steps[n], OperationsOf(steps));
    }
  }

  lemma NothingYet(c: Crypto)
    ensures AllAsked(c, RunSteps(c, START, []), OperationsOf([]))
  {
  }

  // ---- Fjall -------------------------------------------------------------

  /** The keyspace of a tier. */
  function Keyspace(db: FjallSpec.FjallDb, tier: DataTier): CellMap {
    match tier
    case Critical => db.critical
    case Personal => db.personal
    case Noise => db.noise
  }

  /** One batch: a row of the audit table that tells of the operation, and the record's keyspace alone. */
  ghost predicate Batched(c: Crypto, f: FjallSpec.FjallState, g: FjallSpec.FjallState, op: StoreOp, e: AuditEntry) {
    Tells(e, op) && e.prevHash == f.auditTail && e.entryHash == c.sha256(HashInput(e))
    && f.auditLen + 1 < U64_LIMIT && g.auditLen == f.auditLen + 1 && g.auditTail == e.entryHash && g.auth == f.auth
    && g.db.audit == f.db.audit[Key(f.auditLen) := Row(e)]
    && Admission.Anchored(c, g.db.checkpoint, g.auditLen, g.auditTail, g.commitment, f.auth) && Recommitted(c, f, g, op)
    && forall tier: DataTier :: Keyspace(g.db, tier) == KeyspaceAfter(f.db, op, tier)
  }

  /** The commitment a write or delete seals is that of the records it leaves. */
  ghost predicate Recommitted(c: Crypto, f: FjallSpec.FjallState, g: FjallSpec.FjallState, op: StoreOp) {
    if op.OpRead? then g.commitment == f.commitment
    else
      var records := FjallSpec.ReadTiers(f.db);
      records.Success? && g.commitment == MapCommitment(c, StampsOf(RecordsAfter(records.value, op)))
  }

  function KeyspaceAfter(db: FjallSpec.FjallDb, op: StoreOp, tier: DataTier): CellMap {
    match op
    case OpWrite(r, _) => if tier == r.tier then Keyspace(db, tier)[r.id := RecordRow(r)] else Keyspace(db, tier)
    case OpRead(_, _, _) => Keyspace(db, tier)
    case OpDelete(id, _, _) => if db.TierOf(id) == Some(tier) then Keyspace(db, tier) - {id} else Keyspace(db, tier)
  }

  lemma StampsAfter(records: RecordMap, op: StoreOp)
    ensures op.OpWrite? ==>
      StampsOf(RecordsAfter(records, op)) == StampsOf(records)[op.record.id := op.record.createdAt]
    ensures op.OpDelete? ==> StampsOf(RecordsAfter(records, op)) == StampsOf(records) - {op.id}
  {
  }

  lemma CommittedBatched(c: Crypto, f: FjallSpec.FjallState, db: FjallSpec.FjallDb, op: StoreOp, requester: Text,
                         action: AuditAction, commitment: Hash)
    returns (e: AuditEntry)
    requires f.auditLen + 1 < U64_LIMIT
    requires var told := NewEntry(c, RecordIdOf(op), requester, action, op.now, f.auditTail); Tells(told, op)
    requires forall tier: DataTier :: Keyspace(db, tier) == KeyspaceAfter(f.db, op, tier)
    ensures e == NewEntry(c, RecordIdOf(op), requester, action, op.now, f.auditTail)
    ensures Recommitted(c, f, FjallSpec.Committed(c, f, db, e, commitment), op) ==>
      Batched(c, f, FjallSpec.Committed(c, f, db, e, commitment), op, e)
    ensures FjallSpec.Committed(c, f, db, e, commitment).commitment == commitment
  {
    hide HashInput, Key, MacInput, Tells, KeyspaceAfter, Recommitted;
    e := NewEntry(c, RecordIdOf(op), requester, action, op.now, f.auditTail);
    Admission.CellIsAnchored(c, f.auditLen + 1, e.entryHash, commitment, f.auth);
  }

  function RecordIdOf(op: StoreOp): Text {
    if op.OpWrite? then op.record.id else op.id
  }

  lemma WriteTold(c: Crypto, f: FjallSpec.FjallState, op: StoreOp) returns (e: AuditEntry)
    requires op.OpWrite?
    ensures var (g, r) := FjallSpec.FjallWrite(c, f, op.record, op.now);
      if r.Success? then Batched(c, f, g, op, e) else g == f
  {
    hide HashInput, Batched, FjallSpec.EnsureCurrent, FjallSpec.ReadTiers, FjallSpec.Committed, MapCommitment, Validate;
    hide RecordsAfter, StampsOf;
    e := NewEntry(c, op.record.id, op.record.ownerId, Write, op.now, f.auditTail);
    var (g, r) := FjallSpec.FjallWrite(c, f, op.record, op.now);
    if r.Success? {
      var db := f.db.With(op.record.tier, f.db.At(op.record.tier)[op.record.id := RecordRow(op.record)]);
      var records := FjallSpec.ReadTiers(f.db).value;
      e := CommittedBatched(c, f, db, op, op.record.ownerId, Write,
                            MapCommitment(c, StampsOf(records)[op.record.id := op.record.createdAt]));
      StampsAfter(records, op);
    }
  }

  lemma DeleteTold(c: Crypto, f: FjallSpec.FjallState, op: StoreOp) returns (e: AuditEntry)
    requires op.OpDelete?
    ensures var (g, r) := FjallSpec.FjallDelete(c, f, op.id, op.requester, op.now);
      if r.Success? then Batched(c, f, g, op, e) && Found(f.db, op.id).Some?
                         && Found(f.db, op.id).value.ownerId == op.requester
      else g == f
  {
    hide HashInput, Batched, FjallSpec.EnsureCurrent, FjallSpec.ReadTiers, FjallSpec.Committed, MapCommitment, Validate;
    hide RecordsAfter, StampsOf;
    e := NewEntry(c, op.id, op.requester, Delete, op.now, f.auditTail);
    var (g, r) := FjallSpec.FjallDelete(c, f, op.id, op.requester, op.now);
    if r.Success? {
      var tier := f.db.TierOf(op.id).value;
      var db := f.db.With(tier, f.db.At(tier) - {op.id});
      var records := FjallSpec.ReadTiers(f.db).value;
      e := CommittedBatched(c, f, db, op, op.requester, Delete, MapCommitment(c, StampsOf(records) - {op.id}));
      StampsAfter(records, op);
    }
  }

  /** The row an id is found in. */
  function Found(db: FjallSpec.FjallDb, id: Text): Option<Record> {
    var tier := db.TierOf(id);
    if tier.None? then None
    else
      var cell := Keyspace(db, tier.value)[id];
      if cell.BadRecord? then None else Some(cell.persisted)
  }

  lemma ReadTold(c: Crypto, f: FjallSpec.FjallState, op: StoreOp) returns (e: AuditEntry)
    requires op.OpRead?
    ensures var (g, r) := FjallSpec.FjallRead(c, f, op.id, op.requester, op.now);
      && (r.Success? ==> g != f)
      && (g != f ==>
        Batched(c, f, g, op, e) && Found(f.db, op.id).Some?
        && (e.action == ReadGranted <==> Granted(Found(f.db, op.id).value, op.requester))
        && r == if e.action == ReadGranted then Success(Found(f.db, op.id).value) else Failure(AccessDenied))
  {
    hide HashInput, Batched, FjallSpec.EnsureCurrent, FjallSpec.ReadTiers, FjallSpec.Committed, MapCommitment, Validate;
    e := NewEntry(c, op.id, op.requester, ReadGranted, op.now, f.auditTail);
    var (g, r) := FjallSpec.FjallRead(c, f, op.id, op.requester, op.now);
    if g != f {
      var action := if Granted(Found(f.db, op.id).value, op.requester) then ReadGranted else ReadDenied;
      e := CommittedBatched(c, f, f.db, op, op.requester, action, f.commitment);
    }
    if r.Success? {
      assert g.auditLen == f.auditLen + 1 by { CommittedLonger(c, f, f.db, e, f.commitment); }
    }
  }

  lemma CommittedLonger(c: Crypto, f: FjallSpec.FjallState, db: FjallSpec.FjallDb, e: AuditEntry, commitment: Hash)
    requires f.auditLen + 1 < U64_LIMIT
    ensures FjallSpec.Committed(c, f, db, e, commitment).auditLen == f.auditLen + 1
  {
  }

  /**
   On any database content: an operation changes nothing, and then it is refused, or
   it commits one batch that tells of it.
   */
  lemma FjallTold(c: Crypto, f: FjallSpec.FjallState, op: StoreOp) returns (e: AuditEntry)
    ensures var (g, reply) := FjallSpec.FjallApply(c, f, op);
      (g == f && !reply.Accepted()) || Batched(c, f, g, op, e)
  {
    hide Batched, FjallSpec.FjallWrite, FjallSpec.FjallRead, FjallSpec.FjallDelete;
    match op
    case OpWrite(_, _) => e := WriteTold(c, f, op);
    case OpRead(_, _, _) => e := ReadTold(c, f, op);
    case OpDelete(_, _, _) => e := DeleteTold(c, f, op);
  }
}
