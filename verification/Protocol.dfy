/**
 Any number of store handles over one database file.

 Every load and every save is one atomic step; handles load, operate and save
 in any order and in either mode. The lemmas are about every run.
 */
module Protocol {
  import opened Base
  import opened Bytes
  import opened Crypto
  import opened Audit
  import opened AuditTable
  import opened Commitment
  import opened Checkpoint
  import opened Records
  import opened RecordTable
  import opened StoreSpec
  import opened RedbSpec

  datatype World = World(file: Option<RedbDisk>, handles: map<nat, StoreState>)

  const START: World := World(None, map[])

  datatype Step =
    | Create(h: nat)
    | Load(h: nat, secret: Option<Text>, salt: Hash)
    | Save(h: nat, secret: Option<Text>, salt: Hash)
    | Operate(h: nat, op: StoreOp)
    | Open(h: nat, secret: Option<Text>, salt: Hash)

  ghost function LoadInto(c: Crypto, w: World, h: nat, secret: Option<Text>, salt: Hash): World {
    var (r, file) := LoadSpec(c, w.file, secret, salt);
    World(file, if r.Success? then w.handles[h := r.value] else w.handles)
  }

  ghost function Next(c: Crypto, w: World, step: Step): World {
    match step
    case Create(h) => w.(handles := w.handles[h := EMPTY])
    case Load(h, secret, salt) => LoadInto(c, w, h, secret, salt)
    case Save(h, secret, salt) =>
      if h in w.handles then w.(file := SaveSpec(c, w.handles[h], w.file, secret, salt).1) else w
    case Operate(h, op) =>
      if h in w.handles then w.(handles := w.handles[h := Apply(c, w.handles[h], op)]) else w
    case Open(h, secret, salt) =>
      // RedbBackend::open: load the file if it exists, else save a new store
      if w.file.Some? then LoadInto(c, w, h, secret, salt)
      else
        var (r, file) := SaveSpec(c, EMPTY, w.file, secret, salt);
        World(file, if r.Success? then w.handles[h := EMPTY] else w.handles)
  }

  ghost function RunSteps(c: Crypto, w: World, steps: seq<Step>): World
    decreases |steps|
  {
    if steps == [] then w else Next(c, RunSteps(c, w, steps[..|steps| - 1]), steps[|steps| - 1])
  }

  lemma LastStep(c: Crypto, w: World, s: seq<Step>, k: nat)
    requires k < |s|
    ensures RunSteps(c, w, s[..k + 1]) == Next(c, RunSteps(c, w, s[..k]), s[k])
    ensures RunSteps(c, w, s[..0]) == w
  {
    hide Next;
    assert s[..k + 1][..k] == s[..k];
  }

  // ---- The invariant -----------------------------------------------------

  /** A cell that anchors a store; only an empty store may go unanchored. */
  ghost predicate AnchoredCell(c: Crypto, cell: CheckpointCell, s: StoreState)
    requires |s.log| < U64_LIMIT
  {
    if cell == Absent then s == EMPTY
    else exists context :: cell == CellFor(c, |s.log|, Head(s.log), MapCommitment(c, StampsOf(s.records)), context)
  }

  /** The disk holds exactly the store `s`. */
  ghost predicate Holds(c: Crypto, disk: RedbDisk, s: StoreState) {
    |s.log| < U64_LIMIT && StoreInv(c, s)
    && disk.records == EncodeRecords(s.records) && disk.audit == EncodeAudit(s.log)
    && AnchoredCell(c, disk.checkpoint, s)
  }

  function Decoded(cells: CellMap): RecordMap {
    map k | k in cells && cells[k].RecordRow? :: cells[k].persisted
  }

  /** The store a file holds; no file holds the empty store. */
  ghost function OnDisk(c: Crypto, file: Option<RedbDisk>): StoreState {
    match file
    case None => EMPTY
    case Some(disk) =>
      var log := ReadAudit(c, disk.audit);
      StoreState(Decoded(disk.records), if log.Success? then log.value else [])
  }

  ghost predicate FileInv(c: Crypto, file: Option<RedbDisk>) {
    file.Some? ==> Holds(c, file.value, OnDisk(c, file))
  }

  ghost predicate WorldInv(c: Crypto, w: World) {
    FileInv(c, w.file) && forall h | h in w.handles :: StoreInv(c, w.handles[h])
  }

  lemma OnDiskIs(c: Crypto, disk: RedbDisk, s: StoreState)
    requires Holds(c, disk, s)
    ensures OnDisk(c, Some(disk)) == s
  {
    hide AnchoredCell, Chain, Lawful, Live, EncodeAudit, ReadAudit;
    ReadAuditIs(c, disk.audit, s.log);
    assert Decoded(disk.records) == s.records;
  }

  lemma EmptyInv(c: Crypto)
    ensures StoreInv(c, EMPTY)
  {
    assert OwnersOf(map[]) == map[];
  }

  /** A freshly created file and a saved store are both well held. */
  lemma DiskOfHolds(c: Crypto, s: StoreState, context: Option<AuthContext>)
    requires StoreInv(c, s) && |s.log| < U64_LIMIT
    ensures Holds(c, DiskOf(c, s, context), s)
  {
    hide StoreInv, EncodeAudit, MapCommitment, CellFor;
    CellIsPresent(c, |s.log|, Head(s.log), MapCommitment(c, StampsOf(s.records)), context);
  }

  lemma CellIsPresent(c: Crypto, count: u64, head: Hash, commitment: Hash, context: Option<AuthContext>)
    ensures CellFor(c, count, head, commitment, context) != Absent
  {
  }

  lemma EmptyDiskHolds(c: Crypto)
    ensures Holds(c, EMPTY_DISK, EMPTY)
  {
    hide StoreInv;
    EmptyInv(c);
    assert EncodeRecords(map[]) == map[];
  }

  // ---- Who may open a database -------------------------------------------

  /** The context a caller derives for a cell: its salt, or a fresh one. */
  function ContextFor(c: Crypto, cell: CheckpointCell, secret: Option<Text>, salt: Hash): Outcome<Option<AuthContext>> {
    match secret
    case None => Success(None)
    case Some(text) =>
      var made := MakeContext(c, text, if cell.Authenticated? then cell.sealed.storeSalt else salt);
      if made.Failure? then Failure(made.error) else Success(Some(made.value))
  }

  /** The cell is the one this caller would write for the store held. */
  ghost predicate MayOpen(c: Crypto, cell: CheckpointCell, s: StoreState, secret: Option<Text>, salt: Hash)
    requires |s.log| < U64_LIMIT
  {
    var context := ContextFor(c, cell, secret, salt);
    context.Success?
    && (cell == Absent
        || cell == CellFor(c, |s.log|, Head(s.log), MapCommitment(c, StampsOf(s.records)), context.value))
  }

  lemma NoLogNoRecords(c: Crypto, s: StoreState)
    requires StoreInv(c, s) && s.log == []
    ensures s == EMPTY
  {
    assert OwnersOf(s.records).Keys == s.records.Keys;
    assert Live([]) == map[];
  }

  /** The classification accepts exactly the callers that may open. */
  lemma AuthoriseOn(c: Crypto, cell: CheckpointCell, s: StoreState, seen: Observed, secret: Option<Text>, salt: Hash)
    requires |s.log| < U64_LIMIT && StoreInv(c, s) && AnchoredCell(c, cell, s)
    requires seen.auditEmpty == (s.log == []) && seen.recordsEmpty == (s.records == map[])
    requires seen.count == |s.log| && seen.head == Head(s.log)
    requires secret.Some? ==> seen.commitment == MapCommitment(c, StampsOf(s.records))
    ensures Authorise(c, cell, seen, secret, salt).Success? <==> MayOpen(c, cell, s, secret, salt)
    ensures Authorise(c, cell, seen, secret, salt).Success? ==>
      Authorise(c, cell, seen, secret, salt).value ==
        (if cell == Absent then Genesis else Existing, ContextFor(c, cell, secret, salt).value)
  {
    hide StoreInv, MacInput, MapCommitment, Head;
    if s.log == [] {
      NoLogNoRecords(c, s);
    }
    if secret.Some? && cell.Authenticated? {
      var made := MakeContext(c, secret.value, cell.sealed.storeSalt);
      if made.Success? {
        VerifySealExact(c, cell.sealed, made.value);
      }
    }
  }

  /** What a save finds: the held log, and whether this caller may go on. */
  lemma PermitOn(c: Crypto, disk: RedbDisk, s: StoreState, secret: Option<Text>, salt: Hash)
    requires Holds(c, disk, s)
    ensures Permit(c, disk, secret, salt).Success? <==>
      MayOpen(c, disk.checkpoint, s, secret, salt) && (secret.Some? ==> NoZeroStamp(s.records))
    ensures Permit(c, disk, secret, salt).Success? ==>
      Permit(c, disk, secret, salt).value == (s.log, ContextFor(c, disk.checkpoint, secret, salt).value)
  {
    hide Chain, Lawful, Live, AnchoredCell, MayOpen, ReadAudit;
    hide EncodeAudit, ReadRecords, MapCommitment, Authorise, ContextFor;
    ReadAuditIs(c, disk.audit, s.log);
    ReadBack(AnyTier, s.records);
    EncodedEmpty(s.records);
    var commitment := if secret.Some? && NoZeroStamp(s.records) then MapCommitment(c, StampsOf(s.records))
      else ZeroHash();
    var seen := Observed(s.log == [], s.records == map[], |s.log|, Head(s.log), commitment);
    if secret.Some? ==> NoZeroStamp(s.records) {
      AuthoriseOn(c, disk.checkpoint, s, seen, secret, salt);
    }
  }

  lemma EncodedEmpty(records: RecordMap)
    ensures EncodeRecords(records) == map[] <==> records == map[]
  {
    assert EncodeRecords(records).Keys == records.Keys;
    assert records.Keys == {} ==> records == map[];
  }

  /**
   A load succeeds exactly for a caller that may open a store with no zero
   stamp; it returns that store, and the disk goes on holding it.
   */
  lemma LoadOn(c: Crypto, disk: RedbDisk, s: StoreState, secret: Option<Text>, salt: Hash)
    requires Holds(c, disk, s)
    ensures LoadSpec(c, Some(disk), secret, salt).0.Success? <==>
      MayOpen(c, disk.checkpoint, s, secret, salt) && NoZeroStamp(s.records)
    ensures LoadSpec(c, Some(disk), secret, salt).0.Success? ==>
      LoadSpec(c, Some(disk), secret, salt) ==
        (Success(s), Some(disk.(checkpoint := LoadedCell(c, disk.checkpoint, s, secret, salt))))
    ensures LoadSpec(c, Some(disk), secret, salt).0.Failure? ==> LoadSpec(c, Some(disk), secret, salt).1 == Some(disk)
  {
    hide Chain, Lawful, Live, AnchoredCell, ReadAudit, EncodeAudit;
    hide ReadRecords, MapCommitment, Authorise, ContextFor, CellFor;
    ReadAuditIs(c, disk.audit, s.log);
    ReadBack(AnyTier, s.records);
    if NoZeroStamp(s.records) {
      AuthoriseOn(c, disk.checkpoint, s, Seen(c, s.records, s.log), secret, salt);
      assert disk.(checkpoint := disk.checkpoint) == disk;
    }
    if MayOpen(c, disk.checkpoint, s, secret, salt) && disk.checkpoint == Absent {
      AbsentMeansEmpty(c, disk, s);
    }
  }

  lemma AbsentMeansEmpty(c: Crypto, disk: RedbDisk, s: StoreState)
    requires Holds(c, disk, s) && disk.checkpoint == Absent
    ensures s == EMPTY
  {
    hide StoreInv;
  }

  /** The cell after a load: an absent one is written, any other is kept. */
  ghost function LoadedCell(c: Crypto, cell: CheckpointCell, s: StoreState, secret: Option<Text>,
          salt: Hash): CheckpointCell
    requires |s.log| < U64_LIMIT
  {
    var context := ContextFor(c, cell, secret, salt);
    if cell == Absent && context.Success? then
      CellFor(c, |s.log|, Head(s.log), MapCommitment(c, StampsOf(s.records)), context.value)
    else cell
  }

  // ---- What one step does ------------------------------------------------

  function DiskOrEmpty(file: Option<RedbDisk>): RedbDisk {
    if file.Some? then file.value else EMPTY_DISK
  }

  function CellOf(file: Option<RedbDisk>): CheckpointCell {
    DiskOrEmpty(file).checkpoint
  }

  /** Legacy or authenticated, and under which salt, never changes again. */
  predicate ModeKept(before: CheckpointCell, after: CheckpointCell) {
    before != Absent ==> after != Absent && Mode(before) == Mode(after)
  }

  lemma HeldByFile(c: Crypto, file: Option<RedbDisk>)
    requires FileInv(c, file)
    ensures Holds(c, DiskOrEmpty(file), OnDisk(c, file))
  {
    hide Holds;
    EmptyDiskHolds(c);
  }

  /** The callers whose save of a grown store is accepted. */
  ghost predicate MaySave(c: Crypto, file: Option<RedbDisk>, secret: Option<Text>, salt: Hash)
    requires FileInv(c, file)
  {
    |OnDisk(c, file).log| < U64_LIMIT
    && MayOpen(c, CellOf(file), OnDisk(c, file), secret, salt)
    && (secret.Some? ==> NoZeroStamp(OnDisk(c, file).records))
  }

  /**
   A save succeeds exactly when the caller may save and the handle's log
   extends the log on disk. Then the disk is the handle; else nothing is lost.
   */
  lemma SaveOn(c: Crypto, s: StoreState, file: Option<RedbDisk>, secret: Option<Text>, salt: Hash)
    requires FileInv(c, file) && StoreInv(c, s)
    ensures SaveSpec(c, s, file, secret, salt).0.Success? <==>
      MaySave(c, file, secret, salt) && OnDisk(c, file).log <= s.log && |s.log| < U64_LIMIT
    ensures SaveSpec(c, s, file, secret, salt).0.Success? ==>
      SaveSpec(c, s, file, secret, salt).1 == Some(DiskOf(c, s, ContextFor(c, CellOf(file), secret, salt).value))
    ensures SaveSpec(c, s, file, secret, salt).0.Failure? ==>
      SaveSpec(c, s, file, secret, salt).1 == Some(DiskOrEmpty(file))
  {
    hide Chain, OnDisk, MayOpen, AnchoredCell, Permit, ContextFor, DiskOf, Lawful, Live, EncodeAudit;
    HeldByFile(c, file);
    PermitOn(c, DiskOrEmpty(file), OnDisk(c, file), secret, salt);
  }

  /** After a save the disk is well held, its log extended, its mode kept. */
  lemma SaveKeeps(c: Crypto, s: StoreState, file: Option<RedbDisk>, secret: Option<Text>, salt: Hash)
    requires FileInv(c, file) && StoreInv(c, s)
    ensures var (r, after) := SaveSpec(c, s, file, secret, salt);
      FileInv(c, after) && OnDisk(c, after) == (if r.Success? then s else OnDisk(c, file))
      && OnDisk(c, file).log <= OnDisk(c, after).log
      && ModeKept(CellOf(file), CellOf(after))
  {
    hide SaveSpec, OnDisk, AnchoredCell, Holds, StoreInv, MapCommitment, EncodeAudit, MacInput;
    SaveOn(c, s, file, secret, salt);
    HeldByFile(c, file);
    var (r, after) := SaveSpec(c, s, file, secret, salt);
    if r.Success? {
      var context := ContextFor(c, CellOf(file), secret, salt).value;
      DiskOfHolds(c, s, context);
      OnDiskIs(c, DiskOf(c, s, context), s);
      ModeOfContext(c, CellOf(file), s, OnDisk(c, file), secret, salt);
    } else {
      OnDiskIs(c, DiskOrEmpty(file), OnDisk(c, file));
    }
  }

  lemma ModeOfContext(c: Crypto, cell: CheckpointCell, s: StoreState, d: StoreState, secret: Option<Text>, salt: Hash)
    requires |s.log| < U64_LIMIT && |d.log| < U64_LIMIT && MayOpen(c, cell, d, secret, salt)
    ensures ModeKept(cell, DiskOf(c, s, ContextFor(c, cell, secret, salt).value).checkpoint)
  {
    hide MapCommitment, EncodeAudit, MacInput;
  }

  /** A load leaves the disk holding the same store, in the same mode. */
  lemma LoadKeeps(c: Crypto, file: Option<RedbDisk>, secret: Option<Text>, salt: Hash)
    requires FileInv(c, file)
    ensures var (r, after) := LoadSpec(c, file, secret, salt);
      FileInv(c, after) && OnDisk(c, after) == OnDisk(c, file)
      && (r.Success? ==> file.Some? && r.value == OnDisk(c, file) && StoreInv(c, r.value))
      && ModeKept(CellOf(file), CellOf(after))
  {
    hide LoadSpec, OnDisk, MayOpen, StoreInv, MapCommitment, EncodeAudit, MacInput;
    if file.Some? {
      LoadOn(c, file.value, OnDisk(c, file), secret, salt);
      var (r, after) := LoadSpec(c, file, secret, salt);
      if r.Success? {
        LoadedHolds(c, file.value, OnDisk(c, file), secret, salt);
        OnDiskIs(c, after.value, OnDisk(c, file));
      }
    } else {
      NoFileNoLoad(c, secret, salt);
    }
  }

  lemma NoFileNoLoad(c: Crypto, secret: Option<Text>, salt: Hash)
    ensures LoadSpec(c, None, secret, salt) == (Failure(LoadFailed), None)
  {
  }

  lemma LoadedHolds(c: Crypto, disk: RedbDisk, s: StoreState, secret: Option<Text>, salt: Hash)
    requires Holds(c, disk, s)
    ensures Holds(c, disk.(checkpoint := LoadedCell(c, disk.checkpoint, s, secret, salt)), s)
  {
    hide StoreInv, MapCommitment, EncodeAudit, MacInput, ContextFor;
  }

  /** Every step keeps the invariant, extends the disk log, and keeps the mode. */
  lemma StepKeeps(c: Crypto, w: World, step: Step)
    requires WorldInv(c, w)
    ensures WorldInv(c, Next(c, w, step))
    ensures OnDisk(c, w.file).log <= OnDisk(c, Next(c, w, step).file).log
    ensures ModeKept(CellOf(w.file), CellOf(Next(c, w, step).file))
  {
    hide SaveSpec, LoadSpec, OnDisk, StoreInv, FileInv, Apply;
    EmptyInv(c);
    match step
    case Create(h) =>
    case Load(h, secret, salt) => LoadKeeps(c, w.file, secret, salt);
    case Save(h, secret, salt) =>
      if h in w.handles {
        SaveKeeps(c, w.handles[h], w.file, secret, salt);
      }
    case Operate(h, op) =>
      if h in w.handles {
        StepKeepsInv(c, w.handles[h], op);
      }
    case Open(h, secret, salt) =>
      LoadKeeps(c, w.file, secret, salt);
      SaveKeeps(c, EMPTY, w.file, secret, salt);
  }

  /** The same for every run from every well-formed world, the empty one included. */
  lemma {:induction false} RunKeeps(c: Crypto, w: World, steps: seq<Step>)
    requires WorldInv(c, w)
    ensures WorldInv(c, RunSteps(c, w, steps))
    ensures OnDisk(c, w.file).log <= OnDisk(c, RunSteps(c, w, steps).file).log
    ensures ModeKept(CellOf(w.file), CellOf(RunSteps(c, w, steps).file))
    decreases |steps|
  {
    hide WorldInv, OnDisk, Next, CellOf;
    if steps != [] {
      RunKeeps(c, w, steps[..|steps| - 1]);
      StepKeeps(c, RunSteps(c, w, steps[..|steps| - 1]), steps[|steps| - 1]);
    }
  }

  lemma StartIsWellFormed(c: Crypto)
    ensures WorldInv(c, START)
  {
  }

  /**
   No lost records: an id that was live on disk and is gone, or has another
   owner, was deleted by an entry that the run added to the disk log.
   */
  lemma NothingLost(c: Crypto, w: World, steps: seq<Step>, id: Text) returns (i: nat)
    requires WorldInv(c, w)
    requires var after := OnDisk(c, RunSteps(c, w, steps).file).records;
      id in OnDisk(c, w.file).records
      && !(id in after && after[id].ownerId == OnDisk(c, w.file).records[id].ownerId)
    ensures var before, after := OnDisk(c, w.file).log, OnDisk(c, RunSteps(c, w, steps).file).log;
      |before| <= i < |after| && after[i].recordId == id && after[i].action == Delete
  {
    hide OnDisk, RunSteps, Chain, Lawful, Live, AnchoredCell, WellKeyed;
    RunKeeps(c, w, steps);
    var d, e := OnDisk(c, w.file), OnDisk(c, RunSteps(c, w, steps).file);
    HeldByFile(c, w.file);
    HeldByFile(c, RunSteps(c, w, steps).file);
    assert OwnersOf(d.records) == Live(d.log) && id in Live(d.log);
    assert OwnersOf(e.records) == Live(e.log);
    i := LostMeansDeleted(d.log, e.log, id);
  }
}
