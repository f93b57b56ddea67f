/**
 Consequences of the save protocol: round trips, forked handles, lost updates,
 and what the checkpoint lets a reader conclude about the whole history.
 */
module Lineage {
  import opened Base
  import opened Bytes
  import opened Crypto
  import opened Audit
  import opened AuditTable
  import opened Commitment
  import opened Checkpoint
  import opened Records
  import opened RecordTable
  import opened StoreSpec
  import opened RedbSpec
  import opened Protocol

  // ---- Round trips -------------------------------------------------------

  /** The file holds exactly `s`, under a checkpoint this caller wrote. */
  ghost predicate InSync(c: Crypto, file: Option<RedbDisk>, s: StoreState, secret: Option<Text>) {
    FileInv(c, file) && file.Some? && OnDisk(c, file) == s && StoreInv(c, s) && |s.log| < U64_LIMIT
    && CellOf(file) != Absent && MayOpen(c, CellOf(file), s, secret, ZeroHash())
  }

  lemma SaltUnused(c: Crypto, cell: CheckpointCell, s: StoreState, secret: Option<Text>, salt: Hash, other: Hash)
    requires |s.log| < U64_LIMIT && cell != Absent
    ensures MayOpen(c, cell, s, secret, salt) <==> MayOpen(c, cell, s, secret, other)
  {
    hide MacInput, MapCommitment;
  }

  lemma SealedStoreOpens(c: Crypto, cell: CheckpointCell, s: StoreState, d: StoreState, secret: Option<Text>,
          salt: Hash)
    requires |s.log| < U64_LIMIT && |d.log| < U64_LIMIT && MayOpen(c, cell, d, secret, salt)
    ensures MayOpen(c, DiskOf(c, s, ContextFor(c, cell, secret, salt).value).checkpoint, s, secret, ZeroHash())
    ensures DiskOf(c, s, ContextFor(c, cell, secret, salt).value).checkpoint != Absent
  {
    hide MacInput, MapCommitment, EncodeAudit;
  }

  /** A successful save leaves the file in sync with the handle. */
  lemma SaveSyncs(c: Crypto, s: StoreState, file: Option<RedbDisk>, secret: Option<Text>, salt: Hash)
    requires FileInv(c, file) && StoreInv(c, s) && SaveSpec(c, s, file, secret, salt).0.Success?
    ensures InSync(c, SaveSpec(c, s, file, secret, salt).1, s, secret)
  {
    hide SaveSpec, OnDisk, FileInv, StoreInv, MapCommitment, EncodeAudit, MacInput, MayOpen, CellFor, ContextFor;
    SaveOn(c, s, file, secret, salt);
    SaveKeeps(c, s, file, secret, salt);
    SealedStoreOpens(c, CellOf(file), s, OnDisk(c, file), secret, salt);
  }

  /**
   Loading what was just saved, in the same mode and with the same secret,
   returns the handle and changes nothing, exactly when no record carries a
   zero stamp. A zero stamp is written but never read back.
   */
  lemma SaveThenLoad(c: Crypto, s: StoreState, file: Option<RedbDisk>, secret: Option<Text>, salt: Hash, later: Hash)
    requires FileInv(c, file) && StoreInv(c, s) && SaveSpec(c, s, file, secret, salt).0.Success?
    ensures var saved := SaveSpec(c, s, file, secret, salt).1;
      if NoZeroStamp(s.records) then LoadSpec(c, saved, secret, later) == (Success(s), saved)
      else LoadSpec(c, saved, secret, later).0.Failure? && LoadSpec(c, saved, secret, later).1 == saved
  {
    hide SaveSpec, LoadSpec, OnDisk, StoreInv, MapCommitment, EncodeAudit, MacInput, MayOpen, AnchoredCell;
    SaveSyncs(c, s, file, secret, salt);
    var saved := SaveSpec(c, s, file, secret, salt).1;
    LoadOn(c, saved.value, s, secret, later);
    SaltUnused(c, saved.value.checkpoint, s, secret, ZeroHash(), later);
    assert saved.value.(checkpoint := saved.value.checkpoint) == saved.value;
  }

  /**
   A sole, up-to-date handle operates and saves: the save succeeds exactly when
   the mode is legacy or no record on disk has a zero stamp, and memory and disk
   are in sync again.
   */
  lemma OperateThenSave(c: Crypto, s: StoreState, file: Option<RedbDisk>, op: StoreOp, secret: Option<Text>, salt: Hash)
    requires InSync(c, file, s, secret) && |s.log| + 1 < U64_LIMIT
    ensures SaveSpec(c, Apply(c, s, op), file, secret, salt).0.Success? <==> (secret.Some? ==> NoZeroStamp(s.records))
    ensures SaveSpec(c, Apply(c, s, op), file, secret, salt).0.Success? ==>
      InSync(c, SaveSpec(c, Apply(c, s, op), file, secret, salt).1, Apply(c, s, op), secret)
  {
    hide SaveSpec, OnDisk, FileInv, StoreInv, MayOpen, Apply, Grows;
    StepKeepsInv(c, s, op);
    StepLength(c, s, op);
    SaveOn(c, Apply(c, s, op), file, secret, salt);
    SaltUnused(c, CellOf(file), s, secret, ZeroHash(), salt);
    if SaveSpec(c, Apply(c, s, op), file, secret, salt).0.Success? {
      SaveSyncs(c, Apply(c, s, op), file, secret, salt);
    }
  }

  lemma StepLength(c: Crypto, s: StoreState, op: StoreOp)
    requires StoreInv(c, s)
    ensures |Apply(c, s, op).log| <= |s.log| + 1
  {
    hide Apply, StoreInv;
    StepGrows(c, s, op);
  }

  // ---- Forked handles ----------------------------------------------------

  ghost predicate Forked(a: Log, b: Log) {
    !(a <= b) && !(b <= a)
  }

  predicate Replaces(step: Step, h: nat) {
    (step.Create? || step.Load? || step.Open?) && step.h == h
  }

  lemma {:induction false} HandleGrows(c: Crypto, w: World, steps: seq<Step>, h: nat)
    requires WorldInv(c, w) && h in w.handles
    requires forall i | 0 <= i < |steps| :: !Replaces(steps[i], h)
    ensures h in RunSteps(c, w, steps).handles
    ensures w.handles[h].log <= RunSteps(c, w, steps).handles[h].log
    decreases |steps|
  {
    hide WorldInv, Apply, LoadSpec, SaveSpec;
    if steps != [] {
      var n := |steps| - 1;
      HandleGrows(c, w, steps[..n], h);
      RunKeeps(c, w, steps[..n]);
      var v := RunSteps(c, w, steps[..n]);
      if steps[n].Operate? && steps[n].h == h {
        assert StoreInv(c, v.handles[h]) by { HandleInv(c, v, h); }
        StepKeepsInv(c, v.handles[h], steps[n].op);
      }
      assert !Replaces(steps[n], h);
    }
  }

  lemma HandleInv(c: Crypto, w: World, h: nat)
    requires WorldInv(c, w) && h in w.handles
    ensures StoreInv(c, w.handles[h])
  {
    hide StoreInv, FileInv;
  }

  /**
   A handle whose log has parted from the disk can never save again, whatever
   anyone does, until it is replaced by a fresh load.
   */
  lemma ForkedNeverSaves(c: Crypto, w: World, steps: seq<Step>, h: nat, secret: Option<Text>, salt: Hash)
    requires WorldInv(c, w) && h in w.handles && Forked(OnDisk(c, w.file).log, w.handles[h].log)
    requires forall i | 0 <= i < |steps| :: !Replaces(steps[i], h)
    ensures var v := RunSteps(c, w, steps);
      h in v.handles && SaveSpec(c, v.handles[h], v.file, secret, salt).0.Failure?
      && OnDisk(c, Next(c, v, Save(h, secret, salt)).file) == OnDisk(c, v.file)
  {
    hide WorldInv, OnDisk, SaveSpec, LoadSpec, Apply, MaySave, StoreInv, FileInv;
    HandleGrows(c, w, steps, h);
    RunKeeps(c, w, steps);
    var v := RunSteps(c, w, steps);
    HandleInv(c, v, h);
    assert FileInv(c, v.file) by { WorldFile(c, v); }
    SaveOn(c, v.handles[h], v.file, secret, salt);
    SaveKeeps(c, v.handles[h], v.file, secret, salt);
  }

  lemma WorldFile(c: Crypto, w: World)
    requires WorldInv(c, w)
    ensures FileInv(c, w.file)
  {
    hide FileInv;
  }

  // ---- A zero stamp in authenticated mode --------------------------------

  ghost predicate Frozen(c: Crypto, file: Option<RedbDisk>) {
    FileInv(c, file) && CellOf(file).Authenticated? && !NoZeroStamp(OnDisk(c, file).records)
  }

  /** How a file freezes: an authenticated save of a store that holds a zero stamp. */
  lemma ZeroStampFreezes(c: Crypto, s: StoreState, file: Option<RedbDisk>, secret: Text, salt: Hash)
    requires FileInv(c, file) && StoreInv(c, s) && !NoZeroStamp(s.records)
    requires SaveSpec(c, s, file, Some(secret), salt).0.Success?
    ensures Frozen(c, SaveSpec(c, s, file, Some(secret), salt).1)
  {
    hide SaveSpec, OnDisk, FileInv, StoreInv, MayOpen, NoZeroStamp, MapCommitment, EncodeAudit, MacInput;
    SaveOn(c, s, file, Some(secret), salt);
    SaveKeeps(c, s, file, Some(secret), salt);
    SavedMayOpen(c, s, file, Some(secret), salt);
    DerivedContext(c, CellOf(file), OnDisk(c, file), secret, salt);
  }

  lemma SavedMayOpen(c: Crypto, s: StoreState, file: Option<RedbDisk>, secret: Option<Text>, salt: Hash)
    requires FileInv(c, file) && StoreInv(c, s) && SaveSpec(c, s, file, secret, salt).0.Success?
    ensures |OnDisk(c, file).log| < U64_LIMIT && MayOpen(c, CellOf(file), OnDisk(c, file), secret, salt)
  {
    hide SaveSpec, OnDisk, FileInv, StoreInv, MayOpen;
    SaveOn(c, s, file, secret, salt);
  }

  lemma DerivedContext(c: Crypto, cell: CheckpointCell, s: StoreState, secret: Text, salt: Hash)
    requires |s.log| < U64_LIMIT && MayOpen(c, cell, s, Some(secret), salt)
    ensures ContextFor(c, cell, Some(secret), salt).value.Some?
  {
    hide MapCommitment, MacInput;
  }

  lemma FrozenRefuses(c: Crypto, file: Option<RedbDisk>, s: StoreState, secret: Option<Text>, salt: Hash)
    requires Frozen(c, file) && StoreInv(c, s)
    ensures SaveSpec(c, s, file, secret, salt).0.Failure? && SaveSpec(c, s, file, secret, salt).1 == file
    ensures LoadSpec(c, file, secret, salt).0.Failure? && LoadSpec(c, file, secret, salt).1 == file
  {
    hide SaveSpec, LoadSpec, OnDisk, StoreInv, Holds, MacInput, MapCommitment;
    SaveOn(c, s, file, secret, salt);
    LoadOn(c, file.value, OnDisk(c, file), secret, salt);
  }

  /**
   A frozen file stays frozen: after every run nothing has changed, and every load
   and save, in any mode and with any secret, is refused.
   */
  lemma {:induction false} FrozenForever(c: Crypto, w: World, steps: seq<Step>)
    requires WorldInv(c, w) && Frozen(c, w.file)
    ensures RunSteps(c, w, steps).file == w.file
    ensures forall s, secret, salt | StoreInv(c, s) ::
      SaveSpec(c, s, RunSteps(c, w, steps).file, secret, salt).0.Failure?
    ensures forall secret, salt :: LoadSpec(c, RunSteps(c, w, steps).file, secret, salt).0.Failure?
    decreases |steps|
  {
    hide WorldInv, Frozen, Apply, SaveSpec, LoadSpec, StoreInv;
    if steps != [] {
      var n := |steps| - 1;
      FrozenForever(c, w, steps[..n]);
      RunKeeps(c, w, steps[..n]);
      var v := RunSteps(c, w, steps[..n]);
      EmptyInv(c);
      match steps[n]
      case Save(h, secret, salt) =>
        if h in v.handles {
          HandleInv(c, v, h);
          FrozenRefuses(c, v.file, v.handles[h], secret, salt);
        }
      case Load(h, secret, salt) => FrozenRefuses(c, v.file, EMPTY, secret, salt);
      case Open(h, secret, salt) =>
        FrozenRefuses(c, v.file, EMPTY, secret, salt);
        assert v.file.Some? by { FrozenFile(c, v.file); }
      case _ =>
    }
    forall s, secret, salt | StoreInv(c, s)
      ensures SaveSpec(c, s, w.file, secret, salt).0.Failure?
    {
      FrozenRefuses(c, w.file, s, secret, salt);
    }
    forall secret, salt
      ensures LoadSpec(c, w.file, secret, salt).0.Failure?
    {
      EmptyInv(c);
      FrozenRefuses(c, w.file, EMPTY, secret, salt);
    }
  }

  /** Create a file in authenticated mode, write one record stamped zero, and save it. */
  function FreezingRun(r: Record, now: u64, secret: Text, salt: Hash): seq<Step> {
    [Open(0, Some(secret), salt), Operate(0, OpWrite(r, now)), Save(0, Some(secret), salt)]
  }

  /** A run from nothing that freezes its file, for every record and every secret that makes a key. */
  lemma FrozenFromStart(c: Crypto, r: Record, now: u64, secret: Text, salt: Hash)
    requires Validate(r).Success? && r.createdAt == 0 && MakeContext(c, secret, salt).Success?
    ensures WorldInv(c, RunSteps(c, START, FreezingRun(r, now, secret, salt)))
    ensures Frozen(c, RunSteps(c, START, FreezingRun(r, now, secret, salt)).file)
  {
    hide OnDisk, SaveSpec, LoadSpec, StoreInv, FileInv, Frozen, Apply, InSync, Validate, WorldInv;
    var steps := FreezingRun(r, now, secret, salt);
    StartIsWellFormed(c);
    RunKeeps(c, START, steps);
    ThreeSteps(c, steps);
    NewAuthenticatedFile(c, secret, salt);
    var file := SaveSpec(c, EMPTY, None, Some(secret), salt).1;
    var s := Apply(c, EMPTY, OpWrite(r, now));
    OperateThenSave(c, EMPTY, file, OpWrite(r, now), Some(secret), salt);
    EmptyInv(c);
    StepKeepsInv(c, EMPTY, OpWrite(r, now));
    ZeroStampWritten(c, r, now);
    assert FileInv(c, file) by { SyncedFileInv(c, file, EMPTY, Some(secret)); }
    ZeroStampFreezes(c, s, file, secret, salt);
  }

  lemma ThreeSteps(c: Crypto, steps: seq<Step>)
    requires |steps| == 3
    ensures RunSteps(c, START, steps) == Next(c, Next(c, Next(c, START, steps[0]), steps[1]), steps[2])
  {
    hide RunSteps, Next;
    LastStep(c, START, steps, 0);
    LastStep(c, START, steps, 1);
    LastStep(c, START, steps, 2);
    assert steps[..3] == steps;
  }

  lemma NewAuthenticatedFile(c: Crypto, secret: Text, salt: Hash)
    requires MakeContext(c, secret, salt).Success?
    ensures var (r, file) := SaveSpec(c, EMPTY, None, Some(secret), salt);
      r.Success? && InSync(c, file, EMPTY, Some(secret))
  {
    hide OnDisk, SaveSpec, StoreInv, InSync, MakeContext;
    EmptyInv(c);
    assert FileInv(c, None) && OnDisk(c, None) == EMPTY by { MissingFile(c); }
    SaveOn(c, EMPTY, None, Some(secret), salt);
    SaveSyncs(c, EMPTY, None, Some(secret), salt);
  }

  lemma MissingFile(c: Crypto)
    ensures FileInv(c, None) && OnDisk(c, None) == EMPTY
  {
  }

  lemma ZeroStampWritten(c: Crypto, r: Record, now: u64)
    requires Validate(r).Success? && r.createdAt == 0
    ensures !NoZeroStamp(Apply(c, EMPTY, OpWrite(r, now)).records)
  {
    hide Validate, Appended;
    assert r.id in Apply(c, EMPTY, OpWrite(r, now)).records;
  }

  lemma SyncedFileInv(c: Crypto, file: Option<RedbDisk>, s: StoreState, secret: Option<Text>)
    requires InSync(c, file, s, secret)
    ensures FileInv(c, file)
  {
    hide OnDisk, FileInv, StoreInv, MayOpen;
  }

  lemma FrozenFile(c: Crypto, file: Option<RedbDisk>)
    requires Frozen(c, file)
    ensures file.Some?
  {
  }

  /**
   What one handle saved another one loads: in any world, after an accepted save a load
   in the same mode puts the saved store into its handle, and touches nothing else.
   */
  lemma SavedIsLoaded(c: Crypto, w: World, h: nat, g: nat, secret: Option<Text>, salt: Hash, later: Hash)
    requires WorldInv(c, w) && h in w.handles && SaveSpec(c, w.handles[h], w.file, secret, salt).0.Success?
    requires NoZeroStamp(w.handles[h].records)
    ensures var saved := Next(c, w, Step.Save(h, secret, salt));
      Next(c, saved, Step.Load(g, secret, later)) == World(saved.file, w.handles[g := w.handles[h]])
      && Next(c, saved, Step.Open(g, secret, later)) == Next(c, saved, Step.Load(g, secret, later))
      && saved.handles == w.handles && OnDisk(c, saved.file) == w.handles[h]
  {
    hide SaveSpec, LoadSpec, OnDisk, FileInv, StoreInv, NoZeroStamp;
    SaveThenLoad(c, w.handles[h], w.file, secret, salt, later);
    SaveKeeps(c, w.handles[h], w.file, secret, salt);
    SavedSomething(c, w.handles[h], w.file, secret, salt);
  }

  lemma SavedSomething(c: Crypto, s: StoreState, file: Option<RedbDisk>, secret: Option<Text>, salt: Hash)
    requires SaveSpec(c, s, file, secret, salt).0.Success?
    ensures SaveSpec(c, s, file, secret, salt).1.Some?
  {
    hide Permit, DiskOf;
  }
}
