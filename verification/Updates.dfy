/**
 Lost updates: when a record on disk can be replaced by a save whose log holds no
 newer Delete of it, and when it cannot.
 */
module Updates {
  import opened Base
  import opened Bytes
  import opened Crypto
  import opened Audit
  import opened Checkpoint
  import opened Records
  import opened StoreSpec
  import opened RedbSpec
  import opened Protocol
  import opened Lineage

  // ---- Runs that remember -------------------------------------------------

  /** A run remembered together with every store state a handle ever had. */
  datatype Recorded = Recorded(world: World, past: set<StoreState>)

  ghost function NextRecorded(c: Crypto, r: Recorded, step: Step): Recorded {
    var w := Next(c, r.world, step);
    Recorded(w, r.past + w.handles.Values)
  }

  ghost function RunRecorded(c: Crypto, steps: seq<Step>): Recorded
    decreases |steps|
  {
    if steps == [] then Recorded(START, {EMPTY})
    else NextRecorded(c, RunRecorded(c, steps[..|steps| - 1]), steps[|steps| - 1])
  }

  /**
   An accepted write that would give a log which some remembered state already
   has, while that state holds something else under the id.
   */
  ghost predicate Clashes(c: Crypto, past: set<StoreState>, s: StoreState, op: StoreOp) {
    op.OpWrite? && WriteStep(c, s, op.record, op.now).1.Success?
    && exists u :: u in past && u.log == Apply(c, s, op).log && !HoldsRecord(u, op.record.id, op.record)
  }

  predicate HoldsRecord(s: StoreState, id: Text, r: Record) {
    id in s.records && s.records[id] == r
  }

  ghost predicate ClashingStep(c: Crypto, r: Recorded, step: Step) {
    step.Operate? && step.h in r.world.handles && Clashes(c, r.past, r.world.handles[step.h], step.op)
  }

  /** No write of the run clashes. Reads, deletes, loads and saves are free. */
  ghost predicate Unclashing(c: Crypto, steps: seq<Step>)
    decreases |steps|
  {
    steps != [] ==>
      var n := |steps| - 1;
      Unclashing(c, steps[..n]) && !ClashingStep(c, RunRecorded(c, steps[..n]), steps[n])
  }

  /** `s` is initial, or one lawful entry beyond a remembered state. */
  ghost predicate Grown(c: Crypto, past: set<StoreState>, s: StoreState) {
    s.log == [] || exists p, e :: p in past && Grows(c, p, s, e)
  }

  /** One log, one state. */
  ghost predicate LogDetermines(past: set<StoreState>) {
    forall s, t | s in past && t in past && s.log == t.log :: s == t
  }

  ghost predicate Determined(c: Crypto, past: set<StoreState>) {
    LogDetermines(past) && forall s | s in past :: StoreInv(c, s) && Grown(c, past, s)
  }

  ghost predicate RecordedInv(c: Crypto, r: Recorded) {
    WorldInv(c, r.world) && Determined(c, r.past)
    && r.world.handles.Values <= r.past
    && OnDisk(c, r.world.file) in r.past && EMPTY in r.past
  }

  /** Two states that grew by one entry from one log hold the same, a written record aside. */
  lemma SameGrowth(c: Crypto, past: set<StoreState>, s: StoreState, t: StoreState, e: AuditEntry, u: StoreState)
    requires Determined(c, past) && s in past && u in past && Grows(c, s, t, e) && u.log == t.log
    requires e.action.Write? && e.recordId in t.records ==> HoldsRecord(u, e.recordId, t.records[e.recordId])
    requires WellKeyed(t.records)
    ensures u == t
  {
    hide StoreInv, Validate, Sealed, LawfulEntry;
    assert Grown(c, past, u);
    var p, d :| p in past && Grows(c, p, u, d);
    SnocCancel(p.log, d, s.log, e);
    SameOwners(s, t, e, u);
  }

  lemma SnocCancel<T>(a: seq<T>, x: T, b: seq<T>, y: T)
    requires a + [x] == b + [y]
    ensures a == b && x == y
  {
    assert |a| == |b|;
    assert a == (a + [x])[..|a|] && b == (b + [y])[..|b|];
    assert (a + [x])[|a|] == x && (b + [y])[|b|] == y;
  }

  lemma SameOwners(s: StoreState, t: StoreState, e: AuditEntry, u: StoreState)
    requires OwnersOf(t.records) == Replayed(OwnersOf(s.records), e) == OwnersOf(u.records)
    requires forall id | id in s.records && id in t.records :: t.records[id] == s.records[id]
    requires forall id | id in s.records && id in u.records :: u.records[id] == s.records[id]
    requires e.action.Write? && e.recordId in t.records ==>
      e.recordId in u.records && u.records[e.recordId] == t.records[e.recordId]
    ensures u.records == t.records
  {
    assert t.records.Keys == OwnersOf(t.records).Keys == OwnersOf(u.records).Keys == u.records.Keys;
    forall id | id in t.records
      ensures u.records[id] == t.records[id]
    {
      if id !in s.records {
        assert id in OwnersOf(t.records);
        assert e.action.Write? && id == e.recordId;
      }
    }
  }

  lemma GrownMore(c: Crypto, past: set<StoreState>, u: StoreState, t: StoreState)
    requires Grown(c, past, u)
    ensures Grown(c, past + {t}, u)
  {
    hide Grows;
    if u.log != [] {
      var p, e :| p in past && Grows(c, p, u, e);
      assert p in past + {t};
    }
  }

  lemma NewIsGrown(c: Crypto, past: set<StoreState>, s: StoreState, t: StoreState, e: AuditEntry)
    requires s in past && Grows(c, s, t, e)
    ensures Grown(c, past + {t}, t) && t.log == s.log + [e]
  {
    assert t.log == s.log + [e];
    hide Grows;
    assert s in past + {t} && Grows(c, s, t, e);
  }

  lemma GrownBy(c: Crypto, past: set<StoreState>, s: StoreState, t: StoreState, e: AuditEntry)
    requires Determined(c, past) && s in past && Grows(c, s, t, e)
    requires forall u | u in past && u.log == t.log :: u == t
    ensures Determined(c, past + {t})
  {
    hide StoreInv, Grows, Grown;
    GrowthKeepsInv(c, s, t, e);
    NewIsGrown(c, past, s, t, e);
    forall u | u in past
      ensures Grown(c, past + {t}, u)
    {
      GrownMore(c, past, u, t);
    }
  }

  lemma OperationRecorded(c: Crypto, r: Recorded, h: nat, op: StoreOp)
    requires RecordedInv(c, r) && h in r.world.handles && !Clashes(c, r.past, r.world.handles[h], op)
    ensures Determined(c, r.past + {Apply(c, r.world.handles[h], op)})
  {
    hide StoreInv, Grows, FileInv, Grown, LogDetermines, OnDisk, Clashes, Apply;
    var s := r.world.handles[h];
    var t := Apply(c, s, op);
    if t == s {
      assert r.past + {t} == r.past;
    } else {
      var e := GrowthEntry(c, s, op);
      forall u | u in r.past && u.log == t.log
        ensures u == t
      {
        WrittenHeld(c, r.past, s, op, e, u);
        SameGrowth(c, r.past, s, t, e, u);
      }
      GrownBy(c, r.past, s, t, e);
    }
  }

  /** Unless the write clashes, a remembered state with the new log holds the new record. */
  lemma WrittenHeld(c: Crypto, past: set<StoreState>, s: StoreState, op: StoreOp, e: AuditEntry, u: StoreState)
    requires StoreInv(c, s) && Grows(c, s, Apply(c, s, op), e)
    requires !Clashes(c, past, s, op) && u in past && u.log == Apply(c, s, op).log
    ensures WellKeyed(Apply(c, s, op).records)
    ensures e.action.Write? && e.recordId in Apply(c, s, op).records ==> 
      HoldsRecord(u, e.recordId, Apply(c, s, op).records[e.recordId])
  {
    hide Chain, Lawful, Live, Validate, Sealed, LawfulEntry, Replayed, HashInput;
    assert Apply(c, s, op).log[|s.log|] == e;
  }

  lemma GrowthEntry(c: Crypto, s: StoreState, op: StoreOp) returns (e: AuditEntry)
    requires StoreInv(c, s) && Apply(c, s, op) != s
    ensures Grows(c, s, Apply(c, s, op), e)
  {
    hide Chain, Lawful, Live, HashInput, LawfulEntry, Replayed;
    StepGrows(c, s, op);
    e :| Grows(c, s, Apply(c, s, op), e);
  }

  /** The disk holds its old store, an old handle, or the empty store. */
  lemma DiskComesFrom(c: Crypto, w: World, step: Step)
    requires WorldInv(c, w)
    ensures OnDisk(c, Next(c, w, step).file) in w.handles.Values + {OnDisk(c, w.file), EMPTY}
  {
    hide SaveSpec, LoadSpec, OnDisk, StoreInv, FileInv, Apply;
    EmptyInv(c);
    match step
    case Load(h, secret, salt) => LoadKeeps(c, w.file, secret, salt);
    case Save(h, secret, salt) =>
      if h in w.handles {
        SaveKeeps(c, w.handles[h], w.file, secret, salt);
      }
    case Open(h, secret, salt) =>
      LoadKeeps(c, w.file, secret, salt);
      SaveKeeps(c, EMPTY, w.file, secret, salt);
    case _ =>
  }

  /** A handle holds an old handle, the disk, the empty store, or one operation more. */
  lemma HandlesComeFrom(c: Crypto, w: World, step: Step)
    requires WorldInv(c, w)
    ensures Next(c, w, step).handles.Values <= w.handles.Values + {OnDisk(c, w.file), EMPTY}
      + if step.Operate? && step.h in w.handles then {Apply(c, w.handles[step.h], step.op)} else {}
  {
    hide SaveSpec, LoadSpec, OnDisk, StoreInv, FileInv, Apply;
    if step.Load? || step.Open? {
      LoadKeeps(c, w.file, step.secret, step.salt);
    }
  }

  lemma StepRecorded(c: Crypto, r: Recorded, step: Step)
    requires RecordedInv(c, r)
    requires !ClashingStep(c, r, step)
    ensures RecordedInv(c, NextRecorded(c, r, step))
  {
    hide Next, WorldInv, OnDisk, Determined, Apply, Clashes;
    StepKeeps(c, r.world, step);
    DiskComesFrom(c, r.world, step);
    HandlesComeFrom(c, r.world, step);
    if step.Operate? && step.h in r.world.handles {
      OperationRecorded(c, r, step.h, step.op);
      OperatedHandle(c, r.world, step);
      var t := Apply(c, r.world.handles[step.h], step.op);
      PastAfter(c, r, step, {t});
    } else {
      PastAfter(c, r, step, {});
      assert r.past + {} == r.past;
    }
  }

  lemma OperatedHandle(c: Crypto, w: World, step: Step)
    requires step.Operate? && step.h in w.handles
    ensures Apply(c, w.handles[step.h], step.op) in Next(c, w, step).handles.Values
  {
    hide Apply;
    assert step.h in Next(c, w, step).handles;
  }

  lemma PastAfter(c: Crypto, r: Recorded, step: Step, more: set<StoreState>)
    requires RecordedInv(c, r) && more <= Next(c, r.world, step).handles.Values
    requires Next(c, r.world, step).handles.Values <= r.world.handles.Values + {OnDisk(c, r.world.file), EMPTY} + more
    ensures NextRecorded(c, r, step).past == r.past + more
  {
    hide WorldInv, Determined, OnDisk, Next;
  }

  lemma {:induction false} RunRecordedKeeps(c: Crypto, steps: seq<Step>)
    requires Unclashing(c, steps)
    ensures RecordedInv(c, RunRecorded(c, steps))
    decreases |steps|
  {
    hide RecordedInv, NextRecorded, ClashingStep;
    if steps == [] {
      StartRecorded(c);
    } else {
      RunRecordedKeeps(c, steps[..|steps| - 1]);
      StepRecorded(c, RunRecorded(c, steps[..|steps| - 1]), steps[|steps| - 1]);
    }
  }

  lemma StartRecorded(c: Crypto)
    ensures RecordedInv(c, Recorded(START, {EMPTY}))
  {
    hide StoreInv;
    EmptyInv(c);
  }

  /** Along such a run what was remembered stays so, and the disk log grows. */
  lemma {:induction false} RecordedMonotone(c: Crypto, steps: seq<Step>, k: nat)
    requires k <= |steps| && Unclashing(c, steps)
    ensures Unclashing(c, steps[..k])
    ensures RunRecorded(c, steps[..k]).past <= RunRecorded(c, steps).past
    ensures OnDisk(c, RunRecorded(c, steps[..k]).world.file).log <= OnDisk(c, RunRecorded(c, steps).world.file).log
    decreases |steps|
  {
    hide OnDisk, ClashingStep, Next;
    var n := |steps| - 1;
    if k < |steps| {
      RecordedMonotone(c, steps[..n], k);
      assert steps[..n][..k] == steps[..k];
      RunRecordedKeeps(c, steps[..n]);
      assert WorldInv(c, RunRecorded(c, steps[..n]).world) by { RecordedWorld(c, RunRecorded(c, steps[..n])); }
      StepKeeps(c, RunRecorded(c, steps[..n]).world, steps[n]);
    } else {
      assert steps[..k] == steps;
    }
  }

  lemma RecordedWorld(c: Crypto, r: Recorded)
    requires RecordedInv(c, r)
    ensures WorldInv(c, r.world) && Determined(c, r.past) && OnDisk(c, r.world.file) in r.past
  {
    hide WorldInv, Determined, OnDisk;
  }

  ghost predicate DeletedIn(log: Log, start: nat, id: Text) {
    exists i :: start <= i < |log| && log[i].recordId == id && log[i].action.Delete?
  }

  /** Growth that is no delete of an id leaves its record alone. */
  lemma GrowthLeaves(c: Crypto, p: StoreState, t: StoreState, e: AuditEntry, id: Text)
    requires Grows(c, p, t, e) && id in p.records
    requires !(e.recordId == id && e.action.Delete?)
    ensures id in t.records && t.records[id] == p.records[id]
  {
    hide Sealed, WellKeyed;
    assert id in OwnersOf(p.records) && id in OwnersOf(t.records);
  }

  lemma {:induction false} RecordStays(c: Crypto, past: set<StoreState>, s: StoreState, t: StoreState, id: Text)
    requires Determined(c, past) && s in past && t in past
    requires s.log <= t.log && id in s.records && !DeletedIn(t.log, |s.log|, id)
    ensures id in t.records && t.records[id] == s.records[id]
    decreases |t.log|
  {
    hide StoreInv, Grows;
    if t.log != s.log {
      assert Grown(c, past, t);
      var p, e :| p in past && Grows(c, p, t, e);
      GrowsLog(c, p, t, e);
      assert t.log[|p.log|] == e;
      if DeletedIn(p.log, |s.log|, id) {
        DeletedStays(p.log, t.log, |s.log|, id);
      }
      RecordStays(c, past, s, p, id);
      GrowthLeaves(c, p, t, e, id);
    }
  }

  lemma DeletedStays(log: Log, longer: Log, start: nat, id: Text)
    requires log <= longer && DeletedIn(log, start, id)
    ensures DeletedIn(longer, start, id)
  {
    var i :| start <= i < |log| && log[i].recordId == id && log[i].action.Delete?;
    assert longer[i] == log[i];
  }

  lemma GrowsLog(c: Crypto, p: StoreState, t: StoreState, e: AuditEntry)
    requires Grows(c, p, t, e)
    ensures t.log == p.log + [e]
  {
  }

  /**
   No lost updates. On every run without a clashing write, a record on disk after
   some steps is still there, unchanged in every field, at any later point whose
   log holds no newer Delete of it, whoever saved in between.
   */
  lemma RecordsSurvive(c: Crypto, steps: seq<Step>, k: nat, id: Text)
    requires k <= |steps| && Unclashing(c, steps)
    requires id in OnDisk(c, RunRecorded(c, steps[..k]).world.file).records
    requires !DeletedIn(OnDisk(c, RunRecorded(c, steps).world.file).log,
                        |OnDisk(c, RunRecorded(c, steps[..k]).world.file).log|, id)
    ensures var before := OnDisk(c, RunRecorded(c, steps[..k]).world.file);
      HoldsRecord(OnDisk(c, RunRecorded(c, steps).world.file), id, before.records[id])
  {
    hide OnDisk, RecordedInv, RunRecorded, Unclashing, Determined, DeletedIn;
    RecordedMonotone(c, steps, k);
    RunRecordedKeeps(c, steps[..k]);
    RunRecordedKeeps(c, steps);
    RecordedWorld(c, RunRecorded(c, steps[..k]));
    RecordedWorld(c, RunRecorded(c, steps));
    var before, after := OnDisk(c, RunRecorded(c, steps[..k]).world.file), OnDisk(c, RunRecorded(c, steps).world.file);
    RecordStays(c, RunRecorded(c, steps).past, before, after, id);
  }

  /** A clock reading used for no entry so far rules a clash out. */
  lemma FreshClockNeverClashes(c: Crypto, past: set<StoreState>, s: StoreState, op: StoreOp)
    requires forall u, i | u in past && 0 <= i < |u.log| :: u.log[i].timestamp != op.now
    ensures !Clashes(c, past, s, op)
  {
    hide HashInput, Validate;
    if op.OpWrite? && WriteStep(c, s, op.record, op.now).1.Success? {
      assert Apply(c, s, op).log[|s.log|].timestamp == op.now;
    }
  }

  // ---- Which operations gave a state its records --------------------------

  /** Operation `i` of the history is a write that the store accepted. */
  ghost predicate AcceptedWrite(c: Crypto, ops: seq<StoreOp>, i: nat) {
    i < |ops| && ops[i].OpWrite? && WriteStep(c, Run(c, EMPTY, ops[..i]), ops[i].record, ops[i].now).1.Success?
  }

  /** Where in the log the entry of operation `i` lies. */
  ghost function EntryIndex(c: Crypto, ops: seq<StoreOp>, i: nat): nat
    requires i <= |ops|
  {
    |Run(c, EMPTY, ops[..i]).log|
  }

  lemma RunSnoc(c: Crypto, s: StoreState, ops: seq<StoreOp>, i: nat)
    requires i < |ops|
    ensures Run(c, s, ops[..i + 1]) == Apply(c, Run(c, s, ops[..i]), ops[i])
  {
    hide Apply;
    assert ops[..i + 1][..i] == ops[..i];
  }

  lemma HistoryInv(c: Crypto, ops: seq<StoreOp>)
    ensures StoreInv(c, Run(c, EMPTY, ops))
  {
    hide StoreInv;
    EmptyInv(c);
    RunKeepsInv(c, EMPTY, ops);
  }

  lemma {:induction false} HistoryPrefix(c: Crypto, ops: seq<StoreOp>, i: nat)
    requires i <= |ops|
    ensures Run(c, EMPTY, ops[..i]).log <= Run(c, EMPTY, ops).log
    decreases |ops|
  {
    hide Apply, StoreInv;
    if i < |ops| {
      var n := |ops| - 1;
      HistoryPrefix(c, ops[..n], i);
      assert ops[..n][..i] == ops[..i];
      HistoryInv(c, ops[..n]);
      StepKeepsInv(c, Run(c, EMPTY, ops[..n]), ops[n]);
    } else {
      assert ops[..i] == ops;
    }
  }

  /** An accepted write leaves its entry at its index and its record under its id. */
  lemma WriteLeaves(c: Crypto, ops: seq<StoreOp>, i: nat)
    requires AcceptedWrite(c, ops, i)
    ensures i < |ops| && ops[i].OpWrite?
    ensures var k, log := EntryIndex(c, ops, i), Run(c, EMPTY, ops).log;
      k < |log| && log[k].recordId == ops[i].record.id && log[k].action.Write?
      && Run(c, EMPTY, ops[..i + 1]).log == log[..k + 1]
    ensures HoldsRecord(Run(c, EMPTY, ops[..i + 1]), ops[i].record.id, ops[i].record)
  {
    hide Run, Validate, HashInput;
    RunSnoc(c, EMPTY, ops, i);
    HistoryPrefix(c, ops, i + 1);
    var s := Run(c, EMPTY, ops[..i]);
    var e := NewEntry(c, ops[i].record.id, ops[i].record.ownerId, Write, ops[i].now, Head(s.log));
    assert Run(c, EMPTY, ops[..i + 1]).log == s.log + [e];
    PrefixAt(s.log, e, Run(c, EMPTY, ops).log);
  }

  lemma PrefixAt(log: Log, e: AuditEntry, longer: Log)
    requires log + [e] <= longer
    ensures longer[|log|] == e && longer[..|log| + 1] == log + [e]
  {
  }

  /** What one operation does to a record that is there, or comes to be there. */
  lemma OperationOn(c: Crypto, s: StoreState, op: StoreOp, id: Text)
    requires StoreInv(c, s)
    ensures var t := Apply(c, s, op);
      id in s.records && !DeletedIn(t.log, |s.log|, id) ==> HoldsRecord(t, id, s.records[id])
    ensures id in Apply(c, s, op).records ==> !DeletedIn(Apply(c, s, op).log, |s.log|, id)
    ensures id in Apply(c, s, op).records && !HoldsRecord(s, id, Apply(c, s, op).records[id]) ==>
      op.OpWrite? && WriteStep(c, s, op.record, op.now).1.Success? && op.record == Apply(c, s, op).records[id]
  {
    hide Chain, Lawful, Live, Validate, HashInput, Head;
    var t := Apply(c, s, op);
    if |t.log| > |s.log| && t.log[|s.log|].recordId == id && t.log[|s.log|].action.Delete? {
      assert DeletedIn(t.log, |s.log|, id);
    }
  }

  /** A record of the present was written by some operation and not deleted since. */
  lemma {:induction false} Origin(c: Crypto, ops: seq<StoreOp>, id: Text) returns (i: nat)
    requires id in Run(c, EMPTY, ops).records
    ensures i < |ops| && AcceptedWrite(c, ops, i) && ops[i].record == Run(c, EMPTY, ops).records[id]
      && ops[i].record.id == id
    ensures !DeletedIn(Run(c, EMPTY, ops).log, EntryIndex(c, ops, i), id)
    decreases |ops|
  {
    hide Apply, DeletedIn, StoreInv, WriteStep;
    var n := |ops| - 1;
    var s, t := Run(c, EMPTY, ops[..n]), Run(c, EMPTY, ops);
    HistoryInv(c, ops[..n]);
    HistoryInv(c, ops);
    UnderItsId(c, t, id);
    OperationOn(c, s, ops[n], id);
    if HoldsRecord(s, id, t.records[id]) {
      i := Origin(c, ops[..n], id);
      assert ops[..n][..i] == ops[..i];
      HistoryPrefix(c, ops, n);
      HistoryPrefix(c, ops[..n], i);
      DeletedSplit(s.log, t.log, EntryIndex(c, ops, i), id);
    } else {
      i := n;
    }
  }

  lemma UnderItsId(c: Crypto, s: StoreState, id: Text)
    requires StoreInv(c, s) && id in s.records
    ensures s.records[id].id == id
  {
    hide Chain, Lawful, Live;
  }

  /** A delete after an index of the longer log lies in the shorter one or after it. */
  lemma DeletedSplit(log: Log, longer: Log, start: nat, id: Text)
    requires log <= longer && start <= |log|
    ensures DeletedIn(longer, start, id) <==> DeletedIn(log, start, id) || DeletedIn(longer, |log|, id)
  {
    if DeletedIn(longer, start, id) {
      var i :| start <= i < |longer| && longer[i].recordId == id && longer[i].action.Delete?;
      assert i < |log| ==> log[i] == longer[i];
    }
    if DeletedIn(log, start, id) {
      DeletedStays(log, longer, start, id);
    }
    if DeletedIn(longer, |log|, id) {
      var i :| |log| <= i < |longer| && longer[i].recordId == id && longer[i].action.Delete?;
    }
  }

  /** What was written and not deleted since is there. */
  lemma {:induction false} WrittenStays(c: Crypto, ops: seq<StoreOp>, i: nat)
    requires AcceptedWrite(c, ops, i)
    requires !DeletedIn(Run(c, EMPTY, ops).log, EntryIndex(c, ops, i), ops[i].record.id)
    ensures HoldsRecord(Run(c, EMPTY, ops), ops[i].record.id, ops[i].record)
    decreases |ops|
  {
    hide Apply, DeletedIn, StoreInv, WriteStep;
    var n := |ops| - 1;
    if i == n {
      WriteLeaves(c, ops, i);
      assert ops[..n + 1] == ops;
    } else {
      var s, t := Run(c, EMPTY, ops[..n]), Run(c, EMPTY, ops);
      assert ops[..n][..i] == ops[..i];
      HistoryInv(c, ops[..n]);
      HistoryPrefix(c, ops, n);
      HistoryPrefix(c, ops[..n], i);
      DeletedSplit(s.log, t.log, EntryIndex(c, ops, i), ops[i].record.id);
      WrittenStays(c, ops[..n], i);
      OperationOn(c, s, ops[n], ops[i].record.id);
    }
  }

  lemma {:induction false} LiveAfterWrite(log: Log, k: nat, n: nat, id: Text)
    requires k < n <= |log| && log[k].recordId == id && log[k].action.Write? && !DeletedIn(log, k, id)
    ensures id in Live(log[..n])
    decreases n
  {
    assert log[..n][..n - 1] == log[..n - 1];
    if k < n - 1 {
      LiveAfterWrite(log, k, n - 1, id);
    }
  }

  /** Between two writes of an id there is a delete. */
  lemma WrittenTwice(log: Log, k: nat, l: nat, id: Text)
    requires Lawful(log) && k < |log| && l < |log| && k != l
    requires log[k].recordId == id && log[k].action.Write? && log[l].recordId == id && log[l].action.Write?
    ensures DeletedIn(log, if k < l then k else l, id)
  {
    var first, second := if k < l then k else l, if k < l then l else k;
    LawfulAt(log, second);
    if !DeletedIn(log, first, id) {
      LiveAfterWrite(log, first, second, id);
    }
  }

  // ---- The exact condition ------------------------------------------------

  /** Two accepted writes gave one log and different records. */
  ghost predicate ClashAt(c: Crypto, a: seq<StoreOp>, b: seq<StoreOp>, i: nat, j: nat) {
    i < |a| && j < |b| && a[i].OpWrite? && b[j].OpWrite? && AcceptedWrite(c, a, i) && AcceptedWrite(c, b, j)
    && Run(c, EMPTY, a[..i + 1]).log == Run(c, EMPTY, b[..j + 1]).log && a[i].record != b[j].record
  }

  /** A clash over an id which the longer log never deleted afterwards. */
  ghost predicate ClashOver(c: Crypto, a: seq<StoreOp>, b: seq<StoreOp>, id: Text) {
    exists i: nat, j: nat :: ClashAt(c, a, b, i, j) && a[i].record.id == id
      && !DeletedIn(Run(c, EMPTY, b).log, EntryIndex(c, a, i), id)
  }

  /** The record is not there any more, or another one is, and no newer Delete says so. */
  ghost predicate Loses(s: StoreState, t: StoreState, id: Text) {
    id in s.records && !DeletedIn(t.log, |s.log|, id) && !HoldsRecord(t, id, s.records[id])
  }

  /** Two histories over one log clash wherever the second one lost a record. */
  lemma LossClashes(c: Crypto, a: seq<StoreOp>, b: seq<StoreOp>, id: Text)
    requires Run(c, EMPTY, a).log <= Run(c, EMPTY, b).log && Loses(Run(c, EMPTY, a), Run(c, EMPTY, b), id)
    ensures ClashOver(c, a, b, id)
  {
    hide Run, DeletedIn, StoreInv, AcceptedWrite;
    var s, t := Run(c, EMPTY, a), Run(c, EMPTY, b);
    var i := Origin(c, a, id);
    WriteLeaves(c, a, i);
    var k := EntryIndex(c, a, i);
    DeletedSplit(s.log, t.log, k, id);
    HistoryInv(c, b);
    assert t.log[k] == s.log[k];
    assert id in t.records by { LiveRecord(c, t, k, id); }
    var j := Origin(c, b, id);
    WriteLeaves(c, b, j);
    var l := EntryIndex(c, b, j);
    if k != l {
      LawfulLog(c, t);
      WrittenTwice(t.log, k, l, id);
    }
    assert s.log[..k + 1] == t.log[..k + 1];
    assert ClashAt(c, a, b, i, j);
  }

  lemma LawfulLog(c: Crypto, s: StoreState)
    requires StoreInv(c, s)
    ensures Lawful(s.log)
  {
    hide Chain, Lawful, Live, WellKeyed;
  }

  lemma LiveRecord(c: Crypto, s: StoreState, k: nat, id: Text)
    requires StoreInv(c, s) && k < |s.log| && s.log[k].recordId == id && s.log[k].action.Write?
    requires !DeletedIn(s.log, k, id)
    ensures id in s.records
  {
    hide Chain, Lawful, Live, WellKeyed;
    LiveAfterWrite(s.log, k, |s.log|, id);
    assert s.log[..|s.log|] == s.log;
    assert id in OwnersOf(s.records);
  }

  /** Clashing writes have one entry at one index, on both logs. */
  lemma ClashIndex(c: Crypto, a: seq<StoreOp>, b: seq<StoreOp>, i: nat, j: nat)
    requires ClashAt(c, a, b, i, j)
    ensures i < |a| && j < |b| && EntryIndex(c, a, i) == EntryIndex(c, b, j)
    ensures a[i].record.id == b[j].record.id
  {
    hide Run, AcceptedWrite;
    WriteLeaves(c, a, i);
    WriteLeaves(c, b, j);
    var s, t := Run(c, EMPTY, a), Run(c, EMPTY, b);
    SameEnd(s.log, EntryIndex(c, a, i), t.log, EntryIndex(c, b, j));
  }

  lemma SameEnd(s: Log, k: nat, t: Log, l: nat)
    requires k < |s| && l < |t| && s[..k + 1] == t[..l + 1]
    ensures k == l && s[k] == t[l]
  {
    assert |s[..k + 1]| == k + 1 && |t[..l + 1]| == l + 1;
    assert s[..k + 1][k] == s[k] && t[..l + 1][l] == t[l];
  }

  lemma ClashLoses(c: Crypto, a: seq<StoreOp>, b: seq<StoreOp>, id: Text)
    requires Run(c, EMPTY, a).log <= Run(c, EMPTY, b).log && ClashOver(c, a, b, id)
    ensures Loses(Run(c, EMPTY, a), Run(c, EMPTY, b), id)
  {
    hide Run, DeletedIn, AcceptedWrite, EntryIndex;
    var s, t := Run(c, EMPTY, a), Run(c, EMPTY, b);
    var i: nat, j: nat :| ClashAt(c, a, b, i, j) && a[i].record.id == id && !DeletedIn(t.log, EntryIndex(c, a, i), id);
    ClashIndex(c, a, b, i, j);
    WriteLeaves(c, a, i);
    DeletedSplit(s.log, t.log, EntryIndex(c, a, i), id);
    WrittenStays(c, a, i);
    WrittenStays(c, b, j);
  }

  // ---- Two saves in a row -------------------------------------------------

  /** The first save is accepted, and then the second. */
  ghost predicate BothAccepted(c: Crypto, w: World, h: nat, g: nat, secret: Option<Text>, salt: Hash) {
    h in w.handles && g in w.handles && SaveSpec(c, w.handles[h], w.file, secret, salt).0.Success?
    && SaveSpec(c, w.handles[g], Next(c, w, Save(h, secret, salt)).file, secret, salt).0.Success?
  }

  lemma TwoSaves(c: Crypto, w: World, h: nat, g: nat, secret: Option<Text>, salt: Hash)
    requires WorldInv(c, w) && BothAccepted(c, w, h, g, secret, salt)
    ensures var first := Next(c, w, Save(h, secret, salt));
      OnDisk(c, first.file) == w.handles[h]
      && OnDisk(c, Next(c, first, Save(g, secret, salt)).file) == w.handles[g]
    ensures w.handles[h].log <= w.handles[g].log
  {
    hide SaveSpec, OnDisk, StoreInv, FileInv, MaySave;
    HandleInv(c, w, h);
    HandleInv(c, w, g);
    WorldFile(c, w);
    SaveKeeps(c, w.handles[h], w.file, secret, salt);
    var file := SaveSpec(c, w.handles[h], w.file, secret, salt).1;
    SaveKeeps(c, w.handles[g], file, secret, salt);
    SaveOn(c, w.handles[g], file, secret, salt);
  }

  /**
   The exact condition. In any world of handles with histories `a` and `b`, two
   accepted saves in a row lose the record under an id, with no newer Delete in the
   log, if and only if the histories clash over that id.
   */
  lemma LossExactly(c: Crypto, w: World, h: nat, g: nat, a: seq<StoreOp>, b: seq<StoreOp>, id: Text,
                    secret: Option<Text>, salt: Hash)
    requires WorldInv(c, w) && BothAccepted(c, w, h, g, secret, salt)
    requires w.handles[h] == Run(c, EMPTY, a) && w.handles[g] == Run(c, EMPTY, b)
    ensures var first := Next(c, w, Save(h, secret, salt));
      var second := Next(c, first, Save(g, secret, salt));
      Loses(OnDisk(c, first.file), OnDisk(c, second.file), id) <==> ClashOver(c, a, b, id)
  {
    hide Run, Loses, ClashOver, WorldInv, SaveSpec, Next, OnDisk;
    TwoSaves(c, w, h, g, secret, salt);
    if Loses(w.handles[h], w.handles[g], id) {
      LossClashes(c, a, b, id);
    }
    if ClashOver(c, a, b, id) {
      ClashLoses(c, a, b, id);
    }
  }

  /** Whoever may save and extends the disk is accepted, and so is whoever extends him. */
  lemma ExtendingSaves(c: Crypto, w: World, h: nat, g: nat, secret: Option<Text>, salt: Hash)
    requires WorldInv(c, w) && h in w.handles && g in w.handles && FileInv(c, w.file)
    requires MaySave(c, w.file, secret, salt) && (secret.Some? ==> NoZeroStamp(w.handles[h].records))
    requires OnDisk(c, w.file).log <= w.handles[h].log <= w.handles[g].log && |w.handles[g].log| < U64_LIMIT
    ensures BothAccepted(c, w, h, g, secret, salt)
  {
    hide SaveSpec, OnDisk, StoreInv, FileInv, MayOpen, NoZeroStamp;
    HandleInv(c, w, h);
    HandleInv(c, w, g);
    SaveOn(c, w.handles[h], w.file, secret, salt);
    SaveSyncs(c, w.handles[h], w.file, secret, salt);
    var file := SaveSpec(c, w.handles[h], w.file, secret, salt).1;
    SaltUnused(c, CellOf(file), w.handles[h], secret, ZeroHash(), salt);
    SaveOn(c, w.handles[g], file, secret, salt);
  }

  /** So any clashing pair whose logs extend the disk loses the record, with both saves accepted. */
  lemma UpdateLost(c: Crypto, w: World, h: nat, g: nat, a: seq<StoreOp>, b: seq<StoreOp>, id: Text,
                   secret: Option<Text>, salt: Hash)
    requires WorldInv(c, w) && h in w.handles && g in w.handles && FileInv(c, w.file)
    requires MaySave(c, w.file, secret, salt) && (secret.Some? ==> NoZeroStamp(w.handles[h].records))
    requires OnDisk(c, w.file).log <= w.handles[h].log <= w.handles[g].log && |w.handles[g].log| < U64_LIMIT
    requires w.handles[h] == Run(c, EMPTY, a) && w.handles[g] == Run(c, EMPTY, b) && ClashOver(c, a, b, id)
    ensures BothAccepted(c, w, h, g, secret, salt)
    ensures var first := Next(c, w, Save(h, secret, salt));
      var second := Next(c, first, Save(g, secret, salt));
      OnDisk(c, first.file) == w.handles[h] && OnDisk(c, second.file) == w.handles[g]
      && Loses(OnDisk(c, first.file), OnDisk(c, second.file), id)
  {
    hide Run, Loses, ClashOver, WorldInv, BothAccepted, Next, OnDisk, MaySave, NoZeroStamp;
    ExtendingSaves(c, w, h, g, secret, salt);
    TwoSaves(c, w, h, g, secret, salt);
    LossExactly(c, w, h, g, a, b, id, secret, salt);
  }

  // ---- Every handle has a history -----------------------------------------

  ghost predicate HasHistory(c: Crypto, s: StoreState) {
    exists ops :: s == Run(c, EMPTY, ops)
  }

  ghost predicate Historic(c: Crypto, w: World) {
    HasHistory(c, OnDisk(c, w.file)) && forall h | h in w.handles :: HasHistory(c, w.handles[h])
  }

  lemma HistoryGrows(c: Crypto, s: StoreState, op: StoreOp)
    requires HasHistory(c, s)
    ensures HasHistory(c, Apply(c, s, op))
  {
    hide Apply;
    var ops :| s == Run(c, EMPTY, ops);
    assert (ops + [op])[..|ops|] == ops;
    assert Apply(c, s, op) == Run(c, EMPTY, ops + [op]);
  }

  lemma NoHistory(c: Crypto)
    ensures HasHistory(c, EMPTY)
  {
    assert EMPTY == Run(c, EMPTY, []);
  }

  lemma HistoricStep(c: Crypto, w: World, step: Step)
    requires WorldInv(c, w) && Historic(c, w)
    ensures Historic(c, Next(c, w, step))
  {
    hide Next, WorldInv, OnDisk, HasHistory, Apply;
    NoHistory(c);
    DiskComesFrom(c, w, step);
    HandlesComeFrom(c, w, step);
    if step.Operate? && step.h in w.handles {
      HistoryGrows(c, w.handles[step.h], step.op);
    }
    var v := Next(c, w, step);
    forall h | h in v.handles
      ensures HasHistory(c, v.handles[h])
    {
      assert v.handles[h] in v.handles.Values;
    }
  }

  /** On every run every handle, and the disk, is the outcome of some operations. */
  lemma {:induction false} RunHistoric(c: Crypto, steps: seq<Step>)
    ensures WorldInv(c, RunSteps(c, START, steps)) && Historic(c, RunSteps(c, START, steps))
    decreases |steps|
  {
    hide Next, WorldInv, OnDisk, HasHistory;
    StartIsWellFormed(c);
    RunKeeps(c, START, steps);
    if steps == [] {
      NoHistory(c);
      NothingOnDisk(c);
    } else {
      RunHistoric(c, steps[..|steps| - 1]);
      HistoricStep(c, RunSteps(c, START, steps[..|steps| - 1]), steps[|steps| - 1]);
    }
  }

  /**
   The exact condition for runs. Between any point of a run from nothing and its end
   the file loses the record under an id, with no newer Delete in the log, if and only
   if the histories of the two files clash over that id.
   */
  lemma RunLossExactly(c: Crypto, steps: seq<Step>, k: nat, a: seq<StoreOp>, b: seq<StoreOp>, id: Text)
    requires k <= |steps|
    requires OnDisk(c, RunSteps(c, START, steps[..k]).file) == Run(c, EMPTY, a)
    requires OnDisk(c, RunSteps(c, START, steps).file) == Run(c, EMPTY, b)
    ensures Loses(OnDisk(c, RunSteps(c, START, steps[..k]).file), OnDisk(c, RunSteps(c, START, steps).file), id)
       <==> ClashOver(c, a, b, id)
  {
    hide Run, Loses, ClashOver, WorldInv, Next, OnDisk;
    LogGrows(c, steps, k);
    if Loses(Run(c, EMPTY, a), Run(c, EMPTY, b), id) {
      LossClashes(c, a, b, id);
    }
    if ClashOver(c, a, b, id) {
      ClashLoses(c, a, b, id);
    }
  }

  lemma {:induction false} LogGrows(c: Crypto, steps: seq<Step>, k: nat)
    requires k <= |steps|
    ensures OnDisk(c, RunSteps(c, START, steps[..k]).file).log <= OnDisk(c, RunSteps(c, START, steps).file).log
    decreases |steps|
  {
    hide WorldInv, Next, OnDisk;
    if k == |steps| {
      assert steps[..k] == steps;
    } else {
      var n := |steps| - 1;
      assert steps[..n][..k] == steps[..k];
      LogGrows(c, steps[..n], k);
      RunHistoric(c, steps[..n]);
      StepKeeps(c, RunSteps(c, START, steps[..n]), steps[n]);
    }
  }

  lemma NothingOnDisk(c: Crypto)
    ensures OnDisk(c, START.file) == EMPTY
  {
  }

  // ---- A run in which it happens ------------------------------------------

  /** Open a new file, load a second handle, write once through each, and save both. */
  function ClashingRun(a: Record, b: Record, now: u64, salt: Hash): seq<Step> {
    [Open(0, None, salt), Load(1, None, salt), Operate(0, OpWrite(a, now)), Operate(1, OpWrite(b, now)),
     Save(0, None, salt), Save(1, None, salt)]
  }

  lemma OneWrite(c: Crypto, r: Record, now: u64)
    requires Validate(r).Success?
    ensures Run(c, EMPTY, [OpWrite(r, now)]) == Apply(c, EMPTY, OpWrite(r, now))
    ensures Run(c, EMPTY, [OpWrite(r, now)]).log == [NewEntry(c, r.id, r.ownerId, Write, now, ZeroHash())]
    ensures AcceptedWrite(c, [OpWrite(r, now)], 0) && HoldsRecord(Run(c, EMPTY, [OpWrite(r, now)]), r.id, r)
  {
    hide HashInput, Validate, ZeroHash;
    var ops := [OpWrite(r, now)];
    assert ops[..0] == [];
    assert Run(c, EMPTY, ops[..0]) == EMPTY;
  }

  lemma SameIdentity(a: Record, b: Record)
    requires a.id == b.id && a.ownerId == b.ownerId
    ensures Validate(a) == Validate(b)
  {
  }

  /** Two different records of one id and owner, written at one reading, clash. */
  lemma OneWriteEach(c: Crypto, a: Record, b: Record, now: u64)
    requires a.id == b.id && a.ownerId == b.ownerId && a != b && Validate(a).Success?
    ensures var x, y := [OpWrite(a, now)], [OpWrite(b, now)];
      Run(c, EMPTY, x).log == Run(c, EMPTY, y).log && |Run(c, EMPTY, y).log| == 1 && ClashOver(c, x, y, a.id)
  {
    hide Run, HashInput, AcceptedWrite, Apply;
    SameIdentity(a, b);
    OneWrite(c, a, now);
    OneWrite(c, b, now);
    var x, y := [OpWrite(a, now)], [OpWrite(b, now)];
    assert x[..1] == x && y[..1] == y;
    assert ClashAt(c, x, y, 0, 0);
    var log := Run(c, EMPTY, y).log;
    assert !DeletedIn(log, EntryIndex(c, x, 0), a.id) by {
      assert forall i | 0 <= i < |log| :: log[i].action.Write?;
    }
  }

  lemma UpdateLostFromStart(c: Crypto, a: Record, b: Record, now: u64, salt: Hash)
    requires a.id == b.id && a.ownerId == b.ownerId && a != b && Validate(a).Success?
    ensures var steps := ClashingRun(a, b, now, salt);
      var before, after := OnDisk(c, RunSteps(c, START, steps[..5]).file), OnDisk(c, RunSteps(c, START, steps).file);
      HoldsRecord(before, a.id, a) && HoldsRecord(after, a.id, b) && Loses(before, after, a.id)
  {
    hide OnDisk, SaveSpec, LoadSpec, Next, WorldInv, InSync, Validate, Apply, FileInv, Run, Loses, ClashOver, MaySave;
    var steps := ClashingRun(a, b, now, salt);
    var w := Next(c, Next(c, START, steps[0]), steps[1]);
    var v := Next(c, Next(c, w, steps[2]), steps[3]);
    TwoHandles(c, salt);
    WritesThrough(c, w, a, b, now);
    OneWriteEach(c, a, b, now);
    SameIdentity(a, b);
    OneWrite(c, a, now);
    OneWrite(c, b, now);
    LegacySaver(c, w.file, salt);
    UpdateLost(c, v, 0, 1, [OpWrite(a, now)], [OpWrite(b, now)], a.id, None, salt);
    SixSteps(c, START, steps);
  }

  lemma WritesThrough(c: Crypto, w: World, a: Record, b: Record, now: u64)
    requires WorldInv(c, w) && 0 in w.handles && 1 in w.handles
    ensures var v := Next(c, Next(c, w, Operate(0, OpWrite(a, now))), Operate(1, OpWrite(b, now)));
      WorldInv(c, v) && v.file == w.file && 0 in v.handles && 1 in v.handles
      && v.handles[0] == Apply(c, w.handles[0], OpWrite(a, now))
      && v.handles[1] == Apply(c, w.handles[1], OpWrite(b, now))
  {
    hide WorldInv, Apply, OnDisk, CellOf;
    StepKeeps(c, w, Operate(0, OpWrite(a, now)));
    StepKeeps(c, Next(c, w, Operate(0, OpWrite(a, now))), Operate(1, OpWrite(b, now)));
  }

  lemma LegacySaver(c: Crypto, file: Option<RedbDisk>, salt: Hash)
    requires InSync(c, file, EMPTY, None)
    ensures FileInv(c, file) && MaySave(c, file, None, salt) && OnDisk(c, file) == EMPTY
  {
    hide OnDisk, FileInv, StoreInv, MayOpen;
    SaltUnused(c, CellOf(file), EMPTY, None, ZeroHash(), salt);
  }

  lemma SixSteps(c: Crypto, w: World, s: seq<Step>)
    requires |s| == 6
    ensures RunSteps(c, w, s[..5]) == Next(c, Next(c, Next(c, Next(c, Next(c, w, s[0]), s[1]), s[2]), s[3]), s[4])
    ensures RunSteps(c, w, s) == Next(c, RunSteps(c, w, s[..5]), s[5])
  {
    hide RunSteps, Next;
    LastStep(c, w, s, 0);
    LastStep(c, w, s, 1);
    LastStep(c, w, s, 2);
    LastStep(c, w, s, 3);
    LastStep(c, w, s, 4);
    LastStep(c, w, s, 5);
    assert s[..6] == s;
  }

  /** After an open and a load both handles are empty and in sync with the new file. */
  lemma TwoHandles(c: Crypto, salt: Hash)
    ensures var w := Next(c, Next(c, START, Open(0, None, salt)), Load(1, None, salt));
      WorldInv(c, w) && 0 in w.handles && 1 in w.handles && w.handles[0] == w.handles[1] == OnDisk(c, w.file) == EMPTY
      && InSync(c, w.file, EMPTY, None)
  {
    hide OnDisk, SaveSpec, LoadSpec, WorldInv, InSync, FileInv, StoreInv, DiskOf, MayOpen;
    EmptyInv(c);
    StartIsWellFormed(c);
    StepKeeps(c, START, Open(0, None, salt));
    StepKeeps(c, Next(c, START, Open(0, None, salt)), Load(1, None, salt));
    assert FileInv(c, None) && OnDisk(c, None) == EMPTY by { MissingFile(c); }
    SaveOn(c, EMPTY, None, None, salt);
    assert MayOpen(c, CellOf(None), EMPTY, None, salt) by { NewFileOpens(c, salt); }
    SaveSyncs(c, EMPTY, None, None, salt);
    SaveThenLoad(c, EMPTY, None, None, salt, salt);
    var file := SaveSpec(c, EMPTY, None, None, salt).1;
    assert OnDisk(c, file) == EMPTY by { SyncedStore(c, file, EMPTY, None); }
  }

  lemma NewFileOpens(c: Crypto, salt: Hash)
    ensures MayOpen(c, CellOf(None), EMPTY, None, salt)
  {
  }

  lemma SyncedStore(c: Crypto, file: Option<RedbDisk>, s: StoreState, secret: Option<Text>)
    requires InSync(c, file, s, secret)
    ensures OnDisk(c, file) == s
  {
    hide OnDisk, FileInv, StoreInv, MayOpen;
  }
}
