/**
 The in-memory store as a value: its operations as steps, what the audit log
 replays to, and what every run of operations keeps.
 */
module StoreSpec {
  import opened Base
  import opened Bytes
  import opened Crypto
  import opened Audit
  import opened Envelope
  import opened Records

  datatype StoreState = StoreState(records: RecordMap, log: Log)

  const EMPTY: StoreState := StoreState(map[], [])

  function Appended(c: Crypto, log: Log, id: Text, requester: Text, action: AuditAction, now: u64): Log {
    log + [NewEntry(c, id, requester, action, now, Head(log))]
  }

  function WriteStep(c: Crypto, s: StoreState, r: Record, now: u64): (StoreState, Outcome<()>) {
    if Validate(r).Failure? then (s, Validate(r))
    else if r.id in s.records then (s, Failure(AlreadyExists))
    else (StoreState(s.records[r.id := r], Appended(c, s.log, r.id, r.ownerId, Write, now)), Success(()))
  }

  function ReadStep(c: Crypto, s: StoreState, id: Text, requester: Text, now: u64): (StoreState, Outcome<Record>) {
    if id !in s.records then (s, Failure(NotFound))
    else if IsReadableBy(s.records[id], requester) then
      (s.(log := Appended(c, s.log, id, requester, ReadGranted, now)), Success(s.records[id]))
    else
      (s.(log := Appended(c, s.log, id, requester, ReadDenied, now)), Failure(AccessDenied))
  }

  function DeleteStep(c: Crypto, s: StoreState, id: Text, requester: Text, now: u64): (StoreState, Outcome<()>) {
    if id !in s.records then (s, Failure(NotFound))
    else if s.records[id].ownerId != requester then (s, Failure(AccessDenied))
    else (StoreState(s.records - {id}, Appended(c, s.log, id, requester, Delete, now)), Success(()))
  }

  function OwnedBy(records: RecordMap, owner: Text): set<Record> {
    set id | id in records && records[id].ownerId == owner :: records[id]
  }

  datatype StoreOp =
    | OpWrite(record: Record, now: u64)
    | OpRead(id: Text, requester: Text, now: u64)
    | OpDelete(id: Text, requester: Text, now: u64)

  function Apply(c: Crypto, s: StoreState, op: StoreOp): StoreState {
    match op
    case OpWrite(r, now) => WriteStep(c, s, r, now).0
    case OpRead(id, requester, now) => ReadStep(c, s, id, requester, now).0
    case OpDelete(id, requester, now) => DeleteStep(c, s, id, requester, now).0
  }

  function Run(c: Crypto, s: StoreState, ops: seq<StoreOp>): StoreState
    decreases |ops|
  {
    if ops == [] then s else Apply(c, Run(c, s, ops[..|ops| - 1]), ops[|ops| - 1])
  }

  // ---- Replay ------------------------------------------------------------

  function Replayed(live: map<Text, Text>, e: AuditEntry): map<Text, Text> {
    match e.action
    case Write => live[e.recordId := e.requesterId]
    case Delete => live - {e.recordId}
    case _ => live
  }

  /** The ids a log leaves live, with their owners. */
  function Live(log: Log): map<Text, Text>
    decreases |log|
  {
    if log == [] then map[] else Replayed(Live(log[..|log| - 1]), log[|log| - 1])
  }

  /** An entry the engine may log when the ids `live` are live. */
  predicate LawfulEntry(live: map<Text, Text>, e: AuditEntry) {
    match e.action
    case Write => e.recordId !in live && e.recordId != [] && e.requesterId != []
    case ReadGranted => e.recordId in live
    case ReadDenied => e.recordId in live && live[e.recordId] != e.requesterId
    case Delete => e.recordId in live && live[e.recordId] == e.requesterId
  }

  predicate Lawful(log: Log)
    decreases |log|
  {
    log != [] ==> Lawful(log[..|log| - 1]) && LawfulEntry(Live(log[..|log| - 1]), log[|log| - 1])
  }

  /** What every reachable store satisfies. */
  ghost predicate StoreInv(c: Crypto, s: StoreState) {
    Chain(c, s.log) && Lawful(s.log) && WellKeyed(s.records) && OwnersOf(s.records) == Live(s.log)
  }

  /** The one shape in which a store changes: a lawful entry, replayed. */
  ghost predicate Grows(c: Crypto, s: StoreState, t: StoreState, e: AuditEntry) {
    t.log == s.log + [e] && Sealed(c, e) && e.prevHash == Head(s.log)
    && LawfulEntry(OwnersOf(s.records), e)
    && OwnersOf(t.records) == Replayed(OwnersOf(s.records), e)
    && WellKeyed(t.records)
    && (forall id | id in s.records && id in t.records :: t.records[id] == s.records[id])
  }

  lemma LogGrowth(log: Log, e: AuditEntry)
    ensures Live(log + [e]) == Replayed(Live(log), e)
    ensures Lawful(log + [e]) <==> Lawful(log) && LawfulEntry(Live(log), e)
  {
    assert (log + [e])[..|log|] == log;
  }

  lemma GrowthKeepsInv(c: Crypto, s: StoreState, t: StoreState, e: AuditEntry)
    requires StoreInv(c, s) && Grows(c, s, t, e)
    ensures StoreInv(c, t)
  {
    hide Sealed, Chain, LawfulEntry, Replayed, Validate;
    LogGrowth(s.log, e);
    ChainExtends(c, s.log, e);
  }

  lemma WriteGrows(c: Crypto, s: StoreState, r: Record, now: u64)
    requires WellKeyed(s.records) && WriteStep(c, s, r, now).1.Success?
    ensures Grows(c, s, WriteStep(c, s, r, now).0, NewEntry(c, r.id, r.ownerId, Write, now, Head(s.log)))
  {
    hide Sealed, HashInput;
  }

  lemma ReadGrows(c: Crypto, s: StoreState, id: Text, requester: Text, now: u64)
    requires WellKeyed(s.records) && id in s.records
    ensures var action := if IsReadableBy(s.records[id], requester) then ReadGranted else ReadDenied;
      Grows(c, s, ReadStep(c, s, id, requester, now).0, NewEntry(c, id, requester, action, now, Head(s.log)))
  {
    hide Sealed, HashInput;
  }

  lemma DeleteGrows(c: Crypto, s: StoreState, id: Text, requester: Text, now: u64)
    requires WellKeyed(s.records) && DeleteStep(c, s, id, requester, now).1.Success?
    ensures Grows(c, s, DeleteStep(c, s, id, requester, now).0, NewEntry(c, id, requester, Delete, now, Head(s.log)))
  {
    hide Sealed, HashInput;
  }

  /** Every operation leaves the store alone or grows it by one entry. */
  lemma StepGrows(c: Crypto, s: StoreState, op: StoreOp)
    requires StoreInv(c, s)
    ensures Apply(c, s, op) == s || exists e :: Grows(c, s, Apply(c, s, op), e)
  {
    hide Grows, Chain, Live, Lawful, NewEntry;
    match op
    case OpWrite(r, now) =>
      if WriteStep(c, s, r, now).1.Success? {
        WriteGrows(c, s, r, now);
      }
    case OpRead(id, requester, now) =>
      if id in s.records {
        ReadGrows(c, s, id, requester, now);
      }
    case OpDelete(id, requester, now) =>
      if DeleteStep(c, s, id, requester, now).1.Success? {
        DeleteGrows(c, s, id, requester, now);
      }
  }

  lemma StepKeepsInv(c: Crypto, s: StoreState, op: StoreOp)
    requires StoreInv(c, s)
    ensures StoreInv(c, Apply(c, s, op))
    ensures s.log <= Apply(c, s, op).log
  {
    hide Apply, StoreInv;
    StepGrows(c, s, op);
    if Apply(c, s, op) != s {
      var e :| Grows(c, s, Apply(c, s, op), e);
      GrowthKeepsInv(c, s, Apply(c, s, op), e);
    }
  }

  /** In every reachable store the live ids and owners are the replay of the log. */
  lemma {:induction false} RunKeepsInv(c: Crypto, s: StoreState, ops: seq<StoreOp>)
    requires StoreInv(c, s)
    ensures StoreInv(c, Run(c, s, ops)) && s.log <= Run(c, s, ops).log
    decreases |ops|
  {
    hide StoreInv, Apply;
    if ops != [] {
      RunKeepsInv(c, s, ops[..|ops| - 1]);
      StepKeepsInv(c, Run(c, s, ops[..|ops| - 1]), ops[|ops| - 1]);
    }
  }

  /** Owners always read their records; anybody else reads Noise and nothing else. */
  lemma ReadersOf(c: Crypto, s: StoreState, id: Text, requester: Text, now: u64)
    requires id in s.records
    ensures var r := s.records[id];
      ReadStep(c, s, id, requester, now).1
        == if requester == r.ownerId || r.tier == Noise then Success(r) else Failure(AccessDenied)
  {
    hide Appended;
  }

  // ---- What a lawful log says --------------------------------------------

  lemma {:induction false} LawfulAt(log: Log, i: nat)
    requires Lawful(log) && i < |log|
    ensures LawfulEntry(Live(log[..i]), log[i])
    decreases |log|
  {
    hide LawfulEntry;
    var n := |log| - 1;
    if i < n {
      LawfulAt(log[..n], i);
      assert log[..n][..i] == log[..i];
    }
  }

  /** The writes and deletes of one id, in order. */
  function Trace(log: Log, id: Text): seq<AuditAction>
    decreases |log|
  {
    if log == [] then []
    else
      var e := log[|log| - 1];
      Trace(log[..|log| - 1], id) + if e.recordId == id && (e.action.Write? || e.action.Delete?) then [e.action] else []
  }

  /** Writes and deletes of an id alternate; it is live after a write. */
  lemma {:induction false} Alternates(log: Log, id: Text)
    requires Lawful(log)
    ensures forall k | 0 <= k < |Trace(log, id)| :: Trace(log, id)[k] == if k % 2 == 0 then Write else Delete
    ensures id in Live(log) <==> |Trace(log, id)| % 2 == 1
    decreases |log|
  {
    if log != [] {
      Alternates(log[..|log| - 1], id);
    }
  }

  /** Reads are logged only of live ids, and never denied to the owner. */
  lemma ReadsOfLiveIds(log: Log, i: nat)
    requires Lawful(log) && i < |log|
    requires log[i].action.ReadGranted? || log[i].action.ReadDenied?
    ensures log[i].recordId in Live(log[..i])
    ensures log[i].action.ReadDenied? ==> log[i].requesterId != Live(log[..i])[log[i].recordId]
  {
    LawfulAt(log, i);
  }

  /** An id or owner lost between a log and its extension was deleted in between. */
  lemma {:induction false} LostMeansDeleted(log: Log, longer: Log, id: Text) returns (i: nat)
    requires log <= longer && Lawful(longer)
    requires id in Live(log) && !(id in Live(longer) && Live(longer)[id] == Live(log)[id])
    ensures |log| <= i < |longer|
    ensures longer[i].recordId == id && longer[i].action == Delete
    decreases |longer|
  {
    var n := |longer| - 1;
    assert log != longer;
    assert log <= longer[..n];
    i := n;
    if id in Live(longer[..n]) && Live(longer[..n])[id] == Live(log)[id] {
      assert LawfulEntry(Live(longer[..n]), longer[n]);
    } else {
      i := LostMeansDeleted(log, longer[..n], id);
    }
  }
}
