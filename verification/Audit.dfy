/** The hash-chained audit log: entries, their canonical bytes, and the chain. */
module Audit {
  import opened Base
  import opened Bytes
  import opened Crypto

  datatype AuditAction = Write | ReadGranted | ReadDenied | Delete {
    function Code(): byte {
      match this
      case Write => 1
      case ReadGranted => 2
      case ReadDenied => 3
      case Delete => 4
    }
  }

  datatype AuditEntry = AuditEntry(
    recordId: Text,
    requesterId: Text,
    action: AuditAction,
    timestamp: u64,
    prevHash: Hash,
    entryHash: Hash
  )

  type Log = seq<AuditEntry>

  function AuditDomain(): seq<byte> {
    Ascii("EDISONDB-AUDIT-V1")
  }

  /** The canonical bytes of an entry: everything but its own hash. */
  function HashInput(e: AuditEntry): seq<byte> {
    AuditDomain() + Framed(e.recordId) + Framed(e.requesterId) + [e.action.Code()]
    + U64Be(e.timestamp) + e.prevHash
  }

  predicate Sealed(c: Crypto, e: AuditEntry) {
    e.entryHash == c.sha256(HashInput(e))
  }

  function NewEntry(c: Crypto, recordId: Text, requesterId: Text, action: AuditAction, now: u64,
          prev: Hash): (e: AuditEntry)
    ensures Sealed(c, e)
  {
    var draft := AuditEntry(recordId, requesterId, action, now, prev, ZeroHash());
    var e := draft.(entryHash := c.sha256(HashInput(draft)));
    assert HashInput(e) == HashInput(draft);
    e
  }

  /** The offset of every field in the canonical bytes. */
  lemma HashInputParts(e: AuditEntry)
    ensures var h, a, b := HashInput(e), |e.recordId|, |e.requesterId|;
      |h| == 74 + a + b && h[..17] == Ascii("EDISONDB-AUDIT-V1")
      && h[17..25] == BigEndian(a, 8) && h[25..25 + a] == e.recordId
      && h[25 + a..33 + a] == BigEndian(b, 8) && h[33 + a..33 + a + b] == e.requesterId
      && h[33 + a + b] == (match e.action case Write => 1 case ReadGranted => 2 case ReadDenied => 3 case Delete => 4)
      && h[34 + a + b..42 + a + b] == BigEndian(e.timestamp, 8) && h[42 + a + b..] == e.prevHash
  {
    hide BigEndian;
  }

  /** Different sealed content has different canonical bytes. */
  lemma HashInputInjective(a: AuditEntry, b: AuditEntry)
    requires HashInput(a) == HashInput(b)
    ensures a.(entryHash := b.entryHash) == b
  {
    hide AuditDomain, Framed, U64Be;
    var ta := [a.action.Code()] + U64Be(a.timestamp) + a.prevHash;
    var tb := [b.action.Code()] + U64Be(b.timestamp) + b.prevHash;
    assert HashInput(a) == AuditDomain() + (Framed(a.recordId) + (Framed(a.requesterId) + ta));
    assert HashInput(b) == AuditDomain() + (Framed(b.recordId) + (Framed(b.requesterId) + tb));
    ConcatCancel(AuditDomain(), Framed(a.recordId) + (Framed(a.requesterId) + ta),
                 AuditDomain(), Framed(b.recordId) + (Framed(b.requesterId) + tb));
    FramedInjective(a.recordId, Framed(a.requesterId) + ta, b.recordId, Framed(b.requesterId) + tb);
    FramedInjective(a.requesterId, ta, b.requesterId, tb);
    ConcatCancel([a.action.Code()] + U64Be(a.timestamp), a.prevHash,
                 [b.action.Code()] + U64Be(b.timestamp), b.prevHash);
    ConcatCancel([a.action.Code()], U64Be(a.timestamp), [b.action.Code()], U64Be(b.timestamp));
    U64BeInjective(a.timestamp, b.timestamp);
    assert [a.action.Code()][0] == [b.action.Code()][0];
  }

  // ---- The chain ---------------------------------------------------------

  /** The hash that entry `i` of a log must point at. */
  function LinkAt(log: Log, i: nat): Hash
    requires i <= |log|
  {
    if i == 0 then ZeroHash() else log[i - 1].entryHash
  }

  /** The hash a next entry must point at. */
  function Head(log: Log): Hash {
    LinkAt(log, |log|)
  }

  predicate Linked(c: Crypto, log: Log, i: nat)
    requires i < |log|
  {
    Sealed(c, log[i]) && log[i].prevHash == LinkAt(log, i)
  }

  ghost predicate Chain(c: Crypto, log: Log) {
    forall i | 0 <= i < |log| :: Linked(c, log, i)
  }

  method VerifyAuditEntries(c: Crypto, entries: Log) returns (r: Outcome<()>)
    ensures r == if Chain(c, entries) then Success(()) else Failure(AuditChainBroken)
  {
    var expectedPrev := ZeroHash();
    for n := 0 to |entries|
      invariant expectedPrev == LinkAt(entries, n)
      invariant forall i | 0 <= i < n :: Linked(c, entries, i)
    {
      hide HashInput, ZeroHash;
      var entry := entries[n];
      assert Linked(c, entries, n) <==> Sealed(c, entry) && entry.prevHash == expectedPrev;
      if entry.prevHash != expectedPrev || !Sealed(c, entry) {
        return Failure(AuditChainBroken);
      }
      expectedPrev := entry.entryHash;
    }
    return Success(());
  }

  /** A chain grows exactly by sealed entries that point at its head. */
  lemma ChainExtends(c: Crypto, log: Log, e: AuditEntry)
    ensures Chain(c, log + [e]) <==> Chain(c, log) && Sealed(c, e) && e.prevHash == Head(log)
  {
    hide HashInput, ZeroHash;
    var next := log + [e];
    assert Linked(c, next, |log|) <==> Sealed(c, e) && e.prevHash == Head(log);
    assert forall i | 0 <= i < |log| :: Linked(c, next, i) <==> Linked(c, log, i);
  }

  lemma ChainPrefix(c: Crypto, log: Log, n: nat)
    requires n <= |log| && Chain(c, log)
    ensures Chain(c, log[..n])
  {
    hide HashInput, ZeroHash;
    assert forall i | 0 <= i < n :: Linked(c, log, i) ==> Linked(c, log[..n], i);
  }

  /**
   One head and one length admit one history. Two valid chains that share both
   are the same chain, or the inputs `x`, `y` collide under the digest.
   */
  lemma {:induction false} HeadFixesHistory(c: Crypto, a: Log, b: Log)
    returns (x: seq<byte>, y: seq<byte>)
    requires Chain(c, a) && Chain(c, b)
    requires |a| == |b| && Head(a) == Head(b)
    ensures a == b || Collides(c.sha256, x, y)
  {
    hide HashInput, ZeroHash;
    x, y := [], [];
    if a != [] {
      var n := |a| - 1;
      x, y := HashInput(a[n]), HashInput(b[n]);
      assert Linked(c, a, n) && Linked(c, b, n);
      if x == y {
        HashInputInjective(a[n], b[n]);
        ChainPrefix(c, a, n);
        ChainPrefix(c, b, n);
        x, y := HeadFixesHistory(c, a[..n], b[..n]);
        assert a == a[..n] + [a[n]] && b == b[..n] + [b[n]];
      }
    }
  }

  /**
   The length matters: chains of different lengths with one head can only be
   told apart by a collision or by an entry whose digest is the zero hash.
   */
  lemma {:induction false} HeadAcrossLengths(c: Crypto, a: Log, b: Log)
    returns (x: seq<byte>, y: seq<byte>)
    requires Chain(c, a) && Chain(c, b)
    requires |a| < |b| && Head(a) == Head(b)
    ensures Collides(c.sha256, x, y) || c.sha256(x) == ZeroHash()
  {
    hide HashInput, ZeroHash;
    var n := |b| - 1;
    assert Linked(c, b, n);
    x, y := HashInput(b[n]), [];
    if a != [] {
      var m := |a| - 1;
      y := HashInput(a[m]);
      assert Linked(c, a, m);
      if x == y {
        HashInputInjective(a[m], b[n]);
        ChainPrefix(c, a, m);
        ChainPrefix(c, b, n);
        x, y := HeadAcrossLengths(c, a[..m], b[..n]);
      }
    }
  }

  // ---- Lineage -----------------------------------------------------------

  predicate IsPrefix(persisted: Log, candidate: Log) {
    persisted <= candidate
  }

  /** The field-by-field comparison is equality of the entries. */
  method AuditHistoryIsPrefix(persisted: Log, candidate: Log) returns (r: bool)
    ensures r == IsPrefix(persisted, candidate)
  {
    if |persisted| > |candidate| {
      return false;
    }
    for i := 0 to |persisted|
      invariant persisted[..i] == candidate[..i]
    {
      var left, right := persisted[i], candidate[i];
      if !(left.recordId == right.recordId
           && left.requesterId == right.requesterId
           && left.action.Code() == right.action.Code()
           && left.timestamp == right.timestamp
           && left.prevHash == right.prevHash
           && left.entryHash == right.entryHash)
      {
        return false;
      }
      assert left == right;
    }
    return true;
  }
}
