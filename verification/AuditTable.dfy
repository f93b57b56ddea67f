/**
 The audit table and its two readers.

 `ReadAudit` says what a table means. The Redb reader parses and sorts the keys,
 the Fjall reader walks them in byte order; both compute `ReadAudit`.
 */
module AuditTable {
  import opened Base
  import opened Bytes
  import opened Ordering
  import opened Crypto
  import opened Audit
  import opened AuditKeys

  /** A stored row: JSON that is no audit entry, or an entry. */
  datatype AuditCell = BadRow | Row(entry: AuditEntry)

  type Table = map<Text, AuditCell>

  /** The table that holds exactly `log`. */
  ghost function EncodeAudit(log: Log): Table
    requires |log| <= U64_LIMIT
  {
    if log == [] then map[]
    else EncodeAudit(log[..|log| - 1])[Key(|log| - 1) := Row(log[|log| - 1])]
  }

  ghost predicate IsAuditTable(c: Crypto, table: Table, log: Log) {
    |log| < U64_LIMIT && table == EncodeAudit(log) && Chain(c, log)
  }

  /** The valid chain a table holds, if it holds one. */
  ghost function ReadAudit(c: Crypto, table: Table): Outcome<Log> {
    if exists log :: IsAuditTable(c, table, log) then
      var log :| IsAuditTable(c, table, log);
      Success(log)
    else Failure(AuditChainBroken)
  }

  // ---- What an encoded table holds ---------------------------------------

  lemma {:induction false} EncodeAuditRow(log: Log, i: nat)
    requires i < |log| <= U64_LIMIT
    ensures Key(i) in EncodeAudit(log) && EncodeAudit(log)[Key(i)] == Row(log[i])
  {
    hide Key;
    var n := |log| - 1;
    if i < n {
      EncodeAuditRow(log[..n], i);
      if Key(i) == Key(n) {
        KeyInjective(i, n);
      }
    }
  }

  lemma {:induction false} EncodeAuditIndex(log: Log, k: Text) returns (i: nat)
    requires |log| <= U64_LIMIT && k in EncodeAudit(log)
    ensures i < |log| && k == Key(i)
  {
    hide Key;
    i := |log| - 1;
    if k != Key(i) {
      i := EncodeAuditIndex(log[..i], k);
    }
  }

  lemma {:induction false} EncodeAuditSize(log: Log)
    requires |log| <= U64_LIMIT
    ensures |EncodeAudit(log)| == |log|
  {
    hide Key;
    if log != [] {
      var n := |log| - 1;
      EncodeAuditSize(log[..n]);
      if Key(n) in EncodeAudit(log[..n]) {
        var i := EncodeAuditIndex(log[..n], Key(n));
        KeyInjective(i, n);
      }
    }
  }

  lemma EncodeAuditAppend(log: Log, e: AuditEntry)
    requires |log| < U64_LIMIT
    ensures EncodeAudit(log + [e]) == EncodeAudit(log)[Key(|log|) := Row(e)]
  {
    hide Key;
    assert (log + [e])[..|log|] == log;
  }

  lemma EncodeAuditInjective(a: Log, b: Log)
    requires |a| <= U64_LIMIT && |b| <= U64_LIMIT
    requires EncodeAudit(a) == EncodeAudit(b)
    ensures a == b
  {
    EncodeAuditSize(a);
    EncodeAuditSize(b);
    forall i | 0 <= i < |a|
      ensures a[i] == b[i]
    {
      hide Key, EncodeAudit;
      EncodeAuditRow(a, i);
      EncodeAuditRow(b, i);
    }
  }

  lemma SubsetOfSameSize<T>(a: set<T>, b: set<T>)
    requires a <= b && |a| == |b|
    ensures a == b
  {
    assert b == a + (b - a);
  }

  /** Enough to recognise a table: its size and its rows. */
  lemma TableHolds(table: Table, log: Log)
    requires |table| == |log| <= U64_LIMIT
    requires forall i | 0 <= i < |log| :: Key(i) in table && table[Key(i)] == Row(log[i])
    ensures table == EncodeAudit(log)
  {
    hide Key;
    var t := EncodeAudit(log);
    EncodeAuditSize(log);
    forall k | k in t
      ensures k in table && table[k] == t[k]
    {
      hide EncodeAudit;
      var i := EncodeAuditIndex(log, k);
      EncodeAuditRow(log, i);
    }
    SubsetOfSameSize(t.Keys, table.Keys);
  }

  /** A table means one log. */
  lemma ReadAuditIs(c: Crypto, table: Table, log: Log)
    requires |log| < U64_LIMIT && table == EncodeAudit(log)
    ensures ReadAudit(c, table) == if Chain(c, log) then Success(log) else Failure(AuditChainBroken)
  {
    hide EncodeAudit, Chain;
    forall other | IsAuditTable(c, table, other)
      ensures other == log
    {
      EncodeAuditInjective(log, other);
    }
    if Chain(c, log) {
      assert IsAuditTable(c, table, log);
    }
  }

  lemma ReadAuditSuccess(c: Crypto, table: Table)
    requires ReadAudit(c, table).Success?
    ensures IsAuditTable(c, table, ReadAudit(c, table).value)
  {
  }

  // ---- The Redb reader ---------------------------------------------------

  datatype Indexed = Indexed(index: u64, entry: AuditEntry)

  ghost predicate IndexSorted(s: seq<Indexed>) {
    forall i, j | 0 <= i < j < |s| :: s[i].index <= s[j].index
  }

  lemma InsertedMultiset<T>(r: seq<T>, x: T, at: nat)
    requires at <= |r|
    ensures multiset(r[..at] + [x] + r[at..]) == multiset(r) + multiset{x}
  {
    assert r == r[..at] + r[at..];
  }

  lemma InsertedSorted(r: seq<Indexed>, x: Indexed, at: nat)
    requires at <= |r| && IndexSorted(r)
    requires at > 0 ==> r[at - 1].index <= x.index
    requires at < |r| ==> x.index < r[at].index
    ensures IndexSorted(r[..at] + [x] + r[at..])
  {
    var t := r[..at] + [x] + r[at..];
    assert forall i | 0 <= i < at :: t[i] == r[i] && t[i].index <= x.index;
    assert t[at] == x;
    assert forall i | at < i < |t| :: t[i] == r[i - 1] && x.index <= t[i].index;
  }

  /** `sort_by_key` on the parsed indices. */
  method SortByIndex(s: seq<Indexed>) returns (r: seq<Indexed>)
    ensures multiset(r) == multiset(s) && IndexSorted(r)
  {
    r := [];
    for n := 0 to |s|
      invariant multiset(r) == multiset(s[..n]) && IndexSorted(r)
    {
      var at := |r|;
      while at > 0 && r[at - 1].index > s[n].index
        invariant 0 <= at <= |r|
        invariant at < |r| ==> r[at].index > s[n].index
      {
        at := at - 1;
      }
      InsertedMultiset(r, s[n], at);
      InsertedSorted(r, s[n], at);
      assert s[..n + 1] == s[..n] + [s[n]];
      r := r[..at] + [s[n]] + r[at..];
    }
    assert s[..|s|] == s;
  }

  /** Distinct ascending numbers below their count are 0, 1, 2, ... */
  lemma {:induction false} AscendingIndices(s: seq<Indexed>, n: nat, e: nat)
    requires e < |s| == n
    requires forall i, j | 0 <= i < j < n :: s[i].index < s[j].index
    requires forall i | 0 <= i < n :: s[i].index < n
    ensures s[e].index == e
  {
    LowerBound(s, e);
    UpperBound(s, e);
  }

  lemma {:induction false} LowerBound(s: seq<Indexed>, e: nat)
    requires e < |s|
    requires forall i, j | 0 <= i < j < |s| :: s[i].index < s[j].index
    ensures s[e].index >= e
  {
    if e > 0 {
      LowerBound(s, e - 1);
    }
  }

  lemma {:induction false} UpperBound(s: seq<Indexed>, e: nat)
    requires e < |s|
    requires forall i, j | 0 <= i < j < |s| :: s[i].index < s[j].index
    requires forall i | 0 <= i < |s| :: s[i].index < |s|
    ensures s[e].index <= e
    decreases |s| - e
  {
    if e + 1 < |s| {
      UpperBound(s, e + 1);
    }
  }

  /** The pairs parsed so far: one for each row whose key has left `rest`. */
  ghost predicate Parsed(table: Table, rest: set<Text>, keyed: seq<Indexed>) {
    && rest <= table.Keys
    && |keyed| + |rest| == |table|
    && (forall i | 0 <= i < |keyed| :: HoldsRow(table, rest, keyed[i]))
    && (forall i, j | 0 <= i < j < |keyed| :: keyed[i].index != keyed[j].index)
  }

  ghost predicate HoldsRow(table: Table, rest: set<Text>, x: Indexed) {
    Key(x.index) in table && Key(x.index) !in rest && table[Key(x.index)] == Row(x.entry)
  }

  lemma ParsedMore(table: Table, rest: set<Text>, keyed: seq<Indexed>, x: Indexed)
    requires Parsed(table, rest, keyed)
    requires Key(x.index) in rest && table[Key(x.index)] == Row(x.entry)
    ensures Parsed(table, rest - {Key(x.index)}, keyed + [x])
  {
    hide Key;
    var rest', more := rest - {Key(x.index)}, keyed + [x];
    assert forall i | 0 <= i < |keyed| :: HoldsRow(table, rest, keyed[i]) ==> HoldsRow(table, rest', more[i]);
    assert HoldsRow(table, rest', more[|keyed|]);
    assert forall i | 0 <= i < |keyed| :: HoldsRow(table, rest, keyed[i]) ==> keyed[i].index != x.index;
  }

  /** A row that is no entry under a canonical key spoils the table. */
  lemma BadRowSpoils(c: Crypto, table: Table, k: Text)
    requires k in table
    requires table[k].BadRow? || forall i: u64 :: k != Key(i)
    ensures ReadAudit(c, table) == Failure(AuditChainBroken)
  {
    hide Key, EncodeAudit;
    if ReadAudit(c, table).Success? {
      ReadAuditSuccess(c, table);
      var log := ReadAudit(c, table).value;
      var i := EncodeAuditIndex(log, k);
      EncodeAuditRow(log, i);
    }
  }

  /** Sorted parsed pairs of a well-formed table are numbered 0, 1, 2, ... */
  lemma GapSpoils(c: Crypto, table: Table, sorted: seq<Indexed>, e: nat)
    requires e < |sorted| == |table| && sorted[e].index != e
    requires Parsed(table, {}, sorted) && IndexSorted(sorted)
    ensures ReadAudit(c, table) == Failure(AuditChainBroken)
  {
    hide Key, EncodeAudit;
    if ReadAudit(c, table).Success? {
      ReadAuditSuccess(c, table);
      var log := ReadAudit(c, table).value;
      EncodeAuditSize(log);
      forall i | 0 <= i < |sorted|
        ensures sorted[i].index < |log|
      {
        assert HoldsRow(table, {}, sorted[i]);
        var j := EncodeAuditIndex(log, Key(sorted[i].index));
        KeyInjective(sorted[i].index, j);
      }
      AscendingIndices(sorted, |sorted|, e);
    }
  }

  lemma SortKeepsParsed(table: Table, keyed: seq<Indexed>, sorted: seq<Indexed>)
    requires Parsed(table, {}, keyed) && multiset(keyed) == multiset(sorted)
    ensures Parsed(table, {}, sorted)
  {
    hide Key;
    assert |keyed| == |multiset(keyed)| == |sorted|;
    forall i | 0 <= i < |sorted|
      ensures HoldsRow(table, {}, sorted[i])
    {
      assert sorted[i] in multiset(keyed);
      var j :| 0 <= j < |keyed| && keyed[j] == sorted[i];
    }
    forall i, j | 0 <= i < j < |sorted|
      ensures sorted[i].index != sorted[j].index
    {
      DistinctAfterPermutation(keyed, sorted, i, j);
    }
  }

  lemma CountOnce(s: seq<Indexed>, a: nat)
    requires a < |s|
    requires forall i, j | 0 <= i < j < |s| :: s[i].index != s[j].index
    ensures multiset(s)[s[a]] == 1
  {
    assert s == s[..a] + [s[a]] + s[a + 1..];
    assert s[a] !in s[..a] && s[a] !in s[a + 1..];
  }

  lemma DistinctAfterPermutation(keyed: seq<Indexed>, sorted: seq<Indexed>, i: nat, j: nat)
    requires multiset(keyed) == multiset(sorted) && i < j < |sorted|
    requires forall a, b | 0 <= a < b < |keyed| :: keyed[a].index != keyed[b].index
    ensures sorted[i].index != sorted[j].index
  {
    assert sorted[i] in multiset(keyed) && sorted[j] in multiset(keyed);
    var a :| 0 <= a < |keyed| && keyed[a] == sorted[i];
    var b :| 0 <= b < |keyed| && keyed[b] == sorted[j];
    CountOnce(keyed, a);
    if sorted[i] == sorted[j] {
      CountTwice(sorted, i, j);
    }
  }

  /** The reader of the Redb backend: parse every key, sort, and check the gaps. */
  method ReadByParsing(c: Crypto, table: Table) returns (r: Outcome<Log>)
    requires |table| < U64_LIMIT
    ensures r == ReadAudit(c, table)
  {
    hide Key, EncodeAudit, ReadAudit, Chain;
    var keyed: seq<Indexed> := [];
    var rest := table.Keys;
    while rest != {}
      invariant Parsed(table, rest, keyed)
    {
      var k :| k in rest;
      var index := ParseUsize(k);
      if index.None? || k != Key(index.value) || table[k].BadRow? {
        forall i: u64 | k == Key(i)
          ensures table[k].BadRow?
        {
          KeyParses(i);
        }
        BadRowSpoils(c, table, k);
        return Failure(AuditChainBroken);
      }
      var x := Indexed(index.value, table[k].entry);
      ParsedMore(table, rest, keyed, x);
      keyed, rest := keyed + [x], rest - {k};
    }
    var sorted := SortByIndex(keyed);
    SortKeepsParsed(table, keyed, sorted);
    var audit: Log := [];
    for expected := 0 to |sorted|
      invariant |audit| == expected
      invariant forall i | 0 <= i < expected :: sorted[i] == Indexed(i, audit[i])
    {
      if sorted[expected].index != expected {
        GapSpoils(c, table, sorted, expected);
        return Failure(AuditChainBroken);
      }
      audit := audit + [sorted[expected].entry];
    }
    forall i | 0 <= i < |audit|
      ensures Key(i) in table && table[Key(i)] == Row(audit[i])
    {
      assert HoldsRow(table, {}, sorted[i]);
    }
    TableHolds(table, audit);
    ReadAuditIs(c, table, audit);
    var verdict := VerifyAuditEntries(c, audit);
    r := if verdict.Success? then Success(audit) else Failure(AuditChainBroken);
  }

  // ---- The Fjall reader --------------------------------------------------

  ghost function LogRows(log: Log): seq<Keyed<AuditCell>>
    requires |log| <= U64_LIMIT
  {
    seq(|log|, i requires 0 <= i < |log| => Keyed(Key(i), Row(log[i])))
  }

  lemma {:induction false} LogRowsList(log: Log)
    requires |log| <= U64_LIMIT
    ensures Lists(LogRows(log), Rows(EncodeAudit(log)))
  {
    hide Key;
    if log != [] {
      var n := |log| - 1;
      LogRowsList(log[..n]);
      assert LogRows(log) == LogRows(log[..n]) + [Keyed(Key(n), Row(log[n]))];
      FreshKey(log[..n], n);
      RowsInsert(EncodeAudit(log[..n]), Key(n), Row(log[n]));
    } else {
      assert Rows(EncodeAudit(log)) == {};
    }
  }

  lemma FreshKey(log: Log, n: u64)
    requires |log| <= n
    ensures Key(n) !in EncodeAudit(log)
  {
    hide Key, EncodeAudit;
    if Key(n) in EncodeAudit(log) {
      var i := EncodeAuditIndex(log, Key(n));
      KeyInjective(i, n);
    }
  }

  lemma LogRowsAscending(log: Log)
    requires |log| <= U64_LIMIT
    ensures Ascending(LogRows(log))
  {
    hide Key, LexLess;
    var rows := LogRows(log);
    forall i, j | 0 <= i < j < |rows|
      ensures LexLeq(rows[i].key, rows[j].key)
    {
      KeyOrdered(i, j);
    }
    AscendingByPosition(rows);
  }

  /** Byte order visits the rows of a log in log order. */
  lemma ScanOfLog(log: Log, rows: seq<Keyed<AuditCell>>)
    requires |log| <= U64_LIMIT && InKeyOrder(rows, EncodeAudit(log))
    ensures rows == LogRows(log)
  {
    hide Key, EncodeAudit;
    LogRowsList(log);
    LogRowsAscending(log);
    RowsKeyedApart(EncodeAudit(log));
    AscendingUnique(rows, LogRows(log));
  }

  lemma LinkedAgrees(c: Crypto, log: Log, entries: Log, i: nat)
    requires Chain(c, log) && |entries| == i < |log|
    requires forall j | 0 <= j < i :: entries[j] == log[j]
    ensures Linked(c, entries + [log[i]], i)
  {
    assert Linked(c, log, i);
  }

  /** A scanned row that is not row `i` of a linked log spoils the table. */
  lemma ScanMismatchSpoils(c: Crypto, table: Table, rows: seq<Keyed<AuditCell>>, i: nat, entries: Log)
    requires InKeyOrder(rows, table) && i < |rows| < U64_LIMIT && |entries| == i
    requires forall j | 0 <= j < i :: rows[j].value == Row(entries[j])
    requires rows[i].key != Key(i) || rows[i].value.BadRow?
          || !Linked(c, entries + [rows[i].value.entry], i)
    ensures ReadAudit(c, table) == Failure(AuditChainBroken)
  {
    hide Key, EncodeAudit, Sealed;
    if ReadAudit(c, table).Success? {
      ReadAuditSuccess(c, table);
      var log := ReadAudit(c, table).value;
      ScanOfLog(log, rows);
      forall j | 0 <= j < i
        ensures entries[j] == log[j]
      {
        assert rows[j] == Keyed(Key(j), Row(log[j]));
      }
      LinkedAgrees(c, log, entries, i);
    }
  }

  /** The reader of the Fjall backend: walk the keyspace and check as it goes. */
  method ReadByScanning(c: Crypto, table: Table) returns (r: Outcome<Log>)
    requires |table| < U64_LIMIT
    ensures r == ReadAudit(c, table)
  {
    hide Key, EncodeAudit, ReadAudit, Sealed;
    var rows := ScanKeyspace(table);
    ScanSize(table, rows);
    var entries: Log := [];
    var expectedPrev := ZeroHash();
    for i := 0 to |rows|
      invariant |entries| == i && expectedPrev == Head(entries)
      invariant forall j | 0 <= j < i :: rows[j] == Keyed(Key(j), Row(entries[j]))
      invariant Chain(c, entries)
    {
      if rows[i].key != Key(i) || rows[i].value.BadRow? {
        ScanMismatchSpoils(c, table, rows, i, entries);
        return Failure(AuditChainBroken);
      }
      var entry := rows[i].value.entry;
      ChainExtends(c, entries, entry);
      if entry.prevHash != expectedPrev || !Sealed(c, entry) {
        ScanMismatchSpoils(c, table, rows, i, entries);
        return Failure(AuditChainBroken);
      }
      expectedPrev := entry.entryHash;
      entries := entries + [entry];
    }
    TableHolds(table, entries);
    ReadAuditIs(c, table, entries);
    return Success(entries);
  }
}
