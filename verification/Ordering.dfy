/**
 Byte-wise lexicographic order and the stable sort the engine relies on.

 The sort is specified by insertion; what the rest of the project uses is that
 its result does not depend on the order in which the elements arrived.
 */
module Ordering {
  import opened Bytes

  predicate LexLess(a: seq<byte>, b: seq<byte>) {
    if b == [] then false
    else if a == [] then true
    else a[0] < b[0] || (a[0] == b[0] && LexLess(a[1..], b[1..]))
  }

  predicate LexLeq(a: seq<byte>, b: seq<byte>) {
    a == b || LexLess(a, b)
  }

  lemma {:induction false} LexTransitive(a: seq<byte>, b: seq<byte>, c: seq<byte>)
    requires LexLess(a, b) && LexLess(b, c)
    ensures LexLess(a, c)
  {
    if a != [] && a[0] == b[0] && b[0] == c[0] {
      LexTransitive(a[1..], b[1..], c[1..]);
    }
  }

  lemma {:induction false} LexIrreflexive(a: seq<byte>)
    ensures !LexLess(a, a)
  {
    if a != [] {
      LexIrreflexive(a[1..]);
    }
  }

  lemma {:induction false} LexTotal(a: seq<byte>, b: seq<byte>)
    ensures LexLess(a, b) || a == b || LexLess(b, a)
  {
    if a != [] && b != [] && a[0] == b[0] {
      LexTotal(a[1..], b[1..]);
      assert a == [a[0]] + a[1..] && b == [b[0]] + b[1..];
    }
  }

  lemma LexAntisymmetric(a: seq<byte>, b: seq<byte>)
    requires LexLeq(a, b) && LexLeq(b, a)
    ensures a == b
  {
    if a != b {
      LexTransitive(a, b, a);
      LexIrreflexive(a);
    }
  }

  lemma LexLeqTransitive(a: seq<byte>, b: seq<byte>, c: seq<byte>)
    requires LexLeq(a, b) && LexLeq(b, c)
    ensures LexLeq(a, c)
  {
    hide LexLess;
    if a != b && b != c {
      LexTransitive(a, b, c);
    }
  }

  /** A nonempty finite set of texts has a least element. */
  lemma {:induction false} Least(s: set<Text>) returns (k: Text)
    requires s != {}
    ensures k in s && forall j | j in s :: LexLeq(k, j)
  {
    hide LexLess;
    k :| k in s;
    var rest := s - {k};
    if rest != {} {
      var l := Least(rest);
      LexTotal(k, l);
      var lower := if LexLess(k, l) then k else l;
      forall j | j in s
        ensures LexLeq(lower, j)
      {
        if j in rest {
          LexLeqTransitive(lower, l, j);
        }
      }
      k := lower;
    } else {
      assert s == {k};
    }
  }

  /** A common prefix does not affect the comparison. */
  lemma {:induction false} LexCommonPrefix(p: seq<byte>, a: seq<byte>, b: seq<byte>)
    ensures LexLess(p + a, p + b) == LexLess(a, b)
  {
    if p == [] {
      assert p + a == a && p + b == b;
    } else {
      assert (p + a)[1..] == p[1..] + a && (p + b)[1..] == p[1..] + b;
      LexCommonPrefix(p[1..], a, b);
    }
  }

  // ---- Sorting -----------------------------------------------------------

  /** An element with the bytes it is ordered by. */
  datatype Keyed<+V> = Keyed(key: seq<byte>, value: V)

  /** Every element of `s` has a key of at least `k`. */
  ghost predicate AtLeast<V>(k: seq<byte>, s: multiset<Keyed<V>>) {
    forall x | x in s :: LexLeq(k, x.key)
  }

  ghost predicate Ascending<V>(s: seq<Keyed<V>>) {
    s != [] ==> AtLeast(s[0].key, multiset(s[1..])) && Ascending(s[1..])
  }

  function Insert<V>(x: Keyed<V>, s: seq<Keyed<V>>): (r: seq<Keyed<V>>)
    ensures |r| == |s| + 1
  {
    if s == [] then [x]
    else if LexLess(s[0].key, x.key) then [s[0]] + Insert(x, s[1..])
    else [x] + s
  }

  /** `sort_by` on the byte order of the keys. */
  function SortBy<V>(s: seq<Keyed<V>>): (r: seq<Keyed<V>>)
    ensures |r| == |s|
  {
    if s == [] then [] else Insert(s[0], SortBy(s[1..]))
  }

  lemma HeadAndTail<V>(s: seq<Keyed<V>>)
    requires s != []
    ensures multiset(s) == multiset{s[0]} + multiset(s[1..])
  {
    assert s == [s[0]] + s[1..];
  }

  lemma AtLeastLowered<V>(k: seq<byte>, l: seq<byte>, s: multiset<Keyed<V>>)
    requires LexLeq(k, l) && AtLeast(l, s)
    ensures AtLeast(k, s)
  {
    hide LexLess;
    forall x | x in s
      ensures LexLeq(k, x.key)
    {
      if k != l && l != x.key {
        LexTransitive(k, l, x.key);
      }
    }
  }

  lemma {:induction false} InsertAdds<V>(x: Keyed<V>, s: seq<Keyed<V>>)
    ensures multiset(Insert(x, s)) == multiset(s) + multiset{x}
  {
    if s != [] && LexLess(s[0].key, x.key) {
      InsertAdds(x, s[1..]);
      assert s == [s[0]] + s[1..];
    }
  }

  lemma {:induction false} InsertAscending<V>(x: Keyed<V>, s: seq<Keyed<V>>)
    requires Ascending(s)
    ensures Ascending(Insert(x, s))
  {
    hide LexLess;
    if s != [] {
      LexTotal(s[0].key, x.key);
      if LexLess(s[0].key, x.key) {
        InsertAscending(x, s[1..]);
        InsertAdds(x, s[1..]);
        assert Insert(x, s)[1..] == Insert(x, s[1..]);
      } else {
        HeadAndTail(s);
        AtLeastLowered(x.key, s[0].key, multiset(s[1..]));
        assert Insert(x, s)[1..] == s;
      }
    }
  }

  lemma {:induction false} SortByKeeps<V>(s: seq<Keyed<V>>)
    ensures multiset(SortBy(s)) == multiset(s)
    ensures Ascending(SortBy(s))
  {
    if s != [] {
      SortByKeeps(s[1..]);
      InsertAdds(s[0], SortBy(s[1..]));
      InsertAscending(s[0], SortBy(s[1..]));
      HeadAndTail(s);
    }
  }

  /** The elements of `s` are determined by their keys. */
  ghost predicate KeyedApart<V>(s: multiset<Keyed<V>>) {
    forall x, y | x in s && y in s && x.key == y.key :: x == y
  }

  lemma LeastIsFirst<V>(s: seq<Keyed<V>>, x: Keyed<V>)
    requires s != [] && Ascending(s) && x in multiset(s)
    ensures LexLeq(s[0].key, x.key)
  {
    HeadAndTail(s);
  }

  lemma {:induction false} AscendingUnique<V>(s: seq<Keyed<V>>, t: seq<Keyed<V>>)
    requires Ascending(s) && Ascending(t)
    requires multiset(s) == multiset(t) && KeyedApart(multiset(s))
    ensures s == t
  {
    hide LexLess;
    if s == [] || t == [] {
      assert |multiset(s)| == |s| && |multiset(t)| == |t|;
    } else {
      assert s[0] in multiset(s) && t[0] in multiset(t);
      LeastIsFirst(s, t[0]);
      LeastIsFirst(t, s[0]);
      LexAntisymmetric(s[0].key, t[0].key);
      TailsAgree(s, t);
      AscendingUnique(s[1..], t[1..]);
      assert s == [s[0]] + s[1..] && t == [t[0]] + t[1..];
    }
  }

  lemma TailsAgree<V>(s: seq<Keyed<V>>, t: seq<Keyed<V>>)
    requires s != [] && t != [] && s[0] == t[0] && multiset(s) == multiset(t)
    ensures multiset(s[1..]) == multiset(t[1..]) <= multiset(s)
  {
    HeadAndTail(s);
    HeadAndTail(t);
    assert multiset(s[1..]) == multiset(s) - multiset{s[0]} == multiset(t[1..]);
  }

  /** Sorting forgets the order of arrival. */
  lemma SortForgetsOrder<V>(s: seq<Keyed<V>>, t: seq<Keyed<V>>)
    requires multiset(s) == multiset(t) && KeyedApart(multiset(s))
    ensures SortBy(s) == SortBy(t)
  {
    SortByKeeps(s);
    SortByKeeps(t);
    AscendingUnique(SortBy(s), SortBy(t));
  }

  /** Pairwise order of the positions is enough. */
  lemma {:induction false} AscendingByPosition<V>(s: seq<Keyed<V>>)
    requires forall i, j | 0 <= i < j < |s| :: LexLeq(s[i].key, s[j].key)
    ensures Ascending(s)
  {
    hide LexLeq;
    if s != [] {
      AscendingByPosition(s[1..]);
      forall x | x in multiset(s[1..])
        ensures LexLeq(s[0].key, x.key)
      {
        assert x in s[1..];
      }
    }
  }

  // ---- Listings of finite sets -------------------------------------------

  /** `s` lists every element of `c` once, in some order. */
  ghost predicate Lists<T>(s: seq<T>, c: set<T>) {
    multiset(s) == multiset(c)
  }

  /** Some listing of a finite set: what an unordered iteration yields. */
  ghost function Listing<T>(c: set<T>): (s: seq<T>)
    ensures Lists(s, c)
  {
    if c == {} then []
    else
      var x :| x in c;
      var s := [x] + Listing(c - {x});
      assert multiset(c) == multiset(c - {x}) + multiset{x};
      s
  }

  lemma ListsMember<T>(s: seq<T>, c: set<T>, x: T)
    requires Lists(s, c)
    ensures x in s <==> x in c
  {
    assert x in s <==> x in multiset(s);
  }

  lemma CountTwice<T>(s: seq<T>, i: nat, j: nat)
    requires i < j < |s| && s[i] == s[j]
    ensures multiset(s)[s[i]] >= 2
  {
    assert s == s[..j] + [s[j]] + s[j + 1..];
    assert s[i] in s[..j];
  }

  /** A listing without repetitions, recognised by its members. */
  lemma ListsDistinct<T>(s: seq<T>, c: set<T>)
    requires forall i, j | 0 <= i < j < |s| :: s[i] != s[j]
    requires forall x :: x in s <==> x in c
    ensures Lists(s, c)
  {
    forall x
      ensures multiset(s)[x] == multiset(c)[x]
    {
      if x in s {
        var i :| 0 <= i < |s| && s[i] == x;
        assert s == s[..i] + [x] + s[i + 1..];
        assert x !in s[..i] && x !in s[i + 1..];
      }
    }
  }

  lemma ListsUnion<T>(s: seq<T>, a: set<T>, t: seq<T>, b: set<T>)
    requires Lists(s, a) && Lists(t, b) && a !! b
    ensures Lists(s + t, a + b)
  {
  }

  // ---- Key-ordered tables ------------------------------------------------

  ghost function Rows<V>(table: map<Text, V>): set<Keyed<V>> {
    set k | k in table :: Keyed(k, table[k])
  }

  lemma RowsMember<V>(table: map<Text, V>, x: Keyed<V>)
    ensures x in Rows(table) <==> x.key in table && table[x.key] == x.value
  {
  }

  /** A keyspace iteration yields the rows in byte order of their keys. */
  ghost predicate InKeyOrder<V>(rows: seq<Keyed<V>>, table: map<Text, V>) {
    Lists(rows, Rows(table)) && Ascending(rows)
  }

  lemma RowsKeyedApart<V>(table: map<Text, V>)
    ensures KeyedApart(multiset(Rows(table)))
  {
  }

  /** The rows of a table in byte order of their keys: there is one such order. */
  ghost function KeyRows<V>(table: map<Text, V>): seq<Keyed<V>> {
    SortBy(Listing(Rows(table)))
  }

  lemma KeyRowsAre<V>(table: map<Text, V>, rows: seq<Keyed<V>>)
    requires InKeyOrder(rows, table)
    ensures rows == KeyRows(table)
  {
    RowsKeyedApart(table);
    SortByKeeps(Listing(Rows(table)));
    AscendingUnique(rows, KeyRows(table));
  }

  method ScanKeyspace<V>(table: map<Text, V>) returns (rows: seq<Keyed<V>>)
    ensures InKeyOrder(rows, table)
  {
    var rest, found: seq<Keyed<V>> := table.Keys, [];
    while rest != {}
      invariant rest <= table.Keys
      invariant multiset(found) + multiset(set k | k in rest :: Keyed(k, table[k])) == multiset(Rows(table))
    {
      var k :| k in rest;
      TakeKey(table, rest, k);
      found, rest := found + [Keyed(k, table[k])], rest - {k};
    }
    rows := SortBy(found);
    SortByKeeps(found);
  }

  lemma TakeKey<V>(table: map<Text, V>, rest: set<Text>, k: Text)
    requires k in rest && rest <= table.Keys
    ensures multiset(set j | j in rest :: Keyed(j, table[j]))
         == multiset(set j | j in rest - {k} :: Keyed(j, table[j])) + multiset{Keyed(k, table[k])}
  {
    var all := set j | j in rest :: Keyed(j, table[j]);
    var less := set j | j in rest - {k} :: Keyed(j, table[j]);
    assert all == less + {Keyed(k, table[k])};
    assert Keyed(k, table[k]) !in less;
  }

  lemma RowsInsert<V>(table: map<Text, V>, k: Text, cell: V)
    requires k !in table
    ensures multiset(Rows(table[k := cell])) == multiset(Rows(table)) + multiset{Keyed(k, cell)}
  {
    assert Rows(table[k := cell]) == Rows(table) + {Keyed(k, cell)} by {
      forall x
        ensures x in Rows(table[k := cell]) <==> x in Rows(table) + {Keyed(k, cell)}
      {
        if x in Rows(table) {
          assert x.key in table[k := cell];
        }
        if x == Keyed(k, cell) {
          assert k in table[k := cell];
        }
      }
    }
  }

  lemma ScanSize<V>(table: map<Text, V>, rows: seq<Keyed<V>>)
    requires InKeyOrder(rows, table)
    ensures |rows| == |table|
    ensures forall i | 0 <= i < |rows| :: rows[i].key in table && table[rows[i].key] == rows[i].value
  {
    RowsSize(table, table.Keys);
    assert |rows| == |multiset(rows)| == |Rows(table)|;
    forall i | 0 <= i < |rows|
      ensures rows[i].key in table && table[rows[i].key] == rows[i].value
    {
      ListsMember(rows, Rows(table), rows[i]);
    }
  }

  lemma {:induction false} RowsSize<V>(table: map<Text, V>, keys: set<Text>)
    requires keys <= table.Keys
    ensures |set k | k in keys :: Keyed(k, table[k])| == |keys|
  {
    if keys != {} {
      var k :| k in keys;
      RowsSize(table, keys - {k});
      assert (set j | j in keys :: Keyed(j, table[j]))
          == (set j | j in keys - {k} :: Keyed(j, table[j])) + {Keyed(k, table[k])};
    }
  }

  lemma {:induction false} AscendingAt<V>(s: seq<Keyed<V>>, i: nat, j: nat)
    requires Ascending(s) && i <= j < |s|
    ensures LexLeq(s[i].key, s[j].key)
  {
    hide LexLess;
    if i == 0 {
      if j > 0 {
        assert s[j] == s[1..][j - 1];
        assert s[j] in multiset(s[1..]);
      }
    } else {
      AscendingAt(s[1..], i - 1, j - 1);
    }
  }

  lemma DistinctKeys<V>(table: map<Text, V>, rows: seq<Keyed<V>>, i: nat, j: nat)
    requires InKeyOrder(rows, table) && i < j < |rows|
    ensures rows[i].key != rows[j].key
  {
    ListsMember(rows, Rows(table), rows[i]);
    ListsMember(rows, Rows(table), rows[j]);
    if rows[i].key == rows[j].key {
      CountTwice(rows, i, j);
    }
  }
}
