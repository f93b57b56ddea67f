/** The order-independent commitment to the `id -> created_at` map. */
module Commitment {
  import opened Bytes
  import opened Ordering
  import opened Crypto

  type Stamps = map<Text, u64>

  function CommitmentDomain(): seq<byte> {
    Ascii("EDISONDB-RECORD-CREATED-AT-V1")
  }

  function EncodeStamp(e: Keyed<u64>): seq<byte> {
    Framed(e.key) + U64Be(e.value)
  }

  function EncodeStamps(s: seq<Keyed<u64>>): seq<byte> {
    if s == [] then [] else EncodeStamp(s[0]) + EncodeStamps(s[1..])
  }

  /** What is hashed for records met in the order `entries`. */
  function CommitmentInput(entries: seq<Keyed<u64>>): seq<byte> {
    CommitmentDomain() + U64Be(|entries| % U64_LIMIT) + EncodeStamps(SortBy(entries))
  }

  /** What is hashed for a map, read in an order of the library's choosing. */
  ghost function MapInput(m: Stamps): seq<byte> {
    CommitmentInput(Listing(Rows(m)))
  }

  ghost function MapCommitment(c: Crypto, m: Stamps): Hash {
    c.blake3(MapInput(m))
  }

  method RecordCreatedAtCommitment(c: Crypto, records: seq<Keyed<u64>>) returns (r: Hash)
    ensures r == c.blake3(CommitmentInput(records))
    ensures forall m: Stamps | Lists(records, Rows(m)) :: r == MapCommitment(c, m)
  {
    var entries := SortBy(records);
    var input := CommitmentDomain() + U64Be(|entries| % U64_LIMIT);
    for i := 0 to |entries|
      invariant input + EncodeStamps(entries[i..]) == CommitmentInput(records)
    {
      hide CommitmentDomain, U64Be, Framed;
      input := input + EncodeStamp(entries[i]);
      assert entries[i..][1..] == entries[i + 1..];
    }
    forall m: Stamps | Lists(records, Rows(m))
      ensures CommitmentInput(records) == MapInput(m)
    {
      CommitmentForgetsOrder(records, m);
    }
    assert entries[|entries|..] == [] && input + [] == input;
    return c.blake3(input);
  }

  /** Any iteration order of the records gives the same bytes. */
  lemma CommitmentForgetsOrder(entries: seq<Keyed<u64>>, m: Stamps)
    requires Lists(entries, Rows(m))
    ensures CommitmentInput(entries) == MapInput(m)
  {
    hide CommitmentDomain, U64Be, EncodeStamps;
    RowsKeyedApart(m);
    SortForgetsOrder(entries, Listing(Rows(m)));
    assert |entries| == |multiset(entries)| == |Listing(Rows(m))|;
  }

  /** The committed bytes begin with a domain and the number of records. */
  lemma CommitmentParts(entries: seq<Keyed<u64>>)
    requires |entries| < U64_LIMIT
    ensures CommitmentInput(entries) ==
      CommitmentDomain() + BigEndian(|entries|, 8) + EncodeStamps(SortBy(entries))
  {
    hide CommitmentDomain, BigEndian, EncodeStamps, SortBy, U64Be;
    CountParts(|entries|);
  }

  lemma CountParts(n: nat)
    requires n < U64_LIMIT
    ensures U64Be(n % U64_LIMIT) == BigEndian(n, 8)
  {
    hide BigEndian;
  }

  /** Each record is committed to by the length of its id, its id and its stamp. */
  lemma StampParts(e: Keyed<u64>)
    requires |e.key| < U64_LIMIT
    ensures EncodeStamp(e) == BigEndian(|e.key|, 8) + e.key + BigEndian(e.value, 8)
  {
    hide BigEndian;
  }

  // ---- Injectivity -------------------------------------------------------

  ghost predicate TextKeyed(s: seq<Keyed<u64>>) {
    forall i | 0 <= i < |s| :: |s[i].key| < 0x8000_0000_0000_0000
  }

  lemma EncodeStampInjective(d: Keyed<u64>, x: seq<byte>, e: Keyed<u64>, y: seq<byte>)
    requires |d.key| < 0x8000_0000_0000_0000 && |e.key| < 0x8000_0000_0000_0000
    requires EncodeStamp(d) + x == EncodeStamp(e) + y
    ensures d == e && x == y
  {
    hide Framed;
    assert EncodeStamp(d) + x == Framed(d.key) + (U64Be(d.value) + x);
    assert EncodeStamp(e) + y == Framed(e.key) + (U64Be(e.value) + y);
    FramedInjective(d.key, U64Be(d.value) + x, e.key, U64Be(e.value) + y);
    ConcatCancel(U64Be(d.value), x, U64Be(e.value), y);
    U64BeInjective(d.value, e.value);
  }

  lemma {:induction false} EncodeStampsInjective(s: seq<Keyed<u64>>, t: seq<Keyed<u64>>)
    requires TextKeyed(s) && TextKeyed(t)
    requires EncodeStamps(s) == EncodeStamps(t)
    ensures s == t
  {
    hide EncodeStamp;
    if s == [] || t == [] {
      EncodeStampsNonempty(s);
      EncodeStampsNonempty(t);
    } else {
      EncodeStampInjective(s[0], EncodeStamps(s[1..]), t[0], EncodeStamps(t[1..]));
      EncodeStampsInjective(s[1..], t[1..]);
      assert s == [s[0]] + s[1..] && t == [t[0]] + t[1..];
    }
  }

  lemma EncodeStampsNonempty(s: seq<Keyed<u64>>)
    ensures s != [] ==> EncodeStamps(s) != []
  {
  }

  /** The committed bytes determine the map. */
  lemma MapInputInjective(m: Stamps, n: Stamps)
    requires MapInput(m) == MapInput(n)
    ensures m == n
  {
    var s, t := Listing(Rows(m)), Listing(Rows(n));
    SortedEncodingsAgree(s, t);
    SortByKeeps(s);
    SortByKeeps(t);
    assert TextKeyed(SortBy(s)) by { EntriesTextKeyed(m, SortBy(s)); }
    assert TextKeyed(SortBy(t)) by { EntriesTextKeyed(n, SortBy(t)); }
    EncodeStampsInjective(SortBy(s), SortBy(t));
    EntriesInjective(m, n);
  }

  lemma SortedEncodingsAgree(s: seq<Keyed<u64>>, t: seq<Keyed<u64>>)
    requires CommitmentInput(s) == CommitmentInput(t)
    ensures EncodeStamps(SortBy(s)) == EncodeStamps(SortBy(t))
  {
    hide CommitmentDomain, U64Be, EncodeStamps;
    ConcatCancel(CommitmentDomain() + U64Be(|s| % U64_LIMIT), EncodeStamps(SortBy(s)),
                 CommitmentDomain() + U64Be(|t| % U64_LIMIT), EncodeStamps(SortBy(t)));
  }

  lemma EntriesTextKeyed(m: Stamps, s: seq<Keyed<u64>>)
    requires Lists(s, Rows(m))
    ensures TextKeyed(s)
  {
    forall i | 0 <= i < |s|
      ensures |s[i].key| < 0x8000_0000_0000_0000
    {
      ListsMember(s, Rows(m), s[i]);
    }
  }

  lemma EntriesInjective(m: Stamps, n: Stamps)
    requires multiset(Rows(m)) == multiset(Rows(n))
    ensures m == n
  {
    forall id: Text
      ensures id in m <==> id in n
      ensures id in m ==> m[id] == n[id]
    {
      if id in m {
        assert Keyed(id, m[id]) in multiset(Rows(m));
      }
      if id in n {
        assert Keyed(id, n[id]) in multiset(Rows(n));
      }
    }
  }

  /** Two maps with one commitment are the same map, or collide under BLAKE3. */
  lemma CommitmentBinds(c: Crypto, m: Stamps, n: Stamps)
    requires MapCommitment(c, m) == MapCommitment(c, n)
    ensures m == n || Collides(c.blake3, MapInput(m), MapInput(n))
  {
    hide MapInput;
    if MapInput(m) == MapInput(n) {
      MapInputInjective(m, n);
    }
  }
}
