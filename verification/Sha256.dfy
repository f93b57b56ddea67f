/**
 SHA-256 as the wire protocol computes it, against FIPS 180-4.

 Words are 32-bit vectors, so sums wrap. The definition follows section 6.2.2 of
 FIPS 180-4; the method updates arrays in place as the code does.
 */
module Sha256 {
  import opened Bytes
  import opened Primes

  type Word = bv32

  // ---- Section 4: functions and constants --------------------------------

  /** Addition of words modulo 2^32: `wrapping_add`. */
  function Add(x: Word, y: Word): Word {
    x + y
  }

  function Ch(x: Word, y: Word, z: Word): Word {
    (x & y) ^ (!x & z)
  }

  function Maj(x: Word, y: Word, z: Word): Word {
    (x & y) ^ (x & z) ^ (y & z)
  }

  // ROTR by n, section 3.2, is (x >> n) | (x << 32 - n).

  function BigSigma0(x: Word): Word {
    ((x >> 2) | (x << 30)) ^ ((x >> 13) | (x << 19)) ^ ((x >> 22) | (x << 10))
  }

  function BigSigma1(x: Word): Word {
    ((x >> 6) | (x << 26)) ^ ((x >> 11) | (x << 21)) ^ ((x >> 25) | (x << 7))
  }

  function SmallSigma0(x: Word): Word {
    ((x >> 7) | (x << 25)) ^ ((x >> 18) | (x << 14)) ^ (x >> 3)
  }

  function SmallSigma1(x: Word): Word {
    ((x >> 17) | (x << 15)) ^ ((x >> 19) | (x << 13)) ^ (x >> 10)
  }

  function K(t: nat): u32
    requires t < 64
  {
    if t < 32 then
      match t
      case 0 => 0x428a2f98 case 1 => 0x71374491 case 2 => 0xb5c0fbcf case 3 => 0xe9b5dba5
      case 4 => 0x3956c25b case 5 => 0x59f111f1 case 6 => 0x923f82a4 case 7 => 0xab1c5ed5
      case 8 => 0xd807aa98 case 9 => 0x12835b01 case 10 => 0x243185be case 11 => 0x550c7dc3
      case 12 => 0x72be5d74 case 13 => 0x80deb1fe case 14 => 0x9bdc06a7 case 15 => 0xc19bf174
      case 16 => 0xe49b69c1 case 17 => 0xefbe4786 case 18 => 0x0fc19dc6 case 19 => 0x240ca1cc
      case 20 => 0x2de92c6f case 21 => 0x4a7484aa case 22 => 0x5cb0a9dc case 23 => 0x76f988da
      case 24 => 0x983e5152 case 25 => 0xa831c66d case 26 => 0xb00327c8 case 27 => 0xbf597fc7
      case 28 => 0xc6e00bf3 case 29 => 0xd5a79147 case 30 => 0x06ca6351 case _ => 0x14292967
    else
      match t
      case 32 => 0x27b70a85 case 33 => 0x2e1b2138 case 34 => 0x4d2c6dfc case 35 => 0x53380d13
      case 36 => 0x650a7354 case 37 => 0x766a0abb case 38 => 0x81c2c92e case 39 => 0x92722c85
      case 40 => 0xa2bfe8a1 case 41 => 0xa81a664b case 42 => 0xc24b8b70 case 43 => 0xc76c51a3
      case 44 => 0xd192e819 case 45 => 0xd6990624 case 46 => 0xf40e3585 case 47 => 0x106aa070
      case 48 => 0x19a4c116 case 49 => 0x1e376c08 case 50 => 0x2748774c case 51 => 0x34b0bcb5
      case 52 => 0x391c0cb3 case 53 => 0x4ed8aa4a case 54 => 0x5b9cca4f case 55 => 0x682e6ff3
      case 56 => 0x748f82ee case 57 => 0x78a5636f case 58 => 0x84c87814 case 59 => 0x8cc70208
      case 60 => 0x90befffa case 61 => 0xa4506ceb case 62 => 0xbef9a3f7 case _ => 0xc67178f2
  }

  function H0(i: nat): u32
    requires i < 8
  {
    match i
    case 0 => 0x6a09e667 case 1 => 0xbb67ae85 case 2 => 0x3c6ef372 case 3 => 0xa54ff53a
    case 4 => 0x510e527f case 5 => 0x9b05688c case 6 => 0x1f83d9ab case _ => 0x5be0cd19
  }

  /** `k` is the first 32 bits of the fractional part of the cube root of `p`, whose whole part is `whole`. */
  predicate CubeRootAt(p: nat, whole: nat, k: nat) {
    var root := whole * 0x1_0000_0000 + k;
    var one := 0x1_0000_0000;
    root * root * root <= p * one * one * one < (root + 1) * (root + 1) * (root + 1)
  }

  /** `h` is the first 32 bits of the fractional part of the square root of `p`, whose whole part is `whole`. */
  predicate SquareRootAt(p: nat, whole: nat, h: nat) {
    var root := whole * 0x1_0000_0000 + h;
    root * root <= p * 0x1_0000_0000 * 0x1_0000_0000 < (root + 1) * (root + 1)
  }

  function CubeWhole(p: nat): nat {
    if p < 8 then 1 else if p < 27 then 2 else if p < 64 then 3 else if p < 125 then 4 else if p < 216 then 5 else 6
  }

  function SquareWhole(p: nat): nat {
    if p < 4 then 1 else if p < 9 then 2 else if p < 16 then 3 else 4
  }

  lemma CubeRoots0()
    ensures CubeRootAt(2, 1, 0x428a2f98) && CubeRootAt(3, 1, 0x71374491)
    ensures CubeRootAt(5, 1, 0xb5c0fbcf) && CubeRootAt(7, 1, 0xe9b5dba5)
    ensures CubeRootAt(11, 2, 0x3956c25b) && CubeRootAt(13, 2, 0x59f111f1)
    ensures CubeRootAt(17, 2, 0x923f82a4) && CubeRootAt(19, 2, 0xab1c5ed5)
  {
  }

  lemma CubeRoots1()
    ensures CubeRootAt(23, 2, 0xd807aa98) && CubeRootAt(29, 3, 0x12835b01)
    ensures CubeRootAt(31, 3, 0x243185be) && CubeRootAt(37, 3, 0x550c7dc3)
    ensures CubeRootAt(41, 3, 0x72be5d74) && CubeRootAt(43, 3, 0x80deb1fe)
    ensures CubeRootAt(47, 3, 0x9bdc06a7) && CubeRootAt(53, 3, 0xc19bf174)
  {
  }

  lemma CubeRoots2()
    ensures CubeRootAt(59, 3, 0xe49b69c1) && CubeRootAt(61, 3, 0xefbe4786)
    ensures CubeRootAt(67, 4, 0x0fc19dc6) && CubeRootAt(71, 4, 0x240ca1cc)
    ensures CubeRootAt(73, 4, 0x2de92c6f) && CubeRootAt(79, 4, 0x4a7484aa)
    ensures CubeRootAt(83, 4, 0x5cb0a9dc) && CubeRootAt(89, 4, 0x76f988da)
  {
  }

  lemma CubeRoots3()
    ensures CubeRootAt(97, 4, 0x983e5152) && CubeRootAt(101, 4, 0xa831c66d)
    ensures CubeRootAt(103, 4, 0xb00327c8) && CubeRootAt(107, 4, 0xbf597fc7)
    ensures CubeRootAt(109, 4, 0xc6e00bf3) && CubeRootAt(113, 4, 0xd5a79147)
    ensures CubeRootAt(127, 5, 0x06ca6351) && CubeRootAt(131, 5, 0x14292967)
  {
  }

  lemma CubeRoots4()
    ensures CubeRootAt(137, 5, 0x27b70a85) && CubeRootAt(139, 5, 0x2e1b2138)
    ensures CubeRootAt(149, 5, 0x4d2c6dfc) && CubeRootAt(151, 5, 0x53380d13)
    ensures CubeRootAt(157, 5, 0x650a7354) && CubeRootAt(163, 5, 0x766a0abb)
    ensures CubeRootAt(167, 5, 0x81c2c92e) && CubeRootAt(173, 5, 0x92722c85)
  {
  }

  lemma CubeRoots5()
    ensures CubeRootAt(179, 5, 0xa2bfe8a1) && CubeRootAt(181, 5, 0xa81a664b)
    ensures CubeRootAt(191, 5, 0xc24b8b70) && CubeRootAt(193, 5, 0xc76c51a3)
    ensures CubeRootAt(197, 5, 0xd192e819) && CubeRootAt(199, 5, 0xd6990624)
    ensures CubeRootAt(211, 5, 0xf40e3585) && CubeRootAt(223, 6, 0x106aa070)
  {
  }

  lemma CubeRoots6()
    ensures CubeRootAt(227, 6, 0x19a4c116) && CubeRootAt(229, 6, 0x1e376c08)
    ensures CubeRootAt(233, 6, 0x2748774c) && CubeRootAt(239, 6, 0x34b0bcb5)
    ensures CubeRootAt(241, 6, 0x391c0cb3) && CubeRootAt(251, 6, 0x4ed8aa4a)
    ensures CubeRootAt(257, 6, 0x5b9cca4f) && CubeRootAt(263, 6, 0x682e6ff3)
  {
  }

  lemma CubeRoots7()
    ensures CubeRootAt(269, 6, 0x748f82ee) && CubeRootAt(271, 6, 0x78a5636f)
    ensures CubeRootAt(277, 6, 0x84c87814) && CubeRootAt(281, 6, 0x8cc70208)
    ensures CubeRootAt(283, 6, 0x90befffa) && CubeRootAt(293, 6, 0xa4506ceb)
    ensures CubeRootAt(307, 6, 0xbef9a3f7) && CubeRootAt(311, 6, 0xc67178f2)
  {
  }

  /** The round constants are the ones section 4.2.2 of FIPS 180-4 defines. */
  lemma RoundConstants(t: nat)
    requires t < 64
    ensures CubeRootAt(Prime(t), CubeWhole(Prime(t)), K(t))
  {
    hide CubeRootAt;
    CubeRoots0();
    CubeRoots1();
    CubeRoots2();
    CubeRoots3();
    CubeRoots4();
    CubeRoots5();
    CubeRoots6();
    CubeRoots7();
  }

  lemma SquareRoots()
    ensures SquareRootAt(2, 1, 0x6a09e667) && SquareRootAt(3, 1, 0xbb67ae85)
    ensures SquareRootAt(5, 2, 0x3c6ef372) && SquareRootAt(7, 2, 0xa54ff53a)
    ensures SquareRootAt(11, 3, 0x510e527f) && SquareRootAt(13, 3, 0x9b05688c)
    ensures SquareRootAt(17, 4, 0x1f83d9ab) && SquareRootAt(19, 4, 0x5be0cd19)
  {
  }

  /** The initial hash value is the one section 5.3.3 of FIPS 180-4 defines. */
  lemma InitialConstants(i: nat)
    requires i < 8
    ensures SquareRootAt(Prime(i), SquareWhole(Prime(i)), H0(i))
  {
    hide SquareRootAt;
    SquareRoots();
  }

  // ---- Section 5.1.1: padding --------------------------------------------

  function Zeros(n: nat): (z: seq<byte>)
    ensures |z| == n
  {
    seq(n, _ => 0)
  }

  /** The zero bytes between the marker and the length. */
  function ZeroCount(len: nat): nat {
    (119 - len % 64) % 64
  }

  predicate Fills(len: nat, zeros: nat) {
    (len + 1 + zeros) % 64 == 56
  }

  /** The zeros reach the next length of 56 modulo 64, and no fewer would do. */
  lemma ZerosFill(len: nat)
    ensures Fills(len, ZeroCount(len))
    ensures forall k | 0 <= k < ZeroCount(len) :: !Fills(len, k)
  {
    var n, r := len / 64, len % 64;
    assert len == 64 * n + r;
    if r <= 55 {
      assert len + 1 + ZeroCount(len) == 64 * n + 56;
    } else {
      assert len + 1 + ZeroCount(len) == 64 * (n + 1) + 56;
    }
    forall k | 0 <= k < ZeroCount(len)
      ensures !Fills(len, k)
    {
      assert len + 1 + k == 64 * n + (r + 1 + k);
    }
  }

  /** The bit count is a 64-bit integer; it wraps for messages of 2^61 bytes and more. */
  function Padded(data: seq<byte>): (p: seq<byte>)
    ensures |p| % 64 == 0
  {
    hide ZeroCount, U64Be;
    ZerosFill(|data|);
    data + [0x80] + Zeros(ZeroCount(|data|)) + U64Be(8 * |data| % U64_LIMIT)
  }

  /** Different messages have different padded messages. */
  lemma PaddingInjective(a: seq<byte>, b: seq<byte>)
    requires Padded(a) == Padded(b)
    ensures a == b
  {
    hide U64Be;
    var x, y := a + [0x80] + Zeros(ZeroCount(|a|)), b + [0x80] + Zeros(ZeroCount(|b|));
    ConcatCancel(x, U64Be(8 * |a| % U64_LIMIT), y, U64Be(8 * |b| % U64_LIMIT));
    U64BeInjective(8 * |a| % U64_LIMIT, 8 * |b| % U64_LIMIT);
    SameLength(|a|, |b|);
    assert a == x[..|a|] && b == y[..|b|];
  }

  lemma SameLength(m: nat, n: nat)
    requires m + ZeroCount(m) == n + ZeroCount(n) && 8 * m % U64_LIMIT == 8 * n % U64_LIMIT
    ensures m == n
  {
    var p, q := 8 * m / U64_LIMIT, 8 * n / U64_LIMIT;
    assert 8 * m - 8 * n == U64_LIMIT * (p - q);
    assert -64 < m - n < 64;
  }

  lemma FillsAt(len: nat, zeros: nat, n: nat)
    requires n == len + 1 + zeros
    ensures Fills(len, zeros) <==> n % 64 == 56
  {
  }

  method PadMessage(data: seq<byte>) returns (padded: seq<byte>)
    ensures padded == Padded(data)
  {
    hide U64Be, Fills, ZeroCount;
    padded := data + [0x80];
    ghost var zeros := 0;
    ZerosFill(|data|);
    FillsAt(|data|, zeros, |padded|);
    while |padded| % 64 != 56
      invariant zeros <= ZeroCount(|data|) && padded == data + [0x80] + Zeros(zeros)
      invariant Fills(|data|, zeros) <==> |padded| % 64 == 56
      decreases ZeroCount(|data|) - zeros
    {
      padded, zeros := padded + [0x00], zeros + 1;
      FillsAt(|data|, zeros, |padded|);
    }
    assert zeros == ZeroCount(|data|);
    padded := padded + U64Be(8 * |data| % U64_LIMIT);
  }

  // ---- Section 6.2.2: the hash computation -------------------------------

  datatype Vars = Vars(a: Word, b: Word, c: Word, d: Word, e: Word, f: Word, g: Word, h: Word)

  type Block = b: seq<byte> | |b| == 64 witness seq(64, _ => 0)

  /** `u32::from_be_bytes`. */
  function WordOf(b: seq<byte>): Word
    requires |b| == 4
  {
    assert Pow256(4) == 0x1_0000_0000;
    FromBigEndian(b) as Word
  }

  function Schedule(block: Block, t: nat): Word {
    if t < 16 then WordOf(block[4 * t..4 * t + 4])
    else
      Add(Add(Add(Schedule(block, t - 16), SmallSigma0(Schedule(block, t - 15))),
              Schedule(block, t - 7)), SmallSigma1(Schedule(block, t - 2)))
  }

  function Round(v: Vars, k: Word, w: Word): Vars {
    var t1 := Add(Add(Add(Add(v.h, BigSigma1(v.e)), Ch(v.e, v.f, v.g)), k), w);
    var t2 := Add(BigSigma0(v.a), Maj(v.a, v.b, v.c));
    Vars(Add(t1, t2), v.a, v.b, v.c, Add(v.d, t1), v.e, v.f, v.g)
  }

  function Rounds(v: Vars, block: Block, t: nat): Vars
    requires t <= 64
  {
    if t == 0 then v else Round(Rounds(v, block, t - 1), K(t - 1) as Word, Schedule(block, t - 1))
  }

  function Sum(x: Vars, y: Vars): Vars {
    Vars(Add(x.a, y.a), Add(x.b, y.b), Add(x.c, y.c), Add(x.d, y.d),
         Add(x.e, y.e), Add(x.f, y.f), Add(x.g, y.g), Add(x.h, y.h))
  }

  function Initial(): Vars {
    Vars(H0(0) as Word, H0(1) as Word, H0(2) as Word, H0(3) as Word,
         H0(4) as Word, H0(5) as Word, H0(6) as Word, H0(7) as Word)
  }

  function HashBlocks(m: seq<byte>): Vars
    requires |m| % 64 == 0
  {
    if m == [] then Initial()
    else
      var h := HashBlocks(m[..|m| - 64]);
      Sum(h, Rounds(h, m[|m| - 64..], 64))
  }

  /** `u32::to_be_bytes`. */
  function BytesOf(w: Word): (b: seq<byte>)
    ensures |b| == 4
  {
    BigEndian(w as nat, 4)
  }

  function DigestOf(v: Vars): Hash {
    BytesOf(v.a) + BytesOf(v.b) + BytesOf(v.c) + BytesOf(v.d)
    + BytesOf(v.e) + BytesOf(v.f) + BytesOf(v.g) + BytesOf(v.h)
  }

  function Sha256(data: seq<byte>): Hash {
    DigestOf(HashBlocks(Padded(data)))
  }

  // ---- The computation in place ------------------------------------------

  // The four mixing terms of the code, with `rotate_right`.

  function ScheduleS0(x: Word): Word {
    x.RotateRight(7) ^ x.RotateRight(18) ^ (x >> 3)
  }

  function ScheduleS1(x: Word): Word {
    x.RotateRight(17) ^ x.RotateRight(19) ^ (x >> 10)
  }

  function RoundS1(x: Word): Word {
    x.RotateRight(6) ^ x.RotateRight(11) ^ x.RotateRight(25)
  }

  function RoundS0(x: Word): Word {
    x.RotateRight(2) ^ x.RotateRight(13) ^ x.RotateRight(22)
  }

  lemma ScheduleSigmas(x: Word)
    ensures ScheduleS0(x) == SmallSigma0(x) && ScheduleS1(x) == SmallSigma1(x)
  {
  }

  lemma RoundSigmas(x: Word)
    ensures RoundS1(x) == BigSigma1(x) && RoundS0(x) == BigSigma0(x)
  {
  }

  lemma ScheduleStep(block: Block, t: nat)
    requires 16 <= t
    ensures Schedule(block, t)
         == Add(Add(Add(Schedule(block, t - 16), ScheduleS0(Schedule(block, t - 15))), Schedule(block, t - 7)),
                ScheduleS1(Schedule(block, t - 2)))
  {
    hide SmallSigma0, SmallSigma1, ScheduleS0, ScheduleS1, Add, WordOf;
    ScheduleSigmas(Schedule(block, t - 15));
    ScheduleSigmas(Schedule(block, t - 2));
  }

  lemma ScheduleStart(block: Block, t: nat)
    requires t < 16
    ensures Schedule(block, t) == WordOf([block[t * 4], block[t * 4 + 1], block[t * 4 + 2], block[t * 4 + 3]])
  {
    hide WordOf;
    assert block[4 * t..4 * t + 4] == [block[t * 4], block[t * 4 + 1], block[t * 4 + 2], block[t * 4 + 3]];
  }

  method MessageSchedule(block: Block) returns (w: array<Word>)
    ensures fresh(w) && w.Length == 64 && forall t | 0 <= t < 64 :: w[t] == Schedule(block, t)
  {
    hide *;
    w := new Word[64];
    for i := 0 to 16
      invariant forall t | 0 <= t < i :: w[t] == Schedule(block, t)
    {
      ScheduleStart(block, i);
      w[i] := WordOf([block[i * 4], block[i * 4 + 1], block[i * 4 + 2], block[i * 4 + 3]]);
    }
    for i := 16 to 64
      invariant forall t | 0 <= t < i :: w[t] == Schedule(block, t)
    {
      var s0 := ScheduleS0(w[i - 15]);
      var s1 := ScheduleS1(w[i - 2]);
      ScheduleStep(block, i);
      w[i] := Add(Add(Add(w[i - 16], s0), w[i - 7]), s1);
    }
  }

  ghost function VarsOf(h: array<Word>): Vars
    requires h.Length == 8
    reads h
  {
    Vars(h[0], h[1], h[2], h[3], h[4], h[5], h[6], h[7])
  }

  lemma RoundStep(v: Vars, k: Word, w: Word)
    ensures var t1 := Add(Add(Add(Add(v.h, RoundS1(v.e)), Ch(v.e, v.f, v.g)), k), w);
      Round(v, k, w) == Vars(Add(t1, Add(RoundS0(v.a), Maj(v.a, v.b, v.c))), v.a, v.b, v.c, Add(v.d, t1), v.e, v.f, v.g)
  {
    hide BigSigma0, BigSigma1, RoundS0, RoundS1, Add, Ch, Maj;
    RoundSigmas(v.a);
    RoundSigmas(v.e);
  }

  lemma RoundsStep(v: Vars, block: Block, t: nat)
    requires t < 64
    ensures Rounds(v, block, 0) == v
    ensures Rounds(v, block, t + 1) == Round(Rounds(v, block, t), K(t) as Word, Schedule(block, t))
  {
    hide Round, K, Schedule;
  }

  method CompressBlock(h: array<Word>, block: Block)
    requires h.Length == 8
    modifies h
    ensures VarsOf(h) == Sum(old(VarsOf(h)), Rounds(old(VarsOf(h)), block, 64))
  {
    hide Schedule, K, Round, Rounds, Add, Ch, Maj, RoundS0, RoundS1;
    RoundsStep(VarsOf(h), block, 0);
    var w := MessageSchedule(block);
    ghost var before := VarsOf(h);
    var a, b, c, d, e, f, g, hh := h[0], h[1], h[2], h[3], h[4], h[5], h[6], h[7];
    for i := 0 to 64
      invariant Vars(a, b, c, d, e, f, g, hh) == Rounds(before, block, i)
      invariant forall t | 0 <= t < 64 :: w[t] == Schedule(block, t)
      invariant VarsOf(h) == before
    {
      RoundsStep(before, block, i);
      RoundStep(Vars(a, b, c, d, e, f, g, hh), K(i) as Word, w[i]);
      var s1 := RoundS1(e);
      var ch := Ch(e, f, g);
      var t1 := Add(Add(Add(Add(hh, s1), ch), K(i) as Word), w[i]);
      var s0 := RoundS0(a);
      var maj := Maj(a, b, c);
      var t2 := Add(s0, maj);
      hh := g;
      g := f;
      f := e;
      e := Add(d, t1);
      d := c;
      c := b;
      b := a;
      a := Add(t1, t2);
    }
    h[0] := Add(h[0], a);
    h[1] := Add(h[1], b);
    h[2] := Add(h[2], c);
    h[3] := Add(h[3], d);
    h[4] := Add(h[4], e);
    h[5] := Add(h[5], f);
    h[6] := Add(h[6], g);
    h[7] := Add(h[7], hh);
  }

  method HashInPlace(h: array<Word>, padded: seq<byte>)
    requires h.Length == 8 && VarsOf(h) == Initial() && |padded| % 64 == 0
    modifies h
    ensures VarsOf(h) == HashBlocks(padded)
  {
    hide Sum, Rounds, Initial;
    for n := 0 to |padded| / 64
      invariant VarsOf(h) == HashBlocks(padded[..64 * n])
    {
      var block := padded[64 * n..64 * n + 64];
      assert padded[..64 * (n + 1)][..64 * n] == padded[..64 * n];
      assert padded[..64 * (n + 1)][64 * n..] == block;
      CompressBlock(h, block);
    }
    assert padded[..64 * (|padded| / 64)] == padded;
  }

  method Digest(h: array<Word>) returns (bytes: seq<byte>)
    requires h.Length == 8
    ensures bytes == DigestOf(VarsOf(h))
  {
    hide BytesOf;
    bytes := [];
    for i := 0 to 8
      invariant |bytes| == 4 * i
      invariant forall j | 0 <= j < i :: bytes[4 * j..4 * j + 4] == BytesOf(h[j])
    {
      ghost var before := bytes;
      bytes := bytes + BytesOf(h[i]);
      forall j | 0 <= j < i
        ensures bytes[4 * j..4 * j + 4] == BytesOf(h[j])
      {
        assert bytes[4 * j..4 * j + 4] == before[4 * j..4 * j + 4];
      }
    }
    DigestParts(bytes, VarsOf(h));
  }

  /** The digest the code computes in place is the one FIPS 180-4 defines. */
  method ComputeSha256(data: seq<byte>) returns (out: Hash)
    ensures out == Sha256(data)
  {
    hide Padded, HashBlocks, DigestOf, H0;
    var h := new Word[] [H0(0) as Word, H0(1) as Word, H0(2) as Word, H0(3) as Word,
                         H0(4) as Word, H0(5) as Word, H0(6) as Word, H0(7) as Word];
    var padded := PadMessage(data);
    HashInPlace(h, padded);
    out := Digest(h);
  }

  lemma DigestParts(bytes: seq<byte>, v: Vars)
    requires |bytes| == 32
    requires bytes[0..4] == BytesOf(v.a) && bytes[4..8] == BytesOf(v.b)
      && bytes[8..12] == BytesOf(v.c) && bytes[12..16] == BytesOf(v.d)
    requires bytes[16..20] == BytesOf(v.e) && bytes[20..24] == BytesOf(v.f)
      && bytes[24..28] == BytesOf(v.g) && bytes[28..32] == BytesOf(v.h)
    ensures bytes == DigestOf(v)
  {
    hide BytesOf;
    assert bytes[0..16] == bytes[0..4] + bytes[4..8] + bytes[8..12] + bytes[12..16];
    assert bytes == bytes[0..16] + bytes[16..20] + bytes[20..24] + bytes[24..28] + bytes[28..32];
  }
}
